/** `read_until`: read a byte at a time until the buffer ends with a delimiter or is full. */
module ReadUntil {
  import opened Bytes
  import opened Proxy

  /** Where reading stops. */
  predicate Stops(buf: seq<byte>, delim: seq<byte>, max: nat) {
    |buf| == max || (|buf| >= |delim| && buf[|buf| - |delim|..] == delim)
  }

  /** Length of the shortest prefix of `s`, of at least `k` bytes, at which reading stops. */
  function Until(s: seq<byte>, delim: seq<byte>, max: nat, k: nat): (r: Option<nat>)
    requires k <= |s|
    ensures r.Some? ==> k <= r.value <= |s| && Stops(s[..r.value], delim, max)
    ensures forall j :: k <= j < (if r.Some? then r.value else |s| + 1) ==> !Stops(s[..j], delim, max)
    decreases |s| - k
  {
    if Stops(s[..k], delim, max) then Some(k)
    else if k == |s| then None
    else Until(s, delim, max, k + 1)
  }

  /** Reading has not stopped at any prefix. */
  predicate Open(s: seq<byte>, delim: seq<byte>, max: nat) {
    Until(s, delim, max, 0).None?
  }

  /** The shortest stopping prefix is fixed by the prefixes alone. */
  lemma UntilIs(s: seq<byte>, delim: seq<byte>, max: nat, n: nat)
    requires n <= |s| && Stops(s[..n], delim, max)
    requires forall j :: 0 <= j < n ==> !Stops(s[..j], delim, max)
    ensures Until(s, delim, max, 0) == Some(n)
  {
  }

  /** The byte after an open text closes it exactly if reading stops there. */
  lemma Snoc(s: seq<byte>, b: byte, delim: seq<byte>, max: nat)
    requires Open(s, delim, max)
    ensures Until(s + [b], delim, max, 0) == if Stops(s + [b], delim, max) then Some(|s| + 1) else None
  {
    hide Stops;
    var t := s + [b];
    forall j | 0 <= j <= |s| ensures !Stops(t[..j], delim, max) {
      assert t[..j] == s[..j];
    }
    assert t[..|t|] == t;
    if Stops(t, delim, max) {
      UntilIs(t, delim, max, |t|);
    }
  }

  /** Bytes behind the stopping place do not matter. */
  lemma Extend(s: seq<byte>, t: seq<byte>, delim: seq<byte>, max: nat)
    requires Until(s, delim, max, 0).Some?
    ensures Until(s + t, delim, max, 0) == Until(s, delim, max, 0)
  {
    hide Stops;
    var n := Until(s, delim, max, 0).value;
    forall j | 0 <= j <= n ensures (s + t)[..j] == s[..j] {
    }
    UntilIs(s + t, delim, max, n);
  }

  class ReadUntilOp {
    const buf: StringCell
    const delim: seq<byte>
    const max: nat
    var reading: bool  // a read of one byte, to the last place of the buffer, is outstanding
    var calls: seq<Option<Error>>  // calls of the handler
    ghost var taken: seq<byte>  // all bytes read from the socket

    /** While reading, the buffer is what has been read and one place more. When the handler has been called,
        which happens once, the buffer is all that has been read, and that is the shortest stopping prefix. */
    ghost predicate Valid()
      reads this, buf
    {
      if reading then
        && calls == [] && Open(taken, delim, max)
        && |buf.bytes| == |taken| + 1 && buf.bytes[..|taken|] == taken
      else
        && |calls| == 1
        && (calls[0].None? ==> buf.bytes == taken && Until(taken, delim, max, 0) == Some(|taken|))
        && (calls[0].Some? ==> Open(taken, delim, max))
    }

    constructor (buf: StringCell, delim: seq<byte>, max: nat)
      ensures this.buf == buf && this.delim == delim && this.max == max
      ensures !reading && calls == [] && taken == []
    {
      this.buf, this.delim, this.max := buf, delim, max;
      reading, calls, taken := false, [], [];
    }

    method Start()
      requires !reading && calls == [] && taken == []
      modifies this, buf
      ensures Valid() && taken == [] && (reading <==> !Stops([], delim, max))
    {
      buf.bytes := [];
      ReadNext();
    }

    method ReadNext()
      requires !reading && calls == [] && buf.bytes == taken
      requires forall j :: 0 <= j < |taken| ==> !Stops(taken[..j], delim, max)
      modifies this, buf
      ensures Valid() && taken == old(taken)
      ensures reading <==> !Stops(taken, delim, max)
      ensures !reading ==> calls == [None]
    {
      assert taken[..|taken|] == taken;
      if |buf.bytes| == max {
        UntilIs(taken, delim, max, |taken|);
        calls := calls + [None];
        return;
      }
      if |buf.bytes| >= |delim| && buf.bytes[|buf.bytes| - |delim|..] == delim {
        UntilIs(taken, delim, max, |taken|);
        calls := calls + [None];
        return;
      }
      buf.bytes := buf.bytes + [0];
      reading := true;
    }

    /** The outstanding read ends: with a byte, which is then in the buffer, or with an error. */
    method HandleRead(err: Option<Error>, b: byte)
      requires Valid() && reading
      modifies this, buf
      ensures Valid()
      ensures taken == if err.None? then old(taken) + [b] else old(taken)
      ensures err.Some? ==> calls == [err]
      ensures err.None? ==> (reading <==> !Stops(taken, delim, max)) && (!reading ==> calls == [None])
    {
      reading := false;
      if err.Some? {
        calls := calls + [err];
        return;
      }
      var was := taken;
      buf.bytes := buf.bytes[..|buf.bytes| - 1] + [b];
      taken := taken + [b];
      forall j | 0 <= j < |taken| ensures !Stops(taken[..j], delim, max) {
        assert taken[..j] == was[..j];
      }
      ReadNext();
    }
  }
}
