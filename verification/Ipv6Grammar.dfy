/** What the IPv6 text accepted by the scanner means, said without the scanner: as fields between colons. */
module Ipv6Grammar {
  import opened Bytes
  import opened Numerals
  import opened Splitting

  datatype Outcome = Accepted(words: seq<uint16>) | Rejected | Spins

  /** A field is any run of hexadecimal digits, even an empty one, whose value fits 16 bits. */
  predicate FieldOk(f: string) {
    AllHex(f) && Value(0, f, 16) <= 0xFFFF
  }

  predicate FieldsOk(fields: seq<string>) {
    fields == [] || (FieldOk(fields[0]) && FieldsOk(fields[1..]))
  }

  /** The values of the fields. */
  function Words(fields: seq<string>): (ws: seq<uint16>)
    requires FieldsOk(fields)
    ensures |ws| == |fields|
  {
    if fields == [] then [] else [Value(0, fields[0], 16)] + Words(fields[1..])
  }

  function Zeros(n: nat): (ws: seq<uint16>)
    ensures |ws| == n && forall i :: 0 <= i < n ==> ws[i] == 0
  {
    seq(n, _ => 0)
  }

  function Assemble(front: seq<uint16>, back: seq<uint16>): (ws: seq<uint16>)
    requires |front| + |back| <= 8
    ensures |ws| == 8
  {
    front + Zeros(8 - |front| - |back|) + back
  }

  /** The gap "::" is the first empty field that has fields on both sides, from index `k` on. */
  function FirstGap(fields: seq<string>, k: nat): (r: Option<nat>)
    ensures r.Some? ==> k <= r.value < |fields| - 1 && fields[r.value] == []
    ensures r.Some? ==> forall j :: k <= j < r.value ==> fields[j] != []
    ensures r.None? ==> forall j :: k <= j < |fields| - 1 ==> fields[j] != []
    decreases |fields| - k
  {
    if |fields| <= k + 1 then None
    else if fields[k] == [] then Some(k)
    else FirstGap(fields, k + 1)
  }

  /** The eight words that the fields denote: those before the gap, zeros, those after it.
      Without a gap the zeros follow the fields, however few there are. */
  function Denote(fields: seq<string>): Option<seq<uint16>> {
    if !FieldsOk(fields) then None
    else
      var ws := Words(fields);
      match FirstGap(fields, 1)
      case None => if |ws| <= 8 then Some(Assemble(ws, [])) else None
      case Some(i) => if |ws| - 1 <= 8 then Some(Assemble(ws[..i], ws[i + 1..])) else None
  }

  /** A scope suffix the scanner never gets past: decimal digits, or none, worth at most 0xFFFF. */
  predicate EndlessScope(suffix: string) {
    AllDigits(suffix) && Value(0, suffix, 10) <= 0xFFFF
  }

  /** The outcome for a whole C string. */
  function Meaning(src: string): Outcome {
    var t := CStr(src);
    var r := Find(t, "%", 0);
    var address := if r.Some? then t[..r.value] else t;
    match Denote(Split(address, ":"))
    case None => Rejected
    case Some(ws) =>
      if r.None? then Accepted(ws)
      else if EndlessScope(t[r.value + 1..]) then Spins
      else Rejected
  }

  /** Words as an address holds them: two bytes each, high byte first. */
  function WordBytes(ws: seq<uint16>): (bs: seq<byte>)
    ensures |bs| == 2 * |ws|
  {
    if ws == [] then [] else WordBytes(ws[..|ws| - 1]) + Net16(ws[|ws| - 1])
  }

  lemma {:induction false} WordBytesAt(ws: seq<uint16>, i: nat)
    requires i < |ws|
    ensures WordBytes(ws)[2 * i] == ws[i] / 0x100 && WordBytes(ws)[2 * i + 1] == ws[i] % 0x100
    decreases |ws|
  {
    if i < |ws| - 1 {
      WordBytesAt(ws[..|ws| - 1], i);
    }
  }

  lemma {:induction false} WordBytesAppend(a: seq<uint16>, b: seq<uint16>)
    ensures WordBytes(a + b) == WordBytes(a) + WordBytes(b)
    decreases |b|
  {
    if b == [] {
      assert a + b == a;
    } else {
      assert (a + b)[..|a + b| - 1] == a + b[..|b| - 1];
      WordBytesAppend(a, b[..|b| - 1]);
    }
  }

  lemma {:induction false} WordBytesZeros(n: nat)
    ensures forall i :: 0 <= i < 2 * n ==> WordBytes(Zeros(n))[i] == 0
  {
    if n > 0 {
      assert Zeros(n)[..n - 1] == Zeros(n - 1);
      WordBytesZeros(n - 1);
    }
  }

  /** The words of an address given as 16 bytes. */
  function BytesWords(bs: seq<byte>): (ws: seq<uint16>)
    requires |bs| % 2 == 0
    ensures |ws| == |bs| / 2
    ensures WordBytes(ws) == bs
  {
    if bs == [] then []
    else
      var n := |bs| - 2;
      assert bs == bs[..n] + [bs[n], bs[n + 1]];
      var ws := BytesWords(bs[..n]) + [FromNet16(bs[n], bs[n + 1])];
      assert ws[..|ws| - 1] == BytesWords(bs[..n]);
      ws
  }
}
