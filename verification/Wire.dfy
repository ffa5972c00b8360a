/** The operations a protocol party has outstanding, and a party's end of a byte stream. */
module Wire {
  import opened Bytes

  /** Read exactly `n` bytes, write all of `bytes`, or nothing outstanding. */
  datatype Op = Read(n: nat) | Write(bytes: seq<byte>) | Rest

  function Total(op: Op): nat {
    match op
    case Read(n) => n
    case Write(bytes) => |bytes|
    case Rest => 0
  }

  /** `acc` has been transferred for `op` so far; `chunk` may be transferred next. */
  predicate Fits(op: Op, acc: seq<byte>, chunk: seq<byte>) {
    && chunk != [] && |acc| + |chunk| <= Total(op)
    && (op.Write? ==> acc + chunk <= op.bytes)
  }

  /** A party in state `st`, the bytes its outstanding operation has transferred, and everything it has
      taken from and put on the stream. */
  datatype Endpoint<S> = Endpoint(st: S, acc: seq<byte>, recv: seq<byte>, sent: seq<byte>)

  /** The stream logs after a transfer. */
  function Log<S>(e: Endpoint<S>, op: Op, chunk: seq<byte>): Endpoint<S> {
    if op.Read? then e.(recv := e.recv + chunk, acc := e.acc + chunk)
    else e.(sent := e.sent + chunk, acc := e.acc + chunk)
  }

  /** What the finished operations have taken from the stream: all but the part of an unfinished read. */
  function Taken<S>(e: Endpoint<S>, op: Op): seq<byte>
    requires op.Read? ==> |e.acc| <= |e.recv|
  {
    if op.Read? then e.recv[..|e.recv| - |e.acc|] else e.recv
  }

  /** What the finished operations have put on the stream. */
  function Put<S>(e: Endpoint<S>, op: Op): seq<byte>
    requires op.Write? ==> |e.acc| <= |e.sent|
  {
    if op.Write? then e.sent[..|e.sent| - |e.acc|] else e.sent
  }

  /** The accumulated part of the outstanding operation is the end of the stream log, and is not complete. */
  predicate Sound<S>(e: Endpoint<S>, op: Op) {
    && (op.Rest? ==> e.acc == [])
    && (!op.Rest? ==> |e.acc| < Total(op))
    && (op.Read? ==> |e.acc| <= |e.recv| && e.recv[|e.recv| - |e.acc|..] == e.acc)
    && (op.Write? ==> |e.acc| <= |e.sent| && e.sent[|e.sent| - |e.acc|..] == e.acc && e.acc <= op.bytes)
  }

  /** The stream log is what the finished operations have moved, and then the accumulated part. */
  lemma LogEndsWithAcc<S>(e: Endpoint<S>, op: Op)
    requires Sound(e, op)
    ensures op.Read? ==> e.recv == Taken(e, op) + e.acc
    ensures op.Write? ==> e.sent == Put(e, op) + e.acc
  {
    if op.Read? {
      assert e.recv == e.recv[..|e.recv| - |e.acc|] + e.recv[|e.recv| - |e.acc|..];
    } else if op.Write? {
      assert e.sent == e.sent[..|e.sent| - |e.acc|] + e.sent[|e.sent| - |e.acc|..];
    }
  }

  /** What can be transferred next: any byte that is read, or all that is left to be written. */
  lemma FittingChunk<S>(e: Endpoint<S>, op: Op, b: byte) returns (chunk: seq<byte>)
    requires Sound(e, op) && !op.Rest?
    ensures Fits(op, e.acc, chunk) && (op.Read? ==> chunk == [b]) && (op.Write? ==> e.acc + chunk == op.bytes)
  {
    if op.Read? {
      chunk := [b];
    } else {
      chunk := op.bytes[|e.acc|..];
      assert op.bytes == op.bytes[..|e.acc|] + chunk;
    }
  }

  lemma LogKeepsTaken<S>(e: Endpoint<S>, op: Op, chunk: seq<byte>)
    requires Sound(e, op) && Fits(op, e.acc, chunk)
    ensures var f := Log(e, op, chunk);
            && |f.acc| <= Total(op)
            && (op.Read? ==> |f.acc| <= |f.recv| && f.recv[|f.recv| - |f.acc|..] == f.acc && f.sent == e.sent)
            && (op.Write? ==> |f.acc| <= |f.sent| && f.sent[|f.sent| - |f.acc|..] == f.acc && f.acc <= op.bytes)
            && (op.Write? ==> f.recv == e.recv)
            && Taken(f, op) == Taken(e, op) && Put(f, op) == Put(e, op)
            && (op.Read? ==> f.recv == Taken(e, op) + f.acc) && (op.Write? ==> f.sent == Put(e, op) + f.acc)
  {
    var f := Log(e, op, chunk);
    if op.Read? {
      var k := |e.recv| - |e.acc|;
      assert f.recv[k..] == e.recv[k..] + chunk;
      assert f.recv[..k] == e.recv[..k];
      assert f.recv == f.recv[..k] + f.recv[k..];
    } else if op.Write? {
      var k := |e.sent| - |e.acc|;
      assert f.sent[k..] == e.sent[k..] + chunk;
      assert f.sent[..k] == e.sent[..k];
      assert f.sent == f.sent[..k] + f.sent[k..];
    }
  }
}
