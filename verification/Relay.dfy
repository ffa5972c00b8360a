/** The full-duplex relay as a machine: two directions, each of which reads some bytes and then writes them all,
    half-close at the end of a stream, and closing both sockets after a hard error. */
module Relay {
  import opened Bytes

  const BUF_SIZE: nat := 4096

  /** What a direction is doing: reading into its buffer, writing its buffer, of which `done` bytes are written, done
      after the end of its stream, or broken off, with bytes read and not written. */
  datatype Op = Reading | Writing(buf: seq<byte>, done: nat) | Ended | Broken(lost: seq<byte>)

  /** `doomed` says that the operation was begun on closed sockets and can only fail; `late` counts such operations. */
  datatype Dir = Dir(op: Op, consumed: seq<byte>, delivered: seq<byte>, doomed: bool, late: nat)

  /** The two directions, whether both sockets are closed, and which of them has been shut down for sending by the end
      of the stream in each direction. */
  datatype State = State(up: Dir, down: Dir, closed: bool, upShut: bool, downShut: bool)

  datatype Way = Up | Down

  datatype Event =
    | ReadOk(way: Way, chunk: seq<byte>)
    | ReadEof(way: Way)
    | ReadFails(way: Way)
    | WriteSome(way: Way, n: nat)
    | WriteFails(way: Way)

  const START_DIR := Dir(Reading, [], [], false, 0)

  const START := State(START_DIR, START_DIR, false, false, false)

  function Get(s: State, w: Way): Dir {
    match w
    case Up => s.up
    case Down => s.down
  }

  function Put(s: State, w: Way, d: Dir): State {
    match w
    case Up => s.(up := d)
    case Down => s.(down := d)
  }

  predicate Enabled(s: State, ev: Event) {
    var d := Get(s, ev.way);
    match ev
    case ReadOk(_, chunk) => d.op.Reading? && !d.doomed && 0 < |chunk| <= BUF_SIZE
    case ReadEof(_) => d.op.Reading? && !d.doomed
    case ReadFails(_) => d.op.Reading?
    case WriteSome(_, n) => d.op.Writing? && !d.doomed && 0 < n && d.op.done + n <= |d.op.buf|
    case WriteFails(_) => d.op.Writing?
  }

  /** A direction begins an operation. */
  function Begin(d: Dir, op: Op, closed: bool): Dir {
    d.(op := op, doomed := closed, late := if closed then d.late + 1 else d.late)
  }

  /** Bytes read and not yet written. */
  function InFlight(op: Op): seq<byte> {
    match op
    case Writing(buf, done) => if done <= |buf| then buf[done..] else []
    case Broken(lost) => lost
    case _ => []
  }

  function Step(s: State, ev: Event): State
    requires Enabled(s, ev)
  {
    var d := Get(s, ev.way);
    match ev
    case ReadOk(w, chunk) => Put(s, w, Begin(d.(consumed := d.consumed + chunk), Writing(chunk, 0), s.closed))
    case ReadEof(w) =>
      var t := Put(s, w, d.(op := Ended));
      if w == Up then t.(upShut := true) else t.(downShut := true)
    case ReadFails(w) => Put(s, w, d.(op := Broken([]))).(closed := true)
    case WriteSome(w, n) =>
      var end := d.op.done + n;
      var e := d.(delivered := d.delivered + d.op.buf[d.op.done..end]);
      Put(s, w, if end == |d.op.buf| then Begin(e, Reading, s.closed) else e.(op := Writing(d.op.buf, end)))
    case WriteFails(w) => Put(s, w, d.(op := Broken(InFlight(d.op)))).(closed := true)
  }

  function Run(evs: seq<Event>): Option<State> {
    if evs == [] then Some(START)
    else
      var r := Run(evs[..|evs| - 1]);
      var ev := evs[|evs| - 1];
      if r.None? || !Enabled(r.value, ev) then None else Some(Step(r.value, ev))
  }

  // ----- the invariant -----

  predicate DirInv(d: Dir, closed: bool) {
    && d.consumed == d.delivered + InFlight(d.op)
    && (d.op.Writing? ==> d.op.done < |d.op.buf| <= BUF_SIZE)
    && (d.op.Broken? ==> closed && |d.op.lost| <= BUF_SIZE)
    && d.late <= 1 && (d.late == 1 <==> d.doomed) && (d.doomed ==> closed)
  }

  /** A socket is shut down for sending exactly when all that was read for it has been written. */
  predicate Inv(s: State) {
    && DirInv(s.up, s.closed) && DirInv(s.down, s.closed)
    && (s.upShut <==> s.up.op.Ended?) && (s.downShut <==> s.down.op.Ended?)
  }

  lemma WriteKeepsDir(d: Dir, n: nat, closed: bool)
    requires DirInv(d, closed) && d.op.Writing? && !d.doomed && 0 < n && d.op.done + n <= |d.op.buf|
    ensures var end := d.op.done + n;
            var e := d.(delivered := d.delivered + d.op.buf[d.op.done..end]);
            DirInv(if end == |d.op.buf| then Begin(e, Reading, closed) else e.(op := Writing(d.op.buf, end)), closed)
  {
    var end := d.op.done + n;
    Moved(d.delivered, d.op.buf, d.op.done, end);
    if end == |d.op.buf| {
      assert d.op.buf[end..] == [];
    }
  }

  /** Bytes that leave the buffer are gained by what was delivered. */
  lemma Moved(delivered: seq<byte>, buf: seq<byte>, done: nat, end: nat)
    requires done <= end <= |buf|
    ensures delivered + buf[done..] == delivered + buf[done..end] + buf[end..]
    ensures end == |buf| ==> delivered + buf[done..] == delivered + buf[done..end] + []
  {
    assert buf[done..] == buf[done..end] + buf[end..];
    Assoc(delivered, buf[done..end], buf[end..]);
    assert end == |buf| ==> buf[end..] == [];
  }

  lemma ReadKeepsDir(d: Dir, chunk: seq<byte>, closed: bool)
    requires DirInv(d, closed) && d.op.Reading? && !d.doomed && 0 < |chunk| <= BUF_SIZE
    ensures DirInv(Begin(d.(consumed := d.consumed + chunk), Writing(chunk, 0), closed), closed)
  {
    assert d.delivered + [] == d.delivered;
    assert chunk[0..] == chunk;
  }

  lemma StopKeepsDir(d: Dir, closed: bool)
    requires DirInv(d, closed)
    ensures d.op.Reading? ==> DirInv(d.(op := Ended), closed) && DirInv(d.(op := Broken([])), true)
    ensures d.op.Writing? ==> DirInv(d.(op := Broken(InFlight(d.op))), true)
    ensures DirInv(d, true)
  {
  }

  lemma StepKeepsInv(s: State, ev: Event)
    requires Inv(s) && Enabled(s, ev)
    ensures Inv(Step(s, ev))
  {
    hide DirInv, Begin, InFlight;
    var d := Get(s, ev.way);
    StopKeepsDir(s.up, s.closed);
    StopKeepsDir(s.down, s.closed);
    match ev
    case ReadOk(_, chunk) =>
      ReadKeepsDir(d, chunk, s.closed);
      BeginOp(d.(consumed := d.consumed + chunk), Writing(chunk, 0), s.closed);
    case ReadEof(_) =>
    case ReadFails(_) =>
    case WriteSome(_, n) =>
      WriteKeepsDir(d, n, s.closed);
      BeginOp(d.(delivered := d.delivered + d.op.buf[d.op.done..d.op.done + n]), Reading, s.closed);
    case WriteFails(_) =>
  }

  lemma BeginOp(d: Dir, op: Op, closed: bool)
    ensures Begin(d, op, closed).op == op
  {
  }

  lemma {:induction false} RunKeepsInv(evs: seq<Event>)
    requires Run(evs).Some?
    ensures Inv(Run(evs).value)
  {
    if evs != [] {
      RunKeepsInv(evs[..|evs| - 1]);
      StepKeepsInv(Run(evs[..|evs| - 1]).value, evs[|evs| - 1]);
    }
  }

  // ----- the results -----

  /** In every interleaving each direction delivers, in order, a prefix of what it has consumed, and lacks at most one
      buffer; and a socket has been shut down for sending only when nothing is lacking. */
  lemma RelayDelivers(evs: seq<Event>, w: Way)
    requires Run(evs).Some?
    ensures var s := Run(evs).value;
            var d := Get(s, w);
            && d.delivered <= d.consumed && |d.consumed| <= |d.delivered| + BUF_SIZE
            && ((if w == Up then s.upShut else s.downShut) ==> d.delivered == d.consumed)
            && (d.consumed != d.delivered ==> d.op.Writing? || s.closed)
  {
    RunKeepsInv(evs);
    var d := Get(Run(evs).value, w);
    assert d.consumed == d.delivered + InFlight(d.op);
  }

  /** Nothing outstanding in either direction. */
  predicate Quiet(s: State) {
    && (s.up.op.Ended? || s.up.op.Broken?)
    && (s.down.op.Ended? || s.down.op.Broken?)
  }

  /** What a direction can still do once the sockets are closed. */
  function DirToGo(d: Dir): nat {
    match d.op
    case Reading => if d.doomed then 1 else 2
    case Writing(buf, done) => if d.doomed || done > |buf| then 1 else |buf| - done + 1
    case _ => 0
  }

  lemma ClosedStepGoesOn(s: State, ev: Event)
    requires Inv(s) && s.closed && Enabled(s, ev)
    ensures var t := Step(s, ev);
            t.closed && DirToGo(t.up) + DirToGo(t.down) < DirToGo(s.up) + DirToGo(s.down)
  {
  }

  /** Running on from `s`; none if some event is not enabled. */
  function RunFrom(s: State, evs: seq<Event>): Option<State>
    decreases |evs|
  {
    if evs == [] then Some(s)
    else if !Enabled(s, evs[0]) then None
    else RunFrom(Step(s, evs[0]), evs[1..])
  }

  /** Once the sockets are closed, each direction begins at most one more operation, only finitely much happens, and
      when nothing more can happen nothing is outstanding. */
  lemma {:induction false} ClosedRelayQuiets(s: State, evs: seq<Event>)
    requires Inv(s) && s.closed && RunFrom(s, evs).Some?
    ensures var t := RunFrom(s, evs).value;
            && |evs| <= DirToGo(s.up) + DirToGo(s.down) <= 2 * (BUF_SIZE + 1)
            && t.up.late <= 1 && t.down.late <= 1
            && (Quiet(t) <==> forall ev :: !Enabled(t, ev))
    decreases |evs|
  {
    if evs == [] {
      QuietIsStuck(s);
    } else {
      StepKeepsInv(s, evs[0]);
      ClosedStepGoesOn(s, evs[0]);
      ClosedRelayQuiets(Step(s, evs[0]), evs[1..]);
    }
  }

  lemma QuietIsStuck(s: State)
    ensures Quiet(s) <==> forall ev :: !Enabled(s, ev)
  {
    if !Quiet(s) {
      var w := if s.up.op.Ended? || s.up.op.Broken? then Down else Up;
      var ev := if Get(s, w).op.Reading? then ReadFails(w) else WriteFails(w);
      assert Enabled(s, ev);
    }
  }
}
