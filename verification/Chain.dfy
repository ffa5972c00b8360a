/** Connecting through a chain of proxies, as a machine: which hop is asked for what, who is at the far end of the
    socket, and what the connect handler is called with. */
module Chain {
  import opened Bytes
  import opened IpAddresses
  import opened Proxy

  /** The proxies of the chain, perhaps none, and the final destination. */
  datatype Setup = Setup(chain: seq<Destination>, final: Destination)

  /** `connect_result`; no index is `kNoIndex`. */
  datatype ConnectResult = ConnectResult(success: bool, err: Option<Error>, failIndex: Option<nat>, resp: Major)

  /** The outstanding operation, and the index bound into its handler. */
  datatype Pending =
    | Idle
    | Resolving(name: seq<byte>, port: uint16, index: Option<nat>)
    | Connecting(ip: Address, port: uint16, index: Option<nat>)
    | Asking(next: Destination, index: Option<nat>)
    | Awaiting(index: Option<nat>)

  /** `peer` is where the TCP connection goes, `far` who is at the far end of it: the TCP peer first, then whoever
      an accepted request has led to. `asked` are the requests written so far, `calls` those of the connect handler. */
  datatype State = State(pending: Pending, cur: nat, resolved: Option<Address>, peer: Option<(Address, uint16)>,
                         far: Option<Destination>, asked: seq<Destination>, calls: seq<ConnectResult>)

  /** How the outstanding operation ended. */
  datatype Event =
    | Resolved(address: Result<Address>)
    | Connected(error: Option<Error>)
    | Written(error: Option<Error>)
    | Responded(response: Result<Major>)

  /** The hop with index `i`; behind the last one is the final destination. */
  function Target(x: Setup, i: nat): Destination
    requires i <= |x.chain|
  {
    if i < |x.chain| then x.chain[i] else x.final
  }

  /** What the hops are to be asked for, in order. */
  function Route(x: Setup): seq<Destination> {
    if x.chain == [] then [] else x.chain[1..] + [x.final]
  }

  function FirstIndex(x: Setup): Option<nat> {
    if x.chain == [] then None else Some(0)
  }

  function Start(x: Setup): State {
    var first := Target(x, 0);
    State(if first.UsingHostname() then Resolving(first.hostname, first.port, FirstIndex(x))
          else Connecting(first.ip, first.port, FirstIndex(x)),
          0, None, None, None, [], [])
  }

  function Finish(st: State, r: ConnectResult): State {
    st.(pending := Idle, calls := st.calls + [r])
  }

  function Fail(st: State, e: Error, index: Option<nat>): State {
    Finish(st, ConnectResult(false, Some(e), index, UnknownError))
  }

  /** At the far end is hop `st.cur`, or the final destination. */
  function GoOn(x: Setup, st: State, index: Option<nat>): State {
    if st.cur >= |x.chain| then Finish(st, ConnectResult(true, None, None, UnknownError))
    else st.(pending := Asking(Target(x, st.cur + 1), index))
  }

  predicate Fitting(st: State, ev: Event) {
    match ev
    case Resolved(_) => st.pending.Resolving?
    case Connected(_) => st.pending.Connecting?
    case Written(_) => st.pending.Asking?
    case Responded(_) => st.pending.Awaiting?
  }

  function Step(x: Setup, st: State, ev: Event): State
    requires Fitting(st, ev)
  {
    var index := st.pending.index;
    match ev
    case Resolved(Err(e)) => Fail(st, e, index)
    case Resolved(Ok(a)) => st.(pending := Connecting(a, st.pending.port, index), resolved := Some(a))
    case Connected(Some(e)) => Fail(st, e, index)
    case Connected(None) =>
      GoOn(x, st.(peer := Some((st.pending.ip, st.pending.port)), far := Some(Target(x, 0))), index)
    case Written(Some(e)) => Fail(st, e, index)
    case Written(None) => st.(pending := Awaiting(index), asked := st.asked + [st.pending.next])
    case Responded(Err(e)) => Fail(st, e, index)
    case Responded(Ok(m)) =>
      if m != Succeeded then Finish(st, ConnectResult(false, None, index, m))
      else
        var far := if st.asked == [] then st.far else Some(st.asked[|st.asked| - 1]);
        GoOn(x, st.(cur := st.cur + 1, far := far), if index.Some? then Some(index.value + 1) else None)
  }

  function Run(x: Setup, evs: seq<Event>): Option<State> {
    if evs == [] then Some(Start(x))
    else
      var r := Run(x, evs[..|evs| - 1]);
      var ev := evs[|evs| - 1];
      if r.None? || !Fitting(r.value, ev) then None else Some(Step(x, r.value, ev))
  }

  // ----- the route -----

  /** The index bound into handlers: the hop at the far end, or none if there is no chain. */
  function Index(x: Setup, cur: nat): Option<nat> {
    if x.chain == [] then None else Some(cur)
  }

  /** Where the TCP connection goes: to the first hop, or to the final destination if there is none; to the resolved
      address if it is given by name. */
  predicate Leads(x: Setup, resolved: Option<Address>, ip: Address, port: uint16) {
    var first := Target(x, 0);
    && port == first.port
    && if first.UsingHostname() then resolved == Some(ip) else first.ip == ip
  }

  predicate Arrived(x: Setup, st: State) {
    && st.cur <= |x.chain| && st.peer.Some? && Leads(x, st.resolved, st.peer.value.0, st.peer.value.1)
    && st.far == Some(Target(x, st.cur))
  }

  /** The result tells what has happened: success after all hops were asked in order, with the final destination at
      the far end; failure with the index of the hop that is at the far end, or is to be. */
  predicate Honest(x: Setup, st: State, r: ConnectResult) {
    if r.success then
      && st.cur == |x.chain| && st.asked == Route(x) && Arrived(x, st) && r.err.None? && r.failIndex.None?
    else
      && r.failIndex == Index(x, st.cur) && (x.chain != [] ==> st.cur < |x.chain|)
      && (r.err.None? ==> r.resp != Succeeded && |st.asked| == st.cur + 1)
  }

  /** As soon as there is a TCP peer, the far end is known, for good. */
  predicate Inv(x: Setup, st: State) {
    && st.cur <= |x.chain| && (st.peer.Some? ==> Arrived(x, st))
    && |st.asked| <= |Route(x)| && st.asked == Route(x)[..|st.asked|]
    && match st.pending
       case Idle => |st.calls| == 1 && Honest(x, st, st.calls[0])
       case Resolving(name, port, i) =>
         && st.calls == [] && st.cur == 0 && st.asked == [] && i == Index(x, 0)
         && st.peer.None? && Target(x, 0).UsingHostname() && name == Target(x, 0).hostname && port == Target(x, 0).port
       case Connecting(ip, port, i) =>
         && st.calls == [] && st.cur == 0 && st.asked == [] && i == Index(x, 0)
         && st.peer.None? && Leads(x, st.resolved, ip, port)
       case Asking(next, i) =>
         && st.calls == [] && st.cur < |x.chain| && |st.asked| == st.cur && i == Some(st.cur)
         && next == Target(x, st.cur + 1) && Arrived(x, st)
       case Awaiting(i) =>
         && st.calls == [] && st.cur < |x.chain| && |st.asked| == st.cur + 1 && i == Some(st.cur) && Arrived(x, st)
  }

  lemma RouteAt(x: Setup, i: nat)
    requires i < |x.chain|
    ensures |Route(x)| == |x.chain| && Route(x)[i] == Target(x, i + 1)
    ensures Route(x)[..i] + [Target(x, i + 1)] == Route(x)[..i + 1]
  {
  }

  lemma GoOnKeepsInv(x: Setup, st: State, index: Option<nat>)
    requires st.cur <= |x.chain| && |st.asked| == st.cur && |Route(x)| == |x.chain| && st.asked == Route(x)[..st.cur]
    requires st.calls == [] && index == Index(x, st.cur) && Arrived(x, st)
    ensures Inv(x, GoOn(x, st, index))
  {
    if st.cur == |x.chain| {
      assert Route(x)[..st.cur] == Route(x);
    }
  }

  lemma StepKeepsInv(x: Setup, st: State, ev: Event)
    requires Inv(x, st) && Fitting(st, ev)
    ensures Inv(x, Step(x, st, ev))
  {
    hide GoOn;
    match ev
    case Resolved(_) =>
    case Connected(e) =>
      if e.None? {
        GoOnKeepsInv(x, st.(peer := Some((st.pending.ip, st.pending.port)), far := Some(Target(x, 0))), st.pending.index);
      }
    case Written(_) =>
      RouteAt(x, st.cur);
    case Responded(r) =>
      RouteAt(x, st.cur);
      if r == Ok(Succeeded) {
        assert st.asked[st.cur] == Target(x, st.cur + 1);
        GoOnKeepsInv(x, st.(cur := st.cur + 1, far := Some(Target(x, st.cur + 1))), Some(st.cur + 1));
      }
  }

  lemma {:induction false} RunKeepsInv(x: Setup, evs: seq<Event>)
    requires Run(x, evs).Some?
    ensures Inv(x, Run(x, evs).value)
  {
    if evs != [] {
      RunKeepsInv(x, evs[..|evs| - 1]);
      StepKeepsInv(x, Run(x, evs[..|evs| - 1]).value, evs[|evs| - 1]);
    }
  }

  /** In every reachable state after the TCP connect, whether the handler has been called or not, the far end is the
      current hop, or the final destination when no hop is left; the hops before it, and perhaps it, have been asked, in
      order, each for the next, and nobody else. */
  lemma FarEndIsCurrentHop(x: Setup, evs: seq<Event>)
    requires Run(x, evs).Some? && Run(x, evs).value.peer.Some?
    ensures var st := Run(x, evs).value;
            && st.cur <= |x.chain| && st.far == Some(Target(x, st.cur))
            && Leads(x, st.resolved, st.peer.value.0, st.peer.value.1)
            && st.cur <= |st.asked| <= st.cur + 1 && |st.asked| <= |x.chain|
            && forall i :: 0 <= i < |st.asked| ==> st.asked[i] == Target(x, i + 1)
  {
    hide Honest, Leads;
    RunKeepsInv(x, evs);
    AskedSoFar(x, evs);
    var st := Run(x, evs).value;
    forall i | 0 <= i < |st.asked| ensures st.asked[i] == Target(x, i + 1) {
      RouteAt(x, i);
    }
  }

  lemma {:induction false} AskedSoFar(x: Setup, evs: seq<Event>)
    requires Run(x, evs).Some?
    ensures var st := Run(x, evs).value; st.cur <= |st.asked| <= st.cur + 1
  {
    if evs != [] {
      AskedSoFar(x, evs[..|evs| - 1]);
      RunKeepsInv(x, evs[..|evs| - 1]);
    }
  }

  // ----- completion -----

  /** What is left to do: two operations for every hop not yet passed, and at most two to get connected. */
  function ToGo(x: Setup, st: State): int {
    match st.pending
    case Idle => 0
    case Resolving(_, _, _) => 2 * |x.chain| + 2
    case Connecting(_, _, _) => 2 * |x.chain| + 1
    case Asking(_, _) => 2 * (|x.chain| - st.cur)
    case Awaiting(_) => 2 * (|x.chain| - st.cur) - 1
  }

  lemma StepGoesOn(x: Setup, st: State, ev: Event)
    requires Inv(x, st) && Fitting(st, ev)
    ensures 0 <= ToGo(x, Step(x, st, ev)) < ToGo(x, st)
  {
  }

  lemma {:induction false} RunIsBounded(x: Setup, evs: seq<Event>)
    requires Run(x, evs).Some?
    ensures 0 <= ToGo(x, Run(x, evs).value) <= 2 * |x.chain| + 2 - |evs|
  {
    if evs != [] {
      RunIsBounded(x, evs[..|evs| - 1]);
      RunKeepsInv(x, evs[..|evs| - 1]);
      StepGoesOn(x, Run(x, evs[..|evs| - 1]).value, evs[|evs| - 1]);
    }
  }

  /** Every run is bounded; while an operation is outstanding its end is possible, with or without an error; and once
      none is, the connect handler has been called exactly once, with an honest result. */
  lemma CompletesExactlyOnce(x: Setup, evs: seq<Event>)
    requires Run(x, evs).Some?
    ensures var st := Run(x, evs).value;
            && |evs| <= 2 * |x.chain| + 2
            && (!st.pending.Idle? ==> st.calls == [] && Fitting(st, Success(st)) && forall e :: Fitting(st, Failure(st, e)))
            && (st.pending.Idle? ==> |st.calls| == 1 && Honest(x, st, st.calls[0]) && forall ev :: !Fitting(st, ev))
  {
    hide Honest;
    RunKeepsInv(x, evs);
    RunIsBounded(x, evs);
  }

  function Failure(st: State, e: Error): Event {
    match st.pending
    case Resolving(_, _, _) => Resolved(Err(e))
    case Connecting(_, _, _) => Connected(Some(e))
    case Asking(_, _) => Written(Some(e))
    case _ => Responded(Err(e))
  }

  function Success(st: State): Event {
    match st.pending
    case Resolving(_, _, _) => Resolved(Ok(V4([127, 0, 0, 1])))
    case Connecting(_, _, _) => Connected(None)
    case Asking(_, _) => Written(None)
    case _ => Responded(Ok(Succeeded))
  }

  predicate Good(ev: Event) {
    match ev
    case Resolved(a) => a.Ok?
    case Connected(e) => e.None?
    case Written(e) => e.None?
    case Responded(r) => r == Ok(Succeeded)
  }

  predicate AllGood(evs: seq<Event>) {
    evs == [] || (AllGood(evs[..|evs| - 1]) && Good(evs[|evs| - 1]))
  }

  /** Success is reported exactly if every operation succeeded and every hop said so. */
  lemma {:induction false} SucceedsIffAllGood(x: Setup, evs: seq<Event>)
    requires Run(x, evs).Some?
    ensures var st := Run(x, evs).value;
            && (st.pending.Idle? && |st.calls| == 1 ==> (st.calls[0].success <==> AllGood(evs)))
            && (!st.pending.Idle? ==> AllGood(evs))
  {
    if evs != [] {
      var before := evs[..|evs| - 1];
      SucceedsIffAllGood(x, before);
      RunKeepsInv(x, before);
    }
  }
}
