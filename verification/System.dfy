/** One proxied connection as a whole: the session, its input, the chain with the client session of the current hop,
    the relay, and the two sockets. Every operation may end in any way, in any order and in any portions. */
module System {
  import opened Bytes
  import opened Wire
  import opened IpAddresses
  import opened Proxy
  import Rfc1928
  import S = Socks5Server
  import H = HttpsServer
  import C = Socks5Client
  import R = Relay
  import I = Input
  import Chain
  import Sessions

  /** The configuration: the input, and address and credentials of every proxy of the chain. */
  datatype RawSetup = Setup(kind: I.Kind, chain: seq<Destination>, creds: seq<Credentials>)
  type Setup = x: RawSetup | |x.creds| == |x.chain| witness RawSetup.Setup(I.Socks5, [], [])

  /** The client session of a hop, and what it is for. */
  datatype Hop = Hop(job: C.Job, end: C.End)

  /** Everything read from and written to the two sockets. */
  datatype Net = Net(inRecv: seq<byte>, inSent: seq<byte>, outRecv: seq<byte>, outSent: seq<byte>)

  /** `answers` is what the hops already passed have answered, hop by hop. */
  datatype World = World(session: Sessions.State, inp: I.End, chain: Option<Chain.State>, hop: Option<Hop>,
                         answers: seq<seq<byte>>, net: Net)

  datatype Event =
    | InMoves(chunk: seq<byte>)
    | InBreaks(err: Error)
    | Resolves(address: Result<Address>)
    | Connects(error: Option<Error>)
    | HopMoves(chunk: seq<byte>)
    | HopBreaks(err: Error)
    | Relays(ev: R.Event)

  function Plan(x: Setup, d: Destination): Chain.Setup {
    Chain.Setup(x.chain, d)
  }

  /** What hop `i` is asked for, with which credentials. */
  function JobAt(x: Setup, d: Destination, i: nat): C.RawJob
    requires i < |x.chain|
  {
    C.Job(x.creds[i], Chain.Target(Plan(x, d), i + 1))
  }

  // ----- steps -----

  predicate Enabled(x: Setup, w: World, ev: Event) {
    match ev
    case InMoves(chunk) => (w.session.Requesting? || w.session.Replying?) && I.CanMove(w.inp, chunk)
    case InBreaks(err) => (w.session.Requesting? || w.session.Replying?) && !I.OpOf(w.inp).Rest? && OfNetwork(err)
    case Resolves(a) =>
      && w.session.Connecting? && w.chain.Some? && w.chain.value.pending.Resolving?
      && (a.Err? ==> OfNetwork(a.error))
    case Connects(e) =>
      && w.session.Connecting? && w.chain.Some? && w.chain.value.pending.Connecting? && w.chain.value.cur <= |x.chain|
      && (e.Some? ==> OfNetwork(e.value))
    case HopMoves(chunk) => HopCan(x, w) && HopFits(w.hop.value, chunk)
    case HopBreaks(err) => HopCan(x, w) && !C.OpOf(w.hop.value.job, w.hop.value.end.st).Rest? && OfNetwork(err)
    case Relays(e) => w.session.Relaying? && R.Enabled(w.session.relay, e)
  }

  /** A hop is being asked, and its client session has an operation outstanding on its behalf. In reachable states this
      holds whenever the session is connecting and there is a client session (`HopCanAlways`). */
  predicate HopCan(x: Setup, w: World) {
    && w.session.Connecting? && w.chain.Some? && w.chain.value.cur < |x.chain| && w.hop.Some?
    && (w.chain.value.pending.Asking? || w.chain.value.pending.Awaiting?)
    && (w.chain.value.pending.Asking? <==> HopWrites(w.hop.value.end.st))
  }

  /** The states of a client session in which the request has not been written. */
  predicate HopWrites(st: C.State) {
    st.GreetWrite? || st.GreetRead? || st.CredsWrite? || st.CredsRead? || st.RequestWrite?
  }

  predicate HopFits(h: Hop, chunk: seq<byte>) {
    var op := C.OpOf(h.job, h.end.st);
    Sound(h.end, op) && Fits(op, h.end.acc, chunk)
  }

  function InLog(n: Net, op: Op, chunk: seq<byte>): Net {
    if op.Read? then n.(inRecv := n.inRecv + chunk) else n.(inSent := n.inSent + chunk)
  }

  function OutLog(n: Net, op: Op, chunk: seq<byte>): Net {
    if op.Read? then n.(outRecv := n.outRecv + chunk) else n.(outSent := n.outSent + chunk)
  }

  function RelayLog(n: Net, before: R.State, ev: R.Event): Net
    requires R.Enabled(before, ev)
  {
    match ev
    case ReadOk(Up, chunk) => n.(inRecv := n.inRecv + chunk)
    case ReadOk(Down, chunk) => n.(outRecv := n.outRecv + chunk)
    case WriteSome(Up, k) => var o := before.up.op; n.(outSent := n.outSent + o.buf[o.done..o.done + k])
    case WriteSome(Down, k) => var o := before.down.op; n.(inSent := n.inSent + o.buf[o.done..o.done + k])
    case _ => n
  }

  function Step(x: Setup, w: World, ev: Event): World
    requires Enabled(x, w, ev)
  {
    match ev
    case InMoves(chunk) => AfterInput(x, w.(inp := I.Advance(w.inp, chunk), net := InLog(w.net, I.OpOf(w.inp), chunk)))
    case InBreaks(err) => AfterInput(x, w.(inp := I.Break(w.inp, err)))
    case Resolves(a) => AfterChain(x, w, Chain.Step(Plan(x, w.session.dst), w.chain.value, Chain.Resolved(a)))
    case Connects(e) => AfterChain(x, w, Chain.Step(Plan(x, w.session.dst), w.chain.value, Chain.Connected(e)))
    case HopMoves(chunk) =>
      var h := w.hop.value;
      AfterHop(x, w.(net := OutLog(w.net, C.OpOf(h.job, h.end.st), chunk)), h.(end := C.Advance(h.job, h.end, chunk)))
    case HopBreaks(err) =>
      var h := w.hop.value;
      AfterHop(x, w, h.(end := C.Break(h.end, err)))
    case Relays(e) =>
      w.(session := Sessions.Step(w.session, Sessions.Relayed(e)), net := RelayLog(w.net, w.session.relay, e))
  }

  /** The handlers the input calls in its new phase. */
  function AfterInput(x: Setup, w: World): World {
    match I.PhaseOf(w.inp)
    case Requested(r) => if w.session.Requesting? then Requested(x, w, r) else w
    case Replied(_, _, f) =>
      if w.session.Replying? then w.(session := Sessions.Step(w.session, Sessions.WroteReply(f))) else w
    case _ => w
  }

  /** The session has a request, or an error. */
  function Requested(x: Setup, w: World, r: Result<Destination>): World
    requires w.session.Requesting?
  {
    var s := Sessions.Step(w.session, Sessions.GotRequest(r));
    if r.Err? then w.(session := s) else w.(session := s, chain := Some(Chain.Start(Plan(x, r.value))))
  }

  /** The chain goes on to `c`: it starts the next client session, or is finished. */
  function AfterChain(x: Setup, w: World, c: Chain.State): World
    requires w.session.Connecting?
  {
    var v := w.(chain := Some(c));
    if c.pending.Asking? && c.cur < |x.chain| then Ask(x, v, c)
    else if c.pending.Idle? && c.calls != [] && I.HasRequest(v.inp) then Conclude(x, v, c.calls[0])
    else v
  }

  /** The next client session writes its request, or refuses to because a length does not fit. */
  function Ask(x: Setup, w: World, c: Chain.State): World
    requires w.session.Connecting? && w.chain == Some(c) && c.pending.Asking? && c.cur < |x.chain|
  {
    var job := JobAt(x, w.session.dst, c.cur);
    match C.StartError(job)
    case None => w.(hop := Some(Hop(job, C.START)))
    case Some(e) =>
      var f := Chain.Step(Plan(x, w.session.dst), c, Chain.Written(Some(e)));
      if f.calls != [] && I.HasRequest(w.inp) then Conclude(x, w.(chain := Some(f), hop := None), f.calls[0]) else w
  }

  /** The connect handler of the session is called: it has the reply written. */
  function Conclude(x: Setup, w: World, r: Chain.ConnectResult): World
    requires w.session.Connecting? && I.HasRequest(w.inp)
  {
    var s := Sessions.Step(w.session, Sessions.GotResult(r));
    AfterInput(x, w.(session := s, inp := I.Respond(w.inp, s.major)))
  }

  /** The handlers that the client session of a hop calls in its new state. */
  function AfterHop(x: Setup, w: World, h: Hop): World
    requires w.session.Connecting? && w.chain.Some? && w.chain.value.cur < |x.chain|
    requires w.chain.value.pending.Asking? || w.chain.value.pending.Awaiting?
  {
    var c := w.chain.value;
    var v := w.(hop := Some(h));
    var p := Plan(x, w.session.dst);
    match h.end.st
    case Written(f) =>
      if !c.pending.Asking? then v
      else if f.None? then v.(chain := Some(Chain.Step(p, c, Chain.Written(None))), hop := Some(h.(end := C.Await(h.end))))
      else AfterChain(x, v, Chain.Step(p, c, Chain.Written(f)))
    case Answered(r) =>
      if !c.pending.Awaiting? then v
      else if r == Ok(Succeeded) then
        AfterChain(x, v.(hop := None, answers := v.answers + [h.end.recv]), Chain.Step(p, c, Chain.Responded(r)))
      else AfterChain(x, v, Chain.Step(p, c, Chain.Responded(r)))
    case _ => v
  }

  /** `start`: a tunnel has its request at once. */
  function Init(x: Setup): World {
    AfterInput(x, World(Sessions.Requesting, I.Start(x.kind), None, None, [], Net([], [], [], [])))
  }

  function Run(x: Setup, evs: seq<Event>): Option<World> {
    if evs == [] then Some(Init(x))
    else
      var r := Run(x, evs[..|evs| - 1]);
      var ev := evs[|evs| - 1];
      if r.None? || !Enabled(x, r.value, ev) then None else Some(Step(x, r.value, ev))
  }

  // ----- the invariant -----

  /** Everything the client sessions of the first `n` hops say, one after the other. */
  function Scripts(x: Setup, d: Destination, n: nat): seq<byte>
    requires n <= |x.chain|
  {
    if n == 0 then []
    else
      var job := JobAt(x, d, n - 1);
      Scripts(x, d, n - 1) + if C.StartError(job).None? then C.Script(job) else []
  }

  /** Each answer is exactly what a hop that accepts its request says. */
  predicate AllAccepted(x: Setup, d: Destination, answers: seq<seq<byte>>) {
    |answers| <= |x.chain| &&
    (answers == [] ||
     var i := |answers| - 1;
     && AllAccepted(x, d, answers[..i])
     && C.StartError(JobAt(x, d, i)).None? && C.Accepted(JobAt(x, d, i), answers[i], Succeeded))
  }

  function HopRecv(w: World): seq<byte> {
    if w.hop.Some? then w.hop.value.end.recv else []
  }

  function HopSent(w: World): seq<byte> {
    if w.hop.Some? then w.hop.value.end.sent else []
  }

  /** The input socket before the relay. */
  predicate InputOk(x: Setup, w: World) {
    && I.Inv(x.kind, w.inp)
    && w.net.inRecv == I.Recv(w.inp) && w.net.inSent == I.Sent(w.inp)
  }

  /** The output socket before the relay. */
  predicate OutputOk(x: Setup, w: World, d: Destination) {
    && AllAccepted(x, d, w.answers)
    && w.net.outRecv == Flatten(w.answers) + HopRecv(w)
    && w.net.outSent == Scripts(x, d, |w.answers|) + HopSent(w)
  }

  /** The client session of the current hop, while the hop is asked. */
  predicate HopOk(x: Setup, w: World, d: Destination, c: Chain.State) {
    if c.pending.Asking? || c.pending.Awaiting? then
      && c.cur < |x.chain| && w.hop.Some?
      && w.hop.value.job == JobAt(x, d, c.cur) && C.Inv(w.hop.value.job, w.hop.value.end)
      && !C.OpOf(w.hop.value.job, w.hop.value.end.st).Rest?
      && (c.pending.Asking? <==> HopWrites(w.hop.value.end.st))
    else w.hop.None?
  }

  predicate ConnectingOk(x: Setup, w: World, d: Destination) {
    && w.chain.Some?
    && var c := w.chain.value;
    && Chain.Inv(Plan(x, d), c) && !c.pending.Idle? && |w.answers| == c.cur
    && HopOk(x, w, d, c) && OutputOk(x, w, d)
  }

  /** The chain has reported `r`, and only `r`; if it is success, the output socket is at the end of the handshakes. */
  predicate ResultOk(x: Setup, w: World, d: Destination, r: Chain.ConnectResult) {
    && w.chain.Some? && w.chain.value.pending.Idle? && w.chain.value.calls == [r]
    && Chain.Inv(Plan(x, d), w.chain.value)
    && (r.success ==> w.hop.None? && |w.answers| == |x.chain| && AllAccepted(x, d, w.answers))
  }

  /** If there was success, the sockets have carried the handshakes and what the relay has moved. */
  predicate RelayOk(x: Setup, w: World, d: Destination, up: R.Dir, down: R.Dir) {
    && |w.answers| == |x.chain|
    && w.net.inRecv == I.Recv(w.inp) + up.consumed && w.net.inSent == I.Sent(w.inp) + down.delivered
    && w.net.outRecv == Flatten(w.answers) + down.consumed
    && w.net.outSent == Scripts(x, d, |x.chain|) + up.delivered
  }

  /** `m` is the truth about the one result of the chain. */
  predicate TruthOf(x: Setup, w: World, d: Destination, m: Major) {
    && w.chain.Some? && w.chain.value.calls != []
    && ResultOk(x, w, d, w.chain.value.calls[0]) && m == Sessions.MajorFor(w.chain.value.calls[0])
  }

  /** A client that has been told anything has been told the truth. */
  predicate ToldTruth(x: Setup, w: World) {
    match I.PhaseOf(w.inp)
    case Replying(d, m) => TruthOf(x, w, d, m)
    case Replied(d, m, _) => TruthOf(x, w, d, m)
    case _ => true
  }

  predicate Inv(x: Setup, w: World) {
    match w.session
    case Requesting =>
      && InputOk(x, w) && (I.PhaseOf(w.inp).Reading? || I.PhaseOf(w.inp).Hung?)
      && w.chain.None? && w.hop.None? && w.answers == [] && w.net.outRecv == [] && w.net.outSent == []
    case Connecting(d) =>
      InputOk(x, w) && I.PhaseOf(w.inp) == I.Requested(Ok(d)) && ConnectingOk(x, w, d)
    case Replying(d, r, m) =>
      && InputOk(x, w) && I.PhaseOf(w.inp) == I.Replying(d, m)
      && ResultOk(x, w, d, r) && m == Sessions.MajorFor(r) && (r.success ==> OutputOk(x, w, d))
    case Relaying(d, r, m, relay) =>
      && I.Inv(x.kind, w.inp) && I.PhaseOf(w.inp) == I.Replied(d, m, None)
      && ResultOk(x, w, d, r) && m == Sessions.MajorFor(r) && r.success
      && R.Inv(relay) && RelayOk(x, w, d, relay.up, relay.down)
    case Closed =>
      && InputOk(x, w) && ToldTruth(x, w)
      && !I.PhaseOf(w.inp).Replying? && !I.PhaseOf(w.inp).Reading? && !I.PhaseOf(w.inp).Hung?
  }

  // ----- the reply -----

  lemma WroteReplyKeepsInv(x: Setup, w: World, d: Destination, r: Chain.ConnectResult, m: Major, f: Option<Error>)
    requires w.session == Sessions.Replying(d, r, m) && InputOk(x, w) && I.PhaseOf(w.inp) == I.Replied(d, m, f)
    requires ResultOk(x, w, d, r) && m == Sessions.MajorFor(r) && (r.success ==> OutputOk(x, w, d))
    ensures Inv(x, w.(session := Sessions.Step(w.session, Sessions.WroteReply(f))))
  {
    hide I.Inv, I.PhaseOf, Chain.Inv, Sessions.MajorFor, AllAccepted, Scripts;
    if f.None? && r.success {
      var v := w.(session := Sessions.Relaying(d, r, m, R.START));
      assert w.net.inRecv + [] == w.net.inRecv && w.net.inSent + [] == w.net.inSent;
      assert Flatten(w.answers) + [] == Flatten(w.answers);
      assert Scripts(x, d, |x.chain|) + [] == Scripts(x, d, |x.chain|);
      assert RelayOk(x, v, d, R.START_DIR, R.START_DIR);
    }
  }

  lemma ConcludeKeepsInv(x: Setup, w: World, d: Destination, r: Chain.ConnectResult)
    requires w.session == Sessions.Connecting(d) && InputOk(x, w) && I.PhaseOf(w.inp) == I.Requested(Ok(d))
    requires ResultOk(x, w, d, r) && (r.success ==> OutputOk(x, w, d))
    ensures Inv(x, Conclude(x, w, r))
  {
    hide I.Inv, I.PhaseOf, I.Respond, Chain.Inv, Sessions.MajorFor, AllAccepted, Scripts;
    var m := Sessions.MajorFor(r);
    I.RespondKeepsInv(x.kind, w.inp, m);
    var v := w.(session := Sessions.Replying(d, r, m), inp := I.Respond(w.inp, m));
    assert InputOk(x, v) && ResultOk(x, v, d, r);
    if I.PhaseOf(v.inp).Replied? {
      WroteReplyKeepsInv(x, v, d, r, m, None);
    }
  }

  // ----- the chain -----

  /** Between two operations of the chain. */
  predicate Between(x: Setup, w: World, d: Destination, c: Chain.State) {
    && w.session == Sessions.Connecting(d) && InputOk(x, w) && I.PhaseOf(w.inp) == I.Requested(Ok(d))
    && Chain.Inv(Plan(x, d), c) && !c.pending.Awaiting?
    && (Failed(c) || (w.hop.None? && |w.answers| == c.cur && OutputOk(x, w, d)))
  }

  predicate Failed(c: Chain.State) {
    c.pending.Idle? && c.calls != [] && !c.calls[0].success
  }

  lemma IdleResult(x: Setup, d: Destination, c: Chain.State)
    requires Chain.Inv(Plan(x, d), c) && c.pending.Idle?
    ensures |c.calls| == 1 && (c.calls[0].success ==> c.cur == |x.chain|)
  {
  }

  lemma AskFails(x: Setup, d: Destination, c: Chain.State, e: Error)
    requires Chain.Inv(Plan(x, d), c) && c.pending.Asking?
    ensures var f := Chain.Step(Plan(x, d), c, Chain.Written(Some(e)));
            Chain.Inv(Plan(x, d), f) && Failed(f) && f.pending.Idle? && |f.calls| == 1
  {
    Chain.StepKeepsInv(Plan(x, d), c, Chain.Written(Some(e)));
  }

  lemma HopStarts(j: C.Job)
    ensures C.Inv(j, C.START) && HopWrites(C.START.st) && !C.OpOf(j, C.START.st).Rest?
    ensures C.START.recv == [] && C.START.sent == []
  {
    C.EnteredInv(j, C.START);
  }

  lemma AskKeepsInv(x: Setup, w: World, d: Destination, c: Chain.State)
    requires Between(x, w, d, c) && c.pending.Asking? && w.chain == Some(c) && c.cur < |x.chain|
    ensures Inv(x, Ask(x, w, c))
  {
    hide I.Inv, I.PhaseOf, Chain.Inv, AllAccepted, Scripts, Chain.Step, Conclude, C.Inv, C.OpOf, HopWrites, Failed;
    var raw := JobAt(x, d, c.cur);
    assert Sessions.Connecting(d).dst == d;
    match C.StartError(raw)
    case None =>
      HopStarts(raw);
      NotFailed(c);
      assert w.net.outRecv == Flatten(w.answers) + [] && w.net.outSent == Scripts(x, d, |w.answers|) + [];
    case Some(e) =>
      AskFails(x, d, c, e);
      var f := Chain.Step(Plan(x, d), c, Chain.Written(Some(e)));
      var v := w.(chain := Some(f), hop := None);
      FailedResult(f);
      assert f.calls == [f.calls[0]];
      ConcludeKeepsInv(x, v, d, f.calls[0]);
  }

  lemma NotFailed(c: Chain.State)
    ensures Failed(c) ==> c.pending.Idle?
  {
  }

  lemma FailedResult(c: Chain.State)
    requires Failed(c)
    ensures c.calls != [] && !c.calls[0].success
  {
  }


  /** The chain has gone on to `c`, and its state is not yet stored. */
  lemma AfterChainKeepsInv(x: Setup, w: World, d: Destination, c: Chain.State)
    requires Between(x, w, d, c)
    ensures Inv(x, AfterChain(x, w, c))
  {
    hide I.Inv, I.PhaseOf, Chain.Inv, Conclude, Ask, AllAccepted, Scripts, Failed;
    var v := w.(chain := Some(c));
    PendingBounds(x, d, c);
    if c.pending.Asking? {
      assert Between(x, v, d, c);
      AskKeepsInv(x, v, d, c);
    } else if c.pending.Idle? {
      IdleResult(x, d, c);
      var r := c.calls[0];
      assert c.calls == [r];
      DoneFailed(c);
      ConcludeKeepsInv(x, v, d, r);
    } else {
      NotFailed(c);
    }
  }

  lemma PendingBounds(x: Setup, d: Destination, c: Chain.State)
    requires Chain.Inv(Plan(x, d), c)
    ensures c.pending.Asking? || c.pending.Awaiting? ==> c.cur < |x.chain|
  {
  }

  lemma DoneFailed(c: Chain.State)
    requires c.pending.Idle? && c.calls != []
    ensures Failed(c) <==> !c.calls[0].success
  {
  }

  /** A step of the chain that no hop takes part in. */
  lemma ChainStepBetween(x: Setup, w: World, d: Destination, ev: Chain.Event)
    requires w.session == Sessions.Connecting(d) && Inv(x, w) && Chain.Fitting(w.chain.value, ev)
    requires ev.Resolved? || ev.Connected?
    ensures Between(x, w, d, Chain.Step(Plan(x, d), w.chain.value, ev))
  {
    hide I.Inv, I.PhaseOf, AllAccepted, Scripts, Chain.Inv;
    var c := w.chain.value;
    Chain.StepKeepsInv(Plan(x, d), c, ev);
    EarlyStep(x, d, c, ev);
  }

  lemma EarlyStep(x: Setup, d: Destination, c: Chain.State, ev: Chain.Event)
    requires Chain.Inv(Plan(x, d), c) && Chain.Fitting(c, ev) && (ev.Resolved? || ev.Connected?)
    ensures var f := Chain.Step(Plan(x, d), c, ev);
            !f.pending.Awaiting? && (Failed(f) || f.cur == c.cur)
  {
  }

  // ----- the hops -----

  /** Where a completed operation takes a client session. */
  lemma HopFollows(j: C.Job, st: C.State, data: seq<byte>)
    requires !C.OpOf(j, st).Rest? && (C.OpOf(j, st).Read? ==> |data| == C.OpOf(j, st).n)
    ensures var t := C.OnDone(j, st, data);
            && (HopWrites(st) ==> t.Written? || HopWrites(t))
            && (!HopWrites(st) ==> t.Answered? || (!HopWrites(t) && !C.OpOf(j, t).Rest?))
            && (HopWrites(t) ==> !C.OpOf(j, t).Rest?)
  {
  }

  lemma HopBroken(j: C.Job, st: C.State, err: Error)
    requires !C.OpOf(j, st).Rest?
    ensures var t := C.OnError(st, err);
            if HopWrites(st) then t == C.Written(Some(err)) else t == C.Answered(Err(err))
  {
  }

  /** A client session after one of its operations has moved or failed. */
  predicate Moved(h: Hop, asking: bool) {
    && C.Inv(h.job, h.end)
    && if asking then h.end.st.Written? || (HopWrites(h.end.st) && !C.OpOf(h.job, h.end.st).Rest?)
       else h.end.st.Answered? || (!HopWrites(h.end.st) && !C.OpOf(h.job, h.end.st).Rest?)
  }

  lemma AdvancedIsMoved(h: Hop, chunk: seq<byte>)
    requires C.Inv(h.job, h.end) && !C.OpOf(h.job, h.end.st).Rest? && HopFits(h, chunk)
    ensures var e := C.Advance(h.job, h.end, chunk);
            && Moved(h.(end := e), HopWrites(h.end.st))
            && e.recv == (if C.OpOf(h.job, h.end.st).Read? then h.end.recv + chunk else h.end.recv)
            && e.sent == (if C.OpOf(h.job, h.end.st).Read? then h.end.sent else h.end.sent + chunk)
  {
    hide C.Inv, HopWrites, C.OpOf, C.OnDone;
    C.AdvanceKeepsInv(h.job, h.end, chunk);
    var data := h.end.acc + chunk;
    if |data| == Total(C.OpOf(h.job, h.end.st)) {
      HopFollows(h.job, h.end.st, data);
    }
    RestingStates(h.job, h.end.st);
  }

  lemma RestingStates(j: C.Job, st: C.State)
    ensures C.OpOf(j, st).Rest? <==> st.Written? || st.Answered?
  {
  }

  lemma {:induction false} BrokenIsMoved(h: Hop, err: Error)
    requires C.Inv(h.job, h.end) && !C.OpOf(h.job, h.end.st).Rest? && OfNetwork(err)
    ensures Moved(h.(end := C.Break(h.end, err)), HopWrites(h.end.st))
    ensures C.Break(h.end, err).recv == h.end.recv && C.Break(h.end, err).sent == h.end.sent
  {
    hide C.Inv, HopWrites, C.OpOf, C.OnError;
    C.BreakKeepsInv(h.job, h.end, err);
    HopBroken(h.job, h.end.st, err);
  }

  /** The world in which the client session of the current hop has become `h`, with the logs up to date. */
  predicate HopMoved(x: Setup, w: World, d: Destination, h: Hop) {
    && w.session == Sessions.Connecting(d) && InputOk(x, w) && I.PhaseOf(w.inp) == I.Requested(Ok(d))
    && w.chain.Some?
    && var c := w.chain.value;
    && Chain.Inv(Plan(x, d), c) && (c.pending.Asking? || c.pending.Awaiting?) && |w.answers| == c.cur < |x.chain|
    && h.job == JobAt(x, d, c.cur) && Moved(h, c.pending.Asking?)
    && AllAccepted(x, d, w.answers)
    && w.net.outRecv == Flatten(w.answers) + h.end.recv
    && w.net.outSent == Scripts(x, d, |w.answers|) + h.end.sent
  }

  lemma AfterHopKeepsInv(x: Setup, w: World, d: Destination, h: Hop)
    requires HopMoved(x, w, d, h)
    ensures Inv(x, AfterHop(x, w, h))
  {
    hide InputOk, I.PhaseOf, Chain.Inv, C.Inv, Conclude, AfterChain, Ask, AllAccepted, Scripts, Chain.Step, HopWrites, C.OpOf;
    RestingStates(h.job, h.end.st);
    match h.end.st
    case Written(f) => HopHasWritten(x, w, d, h, f);
    case Answered(r) => HopHasAnswered(x, w, d, h, r);
    case _ =>
      SameInput(x, w, w.(hop := Some(h)));
  }

  lemma WrittenStep(x: Setup, d: Destination, c: Chain.State, f: Option<Error>)
    requires Chain.Inv(Plan(x, d), c) && c.pending.Asking?
    ensures var g := Chain.Step(Plan(x, d), c, Chain.Written(f));
            && Chain.Inv(Plan(x, d), g)
            && if f.Some? then g.pending.Idle? && Failed(g) else g.pending.Awaiting? && g.cur == c.cur
  {
    Chain.StepKeepsInv(Plan(x, d), c, Chain.Written(f));
  }

  lemma AwaitedHop(j: C.Job, e: C.End)
    requires C.Inv(j, e) && e.st == C.Written(None)
    ensures C.Inv(j, C.Await(e)) && !HopWrites(C.Await(e).st) && !C.OpOf(j, C.Await(e).st).Rest?
  {
    C.AwaitKeepsInv(j, e);
  }

  lemma HopHasWritten(x: Setup, w: World, d: Destination, h: Hop, f: Option<Error>)
    requires HopMoved(x, w, d, h) && h.end.st == C.Written(f)
    ensures Inv(x, AfterHop(x, w, h))
  {
    hide InputOk, I.PhaseOf, Chain.Inv, C.Inv, AfterChain, AllAccepted, Scripts, Chain.Step, HopWrites, C.OpOf;
    RestingStates(h.job, h.end.st);
    WritingStates(h.end.st);
    var c := w.chain.value;
    WrittenStep(x, d, c, f);
    var g := Chain.Step(Plan(x, d), c, Chain.Written(f));
    if f.None? {
      AwaitedHop(h.job, h.end);
      SameInput(x, w, w.(chain := Some(g), hop := Some(h.(end := C.Await(h.end)))));
    } else {
      SameInput(x, w, w.(hop := Some(h)));
      AfterChainKeepsInv(x, w.(hop := Some(h)), d, g);
    }
  }

  lemma WritingStates(st: C.State)
    ensures HopWrites(st) ==> !st.Written? && !st.Answered?
  {
  }

  lemma RespondedStep(x: Setup, d: Destination, c: Chain.State, r: Result<Major>)
    requires Chain.Inv(Plan(x, d), c) && c.pending.Awaiting?
    ensures var g := Chain.Step(Plan(x, d), c, Chain.Responded(r));
            && Chain.Inv(Plan(x, d), g) && !g.pending.Awaiting?
            && if r == Ok(Succeeded) then g.cur == c.cur + 1 else Failed(g)
  {
    Chain.StepKeepsInv(Plan(x, d), c, Chain.Responded(r));
  }

  /** An accepted request: the hop has said exactly its answers, and we our script. */
  lemma AcceptedHop(j: C.Job, e: C.End)
    requires C.Inv(j, e) && e.st == C.Answered(Ok(Succeeded))
    ensures C.Accepted(j, e.recv, Succeeded) && e.sent == C.Script(j)
  {
    hide C.Accepted, C.Script;
  }

  lemma OneMoreAnswer(x: Setup, w: World, d: Destination, h: Hop)
    requires HopMoved(x, w, d, h) && C.Accepted(h.job, h.end.recv, Succeeded) && h.end.sent == C.Script(h.job)
    ensures var all := w.answers + [h.end.recv];
            && AllAccepted(x, d, all)
            && w.net.outRecv == Flatten(all) + [] && w.net.outSent == Scripts(x, d, |all|) + []
  {
    hide InputOk, I.PhaseOf, Chain.Inv, C.Inv, C.Accepted, C.Script, Moved;
    var all := w.answers + [h.end.recv];
    assert all[..|all| - 1] == w.answers && all[|all| - 1] == h.end.recv;
    JobStarts(h.job);
  }

  lemma JobStarts(j: C.Job)
    ensures C.StartError(j).None?
  {
  }

  lemma HopHasAnswered(x: Setup, w: World, d: Destination, h: Hop, r: Result<Major>)
    requires HopMoved(x, w, d, h) && h.end.st == C.Answered(r)
    ensures Inv(x, AfterHop(x, w, h))
  {
    hide InputOk, I.PhaseOf, Chain.Inv, C.Inv, AfterChain, AllAccepted, Scripts, Chain.Step, HopWrites, C.OpOf, Failed;
    hide C.Accepted, C.Script;
    RestingStates(h.job, h.end.st);
    WritingStates(h.end.st);
    var c := w.chain.value;
    RespondedStep(x, d, c, r);
    var g := Chain.Step(Plan(x, d), c, Chain.Responded(r));
    if r == Ok(Succeeded) {
      AcceptedHop(h.job, h.end);
      OneMoreAnswer(x, w, d, h);
      var v := w.(hop := None, answers := w.answers + [h.end.recv]);
      SameInput(x, w, v);
      AfterChainKeepsInv(x, v, d, g);
    } else {
      var v := w.(hop := Some(h));
      SameInput(x, w, v);
      AfterChainKeepsInv(x, v, d, g);
    }
  }

  lemma SameInput(x: Setup, w: World, v: World)
    requires InputOk(x, w) && v.inp == w.inp && v.net.inRecv == w.net.inRecv && v.net.inSent == w.net.inSent
    ensures InputOk(x, v)
  {
    hide I.Inv;
  }

  // ----- one step -----

  lemma StartBetween(x: Setup, w: World, d: Destination)
    requires w.session.Requesting? && InputOk(x, w) && I.PhaseOf(w.inp) == I.Requested(Ok(d))
    requires w.chain.None? && w.hop.None? && w.answers == [] && w.net.outRecv == [] && w.net.outSent == []
    ensures Inv(x, Requested(x, w, Ok(d)))
  {
    hide InputOk, I.PhaseOf, Chain.Inv;
    ChainStarts(Plan(x, d));
    SameInput(x, w, Requested(x, w, Ok(d)));
  }

  lemma ChainStarts(p: Chain.Setup)
    ensures Chain.Inv(p, Chain.Start(p)) && Chain.Start(p).cur == 0
    ensures Chain.Start(p).pending.Resolving? || Chain.Start(p).pending.Connecting?
  {
  }

  /** Before the request is complete. */
  predicate Listening(x: Setup, w: World) {
    && w.session.Requesting? && InputOk(x, w)
    && w.chain.None? && w.hop.None? && w.answers == [] && w.net.outRecv == [] && w.net.outSent == []
  }

  lemma ListenedKeepsInv(x: Setup, w: World)
    requires Listening(x, w)
    requires I.PhaseOf(w.inp).Reading? || I.PhaseOf(w.inp).Hung? || I.PhaseOf(w.inp).Requested?
    ensures Inv(x, AfterInput(x, w))
  {
    hide InputOk, I.PhaseOf;
    match I.PhaseOf(w.inp)
    case Requested(r) =>
      if r.Ok? {
        StartBetween(x, w, r.value);
      } else {
        SameInput(x, w, AfterInput(x, w));
      }
    case _ =>
  }

  lemma AnsweredKeepsInv(x: Setup, w: World, d: Destination, r: Chain.ConnectResult, m: Major)
    requires w.session == Sessions.Replying(d, r, m) && InputOk(x, w)
    requires match I.PhaseOf(w.inp)
             case Replying(a, b) => a == d && b == m
             case Replied(a, b, _) => a == d && b == m
             case _ => false
    requires ResultOk(x, w, d, r) && m == Sessions.MajorFor(r) && (r.success ==> OutputOk(x, w, d))
    ensures Inv(x, AfterInput(x, w))
  {
    hide InputOk, I.PhaseOf, ResultOk, OutputOk, Sessions.MajorFor, Sessions.Step;
    if I.PhaseOf(w.inp).Replied? {
      WroteReplyKeepsInv(x, w, d, r, m, I.PhaseOf(w.inp).failure);
    }
  }

  /** The input socket after a move or a failure of the input. */
  lemma InputMoved(x: Setup, w: World, chunk: seq<byte>)
    requires InputOk(x, w) && I.CanMove(w.inp, chunk)
    ensures InputOk(x, w.(inp := I.Advance(w.inp, chunk), net := InLog(w.net, I.OpOf(w.inp), chunk)))
  {
    hide I.Inv, I.CanMove, I.Advance, I.OpOf, I.Recv, I.Sent;
    I.AdvanceKeepsInv(x.kind, w.inp, chunk);
    I.AdvanceLogs(w.inp, chunk);
  }

  lemma InputBroken(x: Setup, w: World, err: Error)
    requires InputOk(x, w) && !I.OpOf(w.inp).Rest? && OfNetwork(err)
    ensures InputOk(x, w.(inp := I.Break(w.inp, err)))
  {
    hide I.Inv, I.Break, I.OpOf, I.Recv, I.Sent;
    I.BreakKeepsInv(x.kind, w.inp, err);
  }

  lemma InStepKeepsInv(x: Setup, w: World, ev: Event)
    requires Inv(x, w) && Enabled(x, w, ev) && (ev.InMoves? || ev.InBreaks?)
    ensures Inv(x, Step(x, w, ev))
  {
    hide InputOk, I.PhaseOf, I.CanMove, I.Advance, I.Break, I.OpOf;
    hide Sessions.MajorFor, Chain.Inv, AllAccepted, Scripts, AfterInput;
    var v := if ev.InMoves? then w.(inp := I.Advance(w.inp, ev.chunk), net := InLog(w.net, I.OpOf(w.inp), ev.chunk))
             else w.(inp := I.Break(w.inp, ev.err));
    if ev.InMoves? {
      InputMoved(x, w, ev.chunk);
      I.AdvanceFollows(w.inp, ev.chunk);
    } else {
      InputBroken(x, w, ev.err);
      I.BreakFollows(w.inp, ev.err);
    }
    match w.session
    case Requesting => ListenedKeepsInv(x, v);
    case Replying(d, r, m) => AnsweredKeepsInv(x, v, d, r, m);
  }

  lemma ChainStepKeepsInv(x: Setup, w: World, ev: Event)
    requires Inv(x, w) && Enabled(x, w, ev) && (ev.Resolves? || ev.Connects?)
    ensures Inv(x, Step(x, w, ev))
  {
    hide Inv, Between, Chain.Step, AfterChain;
    var d := w.session.dst;
    var e := if ev.Resolves? then Chain.Resolved(ev.address) else Chain.Connected(ev.error);
    ChainStepBetween(x, w, d, e);
    AfterChainKeepsInv(x, w, d, Chain.Step(Plan(x, d), w.chain.value, e));
  }

  lemma MovedOutput(x: Setup, w: World, d: Destination, chunk: seq<byte>, op: Op, e: C.End)
    requires w.hop.Some? && |w.answers| <= |x.chain| && OutputOk(x, w, d)
    requires e.recv == if op.Read? then w.hop.value.end.recv + chunk else w.hop.value.end.recv
    requires e.sent == if op.Read? then w.hop.value.end.sent else w.hop.value.end.sent + chunk
    ensures var n := OutLog(w.net, op, chunk);
            n.outRecv == Flatten(w.answers) + e.recv && n.outSent == Scripts(x, d, |w.answers|) + e.sent
  {
    hide AllAccepted, Scripts;
    Assoc(Flatten(w.answers), w.hop.value.end.recv, chunk);
    Assoc(Scripts(x, d, |w.answers|), w.hop.value.end.sent, chunk);
  }

  lemma HopStepKeepsInv(x: Setup, w: World, ev: Event)
    requires Inv(x, w) && Enabled(x, w, ev) && (ev.HopMoves? || ev.HopBreaks?)
    ensures Inv(x, Step(x, w, ev))
  {
    hide InputOk, I.PhaseOf, Chain.Inv, C.Inv, AllAccepted, Scripts, HopWrites, C.OpOf;
    hide AfterHop, Moved, C.Advance, C.Break, Sound, Fits;
    var d := w.session.dst;
    var h := w.hop.value;
    if ev.HopMoves? {
      AdvancedIsMoved(h, ev.chunk);
      var g := h.(end := C.Advance(h.job, h.end, ev.chunk));
      MovedOutput(x, w, d, ev.chunk, C.OpOf(h.job, h.end.st), g.end);
      var v := w.(net := OutLog(w.net, C.OpOf(h.job, h.end.st), ev.chunk));
      SameInput(x, w, v);
      AfterHopKeepsInv(x, v, d, g);
    } else {
      BrokenIsMoved(h, ev.err);
      AfterHopKeepsInv(x, w, d, h.(end := C.Break(h.end, ev.err)));
    }
  }

  lemma RelayReads(x: Setup, w: World, d: Destination, s: R.State, way: R.Way, chunk: seq<byte>)
    requires R.Enabled(s, R.ReadOk(way, chunk)) && RelayOk(x, w, d, s.up, s.down)
    ensures var ev := R.ReadOk(way, chunk);
            RelayOk(x, w.(net := RelayLog(w.net, s, ev)), d, R.Step(s, ev).up, R.Step(s, ev).down)
  {
    hide Scripts, I.Recv, I.Sent, Flatten;
    if way.Up? {
      Assoc(I.Recv(w.inp), s.up.consumed, chunk);
    } else {
      Assoc(Flatten(w.answers), s.down.consumed, chunk);
    }
  }

  lemma RelayWrites(x: Setup, w: World, d: Destination, s: R.State, way: R.Way, k: nat)
    requires R.Enabled(s, R.WriteSome(way, k)) && RelayOk(x, w, d, s.up, s.down)
    ensures var ev := R.WriteSome(way, k);
            RelayOk(x, w.(net := RelayLog(w.net, s, ev)), d, R.Step(s, ev).up, R.Step(s, ev).down)
  {
    hide Scripts, I.Recv, I.Sent, Flatten;
    var op := R.Get(s, way).op;
    var part := op.buf[op.done..op.done + k];
    if way.Up? {
      Assoc(Scripts(x, d, |x.chain|), s.up.delivered, part);
    } else {
      Assoc(I.Sent(w.inp), s.down.delivered, part);
    }
  }

  /** What a step of the relay adds to its histories is what it adds to the logs of the sockets. */
  lemma RelayMoves(x: Setup, w: World, d: Destination, s: R.State, ev: R.Event)
    requires R.Enabled(s, ev) && RelayOk(x, w, d, s.up, s.down)
    ensures RelayOk(x, w.(net := RelayLog(w.net, s, ev)), d, R.Step(s, ev).up, R.Step(s, ev).down)
  {
    hide Scripts, I.Recv, I.Sent, Flatten;
    match ev
    case ReadOk(way, chunk) => RelayReads(x, w, d, s, way, chunk);
    case WriteSome(way, k) => RelayWrites(x, w, d, s, way, k);
    case _ =>
  }

  lemma RelayStepKeepsInv(x: Setup, w: World, ev: R.Event)
    requires Inv(x, w) && Enabled(x, w, Relays(ev))
    ensures Inv(x, Step(x, w, Relays(ev)))
  {
    hide I.PhaseOf, I.Inv, I.Recv, I.Sent, Chain.Inv, AllAccepted, Scripts;
    hide R.Inv, R.Step, R.Enabled, RelayOk, RelayLog, Sessions.MajorFor;
    R.StepKeepsInv(w.session.relay, ev);
    RelayMoves(x, w, w.session.dst, w.session.relay, ev);
    var v := w.(net := RelayLog(w.net, w.session.relay, ev));
    SameRelay(x, v, Step(x, w, Relays(ev)), w.session.dst, R.Step(w.session.relay, ev));
  }

  lemma SameRelay(x: Setup, w: World, v: World, d: Destination, s: R.State)
    requires RelayOk(x, w, d, s.up, s.down) && v == w.(session := v.session)
    ensures RelayOk(x, v, d, s.up, s.down)
  {
    hide Scripts, I.Recv, I.Sent;
  }

  lemma StepKeepsInv(x: Setup, w: World, ev: Event)
    requires Inv(x, w) && Enabled(x, w, ev)
    ensures Inv(x, Step(x, w, ev))
  {
    hide Inv, Step, Enabled;
    match ev
    case InMoves(_) => InStepKeepsInv(x, w, ev);
    case InBreaks(_) => InStepKeepsInv(x, w, ev);
    case Resolves(_) => ChainStepKeepsInv(x, w, ev);
    case Connects(_) => ChainStepKeepsInv(x, w, ev);
    case HopMoves(_) => HopStepKeepsInv(x, w, ev);
    case HopBreaks(_) => HopStepKeepsInv(x, w, ev);
    case Relays(e) => RelayStepKeepsInv(x, w, e);
  }

  lemma InitInv(x: Setup)
    ensures Inv(x, Init(x))
  {
    hide I.PhaseOf, I.Inv, I.Recv, I.Sent, AfterInput;
    I.StartInv(x.kind);
    var w := World(Sessions.Requesting, I.Start(x.kind), None, None, [], Net([], [], [], []));
    ListenedKeepsInv(x, w);
  }

  lemma {:induction false} RunKeepsInv(x: Setup, evs: seq<Event>)
    requires Run(x, evs).Some?
    ensures Inv(x, Run(x, evs).value)
  {
    hide Inv, Step, Enabled, Init;
    if evs == [] {
      InitInv(x);
    } else {
      RunKeepsInv(x, evs[..|evs| - 1]);
      StepKeepsInv(x, Run(x, evs[..|evs| - 1]).value, evs[|evs| - 1]);
    }
  }

  // ----- the results -----

  /** `to` is an in-order part of `from`, and lacks at most one buffer. */
  predicate Carried(from: seq<byte>, to: seq<byte>) {
    to <= from && |from| <= |to| + R.BUF_SIZE
  }

  lemma CarriedBehind(all: seq<byte>, head: seq<byte>, tail: seq<byte>)
    requires all == head + tail
    ensures |head| <= |all| && all[..|head|] == head && all[|head|..] == tail
  {
  }

  /** What each side of the relay has got: the beginning of the output stream is the handshakes, the beginning of the
      input stream the reply, and behind them is, in order and without gaps or repetitions, what the other side has
      sent behind its request and behind the answers of the proxies. */
  predicate Transparent(x: Setup, w: World, d: Destination, request: nat)
    requires |w.answers| == |x.chain|
  {
    var script := Scripts(x, d, |x.chain|);
    var answers := Flatten(w.answers);
    var reply := I.Script(x.kind, w.net.inRecv, Succeeded);
    && request <= |w.net.inRecv| && script <= w.net.outSent
    && answers <= w.net.outRecv && reply <= w.net.inSent
    && Carried(w.net.inRecv[request..], w.net.outSent[|script|..])
    && Carried(w.net.outRecv[|answers|..], w.net.inSent[|reply|..])
  }

  lemma DirCarries(d: R.Dir, closed: bool)
    requires R.DirInv(d, closed)
    ensures Carried(d.consumed, d.delivered)
  {
    assert d.consumed == d.delivered + R.InFlight(d.op);
  }

  lemma RelayingIsTransparent(x: Setup, w: World)
    requires Inv(x, w) && w.session.Relaying?
    ensures AllAccepted(x, w.session.dst, w.answers) && |w.answers| == |x.chain|
    ensures var r := I.Request(x.kind, w.net.inRecv);
            r.Some? && r.value.0 == w.session.dst && Transparent(x, w, w.session.dst, r.value.1)
  {
    hide I.Inv, I.Request, I.Script, I.Recv, I.Sent, Chain.Inv, Scripts, AllAccepted, R.DirInv;
    var d := w.session.dst;
    var up, down := w.session.relay.up, w.session.relay.down;
    var recv, sent := I.Recv(w.inp), I.Sent(w.inp);
    I.RequestIsRead(x.kind, w.inp);
    I.ReplyIsWritten(x.kind, w.inp, d, Succeeded);
    I.RequestStable(x.kind, recv, up.consumed);
    DirCarries(up, w.session.relay.closed);
    DirCarries(down, w.session.relay.closed);
    CarriedBehind(w.net.inRecv, recv, up.consumed);
    CarriedBehind(w.net.inSent, sent, down.delivered);
    CarriedBehind(w.net.outRecv, Flatten(w.answers), down.consumed);
    CarriedBehind(w.net.outSent, Scripts(x, d, |x.chain|), up.delivered);
  }

  /** End-to-end transparency in every run that reaches the relay, with the destination being the one that the client's
      own bytes ask for, and every hop having accepted exactly the request for the next one. */
  lemma EndToEndTransparency(x: Setup, evs: seq<Event>)
    requires Run(x, evs).Some? && Run(x, evs).value.session.Relaying?
    ensures var w := Run(x, evs).value;
            var r := I.Request(x.kind, w.net.inRecv);
            && r.Some? && r.value.0 == w.session.dst
            && |w.answers| == |x.chain| && AllAccepted(x, w.session.dst, w.answers)
            && Transparent(x, w, w.session.dst, r.value.1)
  {
    hide Inv, Run, Transparent, AllAccepted, I.Request;
    RunKeepsInv(x, evs);
    RelayingIsTransparent(x, Run(x, evs).value);
  }

  /** When a socket has been shut down for sending, all that came from the other side has been written to it. */
  predicate WholeWhenShut(x: Setup, w: World, request: nat)
    requires w.session.Relaying?
  {
    && request <= |w.net.inRecv| && |Flatten(w.answers)| <= |w.net.outRecv|
    && (w.session.relay.upShut ==> w.net.outSent == Scripts(x, w.session.dst, |x.chain|) + w.net.inRecv[request..])
    && (w.session.relay.downShut ==>
        w.net.inSent == I.Script(x.kind, w.net.inRecv, Succeeded) + w.net.outRecv[|Flatten(w.answers)|..])
  }

  lemma HalfCloseLosesNothing(x: Setup, evs: seq<Event>)
    requires Run(x, evs).Some? && Run(x, evs).value.session.Relaying?
    ensures var w := Run(x, evs).value;
            var r := I.Request(x.kind, w.net.inRecv);
            r.Some? && WholeWhenShut(x, w, r.value.1)
  {
    hide Run, Inv, I.Request, I.Script, Scripts, Flatten;
    RunKeepsInv(x, evs);
    RelayingSplits(x, Run(x, evs).value);
  }

  /** The four logs in the relay, cut where the relay begins. */
  lemma RelayingSplits(x: Setup, w: World)
    requires Inv(x, w) && w.session.Relaying?
    ensures I.Request(x.kind, w.net.inRecv).Some? && I.Request(x.kind, w.net.inRecv).value.1 <= |w.net.inRecv|
    ensures |Flatten(w.answers)| <= |w.net.outRecv|
    ensures var relay := w.session.relay;
            && w.net.inRecv[I.Request(x.kind, w.net.inRecv).value.1..] == relay.up.consumed
            && w.net.outRecv[|Flatten(w.answers)|..] == relay.down.consumed
            && w.net.outSent == Scripts(x, w.session.dst, |x.chain|) + relay.up.delivered
            && w.net.inSent == I.Script(x.kind, w.net.inRecv, Succeeded) + relay.down.delivered
            && (relay.upShut ==> relay.up.delivered == relay.up.consumed)
            && (relay.downShut ==> relay.down.delivered == relay.down.consumed)
  {
    hide I.Inv, I.Request, I.Script, I.Recv, I.Sent, Chain.Inv, Scripts, AllAccepted, Flatten;
    var up, down := w.session.relay.up, w.session.relay.down;
    var recv := I.Recv(w.inp);
    I.RequestIsRead(x.kind, w.inp);
    I.ReplyIsWritten(x.kind, w.inp, w.session.dst, Succeeded);
    I.RequestStable(x.kind, recv, up.consumed);
    CarriedBehind(w.net.inRecv, recv, up.consumed);
    CarriedBehind(w.net.outRecv, Flatten(w.answers), down.consumed);
    assert up.consumed == up.delivered + R.InFlight(up.op) && down.consumed == down.delivered + R.InFlight(down.op);
  }

  lemma RequestOfDestination(x: Setup, w: World)
    requires Inv(x, w) && (w.session.Connecting? || w.session.Replying? || w.session.Relaying?)
    ensures var r := I.Request(x.kind, w.net.inRecv);
            r.Some? && r.value.0 == w.session.dst
  {
    hide I.Request, I.Inv, I.Recv, I.Sent, ConnectingOk, OutputOk, ResultOk, R.Inv, Sessions.MajorFor;
    I.RequestIsRead(x.kind, w.inp);
    if w.session.Relaying? {
      I.RequestStable(x.kind, I.Recv(w.inp), w.session.relay.up.consumed);
    }
  }

  /** A SOCKS5 client is taken where its own bytes ask for exactly if they do not ask for an IPv6 address with a port of
      two different bytes. */
  lemma TakenWhereAsked(x: Setup, evs: seq<Event>)
    requires Run(x, evs).Some? && x.kind.Socks5?
    requires var s := Run(x, evs).value.session; s.Connecting? || s.Replying? || s.Relaying?
    ensures var w := Run(x, evs).value;
            var p := Rfc1928.ParseRequest(w.net.inRecv);
            && p.Done?
            && (w.session.dst == p.value <==>
                p.value.UsingHostname() || p.value.ip.V4? || p.value.port / 0x100 == p.value.port % 0x100)
  {
    hide Run, Inv, Rfc1928.ParseRequest, S.Observed;
    RunKeepsInv(x, evs);
    var w := Run(x, evs).value;
    RequestOfDestination(x, w);
    ObservedUnchanged(Rfc1928.ParseRequest(w.net.inRecv).value);
  }

  lemma ObservedUnchanged(d: Destination)
    ensures S.Observed(d) == d <==> d.UsingHostname() || d.ip.V4? || d.port / 0x100 == d.port % 0x100
  {
  }

  // ----- the route on the wire -----

  lemma {:induction false} AcceptedJobs(x: Setup, d: Destination, answers: seq<seq<byte>>, i: nat)
    requires AllAccepted(x, d, answers) && i < |answers|
    ensures C.StartError(JobAt(x, d, i)).None? && C.Accepted(JobAt(x, d, i), answers[i], Succeeded)
  {
    if i < |answers| - 1 {
      AcceptedJobs(x, d, answers[..|answers| - 1], i);
    }
  }

  lemma {:induction false} ScriptsGrow(x: Setup, d: Destination, i: nat, n: nat)
    requires i <= n <= |x.chain|
    ensures Scripts(x, d, i) <= Scripts(x, d, n)
    decreases n
  {
    if i < n {
      ScriptsGrow(x, d, i, n - 1);
    }
  }

  /** Behind the words of the hops before it, and the greeting and credentials for it, hop `i` finds a request for the
      next hop on its stream, or for the destination if it is the last. */
  predicate AskedOnWire(x: Setup, d: Destination, i: nat, out: seq<byte>)
    requires i < |x.chain| && C.StartError(JobAt(x, d, i)).None?
  {
    var at := |Scripts(x, d, i)| + |C.Preamble(JobAt(x, d, i))|;
    at <= |out| &&
    var p := Rfc1928.ParseConnect(out[at..]);
    p.Done? && SameTarget(p.value, Chain.Target(Plan(x, d), i + 1))
  }

  /** In the relay every hop has been asked, on the output socket and in order, for the next. */
  lemma RouteOnTheWire(x: Setup, evs: seq<Event>, i: nat)
    requires Run(x, evs).Some? && Run(x, evs).value.session.Relaying? && i < |x.chain|
    ensures var w := Run(x, evs).value;
            C.StartError(JobAt(x, w.session.dst, i)).None? && AskedOnWire(x, w.session.dst, i, w.net.outSent)
  {
    hide Inv, Run, AllAccepted, I.Request, Scripts, AskedOnWire;
    hide Rfc1928.ParseConnect, Rfc1928.ConnectFrame, C.Preamble, C.Accepted;
    EndToEndTransparency(x, evs);
    var w := Run(x, evs).value;
    var d := w.session.dst;
    AcceptedJobs(x, d, w.answers, i);
    ScriptIsSent(x, w, d, i);
  }

  lemma ScriptIsSent(x: Setup, w: World, d: Destination, i: nat)
    requires i < |x.chain| && Scripts(x, d, |x.chain|) <= w.net.outSent && C.StartError(JobAt(x, d, i)).None?
    ensures AskedOnWire(x, d, i, w.net.outSent)
  {
    hide Rfc1928.ParseConnect, Rfc1928.ConnectFrame, C.Preamble;
    var job: C.Job := JobAt(x, d, i);
    ScriptsGrow(x, d, i + 1, |x.chain|);
    var out := w.net.outSent;
    var frame := Rfc1928.ConnectFrame(job.dst);
    var head := Scripts(x, d, i);
    Located(out, head, C.Preamble(job), frame);
    Rfc1928.ConnectRoundTrip(job.dst, out[|head| + |C.Preamble(job)|..][|frame|..]);
  }

  lemma Located(out: seq<byte>, head: seq<byte>, pre: seq<byte>, frame: seq<byte>)
    requires head + (pre + frame) <= out
    ensures |head| + |pre| + |frame| <= |out|
    ensures var rest := out[|head| + |pre|..]; rest == frame + rest[|frame|..]
  {
    var rest := out[|head| + |pre|..];
    forall i | 0 <= i < |frame| ensures rest[i] == frame[i] {
      assert rest[i] == out[|head| + |pre| + i] == (head + (pre + frame))[|head| + |pre| + i];
    }
  }

  // ----- honesty -----

  lemma ToldIsTrue(x: Setup, w: World)
    requires Inv(x, w) && I.Told(w.inp).Some?
    ensures w.chain.Some? && |w.chain.value.calls| == 1
    ensures var r := w.chain.value.calls[0];
            && Chain.Honest(Plan(x, I.PhaseOf(w.inp).dst), w.chain.value, r)
            && I.Told(w.inp).value == Sessions.MajorFor(r) && (I.Told(w.inp).value == Succeeded <==> r.success)
  {
    hide I.Inv, InputOk, OutputOk, RelayOk, R.Inv, AllAccepted, Chain.Honest, Sessions.MajorFor;
    var r := w.chain.value.calls[0];
    Sessions.HonestReply(Plan(x, I.PhaseOf(w.inp).dst), w.chain.value, r);
  }

  lemma SentByInput(x: Setup, w: World)
    requires Inv(x, w)
    ensures I.Inv(x.kind, w.inp) && I.Sent(w.inp) <= w.net.inSent
    ensures !w.session.Relaying? ==> w.net.inSent == I.Sent(w.inp)
    ensures w.session.Relaying? ==> I.PhaseOf(w.inp) == I.Replied(w.session.dst, Succeeded, None)
  {
    hide I.Inv, I.PhaseOf, ResultOk, ConnectingOk, R.Inv;
  }

  /** The reply of a finished write is long enough to hold the answer. */
  lemma ReplyIsLong(k: I.Kind, e: I.End, d: Destination)
    requires I.Inv(k, e) && I.PhaseOf(e) == I.Replied(d, Succeeded, None)
    ensures k.Socks5? ==> |I.Sent(e)| >= 4
    ensures k.Https? ==> |I.Sent(e)| >= 10
  {
    hide I.Inv, I.PhaseOf, I.Request, Rfc1928.ParseRequest, H.ParseHttps, H.ReplyText;
    I.RequestIsRead(k, e);
    I.ReplyIsWritten(k, e, d, Succeeded);
    if k.Https? {
      HttpsScript(I.Recv(e), d);
    }
  }

  lemma HttpsScript(s: seq<byte>, d: Destination)
    requires I.Request(I.Https, s).Some?
    ensures |I.Script(I.Https, s, Succeeded)| > 9
  {
    hide H.ParseHttps, H.ReplyText;
    H.HonestStatus(H.ParseHttps(s).value.version, Succeeded);
  }

  /** Whatever happens, a client that has received an answer has received the truth: the connect handler has been called
      exactly once, and the reply code is 0 (the status code is 200) exactly if the chain has led to the destination. */
  lemma HonestAnswer(x: Setup, evs: seq<Event>)
    requires Run(x, evs).Some?
    requires (x.kind.Socks5? && |Run(x, evs).value.net.inSent| >= 4) || (x.kind.Https? && |Run(x, evs).value.net.inSent| >= 10)
    ensures var w := Run(x, evs).value;
            && w.chain.Some? && |w.chain.value.calls| == 1
            && var r := w.chain.value.calls[0];
               && I.Told(w.inp).Some? && Chain.Honest(Plan(x, I.PhaseOf(w.inp).dst), w.chain.value, r)
               && (x.kind.Socks5? ==> (w.net.inSent[3] == 0 <==> r.success))
               && (x.kind.Https? ==> (w.net.inSent[9] == '2' as int <==> r.success))
  {
    hide Inv, Run, Chain.Honest, I.Inv, I.PhaseOf, I.Told, I.Sent;
    var w := Run(x, evs).value;
    RunKeepsInv(x, evs);
    SentByInput(x, w);
    if w.session.Relaying? {
      ReplyIsLong(x.kind, w.inp, w.session.dst);
    }
    I.AnswerIsTold(x.kind, w.inp);
    ToldIsTrue(x, w);
    RepIsZero(I.Told(w.inp).value);
  }

  lemma RepIsZero(m: Major)
    ensures S.MajorToRep(m) == 0 <==> m == Succeeded
  {
  }

  // ----- no two users of a socket, and no deadlock -----

  /** The input reads and writes only before the chain is connected and for the reply; in the relay nobody but the relay
      uses the sockets, so that no handshake can take a byte of the payload. */
  lemma OneUserPerSocket(x: Setup, evs: seq<Event>)
    requires Run(x, evs).Some?
    ensures var w := Run(x, evs).value;
            && (!w.session.Requesting? && !w.session.Replying? ==> I.OpOf(w.inp).Rest?)
            && (w.session.Relaying? || w.session.Requesting? ==> w.hop.None?)
            && (w.hop.Some? ==> I.OpOf(w.inp).Rest? || w.session.Replying?)
  {
    hide Run, Inv;
    RunKeepsInv(x, evs);
    InvOneUser(x, Run(x, evs).value);
  }

  lemma InvOneUser(x: Setup, w: World)
    requires Inv(x, w)
    ensures !w.session.Requesting? && !w.session.Replying? ==> I.OpOf(w.inp).Rest?
    ensures w.session.Relaying? || w.session.Requesting? ==> w.hop.None?
  {
    hide I.Inv, I.PhaseOf, I.OpOf, ConnectingOk, OutputOk, RelayOk, R.Inv, AllAccepted, Chain.Inv;
    SentByInput(x, w);
    I.BusyPhases(x.kind, w.inp);
  }

  /** The client has sent a request line that names a host which the scanner of addresses never gets past. */
  ghost predicate Hangs(x: Setup, w: World) {
    x.kind.Https? && H.HangingLine(w.net.inRecv)
  }

  lemma InvHangs(x: Setup, w: World)
    requires Inv(x, w)
    ensures Hangs(x, w) <==> w.session.Requesting? && I.PhaseOf(w.inp).Hung?
  {
    hide I.Inv, I.PhaseOf, I.Recv, I.Sent, I.Request, H.HangingLine, ConnectingOk, OutputOk, ResultOk, R.Inv, ToldTruth;
    I.HungExactly(x.kind, w.inp);
    if w.session.Relaying? {
      RequestOfDestination(x, w);
      if x.kind.Https? {
        I.RequestDoesNotHang(w.net.inRecv);
      }
    }
  }

  /** A connection hangs exactly if what the client has sent is a line that names such a host: everything else ends, or
      can go on. */
  lemma HungExactly(x: Setup, evs: seq<Event>)
    requires Run(x, evs).Some?
    ensures var w := Run(x, evs).value;
            w.session.Requesting? && I.PhaseOf(w.inp).Hung? <==> x.kind.Https? && H.HangingLine(w.net.inRecv)
  {
    hide Run, Inv;
    RunKeepsInv(x, evs);
    InvHangs(x, Run(x, evs).value);
  }

  /** Nothing is outstanding any more; or the reader of addresses does not return. */
  ghost predicate Over(x: Setup, w: World) {
    w.session.Closed? || (w.session.Relaying? && R.Quiet(w.session.relay)) || Hangs(x, w)
  }

  /** Bytes move, or a name is resolved or a connection made: not a failure, and not the end of a stream. */
  predicate Succeeds(ev: Event) {
    match ev
    case InMoves(_) => true
    case InBreaks(_) => false
    case Resolves(a) => a.Ok?
    case Connects(e) => e.None?
    case HopMoves(_) => true
    case HopBreaks(_) => false
    case Relays(e) => e.ReadOk? || e.WriteSome?
  }

  /** The relay has closed the sockets: what is outstanding may only fail. */
  predicate Closing(w: World) {
    w.session.Relaying? && w.session.relay.closed
  }

  lemma InputCanMove(x: Setup, w: World, b: byte) returns (ev: Event)
    requires I.Inv(x.kind, w.inp) && (w.session.Requesting? || w.session.Replying?)
    requires I.PhaseOf(w.inp).Reading? || I.PhaseOf(w.inp).Replying?
    ensures ev.InMoves? && Enabled(x, w, ev) && (I.OpOf(w.inp).Read? ==> ev.chunk == [b])
  {
    hide I.Inv, I.PhaseOf, I.OpOf, I.CanMove;
    I.BusyPhases(x.kind, w.inp);
    var chunk := I.CanGoOn(x.kind, w.inp, b);
    ev := InMoves(chunk);
  }

  /** A hop that is asked can always be served. */
  lemma HopCanMove(x: Setup, w: World, b: byte) returns (ev: Event)
    requires Inv(x, w) && w.session.Connecting? && w.hop.Some?
    ensures ev.HopMoves? && Enabled(x, w, ev)
    ensures var h := w.hop.value; C.OpOf(h.job, h.end.st).Read? ==> ev.chunk == [b]
    ensures var h := w.hop.value; C.OpOf(h.job, h.end.st).Write? ==> h.end.acc + ev.chunk == C.OpOf(h.job, h.end.st).bytes
  {
    hide InputOk, I.PhaseOf, OutputOk, C.At, C.Said, C.OpOf, HopWrites, HopCan;
    HopCanAlways(x, w);
    var h := w.hop.value;
    var chunk := FittingChunk(h.end, C.OpOf(h.job, h.end.st), b);
    ev := HopMoves(chunk);
  }

  lemma HopCanAlways(x: Setup, w: World)
    requires Inv(x, w) && w.session.Connecting?
    ensures HopCan(x, w) <==> w.hop.Some?
  {
    hide InputOk, I.PhaseOf, OutputOk, C.Inv, C.OpOf, HopWrites;
  }

  lemma ConnectingCanMove(x: Setup, w: World) returns (ev: Event)
    requires Inv(x, w) && w.session.Connecting?
    ensures Enabled(x, w, ev) && Succeeds(ev)
  {
    hide InputOk, I.PhaseOf, OutputOk, C.Inv, C.OpOf, HopWrites, HopCan, HopFits;
    match w.chain.value.pending
    case Resolving(_, _, _) => ev := Resolves(Ok(NO_DESTINATION.ip));
    case Connecting(_, _, _) => ev := Connects(None);
    case Asking(_, _) => ev := HopCanMove(x, w, 0);
    case Awaiting(_) => ev := HopCanMove(x, w, 0);
  }

  lemma RelayCanMove(s: R.State) returns (ev: R.Event)
    requires R.Inv(s) && !R.Quiet(s)
    ensures R.Enabled(s, ev) && (s.closed || ev.ReadOk? || ev.WriteSome?)
  {
    var way := if s.up.op.Ended? || s.up.op.Broken? then R.Down else R.Up;
    var d := R.Get(s, way);
    if d.doomed {
      ev := if d.op.Reading? then R.ReadFails(way) else R.WriteFails(way);
    } else {
      ev := if d.op.Reading? then R.ReadOk(way, [0]) else R.WriteSome(way, |d.op.buf| - d.op.done);
    }
  }

  lemma NotOverCanGoOn(x: Setup, w: World) returns (ev: Event)
    requires Inv(x, w) && !Over(x, w)
    ensures Enabled(x, w, ev) && (Succeeds(ev) || Closing(w))
  {
    hide ConnectingOk, OutputOk, RelayOk, ResultOk, I.PhaseOf, R.Inv, R.Quiet, I.Inv, Sessions.MajorFor, I.CanMove, Hangs;
    InvHangs(x, w);
    match w.session
    case Requesting => ev := InputCanMove(x, w, 0);
    case Connecting(_) => ev := ConnectingCanMove(x, w);
    case Replying(_, _, _) => ev := InputCanMove(x, w, 0);
    case Relaying(_, _, _, relay) =>
      var e := RelayCanMove(relay);
      ev := Relays(e);
  }

  /** A connection is stuck only when it is over: closed, quiet in both directions, or hung on the line that the client
      has sent. */
  lemma StuckOnlyWhenOver(x: Setup, evs: seq<Event>)
    requires Run(x, evs).Some?
    ensures var w := Run(x, evs).value;
            Over(x, w) <==> forall ev :: !Enabled(x, w, ev)
  {
    hide Run, Inv, Over;
    RunKeepsInv(x, evs);
    var w := Run(x, evs).value;
    if Over(x, w) {
      OverIsStuck(x, w);
    } else {
      var ev := NotOverCanGoOn(x, w);
    }
  }

  /** Nobody waits for an operation that can only fail: unless the connection is over, or the relay has closed the sockets,
      bytes can move or the connection can be made. */
  lemma SuccessIsPossible(x: Setup, evs: seq<Event>) returns (ev: Event)
    requires Run(x, evs).Some? && !Over(x, Run(x, evs).value) && !Closing(Run(x, evs).value)
    ensures Enabled(x, Run(x, evs).value, ev) && Succeeds(ev)
  {
    hide Run, Inv, Over, Enabled;
    RunKeepsInv(x, evs);
    ev := NotOverCanGoOn(x, Run(x, evs).value);
  }

  lemma OverDisables(x: Setup, w: World, ev: Event)
    requires Inv(x, w) && Over(x, w)
    ensures !Enabled(x, w, ev)
  {
    hide InputOk, RelayOk, ResultOk, ConnectingOk, ToldTruth, Sound, Fits, Hangs;
    hide I.PhaseOf, I.Inv, I.CanMove, I.OpOf, R.Inv, R.Quiet, R.Enabled, C.OpOf, Sessions.MajorFor;
    InvHangs(x, w);
    match w.session
    case Requesting =>
      InputInv(x, w);
      I.BusyPhases(x.kind, w.inp);
      RestingInput(w.inp);
    case Relaying(_, _, _, relay) => R.QuietIsStuck(relay);
    case _ =>
  }

  lemma RestingInput(e: I.End)
    requires I.OpOf(e).Rest?
    ensures forall chunk :: !I.CanMove(e, chunk)
  {
  }

  lemma InputInv(x: Setup, w: World)
    requires InputOk(x, w)
    ensures I.Inv(x.kind, w.inp)
  {
  }

  lemma OverIsStuck(x: Setup, w: World)
    requires Inv(x, w) && Over(x, w)
    ensures forall ev :: !Enabled(x, w, ev)
  {
    hide Inv, Over, Enabled;
    forall ev ensures !Enabled(x, w, ev) {
      OverDisables(x, w, ev);
    }
  }
}
