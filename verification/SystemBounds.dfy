/** How long a connection can take to be set up: a bound on the number of events before the relay, in any run. */
module SystemBounds {
  import opened Bytes
  import opened Wire
  import opened IpAddresses
  import opened Proxy
  import Rfc1928
  import RequestLine
  import S = Socks5Server
  import H = HttpsServer
  import C = Socks5Client
  import R = Relay
  import I = Input
  import Chain
  import Sessions
  import opened System

  /** The most bytes of a SOCKS5 greeting and request, of what an input says, and of what a hop hears and answers. */
  const MAX_REQUEST: nat := 519
  const MAX_REPLY: nat := 100
  const MAX_SCRIPT: nat := 778
  const MAX_ANSWERS: nat := 266

  // ----- events are counted by bytes -----

  function Traffic(n: Net): nat {
    |n.inRecv| + |n.inSent| + |n.outRecv| + |n.outSent|
  }

  /** How many events without bytes there can still be before the relay: the request or the reply failing, resolving,
      connecting, a hop failing. */
  function Silent(w: World): nat {
    match w.session
    case Requesting => 4
    case Connecting(_) =>
      if w.chain.None? then 4
      else if w.chain.value.pending.Resolving? then 4
      else if w.chain.value.pending.Connecting? then 3
      else 2
    case Replying(_, _, _) => 1
    case Relaying(_, _, _, _) => 0
    case Closed => 0
  }

  lemma AfterInputQuiet(x: Setup, w: World)
    ensures AfterInput(x, w).net == w.net
    ensures Silent(AfterInput(x, w)) <= Silent(w)
  {
    hide I.PhaseOf;
  }

  lemma ConcludeQuiet(x: Setup, w: World, r: Chain.ConnectResult)
    requires w.session.Connecting? && I.HasRequest(w.inp)
    ensures Conclude(x, w, r).net == w.net && Silent(Conclude(x, w, r)) <= 1
  {
    hide I.PhaseOf, I.HasRequest, AfterInput;
    var s := Sessions.Step(w.session, Sessions.GotResult(r));
    AfterInputQuiet(x, w.(session := s, inp := I.Respond(w.inp, s.major)));
  }

  /** What the chain's new state costs. */
  function Cost(c: Chain.State): nat {
    if c.pending.Resolving? then 4 else if c.pending.Connecting? then 3 else 2
  }

  lemma AskQuiet(x: Setup, w: World, c: Chain.State)
    requires w.session.Connecting? && w.chain == Some(c) && c.pending.Asking? && c.cur < |x.chain|
    ensures Ask(x, w, c).net == w.net && Silent(Ask(x, w, c)) <= 2
  {
    hide I.HasRequest, Conclude;
    match C.StartError(JobAt(x, w.session.dst, c.cur))
    case None =>
    case Some(e) =>
      var f := Chain.Step(Plan(x, w.session.dst), c, Chain.Written(Some(e)));
      if f.calls != [] && I.HasRequest(w.inp) {
        ConcludeQuiet(x, w.(chain := Some(f), hop := None), f.calls[0]);
      }
  }

  lemma AfterChainQuiet(x: Setup, w: World, c: Chain.State)
    requires w.session.Connecting?
    ensures AfterChain(x, w, c).net == w.net && Silent(AfterChain(x, w, c)) <= Cost(c)
    ensures c.pending.Idle? && c.calls != [] && I.HasRequest(w.inp) ==> Silent(AfterChain(x, w, c)) <= 1
  {
    hide I.HasRequest, Conclude, Ask;
    var v := w.(chain := Some(c));
    if c.pending.Asking? && c.cur < |x.chain| {
      AskQuiet(x, v, c);
    } else if c.pending.Idle? && c.calls != [] && I.HasRequest(v.inp) {
      ConcludeQuiet(x, v, c.calls[0]);
    }
  }

  lemma AfterHopQuiet(x: Setup, w: World, h: Hop)
    requires w.session.Connecting? && w.chain.Some? && w.chain.value.cur < |x.chain|
    requires w.chain.value.pending.Asking? || w.chain.value.pending.Awaiting?
    ensures AfterHop(x, w, h).net == w.net && Silent(AfterHop(x, w, h)) <= 2
  {
    hide AfterChain;
    var c := w.chain.value;
    var v := w.(hop := Some(h));
    var p := Plan(x, w.session.dst);
    match h.end.st
    case Written(f) =>
      if c.pending.Asking? && f.Some? {
        AfterChainQuiet(x, v, Chain.Step(p, c, Chain.Written(f)));
      }
    case Answered(r) =>
      if c.pending.Awaiting? {
        AfterChainQuiet(x, v, Chain.Step(p, c, Chain.Responded(r)));
        AfterChainQuiet(x, v.(hop := None, answers := v.answers + [h.end.recv]), Chain.Step(p, c, Chain.Responded(r)));
      }
    case _ =>
  }

  /** A failed hop ends the chain. */
  lemma FailedHopQuiet(x: Setup, w: World, h: Hop)
    requires w.session.Connecting? && w.chain.Some? && w.chain.value.cur < |x.chain| && I.HasRequest(w.inp)
    requires w.chain.value.pending.Asking? || w.chain.value.pending.Awaiting?
    requires if w.chain.value.pending.Asking? then h.end.st.Written? && h.end.st.failure.Some?
             else h.end.st.Answered? && h.end.st.result.Err?
    ensures Silent(AfterHop(x, w, h)) <= 1
  {
    hide AfterChain, I.HasRequest;
    var c := w.chain.value;
    var e := if c.pending.Asking? then Chain.Written(h.end.st.failure) else Chain.Responded(h.end.st.result);
    AfterChainQuiet(x, w.(hop := Some(h)), Chain.Step(Plan(x, w.session.dst), c, e));
  }

  /** Every event before the relay carries a byte or uses up one of the silent ones. */
  lemma EventCounts(x: Setup, w: World, ev: Event)
    requires Inv(x, w) && Enabled(x, w, ev) && !ev.Relays?
    ensures var v := Step(x, w, ev);
            Traffic(v.net) + Silent(w) > Traffic(w.net) + Silent(v)
  {
    hide Inv, AfterInput, AfterChain, AfterHop, I.CanMove, I.OpOf, I.PhaseOf, C.OpOf, C.Advance, C.Break, Chain.Step;
    match ev
    case InMoves(chunk) =>
      ChunkIsSome(w.inp, chunk);
      AfterInputQuiet(x, w.(inp := I.Advance(w.inp, chunk), net := InLog(w.net, I.OpOf(w.inp), chunk)));
    case InBreaks(err) => InBreakCounts(x, w, err);
    case Resolves(a) =>
      ResolvedCost(x, w, a);
      AfterChainQuiet(x, w, Chain.Step(Plan(x, w.session.dst), w.chain.value, Chain.Resolved(a)));
    case Connects(e) =>
      ConnectedCost(x, w, e);
      AfterChainQuiet(x, w, Chain.Step(Plan(x, w.session.dst), w.chain.value, Chain.Connected(e)));
    case HopMoves(chunk) =>
      var h := w.hop.value;
      AfterHopQuiet(x, w.(net := OutLog(w.net, C.OpOf(h.job, h.end.st), chunk)), h.(end := C.Advance(h.job, h.end, chunk)));
    case HopBreaks(err) => HopBreakCounts(x, w, err);
  }

  lemma ChunkIsSome(e: I.End, chunk: seq<byte>)
    requires I.CanMove(e, chunk)
    ensures chunk != []
  {
  }

  lemma InBreakCounts(x: Setup, w: World, err: Error)
    requires Inv(x, w) && Enabled(x, w, InBreaks(err))
    ensures var v := Step(x, w, InBreaks(err)); v.net == w.net && Silent(v) < Silent(w)
  {
    hide InputOk, OutputOk, ResultOk, Sessions.MajorFor, I.PhaseOf, I.OpOf, I.Break;
    I.BreakFollows(w.inp, err);
  }

  lemma ResolvedCost(x: Setup, w: World, a: Result<Address>)
    requires Enabled(x, w, Resolves(a))
    ensures Cost(Chain.Step(Plan(x, w.session.dst), w.chain.value, Chain.Resolved(a))) < Silent(w)
  {
  }

  lemma ConnectedCost(x: Setup, w: World, e: Option<Error>)
    requires Enabled(x, w, Connects(e))
    ensures Cost(Chain.Step(Plan(x, w.session.dst), w.chain.value, Chain.Connected(e))) < Silent(w)
  {
  }

  lemma HopBreakCounts(x: Setup, w: World, err: Error)
    requires Inv(x, w) && Enabled(x, w, HopBreaks(err))
    ensures var v := Step(x, w, HopBreaks(err)); v.net == w.net && Silent(v) < Silent(w)
  {
    hide InputOk, OutputOk, C.Inv, Chain.Inv, AfterHop, C.OpOf, HopWrites, C.OnError, I.PhaseOf;
    var h := w.hop.value;
    var g := h.(end := C.Break(h.end, err));
    HopBroken(h.job, h.end.st, err);
    AfterHopQuiet(x, w, g);
    FailedHopQuiet(x, w, g);
  }

  lemma {:induction false} EventsAreCounted(x: Setup, evs: seq<Event>)
    requires Run(x, evs).Some? && !Run(x, evs).value.session.Relaying?
    ensures var w := Run(x, evs).value;
            |evs| + Silent(w) <= Traffic(w.net) + 4
  {
    hide Inv, Step, Enabled, Init, Traffic;
    if evs == [] {
      InitSilent(x);
    } else {
      var before := evs[..|evs| - 1];
      var w := Run(x, before).value;
      var ev := evs[|evs| - 1];
      RunKeepsInv(x, before);
      RelayStays(x, w, ev);
      EventsAreCounted(x, before);
      EventCounts(x, w, ev);
    }
  }

  lemma InitSilent(x: Setup)
    ensures Silent(Init(x)) <= 4
  {
    hide AfterInput;
    AfterInputQuiet(x, World(Sessions.Requesting, I.Start(x.kind), None, None, [], Net([], [], [], [])));
  }

  /** The relay is never left, and only the relay has events of the relay. */
  lemma RelayStays(x: Setup, w: World, ev: Event)
    requires Enabled(x, w, ev)
    ensures w.session.Relaying? ==> Step(x, w, ev).session.Relaying?
    ensures ev.Relays? <==> w.session.Relaying?
  {
    hide AfterInput, AfterChain, AfterHop, R.Enabled;
  }

  // ----- how many bytes there can be -----

  /** A request is either still incomplete and short, or done or refused within its greatest length. */
  lemma RequestLength(s: seq<byte>)
    ensures Rfc1928.ParseRequest(s).More? ==> |s| < MAX_REQUEST
    ensures !Rfc1928.ParseRequest(s).More? ==> Rfc1928.ParseRequest(s).used <= MAX_REQUEST
  {
    hide Rfc1928.ParseConnect;
    var g := Rfc1928.ParseGreeting(s);
    if g.Done? && g.used <= |s| {
      ConnectLength(s[g.used..]);
    }
  }

  lemma ConnectLength(s: seq<byte>)
    ensures Rfc1928.ParseConnect(s).More? ==> |s| < 262
    ensures !Rfc1928.ParseConnect(s).More? ==> Rfc1928.ParseConnect(s).used <= 262
  {
  }

  lemma ReplyLength(s: seq<byte>)
    ensures Rfc1928.ParseReply(s).More? ==> |s| < 262
    ensures !Rfc1928.ParseReply(s).More? ==> Rfc1928.ParseReply(s).used <= 262
  {
  }

  lemma AnswersLength(j: C.Job, s: seq<byte>)
    ensures C.ParseAnswers(j, s).More? ==> |s| < MAX_ANSWERS
    ensures !C.ParseAnswers(j, s).More? ==> C.ParseAnswers(j, s).used <= MAX_ANSWERS
  {
    hide Rfc1928.ParseReply;
    var a := C.ParseAuth(j, s);
    if a.Done? && a.used <= |s| {
      ReplyLength(s[a.used..]);
    }
  }

  lemma ServerTook(s: S.End)
    requires S.Inv(s)
    ensures |s.recv| <= MAX_REQUEST
  {
    hide Rfc1928.ParseRequest, S.Said, S.Observed;
    var op := S.OpOf(s.st);
    RequestLength(s.recv);
    if op.Read? {
      S.WantsMore(s.st, Taken(s, op), s.acc);
      LogEndsWithAcc(s, op);
    } else if s.st.GreetReply? {
      GreetingLength(s.recv);
    }
  }

  lemma GreetingLength(c: seq<byte>)
    requires Rfc1928.ParseGreeting(c).Done? && Rfc1928.ParseGreeting(c).used == |c|
    ensures |c| <= 257
  {
  }

  lemma ServerSaid(s: S.End)
    requires S.Inv(s)
    ensures |s.sent| <= 12
  {
    hide S.At;
    var op := S.OpOf(s.st);
    if op.Write? {
      LogEndsWithAcc(s, op);
    }
  }

  lemma ReplyTextLength(v: RequestLine.Version, m: Major)
    ensures |H.ReplyText(v, m)| <= MAX_REPLY
  {
  }

  lemma HttpsSaid(h: H.End)
    requires H.Inv(h)
    ensures |h.sent| <= MAX_REPLY
  {
    hide H.At, H.ReplyText;
    var op := H.OpOf(h.st);
    if op.Write? {
      LogEndsWithAcc(h, op);
      ReplyTextLength(h.st.version, h.st.major);
    }
    if h.st.Replied? {
      ReplyTextLength(h.st.version, h.st.major);
    }
  }

  lemma InputSaid(k: I.Kind, e: I.End)
    requires I.Inv(k, e)
    ensures |I.Sent(e)| <= MAX_REPLY && (!k.Https? ==> |I.Recv(e)| <= MAX_REQUEST)
  {
    hide S.Inv, H.Inv;
    match e
    case ForTunnel(_, _) =>
    case ForSocks5(s) =>
      ServerTook(s);
      ServerSaid(s);
    case ForHttps(h) => HttpsSaid(h);
  }

  lemma ScriptLength(j: C.Job)
    ensures |C.Script(j)| <= MAX_SCRIPT
  {
  }

  lemma HopTook(j: C.Job, e: C.End)
    requires C.Inv(j, e)
    ensures |e.recv| <= MAX_ANSWERS && |e.sent| <= MAX_SCRIPT
  {
    hide C.Inv, C.ParseAnswers, C.Script, C.OpOf;
    ScriptLength(j);
    AnswersLength(j, e.recv);
    if !C.OpOf(j, e.st).Rest? {
      C.UnfinishedWantsMore(j, e);
    } else {
      RestingTook(j, e);
    }
  }

  lemma RestingTook(j: C.Job, e: C.End)
    requires C.Inv(j, e) && C.OpOf(j, e.st).Rest?
    ensures |e.recv| <= MAX_ANSWERS && e.sent <= C.Script(j)
  {
    hide C.ParseAnswers, C.Script, C.RepToMajor;
    AnswersLength(j, e.recv);
    if e.st.Written? {
      AuthLength(j, e.recv);
    }
  }

  lemma AuthLength(j: C.Job, s: seq<byte>)
    ensures C.ParseAuth(j, s).More? ==> |s| < 4
    ensures !C.ParseAuth(j, s).More? ==> C.ParseAuth(j, s).used <= 4
  {
  }

  lemma {:induction false} HandshakesLength(x: Setup, d: Destination, n: nat, answers: seq<seq<byte>>)
    requires n <= |x.chain| && AllAccepted(x, d, answers)
    ensures |Scripts(x, d, n)| <= MAX_SCRIPT * n && |Flatten(answers)| <= MAX_ANSWERS * |answers|
    decreases n + |answers|
  {
    hide C.Script, C.Accepted;
    if n > 0 {
      HandshakesLength(x, d, n - 1, answers);
      if C.StartError(JobAt(x, d, n - 1)).None? {
        ScriptLength(JobAt(x, d, n - 1));
      }
    }
    if answers != [] {
      var i := |answers| - 1;
      HandshakesLength(x, d, n, answers[..i]);
      AcceptedLength(JobAt(x, d, i), answers[i]);
    }
  }

  lemma AcceptedLength(j: C.Job, c: seq<byte>)
    requires C.Accepted(j, c, Succeeded)
    ensures |c| <= MAX_ANSWERS
  {
    hide C.ParseAnswers;
    AnswersLength(j, c);
  }

  /** What the output socket can have carried before the relay. */
  predicate OutputSmall(x: Setup, n: Net) {
    |n.outRecv| <= MAX_ANSWERS * |x.chain| && |n.outSent| <= MAX_SCRIPT * |x.chain|
  }

  lemma MovedHopSmall(x: Setup, w: World, d: Destination, n: Net, job: C.Job, e: C.End)
    requires AllAccepted(x, d, w.answers) && |w.answers| < |x.chain| && C.Inv(job, e)
    requires n.outRecv == Flatten(w.answers) + e.recv && n.outSent == Scripts(x, d, |w.answers|) + e.sent
    ensures OutputSmall(x, n)
  {
    hide AllAccepted, Scripts, Flatten, C.Inv;
    HandshakesLength(x, d, |w.answers|, w.answers);
    HopTook(job, e);
  }

  lemma HopStepSmall(x: Setup, w: World, chunk: seq<byte>)
    requires Inv(x, w) && Enabled(x, w, HopMoves(chunk))
    ensures OutputSmall(x, Step(x, w, HopMoves(chunk)).net)
  {
    hide InputOk, I.PhaseOf, Chain.Inv, C.Inv, AllAccepted, Scripts, Flatten, HopWrites, C.OpOf, AfterHop, Moved, C.Advance;
    var d := w.session.dst;
    var h := w.hop.value;
    AdvancedIsMoved(h, chunk);
    var g := h.(end := C.Advance(h.job, h.end, chunk));
    MovedIsInv(g, HopWrites(h.end.st));
    MovedOutput(x, w, d, chunk, C.OpOf(h.job, h.end.st), g.end);
    var n := OutLog(w.net, C.OpOf(h.job, h.end.st), chunk);
    MovedHopSmall(x, w, d, n, g.job, g.end);
    AfterHopQuiet(x, w.(net := n), g);
  }

  lemma MovedIsInv(h: Hop, asking: bool)
    requires Moved(h, asking)
    ensures C.Inv(h.job, h.end)
  {
  }

  lemma StepSmall(x: Setup, w: World, ev: Event)
    requires Inv(x, w) && Enabled(x, w, ev) && !ev.Relays? && OutputSmall(x, w.net)
    ensures OutputSmall(x, Step(x, w, ev).net)
  {
    hide Inv, AfterInput, AfterChain, I.CanMove, I.OpOf, I.PhaseOf, Chain.Step, AfterHop;
    match ev
    case InMoves(chunk) =>
      AfterInputQuiet(x, w.(inp := I.Advance(w.inp, chunk), net := InLog(w.net, I.OpOf(w.inp), chunk)));
    case InBreaks(err) => AfterInputQuiet(x, w.(inp := I.Break(w.inp, err)));
    case Resolves(a) =>
      AfterChainQuiet(x, w, Chain.Step(Plan(x, w.session.dst), w.chain.value, Chain.Resolved(a)));
    case Connects(e) =>
      AfterChainQuiet(x, w, Chain.Step(Plan(x, w.session.dst), w.chain.value, Chain.Connected(e)));
    case HopMoves(chunk) => HopStepSmall(x, w, chunk);
    case HopBreaks(err) =>
      var h := w.hop.value;
      AfterHopQuiet(x, w, h.(end := C.Break(h.end, err)));
  }

  lemma {:induction false} OutputStaysSmall(x: Setup, evs: seq<Event>)
    requires Run(x, evs).Some? && !Run(x, evs).value.session.Relaying?
    ensures OutputSmall(x, Run(x, evs).value.net)
  {
    hide Inv, Step, Enabled, Init, OutputSmall;
    if evs == [] {
      InitSmall(x);
    } else {
      var before := evs[..|evs| - 1];
      RunKeepsInv(x, before);
      RelayStays(x, Run(x, before).value, evs[|evs| - 1]);
      OutputStaysSmall(x, before);
      StepSmall(x, Run(x, before).value, evs[|evs| - 1]);
    }
  }

  lemma InitSmall(x: Setup)
    ensures OutputSmall(x, Init(x).net)
  {
    hide AfterInput;
    AfterInputQuiet(x, World(Sessions.Requesting, I.Start(x.kind), None, None, [], Net([], [], [], [])));
  }

  lemma InputSmall(x: Setup, w: World)
    requires Inv(x, w) && !w.session.Relaying?
    ensures |w.net.inSent| <= MAX_REPLY && (!x.kind.Https? ==> |w.net.inRecv| <= MAX_REQUEST)
  {
    hide I.Inv, I.PhaseOf, I.Recv, I.Sent, ConnectingOk, OutputOk, ResultOk, ToldTruth;
    InputSaid(x.kind, w.inp);
  }

  /** Before the relay there are at most as many events as bytes of the greatest handshakes, and four more: with a SOCKS5
      or tunnel input every run that does not reach the relay ends; with an HTTPS input it ends unless the client goes on
      sending header lines for ever. */
  lemma SetupIsBounded(x: Setup, evs: seq<Event>)
    requires Run(x, evs).Some? && !Run(x, evs).value.session.Relaying?
    ensures |evs| <= |Run(x, evs).value.net.inRecv| + MAX_REPLY + (MAX_ANSWERS + MAX_SCRIPT) * |x.chain| + 4
    ensures !x.kind.Https? ==> |evs| <= MAX_REQUEST + MAX_REPLY + (MAX_ANSWERS + MAX_SCRIPT) * |x.chain| + 4
  {
    hide Run, Inv, Silent;
    RunKeepsInv(x, evs);
    EventsAreCounted(x, evs);
    OutputStaysSmall(x, evs);
    InputSmall(x, Run(x, evs).value);
  }
}
