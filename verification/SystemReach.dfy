/** That connections can be served: from every request for which each hop can be asked there is a run to the relay, and
    to the endless loop from every line that hangs. */
module SystemReach {
  import opened Bytes
  import opened Wire
  import opened Proxy
  import Rfc1928
  import RequestLine
  import H = HttpsServer
  import C = Socks5Client
  import R = Relay
  import I = Input
  import Chain
  import Sessions
  import opened System

  lemma OneMore(x: Setup, evs: seq<Event>, ev: Event)
    requires Run(x, evs).Some? && Enabled(x, Run(x, evs).value, ev)
    ensures Run(x, evs + [ev]) == Some(Step(x, Run(x, evs).value, ev))
    ensures Inv(x, Step(x, Run(x, evs).value, ev))
  {
    hide Inv, Step, Enabled, Init;
    assert (evs + [ev])[..|evs|] == evs;
    RunKeepsInv(x, evs);
    StepKeepsInv(x, Run(x, evs).value, ev);
  }

  // ----- the request -----

  function ToRead(w: World, s: seq<byte>): int {
    2 * (|s| - |I.Recv(w.inp)|) + if I.OpOf(w.inp).Write? then 1 else 0
  }

  /** A part of the stream has been read. */
  predicate Listens(w: World, s: seq<byte>) {
    w.session.Requesting? && I.Clean(w.inp) && I.Recv(w.inp) <= s
  }

  /** All that is asked for has been read. */
  predicate HasRead(x: Setup, w: World, s: seq<byte>) {
    && I.Clean(w.inp) && I.Recv(w.inp) <= s && !I.PhaseOf(w.inp).Reading?
    && match I.PhaseOf(w.inp)
       case Requested(Ok(d)) =>
         w.session == Sessions.Connecting(d) && w.chain == Some(Chain.Start(Plan(x, d))) && w.hop.None?
       case _ => true
  }

  lemma AfterReading(x: Setup, w: World, s: seq<byte>)
    requires w.session.Requesting? && w.hop.None? && I.Clean(w.inp) && I.Recv(w.inp) <= s
    ensures var v := AfterInput(x, w);
            && v.inp == w.inp && if I.PhaseOf(w.inp).Reading? then Listens(v, s) && v.hop.None? else HasRead(x, v, s)
  {
    hide I.PhaseOf, I.Recv;
  }

  lemma InvListens(x: Setup, w: World)
    requires Inv(x, w) && w.session.Requesting?
    ensures I.Inv(x.kind, w.inp) && w.hop.None? && (I.PhaseOf(w.inp).Reading? || I.PhaseOf(w.inp).Hung?)
  {
    hide I.Inv, I.PhaseOf;
  }

  lemma ReadsOneByte(x: Setup, w: World, s: seq<byte>) returns (ev: Event)
    requires Inv(x, w) && Listens(w, s) && I.Decided(x.kind, s) && I.PhaseOf(w.inp).Reading?
    ensures Enabled(x, w, ev)
    ensures var v := Step(x, w, ev); HasRead(x, v, s) || (Listens(v, s) && 0 <= ToRead(v, s) < ToRead(w, s))
  {
    hide Inv, I.Inv, I.PhaseOf, I.Recv, I.Sent, I.OpOf, I.Decided, I.Clean, I.Advance, I.CanMove, HasRead, AfterInput;
    InvListens(x, w);
    var n := |I.Recv(w.inp)|;
    assert I.Recv(w.inp) == s[..n] && (n == |s| ==> s[..n] == s);
    I.ReadingIsUndecided(x.kind, w.inp);
    I.BusyPhases(x.kind, w.inp);
    var chunk := I.CanGoOn(x.kind, w.inp, s[n]);
    ev := InMoves(chunk);
    I.AdvanceKeepsClean(x.kind, w.inp, chunk);
    I.AdvanceLogs(w.inp, chunk);
    var v := w.(inp := I.Advance(w.inp, chunk), net := InLog(w.net, I.OpOf(w.inp), chunk));
    assert s[..n] + [s[n]] == s[..n + 1];
    AfterReading(x, v, s);
  }

  lemma {:induction false} ReadOn(x: Setup, evs: seq<Event>, s: seq<byte>) returns (all: seq<Event>)
    requires Run(x, evs).Some? && Listens(Run(x, evs).value, s) && I.Decided(x.kind, s)
    ensures Run(x, all).Some? && HasRead(x, Run(x, all).value, s)
    decreases ToRead(Run(x, evs).value, s)
  {
    hide Run, Inv, Step, Enabled, I.PhaseOf, I.Recv, I.OpOf, I.Decided, I.Clean;
    var w := Run(x, evs).value;
    RunKeepsInv(x, evs);
    InvListens(x, w);
    if I.PhaseOf(w.inp).Reading? {
      var ev := ReadsOneByte(x, w, s);
      OneMore(x, evs, ev);
      if HasRead(x, Step(x, w, ev), s) {
        all := evs + [ev];
      } else {
        all := ReadOn(x, evs + [ev], s);
      }
    } else {
      all := evs;
    }
  }

  lemma Begins(x: Setup, s: seq<byte>)
    ensures Run(x, []).Some? && (Listens(Run(x, []).value, s) || HasRead(x, Run(x, []).value, s))
  {
    hide I.PhaseOf, I.Recv, I.Sent, I.Clean, AfterInput, Listens, HasRead;
    var w := World(Sessions.Requesting, I.Start(x.kind), None, None, [], Net([], [], [], []));
    I.StartInv(x.kind);
    I.StartIsClean(x.kind);
    AfterReading(x, w, s);
  }

  /** Every stream that tells anything can be read. */
  lemma StreamIsRead(x: Setup, s: seq<byte>) returns (all: seq<Event>)
    requires I.Decided(x.kind, s)
    ensures Run(x, all).Some? && HasRead(x, Run(x, all).value, s)
  {
    hide Run, I.Decided, Listens, HasRead;
    Begins(x, s);
    if HasRead(x, Run(x, []).value, s) {
      all := [];
    } else {
      all := ReadOn(x, [], s);
    }
  }

  /** The endless loop is reached from every line that hangs. */
  lemma HangIsReached(x: Setup, l: seq<byte>) returns (all: seq<Event>)
    requires x.kind.Https? && H.HangingLine(l)
    ensures Run(x, all).Some? && Hangs(x, Run(x, all).value) && Run(x, all).value.net.inRecv == l
  {
    hide Run, Inv, H.ParseHttps, H.HangingLine, I.PhaseOf, I.Recv, I.Clean;
    H.EndlessParsed(l, |l|);
    assert l[..|l|] == l;
    all := StreamIsRead(x, l);
    var w := Run(x, all).value;
    RunKeepsInv(x, all);
    InvInput(x, w);
    I.ReadIsDecided(x.kind, w.inp, l);
    I.HungExactly(x.kind, w.inp);
    assert I.PhaseOf(w.inp).Hung? && I.Recv(w.inp) == l;
    OnlyListening(x, w);
  }

  lemma InvInput(x: Setup, w: World)
    requires Inv(x, w)
    ensures I.Inv(x.kind, w.inp) && (!w.session.Relaying? ==> w.net.inRecv == I.Recv(w.inp))
  {
    hide I.Inv, I.PhaseOf, ConnectingOk, ResultOk, RelayOk, R.Inv, Sessions.MajorFor, ToldTruth, I.Recv, I.Sent;
  }

  lemma OnlyListening(x: Setup, w: World)
    requires Inv(x, w) && I.PhaseOf(w.inp).Hung?
    ensures w.session.Requesting?
  {
    hide I.Inv, I.PhaseOf, ConnectingOk, ResultOk, RelayOk, R.Inv, Sessions.MajorFor, ToldTruth;
  }

  // ----- the hops -----

  /** What a hop answers that lets the client go on. */
  function GoodAnswers(j: C.Job): seq<byte> {
    ([5, C.Method(j.creds)] + if j.creds.Empty() then [] else [5, 0]) + Rfc1928.ReplyFrame(0)
  }

  lemma GoodAnswersParse(j: C.Job)
    ensures C.ParseAnswers(j, GoodAnswers(j)) == Rfc1928.Done(0, |GoodAnswers(j)|)
  {
    var a := [5, C.Method(j.creds)] + if j.creds.Empty() then [] else [5, 0];
    assert j.creds.Empty() ==> a == [5, 0];
    assert !j.creds.Empty() ==> a[2..] == [5, 0];
    C.AuthStable(j, a, Rfc1928.ReplyFrame(0));
  }

  /** The client session has heard a part of the good answers. */
  predicate HopListens(h: Hop) {
    && C.Inv(h.job, h.end) && C.Clean(h.end.st) && h.end.recv <= GoodAnswers(h.job)
  }

  function HopToGo(h: Hop): int {
    2 * (|GoodAnswers(h.job)| - |h.end.recv|) + if C.OpOf(h.job, h.end.st).Write? then 1 else 0
  }

  /** What a client session can come to that has heard only good answers. */
  lemma GoodEnd(h: Hop)
    requires HopListens(h)
    ensures match h.end.st
            case Written(f) => f.None?
            case Answered(r) => r == Ok(Succeeded)
            case _ => true
  {
    hide C.ParseAnswers, GoodAnswers, C.Said;
    var j, e := h.job, h.end;
    GoodAnswersParse(j);
    if e.st.Answered? || (e.st.Written? && e.st.failure.Some?) {
      var rest := GoodAnswers(j)[|e.recv|..];
      assert GoodAnswers(j) == e.recv + rest;
      C.FinishedHasAnswer(j, e);
      C.AnswersStable(j, e.recv, rest);
    }
  }

  lemma WriteThenRead(j: C.Job, st: C.State, data: seq<byte>)
    requires C.OpOf(j, st).Write?
    ensures !C.OpOf(j, C.OnDone(j, st, data)).Write?
  {
  }

  /** One transfer of a hop. */
  lemma HopGoesOn(h: Hop) returns (chunk: seq<byte>)
    requires HopListens(h) && !C.OpOf(h.job, h.end.st).Rest?
    ensures HopFits(h, chunk)
    ensures var g := h.(end := C.Advance(h.job, h.end, chunk)); HopListens(g) && 0 <= HopToGo(g) < HopToGo(h)
  {
    hide C.Clean, C.At, C.Said, C.OpOf, C.OnDone, GoodAnswers, C.ParseAnswers;
    var j, e := h.job, h.end;
    var op := C.OpOf(j, e.st);
    var all, n := GoodAnswers(j), |e.recv|;
    assert e.recv == all[..n] && (n == |all| ==> all[..n] == all);
    C.UnfinishedWantsMore(j, e);
    GoodAnswersParse(j);
    chunk := FittingChunk(e, op, all[n]);
    assert all[..n] + [all[n]] == all[..n + 1];
    C.AdvanceKeepsInv(j, e, chunk);
    C.AdvanceKeepsClean(j, e, chunk);
    if op.Write? {
      WriteThenRead(j, e.st, e.acc + chunk);
    }
  }

  // ----- the chain -----

  /** Every hop can be asked for the next one, or for the destination. */
  predicate CanAsk(x: Setup, d: Destination) {
    forall i :: 0 <= i < |x.chain| ==> C.StartError(JobAt(x, d, i)).None?
  }

  /** All has gone well so far. */
  predicate OnTrack(x: Setup, w: World, d: Destination, s: seq<byte>) {
    && w.session == Sessions.Connecting(d) && I.Recv(w.inp) == s && I.HasRequest(w.inp)
    && w.chain.Some? && !w.chain.value.pending.Idle? && w.chain.value.cur <= |x.chain|
    && (w.hop.Some? ==> HopListens(w.hop.value))
  }

  /** The chain has reached the destination: the reply is being written, or the relay has begun. */
  predicate Connected(w: World, d: Destination, s: seq<byte>) {
    && I.Recv(w.inp) == s
    && match w.session
       case Replying(e, r, _) => e == d && r.success
       case Relaying(e, _, _, relay) => e == d && relay == R.START
       case _ => false
  }

  lemma SuccessConcludes(x: Setup, w: World, d: Destination, s: seq<byte>, r: Chain.ConnectResult)
    requires w.session == Sessions.Connecting(d) && I.Inv(x.kind, w.inp) && I.HasRequest(w.inp) && I.Recv(w.inp) == s
    requires r.success
    ensures Connected(Conclude(x, w, r), d, s)
  {
    hide I.Inv, I.PhaseOf, I.Recv, I.Sent, I.Respond, I.HasRequest;
    var m := Sessions.MajorFor(r);
    I.RespondKeepsInv(x.kind, w.inp, m);
  }

  lemma HopBegins(j: C.Job)
    ensures HopListens(Hop(j, C.START))
  {
    hide C.Inv;
    HopStarts(j);
  }

  /** Where the chain goes from `c`, when nothing fails. */
  predicate GoesWell(x: Setup, c: Chain.State) {
    && c.cur <= |x.chain|
    && match c.pending
       case Connecting(_, _, _) => true
       case Asking(_, _) => c.cur < |x.chain|
       case Idle => c.calls != [] && c.calls[0].success
       case _ => false
  }

  lemma ChainGoesOn(x: Setup, w: World, d: Destination, s: seq<byte>, c: Chain.State)
    requires w.session == Sessions.Connecting(d) && I.Inv(x.kind, w.inp) && I.HasRequest(w.inp) && I.Recv(w.inp) == s
    requires w.hop.None? && GoesWell(x, c) && CanAsk(x, d)
    ensures var v := AfterChain(x, w, c);
            if c.pending.Idle? then Connected(v, d, s) else OnTrack(x, v, d, s) && v.chain == Some(c)
  {
    hide I.Inv, I.HasRequest, I.Recv, Conclude, C.Inv, HopListens;
    if c.pending.Idle? {
      SuccessConcludes(x, w.(chain := Some(c)), d, s, c.calls[0]);
    } else if c.pending.Asking? {
      var j := JobAt(x, d, c.cur);
      assert C.StartError(j).None?;
      HopBegins(j);
    }
  }

  /** How far it still is to the relay: the stage, the hops left, and the bytes left with the current hop. */
  function Stage(c: Chain.State): nat {
    if c.pending.Resolving? then 2 else if c.pending.Connecting? then 1 else 0
  }

  function ToConnect(x: Setup, w: World): int {
    if w.hop.Some? then HopToGo(w.hop.value) else 0
  }

  /** One step nearer. */
  predicate Nearer(x: Setup, w: World, v: World)
    requires w.chain.Some? && v.chain.Some?
  {
    var c, f := w.chain.value, v.chain.value;
    || Stage(f) < Stage(c)
    || (Stage(f) == Stage(c) && c.cur < f.cur <= |x.chain|)
    || (Stage(f) == Stage(c) && c.cur == f.cur && 0 <= ToConnect(x, v) < ToConnect(x, w))
  }

  lemma EarlyStepGoesOn(x: Setup, w: World, d: Destination, s: seq<byte>) returns (ev: Event)
    requires Inv(x, w) && OnTrack(x, w, d, s) && CanAsk(x, d)
    requires w.chain.value.pending.Resolving? || w.chain.value.pending.Connecting?
    ensures Enabled(x, w, ev)
    ensures var v := Step(x, w, ev); Connected(v, d, s) || (OnTrack(x, v, d, s) && Nearer(x, w, v))
  {
    hide I.PhaseOf, I.Inv, I.Recv, I.Sent, I.HasRequest, AfterChain, OutputOk, C.Inv, HopListens;
    var c := w.chain.value;
    ev := if c.pending.Resolving? then Resolves(Ok(NO_DESTINATION.ip)) else Connects(None);
    var e := if c.pending.Resolving? then Chain.Resolved(Ok(NO_DESTINATION.ip)) else Chain.Connected(None);
    ChainGoesOn(x, w, d, s, Chain.Step(Plan(x, d), c, e));
  }

  lemma HopStepGoesOn(x: Setup, w: World, d: Destination, s: seq<byte>) returns (ev: Event)
    requires Inv(x, w) && OnTrack(x, w, d, s) && CanAsk(x, d) && w.hop.Some?
    ensures Enabled(x, w, ev)
    ensures var v := Step(x, w, ev); Connected(v, d, s) || (OnTrack(x, v, d, s) && Nearer(x, w, v))
  {
    hide I.PhaseOf, I.Inv, I.Recv, I.Sent, I.HasRequest, AfterChain, OutputOk, C.Inv, HopListens, C.OpOf, HopWrites;
    hide C.Advance, C.OnDone, AfterHop, HopCan, HopToGo, Moved, Connected, Sound, Fits;
    AskedState(x, w);
    var h := w.hop.value;
    var chunk := HopGoesOn(h);
    ev := HopMoves(chunk);
    var g := h.(end := C.Advance(h.job, h.end, chunk));
    var v := w.(net := OutLog(w.net, C.OpOf(h.job, h.end.st), chunk));
    AdvancedIsMoved(h, chunk);
    AfterGoodHop(x, v, d, s, g);
  }

  /** What follows when a hop has heard some more of the good answers. */
  lemma AfterGoodHop(x: Setup, w: World, d: Destination, s: seq<byte>, g: Hop)
    requires w.session == Sessions.Connecting(d) && I.Inv(x.kind, w.inp) && I.HasRequest(w.inp) && I.Recv(w.inp) == s
    requires w.chain.Some? && w.chain.value.cur < |x.chain| && w.chain.value.calls == [] && CanAsk(x, d)
    requires w.chain.value.pending.Asking? || w.chain.value.pending.Awaiting?
    requires w.hop.Some? && HopListens(g) && Moved(g, w.chain.value.pending.Asking?) && 0 <= HopToGo(g) < HopToGo(w.hop.value)
    ensures var v := AfterHop(x, w, g); Connected(v, d, s) || (OnTrack(x, v, d, s) && Nearer(x, w, v))
  {
    hide I.PhaseOf, I.Inv, I.Recv, I.Sent, I.HasRequest, AfterChain, C.Inv, HopListens, C.OpOf, HopWrites, Conclude;
    var c := w.chain.value;
    GoodEnd(g);
    WritingStates(g.end.st);
    RestingStates(g.job, g.end.st);
    match g.end.st
    case Written(_) => AwaitedListens(g);
    case Answered(r) =>
      var f := Chain.Step(Plan(x, d), c, Chain.Responded(r));
      ChainGoesOn(x, w.(hop := None, answers := w.answers + [g.end.recv]), d, s, f);
    case _ =>
  }

  /** The request is written, and the reply is awaited. */
  lemma AwaitedListens(g: Hop)
    requires HopListens(g) && g.end.st == C.Written(None)
    ensures var h := g.(end := C.Await(g.end)); HopListens(h) && HopToGo(h) == HopToGo(g)
  {
    hide C.Inv, GoodAnswers;
    C.AwaitKeepsInv(g.job, g.end);
  }

  lemma AskedState(x: Setup, w: World)
    requires Inv(x, w) && w.session.Connecting? && w.hop.Some?
    ensures w.chain.Some? && (w.chain.value.pending.Asking? || w.chain.value.pending.Awaiting?)
    ensures w.chain.value.cur < |x.chain| && w.chain.value.calls == [] && HopCan(x, w) && I.Inv(x.kind, w.inp)
    ensures C.Inv(w.hop.value.job, w.hop.value.end)
    ensures w.chain.value.pending.Asking? <==> HopWrites(w.hop.value.end.st)
    ensures !C.OpOf(w.hop.value.job, w.hop.value.end.st).Rest?
  {
    hide I.PhaseOf, I.Inv, I.Recv, I.Sent, OutputOk, C.Inv, C.OpOf, HopWrites;
  }

  lemma TrackGoesOn(x: Setup, w: World, d: Destination, s: seq<byte>) returns (ev: Event)
    requires Inv(x, w) && OnTrack(x, w, d, s) && CanAsk(x, d)
    ensures Enabled(x, w, ev)
    ensures var v := Step(x, w, ev); Connected(v, d, s) || (OnTrack(x, v, d, s) && Nearer(x, w, v))
  {
    hide Inv, OnTrack, Nearer, Connected, Step, Enabled;
    if w.hop.Some? {
      ev := HopStepGoesOn(x, w, d, s);
    } else {
      NoHop(x, w, d, s);
      ev := EarlyStepGoesOn(x, w, d, s);
    }
  }

  lemma NoHop(x: Setup, w: World, d: Destination, s: seq<byte>)
    requires Inv(x, w) && OnTrack(x, w, d, s) && w.hop.None?
    ensures w.chain.Some? && (w.chain.value.pending.Resolving? || w.chain.value.pending.Connecting?)
  {
    hide I.PhaseOf, I.Inv, I.Recv, I.Sent, OutputOk, C.Inv, C.OpOf, HopWrites;
  }

  lemma {:induction false} ConnectOn(x: Setup, evs: seq<Event>, d: Destination, s: seq<byte>) returns (all: seq<Event>)
    requires Run(x, evs).Some? && OnTrack(x, Run(x, evs).value, d, s) && CanAsk(x, d)
    ensures Run(x, all).Some? && Connected(Run(x, all).value, d, s)
    decreases Stage(Run(x, evs).value.chain.value), |x.chain| - Run(x, evs).value.chain.value.cur,
              ToConnect(x, Run(x, evs).value)
  {
    hide Run, Inv, Step, Enabled, Connected, ToConnect, I.HasRequest, I.Recv;
    var w := Run(x, evs).value;
    RunKeepsInv(x, evs);
    var ev := TrackGoesOn(x, w, d, s);
    OneMore(x, evs, ev);
    if Connected(Step(x, w, ev), d, s) {
      all := evs + [ev];
    } else {
      all := ConnectOn(x, evs + [ev], d, s);
    }
  }

  // ----- the reply, and the relay -----

  lemma ReplyGoesOut(x: Setup, w: World, d: Destination, s: seq<byte>) returns (ev: Event)
    requires Inv(x, w) && Connected(w, d, s) && w.session.Replying?
    ensures Enabled(x, w, ev)
    ensures var v := Step(x, w, ev); Connected(v, d, s) && v.session.Relaying?
  {
    hide I.Inv, I.PhaseOf, I.Recv, I.Sent, I.OpOf, I.Advance, I.CanMove, ResultOk, OutputOk, Sessions.MajorFor;
    InvInput(x, w);
    I.BusyPhases(x.kind, w.inp);
    var chunk := I.CanGoOn(x.kind, w.inp, 0);
    ev := InMoves(chunk);
    I.AdvanceFollows(w.inp, chunk);
    I.AdvanceLogs(w.inp, chunk);
    ReplyingWrites(w.inp);
  }

  lemma ReplyingWrites(e: I.End)
    requires I.PhaseOf(e).Replying?
    ensures I.OpOf(e).Write?
  {
    hide H.ReplyText;
  }

  lemma RequestIsDecided(k: I.Kind, s: seq<byte>)
    requires I.Request(k, s).Some?
    ensures I.Decided(k, s)
  {
    hide H.ParseHttps, Rfc1928.ParseRequest;
  }

  lemma OnTrackFromStart(x: Setup, w: World, d: Destination, s: seq<byte>)
    requires Inv(x, w) && HasRead(x, w, s) && I.PhaseOf(w.inp) == I.Requested(Ok(d)) && I.Recv(w.inp) == s
    ensures OnTrack(x, w, d, s)
  {
    hide Inv, I.PhaseOf, I.Recv;
    ChainStarts(Plan(x, d));
  }

  /** From every request for a destination, and every hop being such that it can be asked, there is a run to the relay in
      which the client has sent just that request. */
  lemma RelayIsReached(x: Setup, s: seq<byte>, d: Destination) returns (all: seq<Event>)
    requires I.Request(x.kind, s) == Some((d, |s|)) && CanAsk(x, d)
    ensures Run(x, all).Some?
    ensures var w := Run(x, all).value; w.session.Relaying? && w.session.dst == d && w.net.inRecv == s
  {
    hide Run, Inv, Step, Enabled, I.Request, I.PhaseOf, I.Recv, I.Clean, I.Decided;
    hide OnTrack;
    RequestIsDecided(x.kind, s);
    var read := StreamIsRead(x, s);
    var w := Run(x, read).value;
    RunKeepsInv(x, read);
    InvInput(x, w);
    I.ReadIsDecided(x.kind, w.inp, s);
    assert I.PhaseOf(w.inp) == I.Requested(Ok(d)) && I.Recv(w.inp) == s;
    OnTrackFromStart(x, w, d, s);
    all := ConnectOn(x, read, d, s);
    var v := Run(x, all).value;
    RunKeepsInv(x, all);
    if v.session.Replying? {
      var ev := ReplyGoesOut(x, v, d, s);
      OneMore(x, all, ev);
      all := all + [ev];
    }
    FreshRelay(x, Run(x, all).value, s);
  }

  lemma FreshRelay(x: Setup, w: World, s: seq<byte>)
    requires Inv(x, w) && w.session.Relaying? && w.session.relay == R.START && I.Recv(w.inp) == s
    ensures w.net.inRecv == s
  {
    hide I.Inv, I.PhaseOf, I.Recv, I.Sent, ResultOk, Sessions.MajorFor, R.Inv;
  }

  /** A relay to `d` can be reached exactly if something can be sent that asks for `d`, and every hop can be asked for the
      next one. */
  lemma {:induction false} RelayIsReachable(x: Setup, d: Destination)
    ensures (exists evs :: Run(x, evs).Some? && Run(x, evs).value.session.Relaying? && Run(x, evs).value.session.dst == d) <==>
            (exists s :: I.Request(x.kind, s) == Some((d, |s|))) && CanAsk(x, d)
  {
    hide Run, Inv, I.Request, I.Recv, I.PhaseOf, AllAccepted, Transparent;
    if evs :| Run(x, evs).Some? && Run(x, evs).value.session.Relaying? && Run(x, evs).value.session.dst == d {
      EndToEndTransparency(x, evs);
      var w := Run(x, evs).value;
      forall i | 0 <= i < |x.chain| ensures C.StartError(JobAt(x, d, i)).None? {
        AcceptedJobs(x, d, w.answers, i);
      }
      RunKeepsInv(x, evs);
      RelayedRequest(x, w);
    }
    if s :| I.Request(x.kind, s) == Some((d, |s|)) {
      if CanAsk(x, d) {
        var all := RelayIsReached(x, s, d);
      }
    }
  }

  lemma RelayedRequest(x: Setup, w: World)
    requires Inv(x, w) && w.session.Relaying?
    ensures I.Request(x.kind, I.Recv(w.inp)) == Some((w.session.dst, |I.Recv(w.inp)|))
  {
    hide I.Inv, I.Request, I.Recv, I.Sent, ResultOk, RelayOk, R.Inv, Sessions.MajorFor;
    I.RequestIsRead(x.kind, w.inp);
  }
}
