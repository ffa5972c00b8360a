/** Client and server connected to each other: every interleaving of their operations, with the bytes
    in flight moving in any portions. */
module Socks5Product {
  import opened Bytes
  import opened Wire
  import opened Proxy
  import opened Rfc1928
  import C = Socks5Client
  import S = Socks5Server

  /** What either side has sent and the other has not yet received is in flight. */
  datatype World = World(client: C.End, server: S.End)

  /** The client offers no credentials, as the server wants it; the server's user answers with `answer`. */
  datatype Setup = Setup(job: C.Job, answer: Major)

  const INIT := World(C.START, S.START)

  datatype Event = ClientMoves(chunk: seq<byte>) | ServerMoves(chunk: seq<byte>)

  predicate ClientCan(x: Setup, w: World, chunk: seq<byte>) {
    var op := C.OpOf(x.job, w.client.st);
    && Sound(w.client, op) && Fits(op, w.client.acc, chunk)
    && (op.Read? ==> w.client.recv + chunk <= w.server.sent)
  }

  predicate ServerCan(x: Setup, w: World, chunk: seq<byte>) {
    var op := S.OpOf(w.server.st);
    && Sound(w.server, op) && Fits(op, w.server.acc, chunk)
    && (op.Read? ==> w.server.recv + chunk <= w.client.sent)
  }

  predicate Enabled(x: Setup, w: World, ev: Event) {
    match ev
    case ClientMoves(chunk) => ClientCan(x, w, chunk)
    case ServerMoves(chunk) => ServerCan(x, w, chunk)
  }

  /** What the server is after a transfer, and its user's answer if there is a request to answer. */
  function ServerMoved(x: Setup, s: S.End, chunk: seq<byte>): S.End
    requires Sound(s, S.OpOf(s.st)) && Fits(S.OpOf(s.st), s.acc, chunk)
  {
    var t := S.Advance(s, chunk);
    if t.st.Requested? && t.st.result.Ok? then S.Respond(t, x.answer) else t
  }

  function ClientMoved(x: Setup, c: C.End, chunk: seq<byte>): C.End
    requires Sound(c, C.OpOf(x.job, c.st)) && Fits(C.OpOf(x.job, c.st), c.acc, chunk)
  {
    var t := C.Advance(x.job, c, chunk);
    if t.st == C.Written(None) then C.Await(t) else t
  }

  /** A transfer, and what the users of the two sessions do at once when their handlers are called: the one
      goes on to read the response, the other answers the request. */
  function Step(x: Setup, w: World, ev: Event): World
    requires Enabled(x, w, ev)
  {
    match ev
    case ClientMoves(chunk) =>
      w.(client := ClientMoved(x, w.client, chunk))
    case ServerMoves(chunk) =>
      w.(server := ServerMoved(x, w.server, chunk))
  }

  /** A run of the two parties; none if some event is not enabled. */
  function Run(x: Setup, evs: seq<Event>): Option<World> {
    if evs == [] then Some(INIT)
    else
      var r := Run(x, evs[..|evs| - 1]);
      var ev := evs[|evs| - 1];
      if r.None? || !Enabled(x, r.value, ev) then None else Some(Step(x, r.value, ev))
  }

  // ----- what each side is going to say and hear -----

  function ClientScript(x: Setup): seq<byte> {
    [5, 1, 0] + ConnectFrame(x.job.dst)
  }

  function ServerScript(x: Setup): seq<byte> {
    [5, 0] + ReplyFrame(S.MajorToRep(x.answer))
  }

  /** The unread part of the client's script, seen from the beginning of the server's current operation. */
  function ServerExpects(x: Setup, st: S.State): Option<seq<byte>> {
    var f := ConnectFrame(x.job.dst);
    var atyp := f[3];
    match st
    case GreetHeader => Some([5, 1, 0] + f)
    case GreetMethods(n) => if n == 1 then Some([0] + f) else None
    case GreetReply => Some(f)
    case RequestHeader => Some(f)
    case AddressV4 => if atyp == 1 then Some(f[4..]) else None
    case NameLength => if atyp == 3 then Some(f[4..]) else None
    case NameText(n) => if atyp == 3 && n == |x.job.dst.hostname| then Some(f[5..]) else None
    case AddressV6 => if atyp == 4 then Some(f[4..]) else None
    case Replying(d, m) => if Agrees(x, d) && m == x.answer then Some([]) else None
    case Replied(d, m, e) => if Agrees(x, d) && m == x.answer && e.None? then Some([]) else None
    case Requested(_) => None
  }

  /** The unsaid part of the server's script at the beginning of its current operation. */
  function ServerToSay(x: Setup, st: S.State): seq<byte> {
    match st
    case GreetHeader => ServerScript(x)
    case GreetMethods(_) => ServerScript(x)
    case GreetReply => ServerScript(x)
    case Replied(_, _, _) => []
    case _ => ReplyFrame(S.MajorToRep(x.answer))
  }

  function ClientExpects(x: Setup, st: C.State): Option<seq<byte>> {
    var r := ReplyFrame(S.MajorToRep(x.answer));
    match st
    case GreetWrite => Some([5, 0] + r)
    case GreetRead => Some([5, 0] + r)
    case RequestWrite => Some(r)
    case ReplyHeader => Some(r)
    case BoundV4(rep) => if rep == r[1] then Some(r[4..]) else None
    case Answered(res) => if res == Ok(C.RepToMajor(r[1])) then Some([]) else None
    case _ => None
  }

  function ClientToSay(x: Setup, st: C.State): seq<byte> {
    match st
    case GreetWrite => ClientScript(x)
    case GreetRead => ConnectFrame(x.job.dst)
    case RequestWrite => ConnectFrame(x.job.dst)
    case _ => []
  }

  /** The server's destination is the client's, with the port of an IPv6 address swapped. */
  predicate Agrees(x: Setup, d: Destination) {
    && SameTarget(d, S.Observed(x.job.dst))
  }

  predicate ServerOnTrack(x: Setup, s: S.End) {
    var op := S.OpOf(s.st);
    && Sound(s, op)
    && ServerExpects(x, s.st).Some?
    && Taken(s, op) + ServerExpects(x, s.st).value == ClientScript(x)
    && Put(s, op) + ServerToSay(x, s.st) == ServerScript(x)
  }

  predicate ClientOnTrack(x: Setup, c: C.End) {
    var op := C.OpOf(x.job, c.st);
    && Sound(c, op)
    && ClientExpects(x, c.st).Some?
    && Taken(c, op) + ClientExpects(x, c.st).value == ServerScript(x)
    && Put(c, op) + ClientToSay(x, c.st) == ClientScript(x)
  }

  predicate Inv(x: Setup, w: World) {
    && ServerOnTrack(x, w.server) && ClientOnTrack(x, w.client)
    && w.server.recv <= w.client.sent && w.client.recv <= w.server.sent
  }

  // ----- one step -----

  /** A finished read has read the beginning of what is expected. */
  lemma ReadExpected(taken: seq<byte>, expects: seq<byte>, data: seq<byte>, all: seq<byte>)
    requires taken + expects == all && taken + data <= all
    ensures data <= expects && (taken + data) + expects[|data|..] == all
  {
    assert all[|taken|..] == expects && all[|taken|..|taken| + |data|] == data;
  }

  lemma ServerSaysNext(x: Setup, st: S.State)
    requires ServerExpects(x, st).Some? && S.OpOf(st).Write?
    ensures S.OpOf(st).bytes <= ServerToSay(x, st)
  {
  }

  lemma ClientSaysNext(x: Setup, st: C.State)
    requires x.job.creds.Empty() && ClientExpects(x, st).Some? && C.OpOf(x.job, st).Write?
    ensures C.OpOf(x.job, st).bytes <= ClientToSay(x, st)
  {
  }

  /** `part` is the beginning of a write that says the next of a script. */
  lemma PartOfScript(sent: seq<byte>, part: seq<byte>, put: seq<byte>, bytes: seq<byte>, toSay: seq<byte>, all: seq<byte>)
    requires sent == put + part && part <= bytes <= toSay && put + toSay == all
    ensures sent <= all
  {
    assert all[..|sent|] == sent;
  }

  lemma ServerSaysPrefix(x: Setup, s: S.End)
    requires ServerOnTrack(x, s)
    ensures s.sent <= ServerScript(x)
  {
    hide ServerExpects, ServerToSay, ServerScript, ClientScript, S.OpOf;
    var op := S.OpOf(s.st);
    if op.Write? {
      LogEndsWithAcc(s, op);
      ServerSaysNext(x, s.st);
      PartOfScript(s.sent, s.acc, Put(s, op), op.bytes, ServerToSay(x, s.st), ServerScript(x));
    }
  }

  lemma ClientSaysPrefix(x: Setup, c: C.End)
    requires x.job.creds.Empty() && ClientOnTrack(x, c)
    ensures c.sent <= ClientScript(x)
  {
    hide ClientExpects, ClientToSay, ServerScript, ClientScript, C.OpOf;
    var op := C.OpOf(x.job, c.st);
    if op.Write? {
      LogEndsWithAcc(c, op);
      ClientSaysNext(x, c.st);
      PartOfScript(c.sent, c.acc, Put(c, op), op.bytes, ClientToSay(x, c.st), ClientScript(x));
    }
  }

  lemma SaidIsPrefix(x: Setup, w: World)
    requires x.job.creds.Empty() && Inv(x, w)
    ensures w.client.sent <= ClientScript(x) && w.server.sent <= ServerScript(x)
  {
    hide ServerOnTrack, ClientOnTrack;
    ServerSaysPrefix(x, w.server);
    ClientSaysPrefix(x, w.client);
  }

  /** The handler of a read that read what was expected expects the rest. */
  lemma {:induction false} ServerReadsOn(x: Setup, st: S.State, data: seq<byte>)
    requires ServerExpects(x, st).Some? && S.OpOf(st).Read? && |data| == S.OpOf(st).n
    requires data <= ServerExpects(x, st).value
    ensures var t := S.OnDone(st, data);
            var t' := if t.Requested? && t.result.Ok? then S.Replying(t.result.value, x.answer) else t;
            && ServerExpects(x, t') == Some(ServerExpects(x, st).value[|data|..])
            && ServerToSay(x, t') == ServerToSay(x, st)
  {
    var f := ConnectFrame(x.job.dst);
    var d := x.job.dst;
    assert f == [5, 1, 0] + (AddressField(d) + Net16(d.port));
    match st
    case GreetHeader =>
      assert ([5, 1, 0] + f)[2..] == [0] + f;
    case GreetMethods(_) =>
      assert data[0] == 0 && ([0] + f)[1..] == f;
    case RequestHeader =>
    case NameLength =>
      assert data[0] == f[4] && f[4..][1..] == f[5..];
    case AddressV4 => AddressRead(x, st, data);
    case NameText(n) => AddressRead(x, st, data);
    case AddressV6 => AddressRead(x, st, data);
  }

  lemma AddressRead(x: Setup, st: S.State, data: seq<byte>)
    requires st.AddressV4? || st.AddressV6? || st.NameText?
    requires ServerExpects(x, st).Some? && |data| == S.OpOf(st).n && data <= ServerExpects(x, st).value
    ensures data == ServerExpects(x, st).value && ServerExpects(x, st).value[|data|..] == []
    ensures var t := S.OnDone(st, data); t.Requested? && t.result.Ok? && Agrees(x, t.result.value)
  {
    hide ConnectFrame, AddressField;
    var d := x.job.dst;
    FrameTail(d);
    FrameKind(d);
    match st
    case AddressV4 => Ipv4Read(x, data);
    case NameText(n) => NameRead(x, data);
    case AddressV6 => Ipv6Read(x, data);
  }

  lemma FrameKind(d: Destination)
    requires Encodable(d)
    ensures var f := ConnectFrame(d);
            |f| >= 7 && f[3] == if d.UsingHostname() then 3 else if d.ip.V4? then 1 else 4
  {
    hide ConnectFrame, AddressField;
    assert ConnectFrame(d) + [] == ConnectFrame(d);
    if d.UsingHostname() {
      NameFrameParts(d, []);
    } else {
      FrameParts(d, []);
    }
  }

  lemma Ipv4Read(x: Setup, data: seq<byte>)
    requires var f := ConnectFrame(x.job.dst);
             |f| == 10 && f[3] == 1 && |data| == 6 && data <= f[4..]
    ensures data == ConnectFrame(x.job.dst)[4..] && Agrees(x, S.OnDone(S.AddressV4, data).result.value)
  {
    hide ConnectFrame, AddressField;
    var f := ConnectFrame(x.job.dst);
    FrameTail(x.job.dst);
    FrameKind(x.job.dst);
    assert data == f[4..];
    assert data[4] == f[8] && data[5] == f[9];
  }

  lemma NameRead(x: Setup, data: seq<byte>)
    requires var f := ConnectFrame(x.job.dst);
             |f| == 7 + |x.job.dst.hostname| && f[3] == 3 && |data| == |x.job.dst.hostname| + 2 && data <= f[5..]
    ensures data == ConnectFrame(x.job.dst)[5..] && Agrees(x, S.OnDone(S.NameText(|x.job.dst.hostname|), data).result.value)
  {
    hide ConnectFrame, AddressField;
    var f := ConnectFrame(x.job.dst);
    var n := |x.job.dst.hostname|;
    FrameTail(x.job.dst);
    FrameKind(x.job.dst);
    assert data == f[5..];
    assert data[n] == f[|f| - 2] && data[n + 1] == f[|f| - 1];
  }

  lemma Ipv6Read(x: Setup, data: seq<byte>)
    requires var f := ConnectFrame(x.job.dst);
             |f| == 22 && f[3] == 4 && |data| == 18 && data <= f[4..]
    ensures data == ConnectFrame(x.job.dst)[4..] && Agrees(x, S.OnDone(S.AddressV6, data).result.value)
  {
    hide ConnectFrame, AddressField;
    var f := ConnectFrame(x.job.dst);
    FrameTail(x.job.dst);
    FrameKind(x.job.dst);
    assert data == f[4..];
    assert data[16] == f[20] && data[17] == f[21];
  }

  /** The address and port of a frame. */
  lemma FrameTail(d: Destination)
    requires Encodable(d)
    ensures var f := ConnectFrame(d);
            && (f[3] == 1 ==> |f| == 10 && f[4..][..4] == d.ip.quad && f[8] == d.port / 0x100 && f[9] == d.port % 0x100)
            && (f[3] == 3 ==> |f| == 7 + |d.hostname| && f[5..][..|d.hostname|] == d.hostname
                              && f[|f| - 2] == d.port / 0x100 && f[|f| - 1] == d.port % 0x100)
            && (f[3] == 4 ==> |f| == 22 && f[4..][..16] == d.ip.octets && f[20] == d.port / 0x100 && f[21] == d.port % 0x100)
  {
    hide ConnectFrame, AddressField;
    var f := ConnectFrame(d);
    assert f + [] == f;
    if d.UsingHostname() {
      NameFrameParts(d, []);
      assert f[5..][..|d.hostname|] == f[5..5 + |d.hostname|];
    } else {
      FrameParts(d, []);
      assert f[4..][..|f| - 6] == f[4..|f| - 2];
    }
  }

  lemma ClientReadsOn(x: Setup, st: C.State, data: seq<byte>)
    requires x.job.creds.Empty() && ClientExpects(x, st).Some?
    requires C.OpOf(x.job, st).Read? && |data| == C.OpOf(x.job, st).n && data <= ClientExpects(x, st).value
    ensures var t := C.OnDone(x.job, st, data);
            && ClientExpects(x, t) == Some(ClientExpects(x, st).value[|data|..])
            && ClientToSay(x, t) == ClientToSay(x, st) && t != C.Written(None)
  {
    var r := ReplyFrame(S.MajorToRep(x.answer));
    match st
    case GreetRead =>
      assert data[0] == ([5, 0] + r)[0] && data[1] == ([5, 0] + r)[1] && ([5, 0] + r)[2..] == r;
    case ReplyHeader =>
    case BoundV4(rep) =>
      assert r[4..][6..] == [];
  }

  lemma ServerWritesOn(x: Setup, st: S.State)
    requires ServerExpects(x, st).Some? && S.OpOf(st).Write?
    ensures var t := S.OnDone(st, S.OpOf(st).bytes);
            && !t.Requested? && ServerExpects(x, t) == ServerExpects(x, st)
            && S.OpOf(st).bytes + ServerToSay(x, t) == ServerToSay(x, st)
  {
  }

  lemma ClientWritesOn(x: Setup, st: C.State)
    requires x.job.creds.Empty() && ClientExpects(x, st).Some? && C.OpOf(x.job, st).Write?
    ensures var t := C.OnDone(x.job, st, C.OpOf(x.job, st).bytes);
            var t' := if t == C.Written(None) then C.ReplyHeader else t;
            && ClientExpects(x, t') == ClientExpects(x, st)
            && C.OpOf(x.job, st).bytes + ClientToSay(x, t') == ClientToSay(x, st)
  {
  }

  lemma ServerStepOnTrack(x: Setup, w: World, chunk: seq<byte>)
    requires x.job.creds.Empty() && Inv(x, w) && ServerCan(x, w, chunk)
    ensures ServerOnTrack(x, Step(x, w, ServerMoves(chunk)).server)
  {
    SaidIsPrefix(x, w);
    ServerMovesOnTrack(x, w.server, chunk);
  }

  lemma ServerMovesOnTrack(x: Setup, s: S.End, chunk: seq<byte>)
    requires ServerOnTrack(x, s) && Fits(S.OpOf(s.st), s.acc, chunk)
    requires S.OpOf(s.st).Read? ==> s.recv + chunk <= ClientScript(x)
    ensures ServerOnTrack(x, ServerMoved(x, s, chunk))
  {
    hide ServerExpects, ServerToSay, ServerScript, ClientScript, S.OpOf, S.OnDone, Agrees;
    var op := S.OpOf(s.st);
    LogKeepsTaken(s, op, chunk);
    var data := s.acc + chunk;
    var t := ServerMoved(x, s, chunk);
    if |data| < Total(op) {
      ServerPartial(s.st);
    } else {
      var taken, put := Taken(s, op), Put(s, op);
      if op.Read? {
        assert s.recv + chunk == taken + data;
        ReadExpected(taken, ServerExpects(x, s.st).value, data, ClientScript(x));
        ServerReadsOn(x, s.st, data);
        EnteredOnTrack(x, t, taken + data, put);
      } else {
        assert data == op.bytes;
        ServerWritesOn(x, s.st);
        assert (put + data) + ServerToSay(x, t.st) == put + (data + ServerToSay(x, t.st));
        EnteredOnTrack(x, t, taken, put + data);
      }
    }
  }

  lemma ServerPartial(st: S.State)
    requires !S.OpOf(st).Rest?
    ensures !st.Requested?
  {
  }

  lemma EnteredOnTrack(x: Setup, t: S.End, taken: seq<byte>, put: seq<byte>)
    requires t.acc == [] && t.recv == taken && t.sent == put && ServerExpects(x, t.st).Some?
    requires taken + ServerExpects(x, t.st).value == ClientScript(x) && put + ServerToSay(x, t.st) == ServerScript(x)
    ensures ServerOnTrack(x, t)
  {
    var op := S.OpOf(t.st);
    assert Taken(t, op) == t.recv && Put(t, op) == t.sent;
  }

  lemma ClientEnteredOnTrack(x: Setup, t: C.End, taken: seq<byte>, put: seq<byte>)
    requires t.acc == [] && t.recv == taken && t.sent == put && ClientExpects(x, t.st).Some?
    requires taken + ClientExpects(x, t.st).value == ServerScript(x) && put + ClientToSay(x, t.st) == ClientScript(x)
    ensures ClientOnTrack(x, t)
  {
    var op := C.OpOf(x.job, t.st);
    assert Taken(t, op) == t.recv && Put(t, op) == t.sent;
  }

  lemma ClientStepOnTrack(x: Setup, w: World, chunk: seq<byte>)
    requires x.job.creds.Empty() && Inv(x, w) && ClientCan(x, w, chunk)
    ensures ClientOnTrack(x, Step(x, w, ClientMoves(chunk)).client)
  {
    SaidIsPrefix(x, w);
    ClientMovesOnTrack(x, w.client, chunk);
  }

  lemma ClientMovesOnTrack(x: Setup, c: C.End, chunk: seq<byte>)
    requires x.job.creds.Empty() && ClientOnTrack(x, c) && Fits(C.OpOf(x.job, c.st), c.acc, chunk)
    requires C.OpOf(x.job, c.st).Read? ==> c.recv + chunk <= ServerScript(x)
    ensures ClientOnTrack(x, ClientMoved(x, c, chunk))
  {
    hide ClientExpects, ClientToSay, ServerScript, ClientScript, C.OpOf, C.OnDone;
    var op := C.OpOf(x.job, c.st);
    LogKeepsTaken(c, op, chunk);
    var data := c.acc + chunk;
    var t := ClientMoved(x, c, chunk);
    if |data| < Total(op) {
      ClientPartial(x, c.st);
    } else {
      var taken, put := Taken(c, op), Put(c, op);
      if op.Read? {
        assert c.recv + chunk == taken + data;
        ReadExpected(taken, ClientExpects(x, c.st).value, data, ServerScript(x));
        ClientReadsOn(x, c.st, data);
        ClientEnteredOnTrack(x, t, taken + data, put);
      } else {
        assert data == op.bytes;
        ClientWritesOn(x, c.st);
        assert (put + data) + ClientToSay(x, t.st) == put + (data + ClientToSay(x, t.st));
        ClientEnteredOnTrack(x, t, taken, put + data);
      }
    }
  }

  lemma ClientPartial(x: Setup, st: C.State)
    requires !C.OpOf(x.job, st).Rest?
    ensures !st.Written?
  {
  }

  lemma StepKeepsInv(x: Setup, w: World, ev: Event)
    requires x.job.creds.Empty() && Inv(x, w) && Enabled(x, w, ev)
    ensures Inv(x, Step(x, w, ev))
  {
    hide ServerOnTrack, ClientOnTrack;
    match ev
    case ClientMoves(chunk) => ClientStepOnTrack(x, w, chunk);
    case ServerMoves(chunk) => ServerStepOnTrack(x, w, chunk);
  }

  lemma {:induction false} RunKeepsInv(x: Setup, evs: seq<Event>)
    requires x.job.creds.Empty() && Run(x, evs).Some?
    ensures Inv(x, Run(x, evs).value)
  {
    if evs == [] {
      assert [] + ServerScript(x) == ServerScript(x) && [] + ClientScript(x) == ClientScript(x);
      EnteredOnTrack(x, S.START, [], []);
      ClientEnteredOnTrack(x, C.START, [], []);
    } else {
      RunKeepsInv(x, evs[..|evs| - 1]);
      StepKeepsInv(x, Run(x, evs[..|evs| - 1]).value, evs[|evs| - 1]);
    }
  }

  // ----- the results -----

  predicate Finished(w: World) {
    w.client.st.Answered? && w.server.st.Replied?
  }

  /** As long as one side is not finished, one side can move: there is no deadlock. */
  lemma SomebodyCanMove(x: Setup, w: World) returns (ev: Event)
    requires x.job.creds.Empty() && Inv(x, w) && !Finished(w)
    ensures Enabled(x, w, ev)
  {
    hide ServerExpects, ClientExpects, ServerToSay, ClientToSay, ClientScript, ServerScript;
    var c, s := w.client, w.server;
    var cop, sop := C.OpOf(x.job, c.st), S.OpOf(s.st);
    if cop.Write? {
      ev := ClientMoves(cop.bytes[|c.acc|..]);
      assert c.acc + cop.bytes[|c.acc|..] == cop.bytes;
    } else if sop.Write? {
      ev := ServerMoves(sop.bytes[|s.acc|..]);
      assert s.acc + sop.bytes[|s.acc|..] == sop.bytes;
    } else if cop.Read? && |c.recv| < |s.sent| {
      ev := ClientMoves([s.sent[|c.recv|]]);
      assert c.recv + [s.sent[|c.recv|]] <= s.sent;
    } else {
      NobodyWaitsInVain(x, w);
      ev := ServerMoves([c.sent[|s.recv|]]);
      assert s.recv + [c.sent[|s.recv|]] <= c.sent;
    }
  }

  /** If neither side writes and the client cannot read on, then bytes are on their way to the server. */
  lemma NobodyWaitsInVain(x: Setup, w: World)
    requires x.job.creds.Empty() && Inv(x, w) && !Finished(w)
    requires !C.OpOf(x.job, w.client.st).Write? && !S.OpOf(w.server.st).Write?
    requires C.OpOf(x.job, w.client.st).Read? ==> |w.client.recv| == |w.server.sent|
    ensures S.OpOf(w.server.st).Read? && |w.server.recv| < |w.client.sent|
  {
    hide ServerOnTrack, ClientOnTrack;
    ServerSituation(x, w.server);
    ClientSituation(x, w.client);
  }

  /** A server that does not write has said nothing, or the selected method and waits for the rest of the request, or
      everything and is finished. */
  lemma ServerSituation(x: Setup, s: S.End)
    requires ServerOnTrack(x, s) && !S.OpOf(s.st).Write?
    ensures s.st.Replied? ==> |s.sent| == |ServerScript(x)|
    ensures !s.st.Replied? ==> S.OpOf(s.st).Read? && |s.recv| < |ClientScript(x)| && |s.sent| < |ServerScript(x)|
    ensures !s.st.Replied? && |s.sent| != 2 ==> |s.sent| == 0 && |s.recv| < 3
  {
    var op := S.OpOf(s.st);
    assert |s.sent| + |ServerToSay(x, s.st)| == |ServerScript(x)|;
    if op.Read? {
      ServerStillReads(x, s);
    }
  }

  lemma ClientNeeds(x: Setup, st: C.State)
    requires x.job.creds.Empty() && ClientExpects(x, st).Some? && !C.OpOf(x.job, st).Write?
    ensures |ServerScript(x)| == 12
    ensures st.Answered? ==> C.OpOf(x.job, st).Rest? && |ClientExpects(x, st).value| == 0 == |ClientToSay(x, st)|
    ensures !st.Answered? ==> C.OpOf(x.job, st).Read? && C.OpOf(x.job, st).n <= |ClientExpects(x, st).value|
    ensures st.GreetRead? ==> |ClientToSay(x, st)| + 3 == |ClientScript(x)|
    ensures st.GreetRead? ==> C.OpOf(x.job, st).n == 2 && |ClientExpects(x, st).value| == 12
    ensures !st.GreetRead? ==> |ClientToSay(x, st)| == 0
  {
    hide ConnectFrame;
  }

  /** A client that does not write has said its greeting and waits for the method, or everything. */
  lemma ClientSituation(x: Setup, c: C.End)
    requires x.job.creds.Empty() && ClientOnTrack(x, c) && !C.OpOf(x.job, c.st).Write?
    ensures c.st.Answered? ==> |c.recv| == |ServerScript(x)| && |c.sent| == |ClientScript(x)|
    ensures !c.st.Answered? ==> C.OpOf(x.job, c.st).Read? && |c.recv| < |ServerScript(x)|
    ensures |c.sent| == |ClientScript(x)| || (|c.sent| == 3 && |c.recv| < 2)
  {
    hide ClientExpects, ClientToSay, ClientScript, ServerScript, C.OpOf;
    var op := C.OpOf(x.job, c.st);
    ClientNeeds(x, c.st);
    assert |Put(c, op)| + |ClientToSay(x, c.st)| == |ClientScript(x)|;
    assert |Taken(c, op)| + |ClientExpects(x, c.st).value| == |ServerScript(x)|;
  }

  /** What an unfinished read still wants is part of what is expected. */
  lemma ServerStillReads(x: Setup, s: S.End)
    requires ServerOnTrack(x, s) && S.OpOf(s.st).Read?
    ensures |s.recv| < |ClientScript(x)|
    ensures s.st.GreetHeader? || s.st.GreetMethods? ==> |s.recv| < 3
  {
    var op := S.OpOf(s.st);
    var d := x.job.dst;
    FrameTail(d);
    assert |ConnectFrame(d)| >= 7;
    assert |s.recv| == |Taken(s, op)| + |s.acc|;
  }

  /** Every move brings the end nearer, so no run goes on for ever. */
  function ToGo(x: Setup, w: World): int {
    2 * (|ClientScript(x)| + |ServerScript(x)|) - |w.client.sent| - |w.client.recv| - |w.server.sent| - |w.server.recv|
  }

  lemma StepGoesOn(x: Setup, w: World, ev: Event)
    requires x.job.creds.Empty() && Inv(x, w) && Enabled(x, w, ev)
    ensures 0 <= ToGo(x, Step(x, w, ev)) < ToGo(x, w)
  {
    hide ServerOnTrack, ClientOnTrack;
    StepKeepsInv(x, w, ev);
    SaidIsPrefix(x, Step(x, w, ev));
  }

  lemma ServerFinished(x: Setup, s: S.End)
    requires ServerOnTrack(x, s) && s.st.Replied?
    ensures SameTarget(s.st.dst, S.Observed(x.job.dst))
    ensures s.recv == ClientScript(x) && s.sent == ServerScript(x)
  {
    hide S.Observed, ClientScript, ServerScript;
  }

  lemma ClientFinished(x: Setup, c: C.End)
    requires ClientOnTrack(x, c) && c.st.Answered?
    ensures c.st == C.Answered(Ok(C.RepToMajor(S.MajorToRep(x.answer))))
    ensures c.recv == ServerScript(x) && c.sent == ClientScript(x)
  {
    hide C.RepToMajor, S.MajorToRep, ClientScript, ServerScript;
  }

  /** Any interleaving and any portions: the run is bounded, it is never stuck before both sides are finished, and
      when they are, the server has the client's destination (the port of an IPv6 address swapped), the client has
      the major code that the reply code stands for, and both have received exactly what the other sent. */
  lemma ClientAndServerAgree(x: Setup, evs: seq<Event>)
    requires x.job.creds.Empty() && Run(x, evs).Some?
    ensures var w := Run(x, evs).value;
            && |evs| <= 2 * (|ClientScript(x)| + |ServerScript(x)|)
            && (!Finished(w) ==> exists ev :: Enabled(x, w, ev))
            && (Finished(w) ==>
                && SameTarget(w.server.st.dst, S.Observed(x.job.dst))
                && w.client.st == C.Answered(Ok(C.RepToMajor(S.MajorToRep(x.answer))))
                && w.server.recv == w.client.sent == ClientScript(x)
                && w.client.recv == w.server.sent == ServerScript(x))
  {
    hide ServerOnTrack, ClientOnTrack, Enabled, ClientScript, ServerScript, S.Observed, S.MajorToRep, C.RepToMajor, SameTarget;
    var w := Run(x, evs).value;
    RunKeepsInv(x, evs);
    RunIsBounded(x, evs);
    StartToGo(x);
    if Finished(w) {
      ServerFinished(x, w.server);
      ClientFinished(x, w.client);
    } else {
      var ev := SomebodyCanMove(x, w);
    }
  }

  lemma StartToGo(x: Setup)
    ensures ToGo(x, INIT) == 2 * (|ClientScript(x)| + |ServerScript(x)|)
  {
  }

  lemma {:induction false} RunIsBounded(x: Setup, evs: seq<Event>)
    requires x.job.creds.Empty() && Run(x, evs).Some?
    ensures 0 <= ToGo(x, Run(x, evs).value) <= ToGo(x, INIT) - |evs|
  {
    if evs != [] {
      var before := evs[..|evs| - 1];
      RunIsBounded(x, before);
      RunKeepsInv(x, before);
      StepGoesOn(x, Run(x, before).value, evs[|evs| - 1]);
    }
  }

  /** The client learns what the server's user meant exactly for these three answers: host-unreachable arrives as
      connection-refused, and a bad address type as an unknown error. */
  lemma MajorArrives(m: Major)
    ensures C.RepToMajor(S.MajorToRep(m)) == m <==> m == Succeeded || m == ConnectionRefused || m == UnknownError
    ensures C.RepToMajor(S.MajorToRep(HostUnreachable)) == ConnectionRefused
    ensures C.RepToMajor(S.MajorToRep(BadAddressType)) == UnknownError
  {
  }

  /** The destination arrives unchanged exactly if it is not an IPv6 address with a port of two different bytes;
      port 443 arrives as 47873. */
  lemma DestinationArrives(d: Destination)
    ensures S.Observed(d) == d <==> d.UsingHostname() || d.ip.V4? || d.port / 0x100 == d.port % 0x100
    ensures d.ip.V6? && !d.UsingHostname() && d.port == 443 ==> S.Observed(d).port == 47873
  {
  }

  /** A client with credentials offers only the method for them, and is turned away by the server. */
  lemma CredentialsAreTurnedAway(j: C.Job, t: seq<byte>)
    requires !j.creds.Empty()
    ensures ParseRequest(Greeting(C.Method(j.creds)) + t) == Bad(ProtocolViolation, 3)
  {
    var s := Greeting(C.Method(j.creds)) + t;
    assert s[0] == 5 && s[1] == 1 && s[2..3] == [2];
  }
}
