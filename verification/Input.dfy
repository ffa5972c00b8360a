/** `input`: a fixed tunnel, a SOCKS5 server session or an HTTPS server session, seen alike. */
module Input {
  import opened Bytes
  import opened Wire
  import opened Proxy
  import Rfc1928
  import RequestLine
  import ReadUntil
  import S = Socks5Server
  import H = HttpsServer

  datatype Kind = TunnelTo(dst: Destination) | Socks5 | Https

  /** A tunnel needs no reading or writing: its request is there at once, and its reply is done at once. */
  datatype End = ForTunnel(dst: Destination, told: Option<Major>) | ForSocks5(s: S.End) | ForHttps(h: H.End)

  /** What the session that uses the input can see of it. */
  datatype Phase =
    | Reading
    | Requested(result: Result<Destination>)
    | Hung
    | Replying(dst: Destination, major: Major)
    | Replied(dst: Destination, major: Major, failure: Option<Error>)

  function PhaseOf(e: End): Phase {
    match e
    case ForTunnel(d, None) => Requested(Ok(d))
    case ForTunnel(d, Some(m)) => Replied(d, m, None)
    case ForSocks5(s) =>
      (match s.st
       case Requested(r) => Requested(r)
       case Replying(d, m) => Replying(d, m)
       case Replied(d, m, f) => Replied(d, m, f)
       case _ => Reading)
    case ForHttps(h) =>
      (match h.st
       case Requested(r, _) => Requested(r)
       case Hung => Hung
       case Replying(d, _, m) => Replying(d, m)
       case Replied(d, _, m, f) => Replied(d, m, f)
       case _ => Reading)
  }

  function Start(k: Kind): End {
    match k
    case TunnelTo(d) => ForTunnel(d, None)
    case Socks5 => ForSocks5(S.START)
    case Https => ForHttps(H.START)
  }

  function OpOf(e: End): Op {
    match e
    case ForTunnel(_, _) => Rest
    case ForSocks5(s) => S.OpOf(s.st)
    case ForHttps(h) => H.OpOf(h.st)
  }

  /** All bytes taken from and put on the input socket by the input. */
  function Recv(e: End): seq<byte> {
    match e
    case ForTunnel(_, _) => []
    case ForSocks5(s) => s.recv
    case ForHttps(h) => h.recv
  }

  function Sent(e: End): seq<byte> {
    match e
    case ForTunnel(_, _) => []
    case ForSocks5(s) => s.sent
    case ForHttps(h) => h.sent
  }

  predicate CanMove(e: End, chunk: seq<byte>) {
    match e
    case ForTunnel(_, _) => false
    case ForSocks5(s) => Sound(s, S.OpOf(s.st)) && Fits(S.OpOf(s.st), s.acc, chunk)
    case ForHttps(h) => Sound(h, H.OpOf(h.st)) && Fits(H.OpOf(h.st), h.acc, chunk)
  }

  function Advance(e: End, chunk: seq<byte>): End
    requires CanMove(e, chunk)
  {
    match e
    case ForSocks5(s) => ForSocks5(S.Advance(s, chunk))
    case ForHttps(h) => ForHttps(H.Advance(h, chunk))
  }

  function Break(e: End, err: Error): End {
    match e
    case ForTunnel(_, _) => e
    case ForSocks5(s) => ForSocks5(S.Break(s, err))
    case ForHttps(h) => ForHttps(H.Break(h, err))
  }

  predicate HasRequest(e: End) {
    PhaseOf(e).Requested? && PhaseOf(e).result.Ok?
  }

  function Respond(e: End, m: Major): End
    requires HasRequest(e)
  {
    match e
    case ForTunnel(d, _) => ForTunnel(d, Some(m))
    case ForSocks5(s) => ForSocks5(S.Respond(s, m))
    case ForHttps(h) => ForHttps(H.Respond(h, m))
  }

  // ----- what the bytes mean -----

  /** The request at the beginning of a stream, as the code understands it, and its length. */
  function Request(k: Kind, s: seq<byte>): Option<(Destination, nat)> {
    match k
    case TunnelTo(d) => Some((d, 0))
    case Socks5 =>
      (match Rfc1928.ParseRequest(s)
       case Done(d, n) => Some((S.Observed(d), n))
       case _ => None)
    case Https =>
      (match H.ParseHttps(s)
       case Done(Connect(d, _), n) => Some((d, n))
       case _ => None)
  }

  /** Everything the input says to a client whose stream begins with a request, when the answer is `m`. */
  function Script(k: Kind, s: seq<byte>, m: Major): seq<byte> {
    match k
    case TunnelTo(_) => []
    case Socks5 => [5, 0] + Rfc1928.ReplyFrame(S.MajorToRep(m))
    case Https =>
      (match H.ParseHttps(s)
       case Done(Connect(_, v), _) => H.ReplyText(v, m)
       case _ => [])
  }

  predicate Inv(k: Kind, e: End) {
    match e
    case ForTunnel(d, _) => k == TunnelTo(d)
    case ForSocks5(s) => k.Socks5? && S.Inv(s)
    case ForHttps(h) => k.Https? && H.Inv(h)
  }

  lemma StartInv(k: Kind)
    ensures Inv(k, Start(k)) && Recv(Start(k)) == [] == Sent(Start(k))
    ensures match PhaseOf(Start(k)) case Reading => true case Requested(r) => r.Ok? case _ => false
  {
    hide S.Inv, H.Inv;
    match k
    case TunnelTo(_) =>
    case Socks5 => SocksStart();
    case Https => HttpsStart();
  }

  lemma SocksStart()
    ensures S.Inv(S.START)
  {
    S.EnteredInv(S.START);
  }

  lemma HttpsStart()
    ensures H.Inv(H.START)
  {
    H.EmptyIsOpen();
    H.EnteredInv(H.START);
  }

  lemma AdvanceKeepsInv(k: Kind, e: End, chunk: seq<byte>)
    requires Inv(k, e) && CanMove(e, chunk)
    ensures Inv(k, Advance(e, chunk))
  {
    hide S.Inv, H.Inv;
    match e
    case ForSocks5(s) => S.AdvanceKeepsInv(s, chunk);
    case ForHttps(h) => H.AdvanceKeepsInv(h, chunk);
  }

  lemma BreakKeepsInv(k: Kind, e: End, err: Error)
    requires Inv(k, e) && !OpOf(e).Rest? && OfNetwork(err)
    ensures Inv(k, Break(e, err)) && Recv(Break(e, err)) == Recv(e) && Sent(Break(e, err)) == Sent(e)
  {
    hide S.Inv, H.Inv;
    match e
    case ForSocks5(s) => S.BreakKeepsInv(s, err);
    case ForHttps(h) => H.BreakKeepsInv(h, err);
  }

  lemma RespondKeepsInv(k: Kind, e: End, m: Major)
    requires Inv(k, e) && HasRequest(e)
    ensures var f := Respond(e, m);
            && Inv(k, f) && Recv(f) == Recv(e) && Sent(f) == Sent(e)
            && (PhaseOf(f) == Replying(PhaseOf(e).result.value, m) || PhaseOf(f) == Replied(PhaseOf(e).result.value, m, None))
  {
    hide S.Inv, H.Inv;
    match e
    case ForTunnel(_, _) =>
    case ForSocks5(s) => S.RespondKeepsInv(s, m);
    case ForHttps(h) => H.RespondKeepsInv(h, m);
  }

  /** A move adds its bytes to one of the two logs. */
  lemma AdvanceLogs(e: End, chunk: seq<byte>)
    requires CanMove(e, chunk)
    ensures var f := Advance(e, chunk);
            && Recv(f) == (if OpOf(e).Read? then Recv(e) + chunk else Recv(e))
            && Sent(f) == (if OpOf(e).Read? then Sent(e) else Sent(e) + chunk)
  {
    hide S.OnDone, H.OnDone, S.OpOf, H.OpOf, Sound, Fits;
  }

  /** From one phase to the next. */
  predicate Follows(p: Phase, q: Phase) {
    match p
    case Reading => q.Reading? || q.Hung? || q.Requested?
    case Replying(d, m) => q == p || (q.Replied? && q.dst == d && q.major == m)
    case _ => false
  }

  lemma AdvanceFollows(e: End, chunk: seq<byte>)
    requires CanMove(e, chunk)
    ensures var q := PhaseOf(Advance(e, chunk));
            Follows(PhaseOf(e), q) && (q.Replied? ==> q.failure.None?)
  {
    hide Sound, H.ReplyText, H.OnFirstLine, H.OnHeaderLine;
    match e
    case ForSocks5(s) => SocksFollows(s.st, s.acc + chunk);
    case ForHttps(h) => HttpsFollows(h.st, h.acc + chunk);
  }

  lemma SocksFollows(st: S.State, data: seq<byte>)
    requires !S.OpOf(st).Rest?
    ensures |data| == Total(S.OpOf(st)) ==>
      var t := S.OnDone(st, data);
      if st.Replying? then t == S.Replied(st.dst, st.major, None) else !t.Replying? && !t.Replied?
    ensures !st.Requested? && !st.Replied?
  {
  }

  lemma HttpsFollows(st: H.State, data: seq<byte>)
    requires !H.OpOf(st).Rest?
    ensures |data| == Total(H.OpOf(st)) ==>
      var t := H.OnDone(st, data);
      if st.Replying? then t == H.Replied(st.dst, st.version, st.major, None) else !t.Replying? && !t.Replied?
    ensures !st.Requested? && !st.Replied? && !st.Hung?
  {
    hide ReadUntil.Stops, RequestLine.ParseFirstLine;
  }

  lemma BreakFollows(e: End, err: Error)
    requires !OpOf(e).Rest?
    ensures match PhaseOf(e)
            case Reading => PhaseOf(Break(e, err)) == Requested(Err(err))
            case Replying(d, m) => PhaseOf(Break(e, err)) == Replied(d, m, Some(err))
            case _ => false
  {
    hide H.ReplyText;
  }

  /** A request that has been read is the one that the stream begins with, and nothing more has been taken. */
  lemma RequestIsRead(k: Kind, e: End)
    requires Inv(k, e)
    ensures match PhaseOf(e)
            case Requested(Ok(d)) => Request(k, Recv(e)) == Some((d, |Recv(e)|))
            case Replying(d, _) => Request(k, Recv(e)) == Some((d, |Recv(e)|))
            case Replied(d, _, _) => Request(k, Recv(e)) == Some((d, |Recv(e)|))
            case _ => true
  {
    hide Rfc1928.ParseRequest, H.ParseHttps, S.Observed;
  }

  /** A reply that has been written is the whole of what the input says. */
  lemma ReplyIsWritten(k: Kind, e: End, d: Destination, m: Major)
    requires Inv(k, e) && PhaseOf(e) == Replied(d, m, None)
    ensures Sent(e) == Script(k, Recv(e), m)
  {
    hide Rfc1928.ParseRequest, H.ParseHttps, H.ReplyText, Rfc1928.ReplyFrame;
  }

  /** What is behind a request does not change it. */
  lemma RequestStable(k: Kind, s: seq<byte>, t: seq<byte>)
    requires Request(k, s).Some?
    ensures Request(k, s + t) == Request(k, s) && Request(k, s).value.1 <= |s|
    ensures forall m :: Script(k, s + t, m) == Script(k, s, m)
  {
    hide Rfc1928.ParseRequest, H.ParseHttps, H.ReplyText, Rfc1928.ReplyFrame, S.MajorToRep;
    match k
    case TunnelTo(_) =>
    case Socks5 => Rfc1928.ParseRequestStable(s, t);
    case Https => H.ParseStable(s, t);
  }

  /** Where the input has an operation outstanding. */
  lemma BusyPhases(k: Kind, e: End)
    requires Inv(k, e)
    ensures OpOf(e).Rest? <==> !PhaseOf(e).Reading? && !PhaseOf(e).Replying?
  {
    hide S.Inv, H.Inv, H.ReplyText;
  }

  /** The input hangs exactly when the bytes taken are a request line whose host the scanner of addresses never gets
      past; nothing but the HTTPS input can. */
  lemma HungExactly(k: Kind, e: End)
    requires Inv(k, e)
    ensures PhaseOf(e).Hung? <==> k.Https? && H.HangingLine(Recv(e))
  {
    hide S.Inv, H.At, H.Said, H.HangingLine, H.ReplyText;
    if e.ForHttps? {
      var h := e.h;
      assert Taken(h, H.OpOf(h.st)) == h.recv;
      H.HungAt(h.st, h.recv);
    }
  }

  /** A stream that begins with a request is not one that hangs. */
  lemma RequestDoesNotHang(s: seq<byte>)
    requires Request(Https, s).Some?
    ensures !H.HangingLine(s)
  {
    hide H.ParseHttps, H.HangingLine;
    H.EndlessParsed(s, |s|);
    assert s[..|s|] == s;
  }

  /** Some transfer is possible for whatever the input has outstanding; any one byte if it is a read. */
  lemma CanGoOn(k: Kind, e: End, b: byte) returns (chunk: seq<byte>)
    requires Inv(k, e) && !OpOf(e).Rest?
    ensures CanMove(e, chunk) && (OpOf(e).Read? ==> chunk == [b])
    ensures OpOf(e).Write? ==> !OpOf(Advance(e, chunk)).Write?
    ensures PhaseOf(e).Replying? ==> PhaseOf(Advance(e, chunk)).Replied?
  {
    hide S.At, S.Said, H.At, H.Said, S.OpOf, H.OpOf, S.OnDone, H.OnDone;
    match e
    case ForSocks5(s) =>
      chunk := FittingChunk(s, S.OpOf(s.st), b);
      SocksWrites(s.st, s.acc + chunk);
    case ForHttps(h) =>
      chunk := FittingChunk(h, H.OpOf(h.st), b);
      HttpsWrites(h.st, h.acc + chunk);
  }

  lemma SocksWrites(st: S.State, data: seq<byte>)
    ensures st.Replying? ==> S.OpOf(st).Write?
    ensures S.OpOf(st).Write? ==> !S.OpOf(S.OnDone(st, data)).Write? && (st.Replying? ==> S.OnDone(st, data).Replied?)
  {
  }

  lemma HttpsWrites(st: H.State, data: seq<byte>)
    ensures st.Replying? ==> H.OpOf(st).Write?
    ensures H.OpOf(st).Write? ==> !H.OpOf(H.OnDone(st, data)).Write? && H.OnDone(st, data).Replied?
  {
    hide H.ReplyText;
  }

  // ----- reading a whole stream -----

  /** The stream tells what is asked for, or that it is wrong. */
  predicate Decided(k: Kind, s: seq<byte>) {
    match k
    case TunnelTo(_) => true
    case Socks5 => !Rfc1928.ParseRequest(s).More?
    case Https => !H.ParseHttps(s).More?
  }

  /** Nothing has failed so far, and no reply has been asked for. */
  predicate Clean(e: End) {
    match PhaseOf(e)
    case Requested(Err(err)) => !OfNetwork(err)
    case Replying(_, _) => false
    case Replied(_, _, _) => false
    case _ => true
  }

  lemma StartIsClean(k: Kind)
    ensures Clean(Start(k))
  {
  }

  lemma AdvanceKeepsClean(k: Kind, e: End, chunk: seq<byte>)
    requires Inv(k, e) && CanMove(e, chunk) && Clean(e)
    ensures Clean(Advance(e, chunk))
  {
    hide S.Inv, H.Inv, S.OpOf, S.OnDone, H.OnDone;
    match e
    case ForSocks5(s) => S.AdvanceKeepsClean(s, chunk);
    case ForHttps(h) =>
      if h.st.FirstLine? || h.st.HeaderLine? {
        H.ReadFits(h, [0]);
        H.ReadIsClean(h.st, h.acc + chunk);
      }
  }

  /** As long as the input reads on, the stream has not told. */
  lemma ReadingIsUndecided(k: Kind, e: End)
    requires Inv(k, e) && PhaseOf(e).Reading?
    ensures !Decided(k, Recv(e))
  {
    hide Rfc1928.ParseRequest, H.ParseHttps, S.At, S.Said, H.At, H.Said, H.ReplyText;
    match e
    case ForSocks5(s) => S.UnfinishedWantsMore(s);
    case ForHttps(h) =>
      H.ReadFits(h, [0]);
      assert Taken(h, H.OpOf(h.st)) == h.recv;
      H.WantsMore(h.st, h.recv);
  }

  /** What has been read of a stream, when the input reads no more, is what the stream begins with. */
  lemma ReadIsDecided(k: Kind, e: End, s: seq<byte>)
    requires Inv(k, e) && Clean(e) && !PhaseOf(e).Reading? && Recv(e) <= s
    ensures match PhaseOf(e)
            case Requested(Ok(d)) => Request(k, s) == Some((d, |Recv(e)|))
            case _ => Request(k, s).None?
    ensures PhaseOf(e).Hung? <==> k.Https? && exists n :: H.ParseHttps(s) == Rfc1928.Done(RequestLine.Endless, n)
    ensures PhaseOf(e).Hung? ==> H.ParseHttps(s) == Rfc1928.Done(RequestLine.Endless, |Recv(e)|)
  {
    hide Rfc1928.ParseRequest, H.ParseHttps, S.Observed;
    var rest := s[|Recv(e)|..];
    assert s == Recv(e) + rest;
    match e
    case ForTunnel(_, _) =>
    case ForSocks5(q) =>
      S.RequestedHasAnswer(q);
      Rfc1928.ParseRequestStable(q.recv, rest);
    case ForHttps(h) =>
      H.RestingHasAnswer(h);
      H.MalformedIsBad(h.recv);
      H.ParseStable(h.recv, rest);
  }

  /** What a client has been told of the answer: the reply code is the byte behind the selected method and the version
      of a SOCKS5 reply, and the status code is behind the version of an HTTP one. */
  lemma AnswerIsTold(k: Kind, e: End)
    requires Inv(k, e)
    ensures k.Socks5? && |Sent(e)| >= 4 ==> Told(e).Some? && Sent(e)[3] == S.MajorToRep(Told(e).value)
    ensures k.Https? && |Sent(e)| >= 10 ==> Told(e).Some? && (Sent(e)[9] == '2' as int <==> Told(e).value == Succeeded)
  {
    hide S.Inv, H.Inv, S.MajorToRep;
    match e
    case ForTunnel(_, _) =>
    case ForSocks5(s) =>
      if |s.sent| >= 4 {
        SocksTold(s);
      }
    case ForHttps(h) =>
      if |h.sent| >= 10 {
        HttpsTold(h);
      }
  }

  function Told(e: End): Option<Major> {
    match PhaseOf(e)
    case Replying(_, m) => Some(m)
    case Replied(_, m, _) => Some(m)
    case _ => None
  }

  lemma SocksTold(s: S.End)
    requires S.Inv(s) && |s.sent| >= 4
    ensures Told(ForSocks5(s)).Some? && s.sent[3] == S.MajorToRep(Told(ForSocks5(s)).value)
  {
    hide S.At, S.MajorToRep;
    var op := S.OpOf(s.st);
    if op.Write? {
      LogEndsWithAcc(s, op);
    }
    match s.st
    case Replying(_, m) =>
      assert s.acc <= Rfc1928.ReplyFrame(S.MajorToRep(m)) && s.sent[3] == s.acc[1];
    case Replied(_, m, _) =>
      assert ([5, 0] + Rfc1928.ReplyFrame(S.MajorToRep(m)))[3] == S.MajorToRep(m);
    case _ =>
  }

  lemma HttpsTold(h: H.End)
    requires H.Inv(h) && |h.sent| >= 10
    ensures Told(ForHttps(h)).Some? && (h.sent[9] == '2' as int <==> Told(ForHttps(h)).value == Succeeded)
  {
    hide H.At, H.ReplyText;
    var op := H.OpOf(h.st);
    if op.Write? {
      LogEndsWithAcc(h, op);
    }
    match h.st
    case Replying(_, v, m) =>
      H.HonestStatus(v, m);
      assert h.acc <= H.ReplyText(v, m) && h.sent == h.acc;
    case Replied(_, v, m, _) =>
      H.HonestStatus(v, m);
      assert h.sent <= H.ReplyText(v, m);
    case _ =>
  }
}
