/** The client side of a SOCKS5 session as a machine over its outstanding operation, and what it makes of
    the answers of a proxy: the same as the one-shot parsers, byte for byte, however the bytes arrive. */
module Socks5Client {
  import opened Bytes
  import opened Wire
  import opened Proxy
  import opened Rfc1928

  /** What one session is for; the lengths have passed the checks of `write_connect_request`. */
  datatype RawJob = Job(creds: Credentials, dst: Destination)
  type Job = j: RawJob | CredsFit(j.creds) && Encodable(j.dst)
    witness RawJob.Job(Credentials([], []), NO_DESTINATION)

  /** `Written` is the call of the request handler, `Answered` that of the response handler. */
  datatype State =
    | GreetWrite | GreetRead | CredsWrite | CredsRead | RequestWrite
    | Written(failure: Option<Error>)
    | ReplyHeader | BoundV4(rep: byte) | BoundNameLength(rep: byte) | BoundName(rep: byte, n: nat) | BoundV6(rep: byte)
    | Answered(result: Result<Major>)

  /** `socks5_rep_to_major_code`. */
  function RepToMajor(rep: byte): Major {
    if rep == 0 then Succeeded
    else if rep == 4 then HostUnreachable
    else if rep == 5 then ConnectionRefused
    else if rep == 8 then BadAddressType
    else UnknownError
  }

  function Method(c: Credentials): byte {
    if c.Empty() then 0 else 2
  }

  /** `write_connect_request`: too long a value is reported at once, and nothing is sent. */
  function StartError(r: RawJob): Option<Error> {
    if !CredsFit(r.creds) then Some(CredsTooLong)
    else if !Encodable(r.dst) then Some(HostnameTooLong)
    else None
  }

  function OpOf(j: Job, st: State): Op {
    match st
    case GreetWrite => Write(Greeting(Method(j.creds)))
    case GreetRead => Read(2)
    case CredsWrite => Write(CredsFrame(j.creds))
    case CredsRead => Read(2)
    case RequestWrite => Write(ConnectFrame(j.dst))
    case Written(_) => Rest
    case ReplyHeader => Read(4)
    case BoundV4(_) => Read(6)
    case BoundNameLength(_) => Read(1)
    case BoundName(_, n) => Read(n + 2)
    case BoundV6(_) => Read(18)
    case Answered(_) => Rest
  }

  /** The handler of a completed operation; `data` is what was read. */
  function OnDone(j: Job, st: State, data: seq<byte>): State
    requires OpOf(j, st).Read? ==> |data| == OpOf(j, st).n
  {
    match st
    case GreetWrite => GreetRead
    case GreetRead =>
      if data[0] != 5 then Written(Some(ProtocolViolation))
      else if data[1] == 0xFF then Written(Some(BadAuthMethod))
      else if data[1] != Method(j.creds) then Written(Some(ProtocolViolation))
      else if j.creds.Empty() then RequestWrite
      else CredsWrite
    case CredsWrite => CredsRead
    case CredsRead =>
      if data[0] != 5 then Written(Some(ProtocolViolation))
      else if data[1] != 0 then Written(Some(AuthFailed))
      else RequestWrite
    case RequestWrite => Written(None)
    case Written(_) => st
    case ReplyHeader =>
      if data[0] != 5 || data[1] > 8 then Answered(Err(ProtocolViolation))
      else if data[3] == 1 then BoundV4(data[1])
      else if data[3] == 3 then BoundNameLength(data[1])
      else if data[3] == 4 then BoundV6(data[1])
      else Answered(Err(ProtocolViolation))
    case BoundV4(rep) => Answered(Ok(RepToMajor(rep)))
    case BoundNameLength(rep) => BoundName(rep, data[0])
    case BoundName(rep, _) => Answered(Ok(RepToMajor(rep)))
    case BoundV6(rep) => Answered(Ok(RepToMajor(rep)))
    case Answered(_) => st
  }

  /** The handler of a failed operation. */
  function OnError(st: State, e: Error): State {
    match st
    case Written(_) => st
    case Answered(_) => st
    case GreetWrite => Written(Some(e))
    case GreetRead => Written(Some(e))
    case CredsWrite => Written(Some(e))
    case CredsRead => Written(Some(e))
    case RequestWrite => Written(Some(e))
    case _ => Answered(Err(e))
  }

  type End = Endpoint<State>

  const START: End := Endpoint(GreetWrite, [], [], [])

  function Advance(j: Job, e: End, chunk: seq<byte>): End
    requires Sound(e, OpOf(j, e.st)) && Fits(OpOf(j, e.st), e.acc, chunk)
  {
    var op := OpOf(j, e.st);
    var f := Log(e, op, chunk);
    if |f.acc| < Total(op) then f else f.(st := OnDone(j, e.st, f.acc), acc := [])
  }

  function Break(e: End, err: Error): End {
    e.(st := OnError(e.st, err), acc := [])
  }

  /** `read_connect_response`, called by the user once the request is written. */
  function Await(e: End): End
    requires e.st == Written(None)
  {
    e.(st := ReplyHeader, acc := [])
  }

  // ----- what is said and heard -----

  /** Everything the client says. */
  function Script(j: Job): seq<byte> {
    Preamble(j) + ConnectFrame(j.dst)
  }

  /** Everything before the request. */
  function Preamble(j: Job): seq<byte> {
    Greeting(Method(j.creds)) + if j.creds.Empty() then [] else CredsFrame(j.creds)
  }

  /** The answers that let the client go on to its request. */
  function ParseAuth(j: Job, s: seq<byte>): Parse<()> {
    var m := ParseMethodReply(s, Method(j.creds));
    if !m.Done? || j.creds.Empty() then m else Offset(ParseCredsReply(s[2..]), 2)
  }

  function AuthLength(j: Job): nat {
    if j.creds.Empty() then 2 else 4
  }

  /** All answers up to and including the reply to the request: the reply code. */
  function ParseAnswers(j: Job, s: seq<byte>): Parse<byte> {
    match ParseAuth(j, s)
    case More => More
    case Bad(e, used) => Bad(e, used)
    case Done(_, used) => if used <= |s| then Offset(ParseReply(s[used..]), used) else More
  }

  predicate Authed(j: Job, c: seq<byte>) {
    |c| == AuthLength(j) && ParseAuth(j, c) == Done((), |c|)
  }

  /** Good answers, and the first `k` bytes of a reply with this code and address type. */
  predicate InReply(j: Job, c: seq<byte>, k: nat, rep: byte, t: byte) {
    var n := AuthLength(j);
    && |c| == n + k && k >= 4 && Authed(j, c[..n])
    && var h := c[n..]; h[0] == 5 && h[1] == rep <= 8 && h[3] == t
  }

  /** Where the client is, told from the bytes its finished reads have taken. */
  predicate At(j: Job, st: State, c: seq<byte>) {
    match st
    case GreetWrite => c == []
    case GreetRead => c == []
    case CredsWrite => !j.creds.Empty() && ParseMethodReply(c, 2) == Done((), |c|)
    case CredsRead => !j.creds.Empty() && ParseMethodReply(c, 2) == Done((), |c|)
    case RequestWrite => Authed(j, c)
    case Written(f) =>
      (match f
       case None => Authed(j, c)
       case Some(e) =>
         if OfNetwork(e) then !ParseAuth(j, c).Bad? && |c| <= AuthLength(j) else ParseAuth(j, c) == Bad(e, |c|))
    case ReplyHeader => Authed(j, c)
    case BoundV4(rep) => InReply(j, c, 4, rep, 1)
    case BoundNameLength(rep) => InReply(j, c, 4, rep, 3)
    case BoundName(rep, n) => InReply(j, c, 5, rep, 3) && c[|c| - 1] == n
    case BoundV6(rep) => InReply(j, c, 4, rep, 4)
    case Answered(r) =>
      (match r
       case Ok(m) => Accepted(j, c, m)
       case Err(e) => if OfNetwork(e) then ParseAnswers(j, c).More? else ParseAnswers(j, c) == Bad(e, |c|))
  }

  /** `c` is exactly the answers to one session, the last of which means `m`. */
  predicate Accepted(j: Job, c: seq<byte>, m: Major) {
    var p := ParseAnswers(j, c);
    p.Done? && p.used == |c| && m == RepToMajor(p.value)
  }

  /** What the finished writes have put on the stream, and what a broken one may have left of itself. */
  predicate Said(j: Job, st: State, s: seq<byte>) {
    match st
    case GreetWrite => s == []
    case GreetRead => s == Greeting(Method(j.creds))
    case CredsWrite => s == Greeting(Method(j.creds))
    case CredsRead => s == Preamble(j)
    case RequestWrite => s == Preamble(j)
    case Written(Some(_)) => s <= Script(j)
    case _ => s == Script(j)
  }

  predicate Inv(j: Job, e: End) {
    var op := OpOf(j, e.st);
    Sound(e, op) && At(j, e.st, Taken(e, op)) && Said(j, e.st, Put(e, op))
  }

  // ----- one step -----

  lemma AuthStable(j: Job, c: seq<byte>, t: seq<byte>)
    requires Authed(j, c)
    ensures ParseAuth(j, c + t) == Done((), |c|) && (c + t)[..|c|] == c && (c + t)[|c|..] == t
    ensures ParseAnswers(j, c + t) == Offset(ParseReply(t), |c|)
  {
    assert (c + t)[2..] == c[2..] + t;
  }

  lemma ReplyTail(j: Job, c: seq<byte>, k: nat, rep: byte, t: byte, data: seq<byte>)
    requires InReply(j, c, k, rep, t)
    ensures InReply(j, c + data, k + |data|, rep, t)
    ensures var n := AuthLength(j);
            && (c + data)[n..] == c[n..] + data
            && ParseAnswers(j, c + data) == Offset(ParseReply(c[n..] + data), n)
  {
    var n := AuthLength(j);
    var s := c + data;
    assert c == c[..n] + c[n..];
    assert s == c[..n] + (c[n..] + data);
    AuthStable(j, c[..n], c[n..] + data);
  }

  lemma DoneKeepsAt(j: Job, st: State, c: seq<byte>, data: seq<byte>)
    requires At(j, st, c) && OpOf(j, st).Read? && |data| == OpOf(j, st).n
    ensures At(j, OnDone(j, st, data), c + data)
  {
    match st
    case GreetRead =>
      assert c + data == data;
    case CredsRead =>
      assert (c + data)[2..] == data && (c + data)[..2] == c;
    case ReplyHeader =>
      AuthStable(j, c, data);
    case BoundNameLength(rep) => ReplyTail(j, c, 4, rep, 3, data);
    case BoundV4(rep) => ReplyTail(j, c, 4, rep, 1, data);
    case BoundName(rep, n) => NameDone(j, c, rep, n, data);
    case BoundV6(rep) => ReplyTail(j, c, 4, rep, 4, data);
  }

  lemma NameDone(j: Job, c: seq<byte>, rep: byte, n: nat, data: seq<byte>)
    requires At(j, BoundName(rep, n), c) && |data| == n + 2
    ensures Accepted(j, c + data, RepToMajor(rep))
  {
    ReplyTail(j, c, 5, rep, 3, data);
    var h := c[AuthLength(j)..];
    assert h[4] == c[|c| - 1] == n;
    assert (h + data)[4] == n && (h + data)[..4] == h[..4];
  }

  lemma WriteKeepsAt(j: Job, st: State, c: seq<byte>)
    requires OpOf(j, st).Write? && At(j, st, c)
    ensures At(j, OnDone(j, st, OpOf(j, st).bytes), c)
  {
  }

  lemma DoneKeepsSaid(j: Job, st: State, data: seq<byte>, s: seq<byte>)
    requires !OpOf(j, st).Rest? && (OpOf(j, st).Read? ==> |data| == OpOf(j, st).n) && Said(j, st, s)
    requires st.CredsWrite? ==> !j.creds.Empty()
    ensures Said(j, OnDone(j, st, data), if OpOf(j, st).Write? then s + OpOf(j, st).bytes else s)
  {
    var g := Greeting(Method(j.creds));
    if j.creds.Empty() {
      assert Preamble(j) == g;
    }
    assert [] + g == g;
    assert Preamble(j) <= Script(j) && g <= Script(j);
  }

  /** As long as a read is incomplete, the one-shot parser wants more as well. */
  lemma WantsMore(j: Job, st: State, c: seq<byte>, acc: seq<byte>)
    requires At(j, st, c) && OpOf(j, st).Read? && |acc| < OpOf(j, st).n
    ensures ParseAnswers(j, c + acc).More?
    ensures st.GreetRead? || st.CredsRead? ==> ParseAuth(j, c + acc).More?
  {
    match st
    case GreetRead =>
      assert c + acc == acc;
    case CredsRead =>
      assert (c + acc)[2..] == acc;
    case ReplyHeader => AuthStable(j, c, acc);
    case BoundV4(rep) => ReplyTail(j, c, 4, rep, 1, acc);
    case BoundNameLength(rep) => ReplyTail(j, c, 4, rep, 3, acc);
    case BoundName(rep, n) =>
      ReplyTail(j, c, 5, rep, 3, acc);
      var h := c[AuthLength(j)..];
      assert h[4] == c[|c| - 1] == n;
      assert (h + acc)[4] == n;
    case BoundV6(rep) => ReplyTail(j, c, 4, rep, 4, acc);
  }

  /** A state that has just been entered. */
  predicate Entered(j: Job, f: End) {
    f.acc == [] && At(j, f.st, f.recv) && Said(j, f.st, f.sent)
  }

  lemma EnteredInv(j: Job, f: End)
    requires Entered(j, f)
    ensures Inv(j, f)
  {
    hide At, Said;
    var op := OpOf(j, f.st);
    assert op.Rest? || Total(op) > 0;
    assert Taken(f, op) == f.recv && Put(f, op) == f.sent;
  }

  lemma PartKeepsInv(j: Job, e: End, chunk: seq<byte>)
    requires Inv(j, e) && Fits(OpOf(j, e.st), e.acc, chunk) && |e.acc| + |chunk| < Total(OpOf(j, e.st))
    ensures Inv(j, Advance(j, e, chunk))
  {
    LogKeepsTaken(e, OpOf(j, e.st), chunk);
  }

  lemma AdvanceKeepsInv(j: Job, e: End, chunk: seq<byte>)
    requires Inv(j, e) && Fits(OpOf(j, e.st), e.acc, chunk)
    ensures Inv(j, Advance(j, e, chunk))
  {
    hide At, Said, OnDone, OpOf;
    var op := OpOf(j, e.st);
    LogKeepsTaken(e, op, chunk);
    var data := e.acc + chunk;
    if |data| < Total(op) {
      PartKeepsInv(j, e, chunk);
    } else {
      var f := Advance(j, e, chunk);
      if e.st.CredsWrite? {
        CredsOnlyWithCreds(j, e.st, Taken(e, op));
      }
      DoneKeepsSaid(j, e.st, data, Put(e, op));
      if op.Read? {
        DoneKeepsAt(j, e.st, Taken(e, op), data);
      } else {
        assert data == op.bytes;
        WriteKeepsAt(j, e.st, e.recv);
      }
      assert Entered(j, f);
      EnteredInv(j, f);
    }
  }

  lemma BrokenSaid(j: Job, st: State, s: seq<byte>, part: seq<byte>, err: Error)
    requires OpOf(j, st).Write? && Said(j, st, s) && part <= OpOf(j, st).bytes
    requires st.CredsWrite? ==> !j.creds.Empty()
    ensures Said(j, OnError(st, err), s + part)
  {
    var whole := s + OpOf(j, st).bytes;
    assert s + part <= whole;
    DoneKeepsSaid(j, st, [], s);
    assert whole <= Script(j);
  }

  lemma BrokenAt(j: Job, st: State, c: seq<byte>, err: Error)
    requires OpOf(j, st).Write? && At(j, st, c) && OfNetwork(err)
    ensures At(j, OnError(st, err), c)
  {
  }

  lemma BrokenReadAt(j: Job, st: State, c: seq<byte>, acc: seq<byte>, err: Error)
    requires At(j, st, c) && OpOf(j, st).Read? && |acc| < OpOf(j, st).n && OfNetwork(err)
    ensures At(j, OnError(st, err), c + acc)
  {
    WantsMore(j, st, c, acc);
  }

  lemma BrokenReadSaid(j: Job, st: State, s: seq<byte>, err: Error)
    requires OpOf(j, st).Read? && Said(j, st, s)
    ensures Said(j, OnError(st, err), s)
  {
    PartSaid(j, st, s);
  }

  lemma BrokenReadKeepsInv(j: Job, e: End, err: Error)
    requires Inv(j, e) && OpOf(j, e.st).Read? && OfNetwork(err)
    ensures Inv(j, Break(e, err))
  {
    hide At, Said, OnError, OpOf;
    var op := OpOf(j, e.st);
    LogEndsWithAcc(e, op);
    BrokenReadAt(j, e.st, Taken(e, op), e.acc, err);
    BrokenReadSaid(j, e.st, e.sent, err);
    assert Entered(j, Break(e, err));
    EnteredInv(j, Break(e, err));
  }

  lemma BrokenWriteKeepsInv(j: Job, e: End, err: Error)
    requires Inv(j, e) && OpOf(j, e.st).Write? && OfNetwork(err)
    ensures Inv(j, Break(e, err))
  {
    var op := OpOf(j, e.st);
    LogEndsWithAcc(e, op);
    BrokenSaid(j, e.st, Put(e, op), e.acc, err);
    BrokenAt(j, e.st, e.recv, err);
    assert Entered(j, Break(e, err));
    EnteredInv(j, Break(e, err));
  }

  lemma BreakKeepsInv(j: Job, e: End, err: Error)
    requires Inv(j, e) && !OpOf(j, e.st).Rest? && OfNetwork(err)
    ensures Inv(j, Break(e, err))
  {
    if OpOf(j, e.st).Read? {
      BrokenReadKeepsInv(j, e, err);
    } else {
      BrokenWriteKeepsInv(j, e, err);
    }
  }

  lemma AwaitKeepsInv(j: Job, e: End)
    requires Inv(j, e) && e.st == Written(None)
    ensures Inv(j, Await(e))
  {
    EnteredInv(j, Await(e));
  }

  // ----- whole runs -----

  /** A session without failures: the request is written, the reply read at once after it, and bytes move in
      any portions. It is none if a portion does not fit the operation outstanding when its turn comes. */
  function Play(j: Job, chunks: seq<seq<byte>>): (r: Option<End>)
    ensures r.Some? ==> Inv(j, r.value) && Clean(r.value.st)
  {
    if chunks == [] then
      EnteredInv(j, START);
      Some(START)
    else
      var r := Play(j, chunks[..|chunks| - 1]);
      var chunk := chunks[|chunks| - 1];
      if r.None? || !Fits(OpOf(j, r.value.st), r.value.acc, chunk) then None
      else
        AdvanceKeepsInv(j, r.value, chunk);
        AdvanceKeepsClean(j, r.value, chunk);
        var e := Advance(j, r.value, chunk);
        if e.st == Written(None) then
          AwaitKeepsInv(j, e);
          Some(Await(e))
        else Some(e)
  }

  predicate Clean(st: State) {
    && (st.Written? && st.failure.Some? ==> !OfNetwork(st.failure.value))
    && (st.Answered? && st.result.Err? ==> !OfNetwork(st.result.error))
  }

  lemma DoneIsClean(j: Job, st: State, data: seq<byte>)
    requires !OpOf(j, st).Rest? && (OpOf(j, st).Read? ==> |data| == OpOf(j, st).n) && Clean(st)
    ensures Clean(OnDone(j, st, data))
  {
  }

  lemma AdvanceKeepsClean(j: Job, e: End, chunk: seq<byte>)
    requires Inv(j, e) && Fits(OpOf(j, e.st), e.acc, chunk) && Clean(e.st)
    ensures Clean(Advance(j, e, chunk).st)
  {
    if |e.acc| + |chunk| == Total(OpOf(j, e.st)) {
      DoneIsClean(j, e.st, e.acc + chunk);
    }
  }

  lemma AnswersStable(j: Job, s: seq<byte>, t: seq<byte>)
    requires !ParseAnswers(j, s).More?
    ensures ParseAnswers(j, s).used <= |s| && ParseAnswers(j, s + t) == ParseAnswers(j, s)
  {
    var n := AuthLength(j);
    if ParseAuth(j, s).Done? {
      assert s == s[..n] + s[n..] && s + t == s[..n] + (s[n..] + t);
      assert s[..n][2..] == s[2..n] && s[2..][..n - 2] == s[2..n];
      assert Authed(j, s[..n]);
      AuthStable(j, s[..n], s[n..]);
      AuthStable(j, s[..n], s[n..] + t);
      ParseReplyStable(s[n..], t);
    } else if ParseMethodReply(s, Method(j.creds)).Done? {
      assert (s + t)[2..] == s[2..] + t;
    }
  }

  /** However the answers arrive, the session ends exactly when the one-shot parser has a result for them,
      with that result, having taken exactly the bytes of the answers; and by then it has said exactly its
      script, or less if it was turned away. */
  lemma StagedReaderRefinesParser(j: Job, chunks: seq<seq<byte>>, stream: seq<byte>)
    requires Play(j, chunks).Some? && Play(j, chunks).value.recv <= stream
    ensures var e := Play(j, chunks).value;
            if OpOf(j, e.st).Rest? then
              match ParseAnswers(j, stream)
              case More => false
              case Bad(err, used) => used == |e.recv| && (e.st == Answered(Err(err)) || e.st == Written(Some(err)))
              case Done(rep, used) => used == |e.recv| && e.st == Answered(Ok(RepToMajor(rep))) && e.sent == Script(j)
            else ParseAnswers(j, e.recv).More? && e.sent <= Script(j)
  {
    hide Play, ParseAnswers, RepToMajor, Script, OpOf;
    var e := Play(j, chunks).value;
    if OpOf(j, e.st).Rest? {
      var rest := stream[|e.recv|..];
      assert stream == e.recv + rest;
      NotBetweenCalls(j, chunks);
      FinishedHasAnswer(j, e);
      AnswersStable(j, e.recv, rest);
    } else {
      UnfinishedWantsMore(j, e);
    }
  }

  lemma FinishedHasAnswer(j: Job, e: End)
    requires Inv(j, e) && Clean(e.st) && OpOf(j, e.st).Rest? && e.st != Written(None)
    ensures match ParseAnswers(j, e.recv)
            case More => false
            case Bad(err, used) => used == |e.recv| && (e.st == Answered(Err(err)) || e.st == Written(Some(err)))
            case Done(rep, used) => used == |e.recv| && e.st == Answered(Ok(RepToMajor(rep))) && e.sent == Script(j)
  {
  }

  lemma NotBetweenCalls(j: Job, chunks: seq<seq<byte>>)
    requires Play(j, chunks).Some?
    ensures Play(j, chunks).value.st != Written(None)
  {
  }

  lemma PartSaid(j: Job, st: State, s: seq<byte>)
    requires !st.Written? && Said(j, st, s)
    ensures s <= Script(j)
  {
    assert Greeting(Method(j.creds)) <= Preamble(j) <= Script(j);
  }

  lemma UnfinishedRead(j: Job, e: End)
    requires Inv(j, e) && OpOf(j, e.st).Read?
    ensures ParseAnswers(j, e.recv).More? && e.sent <= Script(j)
  {
    hide At, Said, ParseAnswers, Script;
    var op := OpOf(j, e.st);
    WantsMore(j, e.st, Taken(e, op), e.acc);
    LogEndsWithAcc(e, op);
    WrittenOnlyIdle(j, e.st);
    PartSaid(j, e.st, e.sent);
  }

  lemma WrittenOnlyIdle(j: Job, st: State)
    requires !OpOf(j, st).Rest?
    ensures !st.Written?
  {
  }

  lemma CredsOnlyWithCreds(j: Job, st: State, c: seq<byte>)
    requires At(j, st, c) && st.CredsWrite?
    ensures !j.creds.Empty()
  {
  }

  lemma UnfinishedWrite(j: Job, e: End)
    requires Inv(j, e) && OpOf(j, e.st).Write?
    ensures ParseAnswers(j, e.recv).More? && e.sent <= Script(j)
  {
    hide At, Said, ParseAnswers, Script, OpOf;
    var op := OpOf(j, e.st);
    LogEndsWithAcc(e, op);
    if e.st.CredsWrite? {
      CredsOnlyWithCreds(j, e.st, e.recv);
    }
    WrittenPart(j, e.st, Put(e, op), e.acc);
    WritingWantsMore(j, e.st, e.recv);
  }

  /** A part of a write continues the script. */
  lemma WrittenPart(j: Job, st: State, s: seq<byte>, part: seq<byte>)
    requires OpOf(j, st).Write? && Said(j, st, s) && part <= OpOf(j, st).bytes
    requires st.CredsWrite? ==> !j.creds.Empty()
    ensures s + part <= Script(j)
  {
    hide Said;
    BrokenSaid(j, st, s, part, NetEof);
    WriteBreaks(j, st, s + part);
  }

  lemma WriteBreaks(j: Job, st: State, s: seq<byte>)
    requires OpOf(j, st).Write? && Said(j, OnError(st, NetEof), s)
    ensures s <= Script(j)
  {
  }

  lemma UnfinishedWantsMore(j: Job, e: End)
    requires Inv(j, e) && !OpOf(j, e.st).Rest?
    ensures ParseAnswers(j, e.recv).More? && e.sent <= Script(j)
  {
    hide Inv;
    if OpOf(j, e.st).Read? {
      UnfinishedRead(j, e);
    } else {
      UnfinishedWrite(j, e);
    }
  }

  lemma WritingWantsMore(j: Job, st: State, c: seq<byte>)
    requires OpOf(j, st).Write? && At(j, st, c)
    ensures ParseAnswers(j, c).More?
  {
    if st.RequestWrite? {
      AuthStable(j, c, []);
      assert c + [] == c;
    }
  }
}
