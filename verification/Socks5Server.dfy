/** The server side of a SOCKS5 session as a machine over its outstanding operation, and what its staged
    reader makes of a stream: the same as the one-shot parser, byte for byte, however the bytes arrive. */
module Socks5Server {
  import opened Bytes
  import opened Wire
  import opened IpAddresses
  import opened Proxy
  import opened Rfc1928

  /** Each reading or writing state has one operation outstanding. `Requested` is the call of the request
      handler, `Replied` that of the response handler. */
  datatype State =
    | GreetHeader | GreetMethods(n: nat) | GreetReply
    | RequestHeader | AddressV4 | NameLength | NameText(n: nat) | AddressV6
    | Requested(result: Result<Destination>)
    | Replying(dst: Destination, major: Major)
    | Replied(dst: Destination, major: Major, failure: Option<Error>)

  /** `major_code_to_rep`: the missing `return` makes host-unreachable fall through to 5. */
  function MajorToRep(m: Major): byte {
    match m
    case Succeeded => 0
    case HostUnreachable => 5
    case ConnectionRefused => 5
    case BadAddressType => 7
    case UnknownError => 1
  }

  function OpOf(st: State): Op {
    match st
    case GreetHeader => Read(2)
    case GreetMethods(n) => Read(n)
    case GreetReply => Write([5, 0])
    case RequestHeader => Read(4)
    case AddressV4 => Read(6)
    case NameLength => Read(1)
    case NameText(n) => Read(n + 2)
    case AddressV6 => Read(18)
    case Requested(_) => Rest
    case Replying(_, m) => Write(ReplyFrame(MajorToRep(m)))
    case Replied(_, _, _) => Rest
  }

  /** The handler of a completed operation; `data` is what was read. */
  function OnDone(st: State, data: seq<byte>): State
    requires OpOf(st).Read? ==> |data| == OpOf(st).n
  {
    match st
    case GreetHeader =>
      if data[0] != 5 || data[1] == 0 then Requested(Err(ProtocolViolation)) else GreetMethods(data[1])
    case GreetMethods(_) =>
      if 0 !in data then Requested(Err(ProtocolViolation)) else GreetReply
    case GreetReply => RequestHeader
    case RequestHeader =>
      if data[0] != 5 then Requested(Err(ProtocolViolation))
      else if data[1] != 1 then Requested(Err(UnsupportedCommand))
      else if data[3] == 1 then AddressV4
      else if data[3] == 3 then NameLength
      else if data[3] == 4 then AddressV6
      else Requested(Err(ProtocolViolation))
    case AddressV4 => Requested(Ok(Destination([], V4(data[..4]), FromNet16(data[4], data[5]))))
    case NameLength => NameText(data[0])
    case NameText(n) => Requested(Ok(Destination(data[..n], NO_DESTINATION.ip, FromNet16(data[n], data[n + 1]))))
    case AddressV6 => Requested(Ok(Destination([], V6(data[..16]), Load16(data[16], data[17]))))
    case Requested(_) => st
    case Replying(dst, m) => Replied(dst, m, None)
    case Replied(_, _, _) => st
  }

  /** The handler of a failed operation. */
  function OnError(st: State, e: Error): State {
    match st
    case Requested(_) => st
    case Replied(_, _, _) => st
    case Replying(dst, m) => Replied(dst, m, Some(e))
    case _ => Requested(Err(e))
  }

  type End = Endpoint<State>

  const START: End := Endpoint(GreetHeader, [], [], [])

  /** Some more bytes are transferred for the outstanding operation. */
  function Advance(e: End, chunk: seq<byte>): End
    requires Sound(e, OpOf(e.st)) && Fits(OpOf(e.st), e.acc, chunk)
  {
    var op := OpOf(e.st);
    var f := Log(e, op, chunk);
    if |f.acc| < Total(op) then f else f.(st := OnDone(e.st, f.acc), acc := [])
  }

  /** The outstanding operation fails, perhaps half done. */
  function Break(e: End, err: Error): End {
    e.(st := OnError(e.st, err), acc := [])
  }

  /** `write_connect_response`, called by the user once it has the request. */
  function Respond(e: End, m: Major): End
    requires e.st.Requested? && e.st.result.Ok?
  {
    e.(st := Replying(e.st.result.value, m), acc := [])
  }

  // ----- the staged reader and the one-shot parser -----

  /** What the code makes of a destination in a frame: the port of an IPv6 address is loaded unswapped. */
  function Observed(d: Destination): Destination {
    if !d.UsingHostname() && d.ip.V6? then d.(port := Swap16(d.port)) else d
  }

  /** A whole greeting and the first `k` bytes of a request to an address of type `t`. */
  predicate InRequest(c: seq<byte>, k: nat, t: byte) {
    var g := ParseGreeting(c);
    && g.Done? && |c| == g.used + k && k >= 4
    && var h := c[g.used..]; h[0] == 5 && h[1] == 1 && h[3] == t
  }

  /** Where the reader is, told from the bytes its finished reads have taken. */
  predicate At(st: State, c: seq<byte>) {
    match st
    case GreetHeader => c == []
    case GreetMethods(n) => |c| == 2 && c[0] == 5 && c[1] == n && n > 0
    case GreetReply => ParseGreeting(c) == Done((), |c|)
    case RequestHeader => ParseGreeting(c) == Done((), |c|)
    case AddressV4 => InRequest(c, 4, 1)
    case NameLength => InRequest(c, 4, 3)
    case NameText(n) => InRequest(c, 5, 3) && c[|c| - 1] == n
    case AddressV6 => InRequest(c, 4, 4)
    case Requested(r) =>
      (match r
       case Ok(d) => Understood(c, d)
       case Err(e) => if OfNetwork(e) then ParseRequest(c).More? else ParseRequest(c) == Bad(e, |c|))
    case Replying(d, _) => Understood(c, d)
    case Replied(d, _, _) => Understood(c, d)
  }

  /** `c` is exactly one request, and the code understands it as `d`. */
  predicate Understood(c: seq<byte>, d: Destination) {
    var p := ParseRequest(c);
    p.Done? && p.used == |c| && d == Observed(p.value)
  }

  /** What the finished writes have put on the stream, and what a broken one may have left of itself. */
  predicate Said(st: State, s: seq<byte>) {
    match st
    case GreetHeader => s == []
    case GreetMethods(_) => s == []
    case GreetReply => s == []
    case Requested(Err(e)) => if OfNetwork(e) then s <= [5, 0] else s == [] || s == [5, 0]
    case Replied(_, m, None) => s == [5, 0] + ReplyFrame(MajorToRep(m))
    case Replied(_, m, Some(_)) => s <= [5, 0] + ReplyFrame(MajorToRep(m))
    case _ => s == [5, 0]
  }

  predicate Inv(e: End) {
    var op := OpOf(e.st);
    Sound(e, op) && At(e.st, Taken(e, op)) && Said(e.st, Put(e, op))
  }

  /** Putting one complete read behind what has been taken. */
  lemma DoneKeepsAt(st: State, c: seq<byte>, data: seq<byte>)
    requires At(st, c) && OpOf(st).Read? && |data| == OpOf(st).n
    ensures At(OnDone(st, data), c + data)
  {
    var s := c + data;
    match st
    case GreetHeader =>
    case GreetMethods(n) =>
      assert s[2..2 + n] == data;
    case RequestHeader =>
      GreetingStable(c, data);
      assert s[|c|..] == data;
    case NameLength =>
      RequestTail(c, 4, 3, data);
    case AddressV4 => AddressDone(st, c, data);
    case NameText(n) => AddressDone(st, c, data);
    case AddressV6 => AddressDone(st, c, data);
  }

  lemma GreetingStable(c: seq<byte>, t: seq<byte>)
    requires ParseGreeting(c).Done?
    ensures ParseGreeting(c).used <= |c| && ParseGreeting(c + t) == ParseGreeting(c)
  {
    var end := 2 + c[1] as int;
    assert (c + t)[2..end] == c[2..end];
  }

  /** More bytes behind the beginning of a request. */
  lemma RequestTail(c: seq<byte>, k: nat, t: byte, data: seq<byte>)
    requires InRequest(c, k, t)
    ensures var g := ParseGreeting(c);
            && g.used <= |c| && ParseGreeting(c + data) == g && InRequest(c + data, k + |data|, t)
            && (c + data)[g.used..] == c[g.used..] + data
            && ParseRequest(c + data) == Offset(ParseConnect(c[g.used..] + data), g.used)
  {
    GreetingStable(c, data);
    var k := ParseGreeting(c).used;
    assert (c + data)[k..] == c[k..] + data;
  }

  /** The rest of a request, seen by the one-shot parser alone. */
  lemma RestParsed(h: seq<byte>, data: seq<byte>, k: nat, t: byte)
    requires |h| == k >= 4 && h[0] == 5 && h[1] == 1 && h[3] == t && (t == 1 || t == 3 || t == 4)
    requires k == (if t == 3 then 5 else 4) && |data| == (if t == 1 then 6 else if t == 4 then 18 else h[4] as int + 2)
    ensures ParseConnect(h + data) == Done(FrameDestination(h + data), k + |data|)
    ensures var d := FrameDestination(h + data);
            if t == 1 then d == Destination([], V4(data[..4]), FromNet16(data[4], data[5]))
            else if t == 4 then d == Destination([], V6(data[..16]), FromNet16(data[16], data[17]))
            else d == Destination(data[..h[4]], NO_DESTINATION.ip, FromNet16(data[h[4]], data[h[4] as int + 1]))
  {
    hide FromNet16;
    var s := h + data;
    if t == 1 {
      assert s[4..8] == data[..4];
    } else if t == 4 {
      assert s[4..20] == data[..16];
    } else {
      assert s[4] == h[4] && s[5..5 + h[4] as int] == data[..h[4]];
    }
  }

  lemma AddressDone(st: State, c: seq<byte>, data: seq<byte>)
    requires st.AddressV4? || st.AddressV6? || st.NameText?
    requires At(st, c) && |data| == OpOf(st).n
    ensures At(OnDone(st, data), c + data)
  {
    hide ParseConnect, FrameDestination;
    var k := ParseGreeting(c).used;
    var h := c[k..];
    match st
    case AddressV4 =>
      RequestTail(c, 4, 1, data);
      RestParsed(h, data, 4, 1);
    case NameText(n) =>
      RequestTail(c, 5, 3, data);
      assert h[4] == n;
      RestParsed(h, data, 5, 3);
    case AddressV6 =>
      RequestTail(c, 4, 4, data);
      RestParsed(h, data, 4, 4);
      PortUnswapped(data[16], data[17]);
  }

  lemma PortUnswapped(b0: byte, b1: byte)
    ensures Load16(b0, b1) == Swap16(FromNet16(b0, b1))
  {
  }

  /** As long as a read is incomplete, the one-shot parser wants more as well. */
  lemma WantsMore(st: State, c: seq<byte>, acc: seq<byte>)
    requires At(st, c) && OpOf(st).Read? && |acc| < OpOf(st).n
    ensures ParseRequest(c + acc).More?
  {
    match st
    case GreetHeader =>
    case GreetMethods(_) =>
    case RequestHeader =>
      GreetingStable(c, acc);
      assert (c + acc)[|c|..] == acc;
    case AddressV4 => RequestTail(c, 4, 1, acc);
    case NameLength => RequestTail(c, 4, 3, acc);
    case NameText(_) => RequestTail(c, 5, 3, acc);
    case AddressV6 => RequestTail(c, 4, 4, acc);
  }

  lemma PartKeepsInv(e: End, chunk: seq<byte>)
    requires Inv(e) && Fits(OpOf(e.st), e.acc, chunk) && |e.acc| + |chunk| < Total(OpOf(e.st))
    ensures Inv(Advance(e, chunk))
  {
    LogKeepsTaken(e, OpOf(e.st), chunk);
  }

  /** A state that has just been entered. */
  predicate Entered(f: End) {
    f.acc == [] && At(f.st, f.recv) && Said(f.st, f.sent)
  }

  lemma EnteredTotal(f: End)
    requires At(f.st, f.recv)
    ensures OpOf(f.st).Rest? || Total(OpOf(f.st)) > 0
  {
    hide ParseGreeting, InRequest, ParseRequest;
  }

  lemma EnteredInv(f: End)
    requires Entered(f)
    ensures Inv(f)
  {
    hide At, Said;
    EnteredTotal(f);
    var op := OpOf(f.st);
    assert Taken(f, op) == f.recv && Put(f, op) == f.sent;
  }

  lemma DoneKeepsSaid(st: State, data: seq<byte>, s: seq<byte>)
    requires !OpOf(st).Rest? && (OpOf(st).Read? ==> |data| == OpOf(st).n) && Said(st, s)
    ensures Said(OnDone(st, data), if OpOf(st).Write? then s + OpOf(st).bytes else s)
  {
  }

  lemma AdvanceKeepsInv(e: End, chunk: seq<byte>)
    requires Inv(e) && Fits(OpOf(e.st), e.acc, chunk)
    ensures Inv(Advance(e, chunk))
  {
    hide At, Said, OnDone, OpOf;
    var op := OpOf(e.st);
    LogKeepsTaken(e, op, chunk);
    var data := e.acc + chunk;
    if |data| < Total(op) {
      PartKeepsInv(e, chunk);
    } else {
      var f := Advance(e, chunk);
      DoneKeepsSaid(e.st, data, Put(e, op));
      if op.Read? {
        DoneKeepsAt(e.st, Taken(e, op), data);
      } else {
        assert data == op.bytes;
        WriteKeepsAt(e.st, e.recv);
      }
      assert Entered(f);
      EnteredInv(f);
    }
  }

  lemma WriteKeepsAt(st: State, c: seq<byte>)
    requires OpOf(st).Write? && At(st, c)
    ensures At(OnDone(st, OpOf(st).bytes), c)
  {
  }

  lemma BrokenWriteSaid(st: State, s: seq<byte>, part: seq<byte>, err: Error)
    requires OpOf(st).Write? && Said(st, s) && part <= OpOf(st).bytes && OfNetwork(err)
    ensures Said(OnError(st, err), s + part)
  {
    if st.GreetReply? {
      assert s + part == part;
    }
  }

  lemma BrokenWriteAt(st: State, c: seq<byte>, err: Error)
    requires OpOf(st).Write? && At(st, c) && OfNetwork(err)
    ensures At(OnError(st, err), c)
  {
  }

  lemma BrokenReadAt(st: State, c: seq<byte>, acc: seq<byte>, err: Error)
    requires At(st, c) && OpOf(st).Read? && |acc| < OpOf(st).n && OfNetwork(err)
    ensures At(OnError(st, err), c + acc)
  {
    hide ParseRequest, ParseGreeting, InRequest;
    WantsMore(st, c, acc);
  }

  lemma BrokenReadSaid(st: State, s: seq<byte>, err: Error)
    requires OpOf(st).Read? && Said(st, s)
    ensures Said(OnError(st, err), s)
  {
  }

  lemma BrokenReadKeepsInv(e: End, err: Error)
    requires Inv(e) && OpOf(e.st).Read? && OfNetwork(err)
    ensures Inv(Break(e, err))
  {
    hide At, Said, OnError, OpOf;
    var op := OpOf(e.st);
    LogEndsWithAcc(e, op);
    BrokenReadAt(e.st, Taken(e, op), e.acc, err);
    BrokenReadSaid(e.st, e.sent, err);
    EnteredInv(Break(e, err));
  }

  lemma BrokenWriteKeepsInv(e: End, err: Error)
    requires Inv(e) && OpOf(e.st).Write? && OfNetwork(err)
    ensures Inv(Break(e, err))
  {
    hide At, Said, OnError, OpOf;
    var op := OpOf(e.st);
    LogEndsWithAcc(e, op);
    BrokenWriteSaid(e.st, Put(e, op), e.acc, err);
    BrokenWriteAt(e.st, e.recv, err);
    EnteredInv(Break(e, err));
  }

  lemma BreakKeepsInv(e: End, err: Error)
    requires Inv(e) && !OpOf(e.st).Rest? && OfNetwork(err)
    ensures Inv(Break(e, err))
  {
    hide Inv, Break, OpOf;
    if OpOf(e.st).Read? {
      BrokenReadKeepsInv(e, err);
    } else {
      BrokenWriteKeepsInv(e, err);
    }
  }

  lemma RespondKeepsInv(e: End, m: Major)
    requires Inv(e) && e.st.Requested? && e.st.result.Ok?
    ensures Inv(Respond(e, m))
  {
  }

  /** A run: bytes transferred in any portions. It is none if a portion does not fit the operation that is
      outstanding when its turn comes. */
  function Play(chunks: seq<seq<byte>>): (r: Option<End>)
    ensures r.Some? ==> Inv(r.value) && Clean(r.value.st)
  {
    if chunks == [] then Some(START)
    else
      var r := Play(chunks[..|chunks| - 1]);
      var chunk := chunks[|chunks| - 1];
      if r.None? || !Fits(OpOf(r.value.st), r.value.acc, chunk) then None
      else
        AdvanceKeepsInv(r.value, chunk);
        AdvanceKeepsClean(r.value, chunk);
        Some(Advance(r.value, chunk))
  }

  /** Without failures nothing but the parser's own errors occurs, and no reply is asked for. */
  predicate Clean(st: State) {
    !st.Replying? && !st.Replied? && (st.Requested? && st.result.Err? ==> !OfNetwork(st.result.error))
  }

  lemma DoneIsClean(st: State, data: seq<byte>)
    requires !OpOf(st).Rest? && (OpOf(st).Read? ==> |data| == OpOf(st).n) && Clean(st)
    ensures Clean(OnDone(st, data))
  {
  }

  lemma AdvanceKeepsClean(e: End, chunk: seq<byte>)
    requires Inv(e) && Fits(OpOf(e.st), e.acc, chunk) && Clean(e.st)
    ensures Clean(Advance(e, chunk).st)
  {
    if |e.acc| + |chunk| == Total(OpOf(e.st)) {
      DoneIsClean(e.st, e.acc + chunk);
    }
  }

  lemma UnfinishedWantsMore(e: End)
    requires Inv(e) && Clean(e.st) && !e.st.Requested?
    ensures ParseRequest(e.recv).More?
  {
    var op := OpOf(e.st);
    if op.Read? {
      WantsMore(e.st, Taken(e, op), e.acc);
      LogEndsWithAcc(e, op);
    }
  }

  /** However the bytes arrive, the staged reader finishes exactly when the one-shot parser has an answer for
      the stream, with that answer (the IPv6 port aside), having taken exactly the bytes of the request. */
  lemma StagedReaderRefinesParser(chunks: seq<seq<byte>>, stream: seq<byte>)
    requires Play(chunks).Some? && Play(chunks).value.recv <= stream
    ensures var e := Play(chunks).value;
            if e.st.Requested? then
              match ParseRequest(stream)
              case More => false
              case Bad(err, used) => e.st.result == Err(err) && used == |e.recv|
              case Done(d, used) => e.st.result == Ok(Observed(d)) && used == |e.recv|
            else ParseRequest(e.recv).More?
  {
    hide Play, ParseRequest, Observed;
    var e := Play(chunks).value;
    if e.st.Requested? {
      var rest := stream[|e.recv|..];
      assert stream == e.recv + rest;
      RequestedHasAnswer(e);
      ParseRequestStable(e.recv, rest);
    } else {
      UnfinishedWantsMore(e);
    }
  }

  lemma RequestedHasAnswer(e: End)
    requires Inv(e) && Clean(e.st) && e.st.Requested?
    ensures match ParseRequest(e.recv)
            case More => false
            case Bad(err, used) => e.st.result == Err(err) && used == |e.recv|
            case Done(d, used) => e.st.result == Ok(Observed(d)) && used == |e.recv|
  {
    hide ParseRequest, Observed;
  }
}
