/** `server_session_socks5`: the object with its buffers and handler slots. Each of its handlers does to it what the
    machine of the server says. */
module Socks5ServerSessions {
  import opened Bytes
  import opened Wire
  import opened IpAddresses
  import opened Proxy
  import opened Rfc1928
  import S = Socks5Server

  /** The handler of the outstanding operation. */
  datatype Pending =
    | Idle
    | AuthReadReq | AuthReadReqMethods | AuthWriteResp
    | ConnReadReq | AddrIpv4 | AddrDomainname | AddrDomainnameStr | AddrIpv6
    | WriteConnResp

  predicate Writes(p: Pending) {
    p.AuthWriteResp? || p.WriteConnResp?
  }

  predicate Reads(p: Pending) {
    !p.Idle? && !Writes(p)
  }

  predicate Requests(p: Pending) {
    !p.Idle? && !p.WriteConnResp?
  }

  /** The state of the machine while the request is read, given the number of methods and the length of the name. */
  function StateOf(p: Pending, methods: byte, length: byte): S.State
    requires Requests(p)
  {
    match p
    case AuthReadReq => S.GreetHeader
    case AuthReadReqMethods => S.GreetMethods(methods)
    case AuthWriteResp => S.GreetReply
    case ConnReadReq => S.RequestHeader
    case AddrIpv4 => S.AddressV4
    case AddrDomainname => S.NameLength
    case AddrDomainnameStr => S.NameText(length)
    case AddrIpv6 => S.AddressV6
  }

  /** What follows a write does not depend on what was written. */
  lemma WriteDone(st: S.State, data: seq<byte>)
    requires S.OpOf(st).Write?
    ensures S.OnDone(st, data) == S.OnDone(st, [])
  {
  }

  /** The next `k` bytes of a buffer continue what has left of it. */
  lemma Sending(buf: seq<byte>, acc: seq<byte>, got: nat, k: nat)
    requires got + k <= |buf| && acc == buf[..got]
    ensures acc + buf[got..got + k] == buf[..got + k] && acc + buf[got..got + k] <= buf
  {
  }

  lemma NameStored(data: seq<byte>, n: nat, dst: Destination)
    requires |data| == n + 2 && dst == Destination(data[..n], dst.ip, FromNet16(data[n], data[n + 1]))
    ensures var t := S.OnDone(S.NameText(n), data);
            t.Requested? && t.result.Ok? && dst == t.result.value.(ip := dst.ip)
  {
  }

  class ServerSession {
    const readAuthHdr: array<byte>
    var readAuthMethods: array<byte>
    const writeAuthResp: array<byte>
    const readConnHdr: array<byte>
    const readAddr: array<byte>
    const writeConnResp: array<byte>
    var userDst: Destination  // where the user wants the destination
    var userReadReqHandler: bool  // whether the slots are filled
    var userWriteRespHandler: bool
    var pending: Pending
    var got: nat  // how much of the outstanding operation has been transferred
    var readCalls: seq<Option<Error>>  // of the current handlers
    var writeCalls: seq<Option<Error>>
    ghost var wasIp: Address  // the address that the destination had before
    ghost var named: bool  // whether the destination was given by name, so that its address was left alone
    ghost var end: S.End  // the machine that the session is

    ghost predicate Shape()
      reads this
    {
      && readAuthHdr.Length == 2 && writeAuthResp.Length == 2 && readConnHdr.Length == 4
      && readAddr.Length == 270 && writeConnResp.Length == 10
      && readAuthHdr != writeAuthResp && readAuthMethods != writeAuthResp && readAuthMethods != readAuthHdr
      && readAuthMethods != readConnHdr && readAuthMethods != readAddr && readAuthMethods != writeConnResp
    }

    /** Where the outstanding read puts its bytes. */
    function Buffer(): array<byte>
      reads this
    {
      match pending
      case AuthReadReq => readAuthHdr
      case AuthReadReqMethods => readAuthMethods
      case ConnReadReq => readConnHdr
      case AuthWriteResp => writeAuthResp
      case WriteConnResp => writeConnResp
      case _ => readAddr
    }

    function Offset(): nat
      reads this
    {
      if pending.AddrDomainnameStr? then 1 else 0
    }

    /** How many bytes the outstanding read wants. */
    function Wanted(): nat
      reads this, readAuthHdr, readAddr
      requires Shape()
    {
      match pending
      case AuthReadReq => 2
      case AuthReadReqMethods => readAuthHdr[1]
      case ConnReadReq => 4
      case AddrIpv4 => 6
      case AddrDomainname => 1
      case AddrDomainnameStr => readAddr[0] as int + 2
      case AddrIpv6 => 18
      case _ => 0
    }

    /** The slots are filled as long as their handlers are to be called, which happens once; until then the
        address of the destination is as the user has left it. */
    ghost predicate Slots()
      reads this
    {
      && (userReadReqHandler <==> Requests(pending))
      && (userWriteRespHandler <==> pending.WriteConnResp?)
      && (Requests(pending) ==> readCalls == [] && writeCalls == [] && userDst.ip == wasIp)
      && (pending.WriteConnResp? ==> writeCalls == [])
    }

    /** What is in the user's variable after a request for `d`. If nothing was stored in it before, that is `d`. */
    ghost function Stored(d: Destination): Destination
      reads this
    {
      if named then d.(ip := wasIp) else d
    }

    /** The outstanding operation, and the calls if there is none, are those of the machine; a read stays within its
        buffer, and a write is of a whole buffer. */
    ghost predicate Valid()
      reads this, readAuthHdr, readAuthMethods, writeAuthResp, readConnHdr, readAddr, writeConnResp
    {
      && Shape() && Slots()
      && if pending.Idle? then
           && end.acc == [] && got == 0
           && (end.st.Requested? ==> |readCalls| == 1 && writeCalls == [])
           && (end.st.Requested? && end.st.result.Ok? ==> readCalls == [None] && userDst == Stored(end.st.result.value))
           && (end.st.Requested? && end.st.result.Err? ==> readCalls == [Some(end.st.result.error)])
           && (end.st.Replied? ==> writeCalls == [end.st.failure])
         else
           && (Requests(pending) ==> end.st == StateOf(pending, readAuthHdr[1], readAddr[0]))
           && (pending.WriteConnResp? ==> end.st.Replying?)
           && if Writes(pending) then
                S.OpOf(end.st) == Write(Buffer()[..]) && got <= Buffer().Length && end.acc == Buffer()[..got]
              else
                && got <= Wanted() && Offset() + Wanted() <= Buffer().Length
                && (pending.AuthReadReqMethods? ==> Wanted() == readAuthMethods.Length)
                && end.acc == Buffer()[Offset()..Offset() + got]
    }

    constructor ()
      ensures Valid() && pending == Idle && readCalls == [] && writeCalls == [] && userDst == NO_DESTINATION
      ensures fresh(readAuthHdr) && fresh(readAuthMethods) && fresh(writeAuthResp)
      ensures fresh(readConnHdr) && fresh(readAddr) && fresh(writeConnResp)
    {
      readAuthHdr := new byte[2];
      readAuthMethods := new byte[0];
      writeAuthResp := new byte[2];
      readConnHdr := new byte[4];
      readAddr := new byte[270];
      writeConnResp := new byte[10];
      userDst, userReadReqHandler, userWriteRespHandler := NO_DESTINATION, false, false;
      pending, got, readCalls, writeCalls := Idle, 0, [], [];
      wasIp, named, end := NO_DESTINATION.ip, false, S.START;
    }

    /** The situation in which the handlers of the reader are called. */
    ghost predicate InRequest()
      reads this
    {
      && Shape() && userReadReqHandler && !userWriteRespHandler
      && readCalls == [] && writeCalls == [] && userDst.ip == wasIp
    }

    method CallReadHandler(err: Option<Error>, ghost d: Destination)
      requires Shape() && userReadReqHandler && !userWriteRespHandler && readCalls == [] && writeCalls == []
      requires err.None? ==> userDst == Stored(d)
      modifies this
      ensures Valid() && readAuthMethods == old(readAuthMethods)
      ensures end == old(end).(st := S.Requested(if err.Some? then Err(err.value) else Ok(d)), acc := [])
    {
      hide S.OpOf, S.OnDone;
      userReadReqHandler := false;
      readCalls := readCalls + [err];
      pending, got := Idle, 0;
      end := end.(st := S.Requested(if err.Some? then Err(err.value) else Ok(d)), acc := []);
    }

    // ----- the request -----

    method ReadConnectRequest()
      requires Valid() && pending == Idle
      modifies this
      ensures Valid() && end == S.START && wasIp == old(userDst).ip
    {
      hide S.OpOf;
      NewHandler();
      wasIp, named := userDst.ip, false;
      pending, got, end := AuthReadReq, 0, S.START;
    }

    /** The slot is filled with a new handler, which has not been called. */
    method NewHandler()
      modifies this`userReadReqHandler, this`readCalls, this`writeCalls
      ensures userReadReqHandler && readCalls == [] && writeCalls == []
    {
      userReadReqHandler, readCalls, writeCalls := true, [], [];
    }

    method AuthReadReqHandler(err: Option<Error>)
      requires InRequest()
      modifies this
      ensures Valid()
      ensures err.Some? ==> end == old(end).(st := S.Requested(Err(err.value)), acc := [])
      ensures err.None? ==> end == old(end).(st := S.OnDone(S.GreetHeader, old(readAuthHdr[..])), acc := [])
      ensures fresh(readAuthMethods) || readAuthMethods == old(readAuthMethods)
    {
      hide S.OpOf;
      if err.Some? {
        CallReadHandler(err, NO_DESTINATION);
        return;
      }
      if readAuthHdr[0] != 5 {
        CallReadHandler(Some(ProtocolViolation), NO_DESTINATION);
        return;
      }
      if readAuthHdr[1] == 0 {
        CallReadHandler(Some(ProtocolViolation), NO_DESTINATION);
        return;
      }
      readAuthMethods := new byte[readAuthHdr[1]];
      pending, got := AuthReadReqMethods, 0;
      end := end.(st := S.GreetMethods(readAuthHdr[1]), acc := []);
    }

    /** `std::find`. */
    method Contains(a: array<byte>, b: byte) returns (found: bool)
      ensures found <==> b in a[..]
    {
      var i := 0;
      while i < a.Length
        invariant i <= a.Length && b !in a[..i]
      {
        if a[i] == b {
          return true;
        }
        i := i + 1;
      }
      assert a[..i] == a[..];
      return false;
    }

    method AuthReadReqMethodsHandler(err: Option<Error>)
      requires InRequest()
      modifies this, writeAuthResp
      ensures Valid()
      ensures err.Some? ==> end == old(end).(st := S.Requested(Err(err.value)), acc := [])
      ensures err.None? ==>
        end == old(end).(st := if 0 in old(readAuthMethods[..]) then S.GreetReply else S.Requested(Err(ProtocolViolation)),
                         acc := [])
      ensures fresh(readAuthMethods) || readAuthMethods == old(readAuthMethods)
    {
      var methodsCopy := readAuthMethods;
      readAuthMethods := new byte[0];
      if err.Some? {
        CallReadHandler(err, NO_DESTINATION);
        return;
      }
      var found := Contains(methodsCopy, 0);
      if !found {
        CallReadHandler(Some(ProtocolViolation), NO_DESTINATION);
        return;
      }
      BeginAuthResp();
    }

    method BeginAuthResp()
      requires InRequest()
      modifies this, writeAuthResp
      ensures Valid() && readAuthMethods == old(readAuthMethods) && end == old(end).(st := S.GreetReply, acc := [])
    {
      writeAuthResp[0] := 5;
      writeAuthResp[1] := 0;
      assert writeAuthResp[..] == [5, 0];
      pending, got := AuthWriteResp, 0;
      end := end.(st := S.GreetReply, acc := []);
    }

    method AuthWriteRespHandler(err: Option<Error>)
      requires InRequest()
      modifies this
      ensures Valid() && readAuthMethods == old(readAuthMethods)
      ensures end == old(end).(st := if err.Some? then S.Requested(Err(err.value)) else S.RequestHeader, acc := [])
    {
      hide S.OpOf;
      if err.Some? {
        CallReadHandler(err, NO_DESTINATION);
        return;
      }
      pending, got := ConnReadReq, 0;
      end := end.(st := S.RequestHeader, acc := []);
    }

    method ReadAddress(next: Pending, ghost st: S.State)
      requires InRequest() && Requests(next) && st == StateOf(next, readAuthHdr[1], readAddr[0])
      requires next.AddrIpv4? || next.AddrDomainname? || next.AddrDomainnameStr? || next.AddrIpv6?
      modifies this
      ensures Valid() && end == old(end).(st := st, acc := []) && readAuthMethods == old(readAuthMethods)
    {
      hide S.OpOf;
      pending, got := next, 0;
      end := end.(st := st, acc := []);
    }

    method ConnReadReqHandler(err: Option<Error>)
      requires InRequest()
      modifies this
      ensures Valid() && readAuthMethods == old(readAuthMethods)
      ensures err.Some? ==> end == old(end).(st := S.Requested(Err(err.value)), acc := [])
      ensures err.None? ==> end == old(end).(st := S.OnDone(S.RequestHeader, old(readConnHdr[..])), acc := [])
    {
      hide S.OpOf;
      if err.Some? {
        CallReadHandler(err, NO_DESTINATION);
        return;
      }
      if readConnHdr[0] != 5 {
        CallReadHandler(Some(ProtocolViolation), NO_DESTINATION);
        return;
      }
      if readConnHdr[1] != 1 {
        CallReadHandler(Some(UnsupportedCommand), NO_DESTINATION);
        return;
      }
      match readConnHdr[3]
      case 1 => ReadAddress(AddrIpv4, S.AddressV4);
      case 3 => ReadAddress(AddrDomainname, S.NameLength);
      case 4 => ReadAddress(AddrIpv6, S.AddressV6);
      case _ => CallReadHandler(Some(ProtocolViolation), NO_DESTINATION);
    }

    method StoreIpv4()
      requires Shape()
      modifies this`userDst
      ensures userDst == Destination([], V4(readAddr[..6][..4]), FromNet16(readAddr[..6][4], readAddr[..6][5]))
    {
      hide Load16, Load32, Swap16, Swap32, BigEndian32, FromNet16;
      var addr32 := Load32(readAddr[0], readAddr[1], readAddr[2], readAddr[3]);
      var port16 := Load16(readAddr[4], readAddr[5]);
      LoadedAndSwapped(readAddr[0], readAddr[1], readAddr[2], readAddr[3]);
      LoadedAndSwapped(readAddr[4], readAddr[5], 0, 0);
      assert [readAddr[0], readAddr[1], readAddr[2], readAddr[3]] == readAddr[..6][..4];
      userDst := userDst.(hostname := []);
      userDst := userDst.(ip := V4(BigEndian32(Swap32(addr32))));
      userDst := userDst.(port := Swap16(port16));
    }

    method AddrIpv4Handler(err: Option<Error>)
      requires InRequest()
      modifies this
      ensures Valid() && readAuthMethods == old(readAuthMethods)
      ensures err.Some? ==> end == old(end).(st := S.Requested(Err(err.value)), acc := [])
      ensures err.None? ==> end == old(end).(st := S.OnDone(S.AddressV4, old(readAddr[..6])), acc := [])
    {
      hide S.OpOf;
      if err.Some? {
        CallReadHandler(err, NO_DESTINATION);
        return;
      }
      StoreIpv4();
      named := false;
      CallReadHandler(None, userDst);
    }

    method AddrDomainnameHandler(err: Option<Error>)
      requires InRequest()
      modifies this
      ensures Valid() && readAuthMethods == old(readAuthMethods)
      ensures end == old(end).(st := if err.Some? then S.Requested(Err(err.value)) else S.NameText(old(readAddr[0])), acc := [])
    {
      hide S.OpOf;
      if err.Some? {
        CallReadHandler(err, NO_DESTINATION);
        return;
      }
      ReadAddress(AddrDomainnameStr, S.NameText(readAddr[0]));
    }

    method StoreName()
      requires Shape()
      modifies this`userDst
      ensures var n: int := readAddr[0];
              var data := readAddr[1..n + 3];
              userDst == Destination(data[..n], old(userDst).ip, FromNet16(data[n], data[n + 1]))
    {
      hide Load16, Swap16, FromNet16;
      var strLen: int := readAddr[0];
      userDst := userDst.(hostname := readAddr[1..1 + strLen]);
      LoadedAndSwapped(readAddr[strLen + 1], readAddr[strLen + 2], 0, 0);
      userDst := userDst.(port := Swap16(Load16(readAddr[strLen + 1], readAddr[strLen + 2])));
      assert readAddr[1..strLen + 3][..strLen] == readAddr[1..1 + strLen];
    }

    /** An empty name is not refused: the destination then keeps the address it had before. */
    method AddrDomainnameStrHandler(err: Option<Error>)
      requires InRequest()
      modifies this
      ensures Valid() && readAuthMethods == old(readAuthMethods)
      ensures err.Some? ==> end == old(end).(st := S.Requested(Err(err.value)), acc := [])
      ensures err.None? ==> var n := old(readAddr[0]) as int;
                            end == old(end).(st := S.OnDone(S.NameText(n), old(readAddr[1..n + 3])), acc := [])
    {
      hide S.OnDone, FromNet16;
      if err.Some? {
        CallReadHandler(err, NO_DESTINATION);
        return;
      }
      StoreName();
      named := true;
      ghost var n: int := readAddr[0];
      NameStored(readAddr[1..n + 3], n, userDst);
      CallReadHandler(None, S.OnDone(S.NameText(n), readAddr[1..n + 3]).result.value);
    }

    /** The port is not swapped. */
    method AddrIpv6Handler(err: Option<Error>)
      requires InRequest()
      modifies this
      ensures Valid() && readAuthMethods == old(readAuthMethods)
      ensures err.Some? ==> end == old(end).(st := S.Requested(Err(err.value)), acc := [])
      ensures err.None? ==> end == old(end).(st := S.OnDone(S.AddressV6, old(readAddr[..18])), acc := [])
    {
      hide S.OpOf;
      if err.Some? {
        CallReadHandler(err, NO_DESTINATION);
        return;
      }
      assert readAddr[..18][..16] == readAddr[..16];
      userDst := userDst.(hostname := []);
      userDst := userDst.(ip := V6(readAddr[..16]));
      userDst := userDst.(port := Load16(readAddr[16], readAddr[17]));
      named := false;
      CallReadHandler(None, userDst);
    }

    // ----- the response -----

    method FrameReply(rep: byte)
      requires Shape()
      modifies writeConnResp
      ensures writeConnResp[..] == ReplyFrame(rep)
    {
      writeConnResp[0], writeConnResp[1] := 5, rep;
      writeConnResp[2], writeConnResp[3] := 0, 1;
      writeConnResp[4], writeConnResp[5], writeConnResp[6], writeConnResp[7] := 0, 0, 0, 0;
      writeConnResp[8], writeConnResp[9] := 0, 0;
    }

    method WriteConnectResponse(major: Major)
      requires Valid() && pending == Idle
      modifies this, writeConnResp
      ensures Valid() && readAuthMethods == old(readAuthMethods)
      ensures old(end).st.Requested? && old(end).st.result.Ok? ==> end == S.Respond(old(end), major)
      ensures end.st.Replying? && end.st.major == major && end == old(end).(st := end.st, acc := [])
    {
      hide ReplyFrame, S.MajorToRep;
      FrameReply(S.MajorToRep(major));
      userWriteRespHandler := true;
      pending, got, writeCalls := WriteConnResp, 0, [];
      ghost var d := if end.st.Requested? && end.st.result.Ok? then end.st.result.value else userDst;
      end := end.(st := S.Replying(d, major), acc := []);
    }

    method WriteConnectResponseHandler(err: Option<Error>)
      requires Shape() && userWriteRespHandler && !userReadReqHandler && writeCalls == []
      requires end.st.Replying?
      modifies this
      ensures Valid() && readAuthMethods == old(readAuthMethods)
      ensures end == old(end).(st := S.Replied(old(end).st.dst, old(end).st.major, err), acc := [])
    {
      userWriteRespHandler := false;
      writeCalls := writeCalls + [err];
      pending, got := Idle, 0;
      end := end.(st := S.Replied(end.st.dst, end.st.major, err), acc := []);
    }

    // ----- the operations -----

    /** The outstanding operation has failed, or a write is complete: its handler is called. */
    method Dispatch(err: Option<Error>)
      requires Valid() && !pending.Idle? && (err.None? ==> Writes(pending))
      modifies this, writeAuthResp
      ensures Valid() && (fresh(readAuthMethods) || readAuthMethods == old(readAuthMethods))
      ensures err.Some? ==> end == S.Break(old(end), err.value)
      ensures err.None? ==> end == old(end).(st := S.OnDone(old(end).st, []), acc := [])
    {
      match pending
      case AuthReadReq => AuthReadReqHandler(err);
      case AuthReadReqMethods => AuthReadReqMethodsHandler(err);
      case AuthWriteResp => AuthWriteRespHandler(err);
      case ConnReadReq => ConnReadReqHandler(err);
      case AddrIpv4 => AddrIpv4Handler(err);
      case AddrDomainname => AddrDomainnameHandler(err);
      case AddrDomainnameStr => AddrDomainnameStrHandler(err);
      case AddrIpv6 => AddrIpv6Handler(err);
      case WriteConnResp => WriteConnectResponseHandler(err);
    }

    /** A read is complete: its handler is called. */
    method DispatchRead()
      requires Valid() && Reads(pending) && got == Wanted()
      modifies this, writeAuthResp
      ensures Valid() && (fresh(readAuthMethods) || readAuthMethods == old(readAuthMethods))
      ensures |old(end).acc| == old(Wanted()) == S.OpOf(old(end).st).n
      ensures end == old(end).(st := S.OnDone(old(end).st, old(end).acc), acc := [])
    {
      match pending
      case AuthReadReq =>
        assert readAuthHdr[..] == end.acc;
        AuthReadReqHandler(None);
      case AuthReadReqMethods =>
        assert readAuthMethods[..] == end.acc;
        AuthReadReqMethodsHandler(None);
      case ConnReadReq =>
        assert readConnHdr[..] == end.acc;
        ConnReadReqHandler(None);
      case AddrIpv4 =>
        assert readAddr[..6] == end.acc;
        AddrIpv4Handler(None);
      case AddrDomainname =>
        assert readAddr[0] == end.acc[0];
        AddrDomainnameHandler(None);
      case AddrDomainnameStr =>
        assert readAddr[1..readAddr[0] as int + 3] == end.acc;
        AddrDomainnameStrHandler(None);
      case AddrIpv6 =>
        assert readAddr[..18] == end.acc;
        AddrIpv6Handler(None);
    }

    /** Bytes arrive for the outstanding read. */
    method Arrive(chunk: seq<byte>)
      requires Valid() && Reads(pending) && 0 < |chunk| && got + |chunk| <= Wanted()
      modifies this`got, this`end, readAuthHdr, readAuthMethods, readConnHdr, readAddr
      ensures Valid() && Wanted() == old(Wanted()) && got == old(got) + |chunk|
      ensures end == old(end).(recv := old(end).recv + chunk, acc := old(end).acc + chunk)
    {
      hide S.OpOf;
      var buf, off := Buffer(), Offset();
      Fill(buf, off, got, chunk);
      got := got + |chunk|;
      end := end.(recv := end.recv + chunk, acc := end.acc + chunk);
      assert pending.AddrDomainnameStr? ==> readAddr[0] == readAddr[..off][0];
    }

    method Receive(chunk: seq<byte>)
      requires Valid() && Reads(pending) && Sound(end, S.OpOf(end.st)) && Fits(S.OpOf(end.st), end.acc, chunk)
      modifies this, readAuthHdr, readAuthMethods, writeAuthResp, readConnHdr, readAddr
      ensures Valid() && (fresh(readAuthMethods) || readAuthMethods == old(readAuthMethods))
      ensures end == S.Advance(old(end), chunk)
    {
      assert S.OpOf(end.st) == Read(Wanted());
      Arrive(chunk);
      if got == Wanted() {
        DispatchRead();
      }
    }

    /** The next `k` bytes of the outstanding write leave. */
    method Transmit(k: nat)
      requires Valid() && Writes(pending) && Sound(end, S.OpOf(end.st)) && 0 < k && got + k <= Buffer().Length
      modifies this, writeAuthResp
      ensures Valid() && (fresh(readAuthMethods) || readAuthMethods == old(readAuthMethods))
      ensures var chunk := old(Buffer()[got..got + k]);
              Fits(S.OpOf(old(end).st), old(end).acc, chunk) && end == S.Advance(old(end), chunk)
    {
      hide S.OpOf, S.OnDone;
      ghost var chunk := Buffer()[got..got + k];
      Sending(Buffer()[..], end.acc, got, k);
      end := end.(sent := end.sent + chunk, acc := end.acc + chunk);
      got := got + k;
      if got == Buffer().Length {
        WriteDone(end.st, end.acc);
        Dispatch(None);
      }
    }

    /** The outstanding operation fails. */
    method FailOp(err: Error)
      requires Valid() && !pending.Idle?
      modifies this, writeAuthResp
      ensures Valid() && (fresh(readAuthMethods) || readAuthMethods == old(readAuthMethods))
      ensures end == S.Break(old(end), err)
    {
      Dispatch(Some(err));
    }
  }
}
