/** `client_session_socks5`: the object with its buffers and handler slots. Each of its handlers does to it what the
    machine of the client says. */
module Socks5ClientSessions {
  import opened Bytes
  import opened BinWriting
  import opened Wire
  import opened Proxy
  import opened Rfc1928
  import C = Socks5Client

  /** The handler of the outstanding operation. */
  datatype Pending =
    | Idle
    | AuthWriteReq | AuthReadResp | AuthWriteCreds | AuthReadCredsReply | ConnWriteReq
    | ConnReadResp | AddrIpv4 | AddrDomainname | AddrDomainnameStr | AddrIpv6

  predicate Writes(p: Pending) {
    p.AuthWriteReq? || p.AuthWriteCreds? || p.ConnWriteReq?
  }

  predicate Reads(p: Pending) {
    !p.Idle? && !Writes(p)
  }

  /** The operations on behalf of the request; the others are on behalf of the response. */
  predicate Requests(p: Pending) {
    Writes(p) || p.AuthReadResp? || p.AuthReadCredsReply?
  }

  /** The state of the machine, given what is in the header and the first byte of the address buffer. */
  function StateOf(p: Pending, rep: byte, first: byte): C.State
    requires !p.Idle?
  {
    match p
    case AuthWriteReq => C.GreetWrite
    case AuthReadResp => C.GreetRead
    case AuthWriteCreds => C.CredsWrite
    case AuthReadCredsReply => C.CredsRead
    case ConnWriteReq => C.RequestWrite
    case ConnReadResp => C.ReplyHeader
    case AddrIpv4 => C.BoundV4(rep)
    case AddrDomainname => C.BoundNameLength(rep)
    case AddrDomainnameStr => C.BoundName(rep, first)
    case AddrIpv6 => C.BoundV6(rep)
  }

  class ClientSession {
    const creds: Credentials
    var userDst: Destination
    const writeBuf: StringCell
    const authReadPacket: array<byte>
    const connReadPacketHeader: array<byte>
    const connReadPacketAddr: array<byte>
    var userConnResp: Major  // where the user wants the response
    var userWriteReqHandler: bool  // whether the slots are filled
    var userReadRespHandler: bool
    var pending: Pending
    var got: nat  // how much of the outstanding operation has been transferred
    var writeCalls: seq<Option<Error>>  // of the current handlers
    var readCalls: seq<Option<Error>>
    ghost var end: C.End  // the machine that the session is

    ghost predicate Shape()
      reads this
    {
      && authReadPacket.Length == 2 && connReadPacketHeader.Length == 4 && connReadPacketAddr.Length == 270
      && authReadPacket != connReadPacketHeader && authReadPacket != connReadPacketAddr
      && connReadPacketHeader != connReadPacketAddr
    }

    /** The checks at the start have been passed. */
    ghost predicate Checked()
      reads this
    {
      CredsFit(creds) && Encodable(userDst)
    }

    ghost function Job(): C.Job
      reads this
      requires Checked()
    {
      C.Job(creds, userDst)
    }

    /** Where the outstanding read puts its bytes. */
    function Buffer(): array<byte>
      reads this
    {
      if pending.AuthReadResp? || pending.AuthReadCredsReply? then authReadPacket
      else if pending.ConnReadResp? then connReadPacketHeader
      else connReadPacketAddr
    }

    function Offset(): nat
      reads this
    {
      if pending.AddrDomainnameStr? then 1 else 0
    }

    /** How many bytes the outstanding read wants. */
    function Wanted(): nat
      reads this, connReadPacketAddr
      requires Shape()
    {
      match pending
      case AuthReadResp => 2
      case AuthReadCredsReply => 2
      case ConnReadResp => 4
      case AddrIpv4 => 6
      case AddrDomainname => 1
      case AddrDomainnameStr => connReadPacketAddr[0] as int + 2
      case AddrIpv6 => 18
      case _ => 0
    }

    /** The slots are filled as long as their handlers are to be called, which happens once. */
    ghost predicate Slots()
      reads this
    {
      && (userWriteReqHandler <==> Requests(pending))
      && (userReadRespHandler <==> !pending.Idle? && !Requests(pending))
      && (Requests(pending) ==> writeCalls == [])
      && (userReadRespHandler ==> writeCalls == [None])
      && (!pending.Idle? ==> readCalls == [])
    }

    /** The outstanding operation, and the calls if there is none, are those of the machine; a read stays within its
        buffer, and a write is of the whole string. */
    ghost predicate Valid()
      reads this, writeBuf, authReadPacket, connReadPacketHeader, connReadPacketAddr
    {
      && Shape() && Slots() && (!pending.Idle? || end.st == C.Written(None) ==> Checked())
      && if pending.Idle? then
           && end.acc == [] && got == 0
           && (end.st.Written? ==> writeCalls == [end.st.failure] && readCalls == [])
           && (end.st.Answered? ==> writeCalls == [None] && |readCalls| == 1)
           && (end.st.Answered? && end.st.result.Ok? ==> readCalls == [None] && userConnResp == end.st.result.value)
           && (end.st.Answered? && end.st.result.Err? ==> readCalls == [Some(end.st.result.error)])
         else
           && end.st == StateOf(pending, connReadPacketHeader[1], connReadPacketAddr[0])
           && if Writes(pending) then
                C.OpOf(Job(), end.st) == Write(writeBuf.bytes) && got <= |writeBuf.bytes| && end.acc == writeBuf.bytes[..got]
              else
                && got <= Wanted() && Offset() + Wanted() <= Buffer().Length
                && end.acc == Buffer()[Offset()..Offset() + got]
    }

    constructor (creds: Credentials)
      ensures Valid() && pending == Idle && writeCalls == [] && readCalls == [] && this.creds == creds
      ensures fresh(writeBuf) && fresh(authReadPacket) && fresh(connReadPacketHeader) && fresh(connReadPacketAddr)
    {
      this.creds := creds;
      userDst, userConnResp := NO_DESTINATION, UnknownError;
      writeBuf := new StringCell();
      authReadPacket := new byte[2];
      connReadPacketHeader := new byte[4];
      connReadPacketAddr := new byte[270];
      userWriteReqHandler, userReadRespHandler := false, false;
      pending, got, writeCalls, readCalls := Idle, 0, [], [];
      end := C.START;
    }

    /** The situations in which handlers are called. */
    ghost predicate InRequest()
      reads this
    {
      Shape() && Checked() && userWriteReqHandler && !userReadRespHandler && writeCalls == [] && readCalls == []
    }

    ghost predicate InResponse()
      reads this
    {
      Shape() && Checked() && !userWriteReqHandler && userReadRespHandler && writeCalls == [None] && readCalls == []
    }

    method CallWriteHandler(err: Option<Error>)
      requires InRequest()
      modifies this
      ensures Valid() && userDst == old(userDst) && end == old(end).(st := C.Written(err), acc := [])
    {
      hide C.OpOf;
      userWriteReqHandler := false;
      writeCalls := writeCalls + [err];
      pending, got := Idle, 0;
      end := end.(st := C.Written(err), acc := []);
    }

    method CallReadHandler(err: Option<Error>)
      requires InResponse()
      modifies this
      ensures Valid() && userDst == old(userDst)
      ensures end == old(end).(st := C.Answered(if err.Some? then Err(err.value) else Ok(old(userConnResp))), acc := [])
    {
      hide C.OpOf;
      userReadRespHandler := false;
      readCalls := readCalls + [err];
      pending, got := Idle, 0;
      end := end.(st := C.Answered(if err.Some? then Err(err.value) else Ok(userConnResp)), acc := []);
    }

    // ----- the frames -----

    method FrameGreeting()
      modifies writeBuf
      ensures writeBuf.bytes == Greeting(C.Method(creds))
    {
      writeBuf.bytes := [];
      var binw := new BinWriter.OnString(writeBuf);
      var ok := binw.WriteUint8(5);
      ok := binw.WriteUint8(1);
      if creds.Empty() {
        ok := binw.WriteUint8(0);
      } else {
        ok := binw.WriteUint8(2);
      }
    }

    method FrameCreds()
      requires CredsFit(creds)
      modifies writeBuf
      ensures writeBuf.bytes == CredsFrame(creds)
    {
      writeBuf.bytes := [];
      var binw := new BinWriter.OnString(writeBuf);
      var ok := binw.WriteUint8(5);
      ok := binw.WriteUint8(|creds.username|);
      assert writeBuf.bytes == [5, |creds.username|];
      ok := binw.WriteRaw(creds.username);
      ok := binw.WriteUint8(|creds.password|);
      ok := binw.WriteRaw(creds.password);
    }

    method FrameName(binw: BinWriter)
      requires binw.Valid() && binw.str == writeBuf && binw.maxToWrite == NO_LIMIT
      requires Encodable(userDst) && userDst.UsingHostname()
      modifies binw, writeBuf
      ensures binw.Valid() && writeBuf.bytes == old(writeBuf.bytes) + AddressField(userDst)
    {
      ghost var was := writeBuf.bytes;
      var n: byte := |userDst.hostname|;
      var ok := binw.WriteUint8(3);
      ok := binw.WriteUint8(n);
      assert writeBuf.bytes == was + [3, n];
      ok := binw.WriteRaw(userDst.hostname);
      Assoc(was, [3, n], userDst.hostname);
    }

    method FrameAddress(binw: BinWriter)
      requires binw.Valid() && binw.str == writeBuf && binw.maxToWrite == NO_LIMIT
      requires Encodable(userDst) && !userDst.UsingHostname()
      modifies binw, writeBuf
      ensures binw.Valid() && writeBuf.bytes == old(writeBuf.bytes) + AddressField(userDst)
    {
      ghost var was := writeBuf.bytes;
      var ok;
      match userDst.ip {
        case V4(q) =>
          ok := binw.WriteUint8(1);
          SwappedInMemory32(q[0], q[1], q[2], q[3]);
          assert [q[0], q[1], q[2], q[3]] == q;
          ok := binw.WriteUint32(Swap32(Ulong(q[0], q[1], q[2], q[3])));
          Assoc(was, [1], q);
        case V6(b) =>
          ok := binw.WriteUint8(4);
          ok := binw.WriteRaw(b);
          Assoc(was, [4], b);
      }
    }

    method FrameRequest()
      requires Encodable(userDst)
      modifies writeBuf
      ensures writeBuf.bytes == ConnectFrame(userDst)
    {
      writeBuf.bytes := [];
      var binw := new BinWriter.OnString(writeBuf);
      var ok := binw.WriteUint8(5);
      ok := binw.WriteUint8(1);
      ok := binw.WriteUint8(0);
      assert writeBuf.bytes == [5, 1, 0];
      if userDst.UsingHostname() {
        FrameName(binw);
      } else {
        FrameAddress(binw);
      }
      SwappedInMemory16(userDst.port);
      ok := binw.WriteUint16(Swap16(userDst.port));
    }

    // ----- the request -----

    /** `write_connect_request`: a value that is too long is reported at once, and nothing is sent. */
    method WriteConnectRequest(dst: Destination)
      requires Valid() && pending == Idle
      modifies this, writeBuf
      ensures Valid()
      ensures match C.StartError(C.Job(creds, dst))
              case None => userDst == dst && end == C.START && pending == AuthWriteReq
              case Some(e) => pending == Idle && writeCalls == [Some(e)] && end == C.START.(st := C.Written(Some(e)))
    {
      writeCalls, readCalls := [], [];
      if |creds.username| > 255 || |creds.password| > 255 {
        writeCalls := writeCalls + [Some(CredsTooLong)];
        end := C.START.(st := C.Written(Some(CredsTooLong)));
        return;
      }
      if dst.UsingHostname() && |dst.hostname| > 255 {
        writeCalls := writeCalls + [Some(HostnameTooLong)];
        end := C.START.(st := C.Written(Some(HostnameTooLong)));
        return;
      }
      userDst := dst;
      userWriteReqHandler := true;
      FrameGreeting();
      pending, got := AuthWriteReq, 0;
      end := C.START;
    }

    method AuthWriteReqHandler(err: Option<Error>)
      requires InRequest()
      modifies this, writeBuf
      ensures Valid() && userDst == old(userDst)
      ensures end == old(end).(st := if err.Some? then C.Written(err) else C.GreetRead, acc := [])
    {
      hide C.OpOf;
      writeBuf.bytes := [];
      if err.Some? {
        CallWriteHandler(err);
        return;
      }
      pending, got := AuthReadResp, 0;
      end := end.(st := C.GreetRead, acc := []);
    }

    method BeginRequest()
      requires InRequest()
      modifies this, writeBuf
      ensures Valid() && userDst == old(userDst) && end == old(end).(st := C.RequestWrite, acc := [])
    {
      FrameRequest();
      pending, got := ConnWriteReq, 0;
      end := end.(st := C.RequestWrite, acc := []);
    }

    method BeginCreds()
      requires InRequest()
      modifies this, writeBuf
      ensures Valid() && userDst == old(userDst) && end == old(end).(st := C.CredsWrite, acc := [])
    {
      FrameCreds();
      pending, got := AuthWriteCreds, 0;
      end := end.(st := C.CredsWrite, acc := []);
    }

    method AuthReadRespHandler(err: Option<Error>)
      requires InRequest()
      modifies this, writeBuf
      ensures Valid() && userDst == old(userDst)
      ensures err.Some? ==> end == old(end).(st := C.Written(err), acc := [])
      ensures err.None? ==> end == old(end).(st := C.OnDone(old(Job()), C.GreetRead, old(authReadPacket[..])), acc := [])
    {
      if err.Some? {
        CallWriteHandler(err);
        return;
      }
      if authReadPacket[0] != 5 {
        CallWriteHandler(Some(ProtocolViolation));
        return;
      }
      if authReadPacket[1] == 0xFF {
        CallWriteHandler(Some(BadAuthMethod));
        return;
      }
      if creds.Empty() {
        if authReadPacket[1] != 0 {
          CallWriteHandler(Some(ProtocolViolation));
          return;
        }
        BeginRequest();
      } else {
        if authReadPacket[1] != 2 {
          CallWriteHandler(Some(ProtocolViolation));
          return;
        }
        BeginCreds();
      }
    }

    method AuthWriteCredsHandler(err: Option<Error>)
      requires InRequest()
      modifies this, writeBuf
      ensures Valid() && userDst == old(userDst)
      ensures end == old(end).(st := if err.Some? then C.Written(err) else C.CredsRead, acc := [])
    {
      hide C.OpOf;
      writeBuf.bytes := [];
      if err.Some? {
        CallWriteHandler(err);
        return;
      }
      pending, got := AuthReadCredsReply, 0;
      end := end.(st := C.CredsRead, acc := []);
    }

    method AuthReadCredsReplyHandler(err: Option<Error>)
      requires InRequest()
      modifies this, writeBuf
      ensures Valid() && userDst == old(userDst)
      ensures err.Some? ==> end == old(end).(st := C.Written(err), acc := [])
      ensures err.None? ==> end == old(end).(st := C.OnDone(old(Job()), C.CredsRead, old(authReadPacket[..])), acc := [])
    {
      if err.Some? {
        CallWriteHandler(err);
        return;
      }
      if authReadPacket[0] != 5 {
        CallWriteHandler(Some(ProtocolViolation));
        return;
      }
      if authReadPacket[1] != 0 {
        CallWriteHandler(Some(AuthFailed));
        return;
      }
      BeginRequest();
    }

    method ConnWriteReqHandler(err: Option<Error>)
      requires InRequest()
      modifies this, writeBuf
      ensures Valid() && userDst == old(userDst) && end == old(end).(st := C.Written(err), acc := [])
    {
      writeBuf.bytes := [];
      CallWriteHandler(err);
    }

    // ----- the response -----

    method ReadConnectResponse()
      requires Valid() && pending == Idle && end.st == C.Written(None)
      modifies this
      ensures Valid() && userDst == old(userDst) && end == C.Await(old(end))
    {
      hide C.OpOf;
      userReadRespHandler := true;
      pending, got := ConnReadResp, 0;
      end := C.Await(end);
    }

    method ConnReadRespHandler(err: Option<Error>)
      requires InResponse()
      modifies this
      ensures Valid() && userDst == old(userDst)
      ensures err.Some? ==> end == old(end).(st := C.Answered(Err(err.value)), acc := [])
      ensures err.None? ==> end == old(end).(st := C.OnDone(old(Job()), C.ReplyHeader, old(connReadPacketHeader[..])), acc := [])
    {
      if err.Some? {
        CallReadHandler(err);
        return;
      }
      if connReadPacketHeader[0] != 5 {
        CallReadHandler(Some(ProtocolViolation));
        return;
      }
      if connReadPacketHeader[1] > 8 {
        CallReadHandler(Some(ProtocolViolation));
        return;
      }
      var rep := connReadPacketHeader[1];
      match connReadPacketHeader[3]
      case 1 => ReadAddress(AddrIpv4, C.BoundV4(rep));
      case 3 => ReadAddress(AddrDomainname, C.BoundNameLength(rep));
      case 4 => ReadAddress(AddrIpv6, C.BoundV6(rep));
      case _ => CallReadHandler(Some(ProtocolViolation));
    }

    method ReadAddress(next: Pending, ghost st: C.State)
      requires InResponse() && (next.AddrIpv4? || next.AddrDomainname? || next.AddrIpv6?)
      requires st == StateOf(next, connReadPacketHeader[1], connReadPacketAddr[0])
      modifies this
      ensures Valid() && userDst == old(userDst) && end == old(end).(st := st, acc := [])
    {
      hide C.OpOf;
      pending, got := next, 0;
      end := end.(st := st, acc := []);
    }

    method ConnReadRespAddrComplete(err: Option<Error>)
      requires InResponse()
      modifies this
      ensures Valid() && userDst == old(userDst)
      ensures err.Some? ==> end == old(end).(st := C.Answered(Err(err.value)), acc := [])
      ensures err.None? ==> end == old(end).(st := C.Answered(Ok(C.RepToMajor(old(connReadPacketHeader[1])))), acc := [])
    {
      hide C.OpOf;
      if err.Some? {
        CallReadHandler(err);
        return;
      }
      if connReadPacketHeader[1] != 0 {
        userConnResp := C.RepToMajor(connReadPacketHeader[1]);
        CallReadHandler(None);
        return;
      }
      userConnResp := Succeeded;
      CallReadHandler(None);
    }

    method AddrDomainnameHandler(err: Option<Error>)
      requires InResponse()
      modifies this
      ensures Valid() && userDst == old(userDst)
      ensures err.Some? ==> end == old(end).(st := C.Answered(Err(err.value)), acc := [])
      ensures err.None? ==>
        end == old(end).(st := C.BoundName(old(connReadPacketHeader[1]), old(connReadPacketAddr[0])), acc := [])
    {
      hide C.OpOf;
      if err.Some? {
        CallReadHandler(err);
        return;
      }
      pending, got := AddrDomainnameStr, 0;
      end := end.(st := C.BoundName(connReadPacketHeader[1], connReadPacketAddr[0]), acc := []);
    }

    // ----- the operations -----

    /** The outstanding operation has failed, or a write is complete: its handler is called. */
    method Dispatch(err: Option<Error>)
      requires Valid() && !pending.Idle? && (err.None? ==> Writes(pending))
      modifies this, writeBuf
      ensures Valid() && userDst == old(userDst)
      ensures err.Some? ==> end == C.Break(old(end), err.value)
      ensures err.None? ==> end == old(end).(st := C.OnDone(old(Job()), old(end).st, []), acc := [])
    {
      match pending
      case AuthWriteReq => AuthWriteReqHandler(err);
      case AuthReadResp => AuthReadRespHandler(err);
      case AuthWriteCreds => AuthWriteCredsHandler(err);
      case AuthReadCredsReply => AuthReadCredsReplyHandler(err);
      case ConnWriteReq => ConnWriteReqHandler(err);
      case ConnReadResp => ConnReadRespHandler(err);
      case AddrIpv4 => ConnReadRespAddrComplete(err);
      case AddrDomainname => AddrDomainnameHandler(err);
      case AddrDomainnameStr => ConnReadRespAddrComplete(err);
      case AddrIpv6 => ConnReadRespAddrComplete(err);
    }

    /** A read is complete: its handler is called. */
    method DispatchRead()
      requires Valid() && Reads(pending) && got == Wanted()
      modifies this, writeBuf
      ensures Valid() && userDst == old(userDst)
      ensures |old(end).acc| == old(Wanted()) == C.OpOf(old(Job()), old(end).st).n
      ensures end == old(end).(st := C.OnDone(old(Job()), old(end).st, old(end).acc), acc := [])
    {
      match pending
      case AuthReadResp =>
        assert authReadPacket[..] == end.acc;
        AuthReadRespHandler(None);
      case AuthReadCredsReply =>
        assert authReadPacket[..] == end.acc;
        AuthReadCredsReplyHandler(None);
      case ConnReadResp =>
        assert connReadPacketHeader[..] == end.acc;
        ConnReadRespHandler(None);
      case AddrIpv4 => ConnReadRespAddrComplete(None);
      case AddrDomainname =>
        assert connReadPacketAddr[0] == end.acc[0];
        AddrDomainnameHandler(None);
      case AddrDomainnameStr => ConnReadRespAddrComplete(None);
      case AddrIpv6 => ConnReadRespAddrComplete(None);
    }

    /** Bytes arrive for the outstanding read. */
    method Arrive(chunk: seq<byte>)
      requires Valid() && Reads(pending) && 0 < |chunk| && got + |chunk| <= Wanted()
      modifies this, authReadPacket, connReadPacketHeader, connReadPacketAddr
      ensures Valid() && userDst == old(userDst) && pending == old(pending)
      ensures end == old(end).(recv := old(end).recv + chunk, acc := old(end).acc + chunk)
      ensures Wanted() == old(Wanted()) && got == old(got) + |chunk| && Job() == old(Job())
    {
      hide C.OpOf;
      var buf, off := Buffer(), Offset();
      Fill(buf, off, got, chunk);
      got := got + |chunk|;
      end := end.(recv := end.recv + chunk, acc := end.acc + chunk);
      assert pending.AddrDomainnameStr? ==> connReadPacketAddr[0] == connReadPacketAddr[..off][0];
    }

    method Receive(chunk: seq<byte>)
      requires Valid() && Reads(pending) && Sound(end, C.OpOf(Job(), end.st)) && Fits(C.OpOf(Job(), end.st), end.acc, chunk)
      modifies this, writeBuf, authReadPacket, connReadPacketHeader, connReadPacketAddr
      ensures Valid() && userDst == old(userDst)
      ensures end == C.Advance(old(Job()), old(end), chunk)
    {
      assert C.OpOf(Job(), end.st) == Read(Wanted());
      Arrive(chunk);
      if got == Wanted() {
        DispatchRead();
      }
    }

    /** The next `k` bytes of the outstanding write leave. */
    method Transmit(k: nat)
      requires Valid() && Writes(pending) && Sound(end, C.OpOf(Job(), end.st)) && 0 < k && got + k <= |writeBuf.bytes|
      modifies this, writeBuf
      ensures Valid() && userDst == old(userDst)
      ensures var chunk := old(writeBuf.bytes[got..got + k]);
              Fits(C.OpOf(old(Job()), old(end).st), old(end).acc, chunk) && end == C.Advance(old(Job()), old(end), chunk)
    {
      ghost var chunk := writeBuf.bytes[got..got + k];
      assert end.acc + chunk == writeBuf.bytes[..got + k];
      end := end.(sent := end.sent + chunk, acc := end.acc + chunk);
      got := got + k;
      if got == |writeBuf.bytes| {
        Dispatch(None);
      }
    }

    /** The outstanding operation fails. */
    method FailOp(err: Error)
      requires Valid() && !pending.Idle?
      modifies this, writeBuf
      ensures Valid() && userDst == old(userDst) && end == C.Break(old(end), err)
    {
      Dispatch(Some(err));
    }
  }
}
