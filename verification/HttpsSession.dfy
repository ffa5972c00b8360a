/** `server_session_https`: the object that reads a request line by line. Each of its handlers does to it what the
    machine of the server says. */
module HttpsSessions {
  import opened Bytes
  import opened Wire
  import opened Proxy
  import opened Splitting
  import opened RequestLine
  import opened ReadUntil
  import U = UrlParsing
  import H = HttpsServer

  /** What is outstanding: a read for the first or another line, or the reply. `Spinning` never returns. */
  datatype Waiting = Idle | ForFirstLine | ForAnotherLine | ForReply | Spinning

  /** `parse_first_line`. */
  method ReadRequestLine(line: string) returns (r: Reading)
    ensures r == ParseFirstLine(line)
  {
    var parts := StrSplit(line, " ");
    if |parts| != 3 {
      return Malformed;
    }
    if parts[0] != "CONNECT" {
      return Malformed;
    }
    var v;
    if parts[2] == "HTTP/1.0" {
      v := Http10;
    } else if parts[2] == "HTTP/1.1" {
      v := Http11;
    } else {
      return Malformed;
    }
    r := ReadTargetText(parts[1], v);
  }

  method ReadTargetText(text: string, v: Version) returns (r: Reading)
    ensures r == ReadTarget(text, v)
  {
    hide U.ParseUrl;
    var up := new U.UrlParser();
    var answer := up.Parse(text);
    match answer
    case False => return Malformed;
    case NoReturn => return Endless;
    case True =>
      if up.scheme.Some? {
        return Malformed;
      }
      if up.username.Some? || up.password.Some? {
        return Malformed;
      }
      if up.port.None? {
        return Malformed;
      }
      return Connect(DestinationOf(up.host, up.port.value), v);
  }

  /** `verify_header_line`: exactly two non-empty parts around ": ". */
  method VerifyHeaderLine(line: string) returns (err: Option<Error>)
    ensures err.None? <==> var p := Split(line, ": "); |p| == 2 && p[0] != "" && p[1] != ""
  {
    var parts := StrSplit(line, ": ");
    if |parts| != 2 {
      return Some(ProtocolViolation);
    }
    if parts[0] == "" || parts[1] == "" {
      return Some(ProtocolViolation);
    }
    return None;
  }

  /** `trim_line`, in place. */
  method TrimLine(line: StringCell) returns (ok: bool)
    modifies line
    ensures match H.Trimmed(old(line.bytes))
            case None => !ok && line.bytes == old(line.bytes)
            case Some(t) => ok && line.bytes == t
  {
    var n := |line.bytes|;
    if n == 0 {
      return false;
    }
    if line.bytes[n - 1] == H.LF {
      if n >= 2 && line.bytes[n - 2] == H.CR {
        line.bytes := line.bytes[..n - 2];
      } else {
        line.bytes := line.bytes[..n - 1];
      }
      return true;
    }
    return false;
  }

  class HttpsSession {
    const line: StringCell
    var op: ReadUntilOp?
    var parsedDst: Destination
    var httpVer: Version
    var userDst: Destination  // where the user wants the destination
    var userReadReqHandler: bool  // whether the slot is filled
    var waiting: Waiting
    var got: nat  // how much of the reply has been transferred
    var readCalls: seq<Option<Error>>  // of the current handlers
    var writeCalls: seq<Option<Error>>
    ghost var end: H.End  // the machine that the session is

    ghost predicate Reads()
      reads this
    {
      waiting.ForFirstLine? || waiting.ForAnotherLine?
    }

    ghost predicate Slots()
      reads this
    {
      && (userReadReqHandler <==> Reads() || waiting.Spinning?)
      && (userReadReqHandler ==> readCalls == [] && writeCalls == [])
      && (waiting.ForReply? ==> writeCalls == [])
    }

    ghost predicate OpOk()
      reads this, op, line
    {
      && op != null && op.buf == line && op.delim == [H.LF] && op.max == H.MAX_LINE
      && op.Valid() && op.reading
    }

    /** The outstanding operation, and the calls if there is none, are those of the machine. */
    ghost predicate Valid()
      reads this, op, line
    {
      && Slots()
      && match waiting
         case Idle =>
           && end.acc == []
           && (end.st.Requested? && end.st.result.Ok? ==>
               readCalls == [None] && writeCalls == [] && userDst == end.st.result.value && httpVer == end.st.version)
           && (end.st.Requested? && end.st.result.Err? ==> readCalls == [Some(end.st.result.error)] && writeCalls == [])
           && (end.st.Replied? ==> writeCalls == [end.st.failure])
         case ForFirstLine => OpOk() && end.acc == [] && end.st == H.FirstLine(op.taken)
         case ForAnotherLine => OpOk() && end.acc == [] && end.st == H.HeaderLine(parsedDst, httpVer, op.taken)
         case ForReply =>
           && end.st.Replying? && line.bytes == H.ReplyText(end.st.version, end.st.major)
           && got <= |line.bytes| && end.acc == line.bytes[..got]
         case Spinning => end.st.Hung? && end.acc == []
    }

    constructor ()
      ensures Valid() && waiting == Idle && readCalls == [] && writeCalls == [] && fresh(line)
    {
      line := new StringCell();
      op, parsedDst, httpVer, userDst := null, NO_DESTINATION, Http10, NO_DESTINATION;
      userReadReqHandler, waiting, got, readCalls, writeCalls := false, Idle, 0, [], [];
      end := H.START;
    }

    ghost predicate InRequest()
      reads this
    {
      userReadReqHandler && readCalls == [] && writeCalls == []
    }

    method CallHandler(err: Error)
      requires InRequest()
      modifies this
      ensures Valid() && waiting == Idle && op == old(op)
      ensures end == old(end).(st := H.Requested(Err(err), Http10), acc := [])
    {
      userReadReqHandler := false;
      readCalls := readCalls + [Some(err)];
      waiting := Idle;
      end := end.(st := H.Requested(Err(err), Http10), acc := []);
    }

    /** `read_line`: a new operation that empties the line and reads into it. */
    method ReadLine()
      modifies this`op, line
      ensures op != null && fresh(op) && OpOk() && op.taken == []
    {
      op := new ReadUntilOp(line, [H.LF], H.MAX_LINE);
      op.Start();
      assert !Stops([], [H.LF], H.MAX_LINE);
    }

    method ReadConnectRequest()
      requires Valid() && waiting == Idle
      modifies this, line
      ensures Valid() && end == H.START && (op == null || fresh(op))
    {
      readCalls, writeCalls := [], [];
      userReadReqHandler := true;
      waiting := ForFirstLine;
      end := H.START;
      ReadLine();
    }

    method ReadAnotherLine()
      requires InRequest()
      modifies this, line
      ensures Valid() && fresh(op) && end == old(end).(st := H.HeaderLine(old(parsedDst), old(httpVer), []), acc := [])
    {
      waiting := ForAnotherLine;
      end := end.(st := H.HeaderLine(parsedDst, httpVer, []), acc := []);
      ReadLine();
    }

    method HandleReadFirstLine(err: Option<Error>)
      requires InRequest()
      modifies this, line
      ensures Valid() && (op == old(op) || fresh(op))
      ensures err.Some? ==> end == old(end).(st := H.Requested(Err(err.value), Http10), acc := [])
      ensures err.None? ==> end == old(end).(st := H.OnFirstLine(old(line.bytes)), acc := [])
    {
      if err.Some? {
        CallHandler(err.value);
        return;
      }
      var ok := TrimLine(line);
      if !ok {
        CallHandler(LineTooLong);
        return;
      }
      var r := ReadRequestLine(Text(line.bytes));
      match r
      case Malformed => CallHandler(ProtocolViolation);
      case Endless =>
        waiting := Spinning;
        end := end.(st := H.Hung, acc := []);
      case Connect(d, v) =>
        parsedDst, httpVer := d, v;
        ReadAnotherLine();
    }

    /** What `verify_header_line` finds is not used: the condition behind it looks at `err`. */
    method HandleReadAnotherLine(err: Option<Error>)
      requires InRequest()
      modifies this, line
      ensures Valid() && (op == old(op) || fresh(op))
      ensures err.Some? ==> end == old(end).(st := H.Requested(Err(err.value), Http10), acc := [])
      ensures err.None? ==> end == old(end).(st := H.OnHeaderLine(old(parsedDst), old(httpVer), old(line.bytes)), acc := [])
    {
      if err.Some? {
        CallHandler(err.value);
        return;
      }
      var ok := TrimLine(line);
      if !ok {
        CallHandler(LineTooLong);
        return;
      }
      if line.bytes != [] {
        var verifyErr := VerifyHeaderLine(Text(line.bytes));
        ReadAnotherLine();
      } else {
        userDst := parsedDst;
        userReadReqHandler := false;
        readCalls := readCalls + [None];
        waiting := Idle;
        end := end.(st := H.Requested(Ok(parsedDst), httpVer), acc := []);
      }
    }

    /** A byte arrives for the outstanding read. */
    method Receive(b: byte)
      requires Valid() && Reads() && Sound(end, H.OpOf(end.st))
      modifies this, op, line
      ensures Valid() && (op == old(op) || fresh(op))
      ensures end == H.Advance(old(end), [b])
    {
      hide H.OnFirstLine, H.OnHeaderLine, Stops;
      op.HandleRead(None, b);
      end := end.(recv := end.recv + [b], acc := [b]);
      assert [] + [b] == [b];
      if op.reading {
        if waiting.ForFirstLine? {
          end := end.(st := H.FirstLine(op.taken), acc := []);
        } else {
          end := end.(st := H.HeaderLine(parsedDst, httpVer, op.taken), acc := []);
        }
      } else if waiting.ForFirstLine? {
        HandleReadFirstLine(None);
      } else {
        HandleReadAnotherLine(None);
      }
    }

    // ----- the response -----

    /** `write_connect_response` and `major_to_http_code`. */
    method WriteConnectResponse(major: Major)
      requires Valid() && waiting == Idle
      modifies this, line
      ensures Valid() && op == old(op)
      ensures old(end).st.Requested? && old(end).st.result.Ok? ==> end == H.Respond(old(end), major)
      ensures end == old(end).(st := H.Replying(old(userDst), old(httpVer), major), acc := [])
    {
      var banner := if httpVer == Http10 then "HTTP/1.0" else "HTTP/1.1";
      var status := "502 Bad Gateway";
      if major == Succeeded {
        status := "200 Connection established";
      }
      line.bytes := Octets(banner + " " + status + "\r\nContent-Length: 0\r\n\r\n");
      waiting, got, writeCalls := ForReply, 0, [];
      end := end.(st := H.Replying(userDst, httpVer, major), acc := []);
    }

    /** The next `k` bytes of the reply leave. */
    method Transmit(k: nat)
      requires Valid() && waiting == ForReply && Sound(end, H.OpOf(end.st)) && 0 < k && got + k <= |line.bytes|
      modifies this
      ensures Valid() && op == old(op)
      ensures var chunk := line.bytes[old(got)..old(got) + k];
              Fits(H.OpOf(old(end).st), old(end).acc, chunk) && end == H.Advance(old(end), chunk)
    {
      hide H.ReplyText;
      ghost var chunk := line.bytes[got..got + k];
      assert end.acc + chunk == line.bytes[..got + k];
      end := end.(sent := end.sent + chunk, acc := end.acc + chunk);
      got := got + k;
      if got == |line.bytes| {
        waiting := Idle;
        writeCalls := writeCalls + [None];
        end := end.(st := H.Replied(end.st.dst, end.st.version, end.st.major, None), acc := []);
      }
    }

    /** The outstanding operation fails. */
    method FailOp(err: Error)
      requires Valid() && (Reads() || waiting == ForReply)
      modifies this, op, line
      ensures Valid() && (op == old(op) || fresh(op)) && end == H.Break(old(end), err)
    {
      hide H.ReplyText;
      match waiting
      case ForFirstLine =>
        op.HandleRead(Some(err), 0);
        HandleReadFirstLine(Some(err));
      case ForAnotherLine =>
        op.HandleRead(Some(err), 0);
        HandleReadAnotherLine(Some(err));
      case ForReply =>
        waiting := Idle;
        writeCalls := writeCalls + [Some(err)];
        end := H.Break(end, err);
    }
  }
}
