/** The server side of an HTTPS session as a machine that reads its request byte by byte, a one-shot parser
    for requests, the grammar of requests, and what the three have to do with each other. */
module HttpsServer {
  import opened Bytes
  import opened Wire
  import opened Proxy
  import opened RequestLine
  import opened Rfc1928
  import opened ReadUntil
  import opened Splitting

  const LF: byte := 10
  const CR: byte := 13
  const MAX_LINE: nat := 2048

  // ----- lines -----

  /** Where `read_line` stops in `s`. */
  function LineLength(s: seq<byte>): (r: Option<nat>)
    ensures r.Some? ==> 0 < r.value <= |s|
  {
    Until(s, [LF], MAX_LINE, 0)
  }

  /** `trim_line`: the line without its end; none if it does not end with LF. */
  function Trimmed(line: seq<byte>): Option<seq<byte>> {
    if line == [] || line[|line| - 1] != LF then None
    else if |line| >= 2 && line[|line| - 2] == CR then Some(line[..|line| - 2])
    else Some(line[..|line| - 1])
  }

  // ----- the machine -----

  /** `Hung` is the endless loop of the IPv6 scanner on the host of a request. Behind an error, the version means
      nothing. */
  datatype State =
    | FirstLine(line: seq<byte>)
    | HeaderLine(dst: Destination, version: Version, line: seq<byte>)
    | Requested(result: Result<Destination>, version: Version)
    | Hung
    | Replying(dst: Destination, version: Version, major: Major)
    | Replied(dst: Destination, version: Version, major: Major, failure: Option<Error>)

  function Status(m: Major): string {
    if m.Succeeded? then "200 Connection established" else "502 Bad Gateway"
  }

  function ReplyText(v: Version, m: Major): (bs: seq<byte>)
    ensures |bs| > 0
  {
    Octets(VersionText(v) + " " + Status(m) + "\r\nContent-Length: 0\r\n\r\n")
  }

  function OpOf(st: State): Op {
    match st
    case FirstLine(_) => Read(1)
    case HeaderLine(_, _, _) => Read(1)
    case Requested(_, _) => Rest
    case Hung => Rest
    case Replying(_, v, m) => Write(ReplyText(v, m))
    case Replied(_, _, _, _) => Rest
  }

  /** `handle_read_first_line`. */
  function OnFirstLine(line: seq<byte>): State {
    match Trimmed(line)
    case None => Requested(Err(LineTooLong), Http10)
    case Some(t) =>
      match ParseFirstLine(Text(t))
      case Malformed => Requested(Err(ProtocolViolation), Http10)
      case Endless => Hung
      case Connect(d, v) => HeaderLine(d, v, [])
  }

  /** `handle_read_another_line`: the outcome of `verify_header_line` is not looked at. */
  function OnHeaderLine(dst: Destination, v: Version, line: seq<byte>): State {
    match Trimmed(line)
    case None => Requested(Err(LineTooLong), Http10)
    case Some(t) => if t == [] then Requested(Ok(dst), v) else HeaderLine(dst, v, [])
  }

  function OnDone(st: State, data: seq<byte>): State
    requires OpOf(st).Read? ==> |data| == OpOf(st).n
  {
    match st
    case FirstLine(l) =>
      if Stops(l + data, [LF], MAX_LINE) then OnFirstLine(l + data) else FirstLine(l + data)
    case HeaderLine(d, v, l) =>
      if Stops(l + data, [LF], MAX_LINE) then OnHeaderLine(d, v, l + data) else HeaderLine(d, v, l + data)
    case Requested(_, _) => st
    case Hung => st
    case Replying(d, v, m) => Replied(d, v, m, None)
    case Replied(_, _, _, _) => st
  }

  function OnError(st: State, e: Error): State {
    match st
    case FirstLine(_) => Requested(Err(e), Http10)
    case HeaderLine(_, _, _) => Requested(Err(e), Http10)
    case Requested(_, _) => st
    case Hung => st
    case Replying(d, v, m) => Replied(d, v, m, Some(e))
    case Replied(_, _, _, _) => st
  }

  type End = Endpoint<State>

  const START: End := Endpoint(FirstLine([]), [], [], [])

  function Advance(e: End, chunk: seq<byte>): End
    requires Sound(e, OpOf(e.st)) && Fits(OpOf(e.st), e.acc, chunk)
  {
    var op := OpOf(e.st);
    var f := Log(e, op, chunk);
    if |f.acc| < Total(op) then f else f.(st := OnDone(e.st, f.acc), acc := [])
  }

  function Break(e: End, err: Error): End {
    e.(st := OnError(e.st, err), acc := [])
  }

  function Respond(e: End, m: Major): End
    requires e.st.Requested? && e.st.result.Ok?
  {
    e.(st := Replying(e.st.result.value, e.st.version, m), acc := [])
  }

  // ----- the one-shot parser -----

  /** Header lines up to and including an empty one. */
  function ParseHeaders(s: seq<byte>): Parse<()>
    decreases |s|
  {
    match LineLength(s)
    case None => More
    case Some(k) =>
      match Trimmed(s[..k])
      case None => Bad(LineTooLong, k)
      case Some(t) => if t == [] then Done((), k) else Offset(ParseHeaders(s[k..]), k)
  }

  function With<T>(p: Parse<()>, value: T): Parse<T> {
    match p
    case More => More
    case Bad(e, used) => Bad(e, used)
    case Done(_, used) => Done(value, used)
  }

  function ParseHttps(s: seq<byte>): Parse<Reading> {
    match LineLength(s)
    case None => More
    case Some(k) =>
      match Trimmed(s[..k])
      case None => Bad(LineTooLong, k)
      case Some(t) =>
        var r := ParseFirstLine(Text(t));
        if r.Malformed? then Bad(ProtocolViolation, k)
        else if r.Endless? then Done(r, k)
        else Offset(With(ParseHeaders(s[k..]), r), k)
  }

  // ----- the staged reader and the one-shot parser -----

  /** Complete header lines, none of them empty. */
  predicate HeaderLines(s: seq<byte>)
    decreases |s|
  {
    s == [] ||
    var k := LineLength(s);
    k.Some? && Trimmed(s[..k.value]).Some? && Trimmed(s[..k.value]).value != [] && HeaderLines(s[k.value..])
  }

  /** A complete request line and complete header lines. */
  predicate Head(s: seq<byte>, d: Destination, v: Version) {
    var k := LineLength(s);
    && k.Some? && Trimmed(s[..k.value]).Some?
    && ParseFirstLine(Text(Trimmed(s[..k.value]).value)) == Connect(d, v)
    && HeaderLines(s[k.value..])
  }

  predicate At(st: State, c: seq<byte>) {
    match st
    case FirstLine(l) => c == l && LineLength(l).None?
    case HeaderLine(d, v, l) =>
      |l| <= |c| && c[|c| - |l|..] == l && LineLength(l).None? && Head(c[..|c| - |l|], d, v)
    case Requested(Ok(d), v) => ParseHttps(c) == Done(Connect(d, v), |c|)
    case Requested(Err(e), _) => if OfNetwork(e) then ParseHttps(c).More? else ParseHttps(c) == Bad(e, |c|)
    case Hung => ParseHttps(c) == Done(Endless, |c|)
    case Replying(d, v, _) => ParseHttps(c) == Done(Connect(d, v), |c|)
    case Replied(d, v, _, _) => ParseHttps(c) == Done(Connect(d, v), |c|)
  }

  predicate Said(st: State, s: seq<byte>) {
    match st
    case Replied(_, v, m, None) => s == ReplyText(v, m)
    case Replied(_, v, m, Some(_)) => s <= ReplyText(v, m)
    case _ => s == []
  }

  predicate Inv(e: End) {
    var op := OpOf(e.st);
    Sound(e, op) && At(e.st, Taken(e, op)) && Said(e.st, Put(e, op))
  }

  lemma LineExtends(s: seq<byte>, t: seq<byte>)
    requires LineLength(s).Some?
    ensures LineLength(s + t) == LineLength(s)
    ensures var k := LineLength(s).value; (s + t)[..k] == s[..k] && (s + t)[k..] == s[k..] + t
  {
    Extend(s, t, [LF], MAX_LINE);
  }

  lemma {:induction false} HeaderLinesThen(h: seq<byte>, t: seq<byte>)
    requires HeaderLines(h)
    ensures ParseHeaders(h + t) == Offset(ParseHeaders(t), |h|)
    decreases |h|
  {
    hide LineLength, Trimmed;
    if h == [] {
      assert h + t == t;
    } else {
      LineExtends(h, t);
      HeaderLinesThen(h[LineLength(h).value..], t);
    }
  }

  lemma {:induction false} HeaderLinesSnoc(h: seq<byte>, line: seq<byte>)
    requires HeaderLines(h) && LineLength(line) == Some(|line|) && Trimmed(line).Some? && Trimmed(line).value != []
    ensures HeaderLines(h + line)
    decreases |h|
  {
    hide LineLength, Trimmed;
    if h == [] {
      assert h + line == line && line[..|line|] == line && line[|line|..] == [];
    } else {
      LineExtends(h, line);
      HeaderLinesSnoc(h[LineLength(h).value..], line);
    }
  }

  lemma HeadThen(h: seq<byte>, d: Destination, v: Version, t: seq<byte>)
    requires Head(h, d, v)
    ensures ParseHttps(h + t) == Offset(With(ParseHeaders(t), Connect(d, v)), |h|)
  {
    hide LineLength, Trimmed, HeaderLines, ParseHeaders, ParseFirstLine;
    LineExtends(h, t);
    HeaderLinesThen(h[LineLength(h).value..], t);
  }

  lemma HeadSnoc(h: seq<byte>, d: Destination, v: Version, line: seq<byte>)
    requires Head(h, d, v) && LineLength(line) == Some(|line|) && Trimmed(line).Some? && Trimmed(line).value != []
    ensures Head(h + line, d, v)
  {
    hide LineLength, Trimmed, HeaderLines, ParseFirstLine;
    LineExtends(h, line);
    HeaderLinesSnoc(h[LineLength(h).value..], line);
  }

  lemma OneMoreByte(l: seq<byte>, data: seq<byte>)
    requires LineLength(l).None? && |data| == 1
    ensures LineLength(l + data) == if Stops(l + data, [LF], MAX_LINE) then Some(|l| + 1) else None
  {
    assert data == [data[0]];
    Snoc(l, data[0], [LF], MAX_LINE);
  }

  lemma WholeLine(l: seq<byte>)
    requires LineLength(l) == Some(|l|)
    ensures l[..|l|] == l && l[|l|..] == []
  {
  }

  lemma FirstLineDone(l: seq<byte>)
    requires LineLength(l) == Some(|l|)
    ensures At(OnFirstLine(l), l)
  {
    hide LineLength, Trimmed, ParseFirstLine;
    WholeLine(l);
    assert l[..|l| - 0] == l && l[|l|..] == [];
    EmptyIsOpen();
  }

  lemma EmptyIsOpen()
    ensures LineLength([]).None? && ParseHeaders([]).More?
  {
  }

  /** A complete head, and nothing yet of the next line. */
  lemma NextLine(c: seq<byte>, d: Destination, v: Version)
    requires Head(c, d, v)
    ensures At(HeaderLine(d, v, []), c)
  {
    hide Head;
    EmptyIsOpen();
    assert c[..|c| - 0] == c && c[|c|..] == [];
  }

  /** One line ends the headers if it is empty or too long. */
  lemma OneLine(l: seq<byte>)
    requires LineLength(l) == Some(|l|) && (Trimmed(l).Some? ==> Trimmed(l).value == [])
    ensures ParseHeaders(l) == if Trimmed(l).None? then Bad(LineTooLong, |l|) else Done((), |l|)
  {
    hide LineLength, Trimmed;
    WholeLine(l);
  }

  /** The last line of the headers: it is empty, or too long. */
  lemma LastLineDone(h: seq<byte>, d: Destination, v: Version, l: seq<byte>)
    requires Head(h, d, v) && LineLength(l) == Some(|l|) && (Trimmed(l).Some? ==> Trimmed(l).value == [])
    ensures At(OnHeaderLine(d, v, l), h + l)
  {
    hide LineLength, Trimmed, Head, ParseHeaders, ParseHttps;
    HeadThen(h, d, v, l);
    OneLine(l);
  }

  lemma HeaderLineDone(h: seq<byte>, d: Destination, v: Version, l: seq<byte>)
    requires Head(h, d, v) && LineLength(l) == Some(|l|)
    ensures At(OnHeaderLine(d, v, l), h + l)
  {
    hide LineLength, Trimmed, Head, At;
    if Trimmed(l).Some? && Trimmed(l).value != [] {
      HeadSnoc(h, d, v, l);
      NextLine(h + l, d, v);
    } else {
      LastLineDone(h, d, v, l);
    }
  }

  lemma DoneKeepsAt(st: State, c: seq<byte>, data: seq<byte>)
    requires At(st, c) && OpOf(st).Read? && |data| == 1
    ensures At(OnDone(st, data), c + data)
  {
    hide Stops, LineLength, Head, OnFirstLine, OnHeaderLine;
    var l := st.line;
    OneMoreByte(l, data);
    match st
    case FirstLine(_) =>
      if Stops(l + data, [LF], MAX_LINE) {
        FirstLineDone(l + data);
      }
    case HeaderLine(d, v, _) =>
      var h := c[..|c| - |l|];
      assert c + data == h + (l + data);
      assert (c + data)[..|h|] == h && (c + data)[|h|..] == l + data;
      if Stops(l + data, [LF], MAX_LINE) {
        HeaderLineDone(h, d, v, l + data);
      }
  }

  lemma WantsMore(st: State, c: seq<byte>)
    requires At(st, c) && OpOf(st).Read?
    ensures ParseHttps(c).More?
  {
    hide LineLength, Head;
    if st.HeaderLine? {
      var h := c[..|c| - |st.line|];
      assert c == h + st.line;
      HeadThen(h, st.dst, st.version, st.line);
    }
  }

  predicate Entered(f: End) {
    f.acc == [] && At(f.st, f.recv) && Said(f.st, f.sent)
  }

  lemma EnteredInv(f: End)
    requires Entered(f)
    ensures Inv(f)
  {
    hide At, Said;
    var op := OpOf(f.st);
    assert op.Rest? || Total(op) > 0;
    assert Taken(f, op) == f.recv && Put(f, op) == f.sent;
  }

  lemma ReadKeepsInv(e: End, chunk: seq<byte>)
    requires Inv(e) && Fits(OpOf(e.st), e.acc, chunk) && OpOf(e.st).Read?
    ensures Inv(Advance(e, chunk))
  {
    hide At, Said;
    var op := OpOf(e.st);
    LogKeepsTaken(e, op, chunk);
    assert op == Read(1) && e.acc == [] && e.acc + chunk == chunk;
    DoneKeepsAt(e.st, Taken(e, op), chunk);
    ReadKeepsSaid(e.st, chunk, e.sent);
    assert Entered(Advance(e, chunk));
    EnteredInv(Advance(e, chunk));
  }

  lemma ReadKeepsSaid(st: State, data: seq<byte>, s: seq<byte>)
    requires OpOf(st).Read? && |data| == 1 && Said(st, s)
    ensures Said(OnDone(st, data), s)
  {
  }

  lemma WriteKeepsInv(e: End, chunk: seq<byte>)
    requires Inv(e) && Fits(OpOf(e.st), e.acc, chunk) && OpOf(e.st).Write?
    ensures Inv(Advance(e, chunk))
  {
    hide ReplyText, ParseHttps;
    var op := OpOf(e.st);
    LogKeepsTaken(e, op, chunk);
    if |e.acc| + |chunk| == Total(op) {
      assert e.acc + chunk == op.bytes;
      EnteredInv(Advance(e, chunk));
    }
  }

  lemma AdvanceKeepsInv(e: End, chunk: seq<byte>)
    requires Inv(e) && Fits(OpOf(e.st), e.acc, chunk)
    ensures Inv(Advance(e, chunk))
  {
    hide Inv, At, Said;
    if OpOf(e.st).Read? {
      ReadKeepsInv(e, chunk);
    } else {
      WriteKeepsInv(e, chunk);
    }
  }

  lemma BrokenRead(st: State, c: seq<byte>, s: seq<byte>, err: Error)
    requires At(st, c) && Said(st, s) && OpOf(st).Read? && OfNetwork(err)
    ensures At(OnError(st, err), c) && Said(OnError(st, err), s)
  {
    hide LineLength, Head, ParseHttps;
    WantsMore(st, c);
  }

  lemma BrokenWrite(st: State, c: seq<byte>, s: seq<byte>, part: seq<byte>, err: Error)
    requires At(st, c) && Said(st, s) && OpOf(st).Write? && part <= OpOf(st).bytes
    ensures At(OnError(st, err), c) && Said(OnError(st, err), s + part)
  {
    hide LineLength, Head, ParseHttps, ReplyText;
    assert s + part == part;
  }

  lemma BrokenReadEntered(e: End, err: Error)
    requires Inv(e) && OpOf(e.st).Read? && OfNetwork(err)
    ensures Entered(Break(e, err))
  {
    hide At, Said, OnError, ReplyText;
    ReadFits(e, [0]);
    assert Taken(e, OpOf(e.st)) == e.recv;
    BrokenRead(e.st, e.recv, e.sent, err);
  }

  lemma BreakKeepsInv(e: End, err: Error)
    requires Inv(e) && !OpOf(e.st).Rest? && OfNetwork(err)
    ensures Inv(Break(e, err))
  {
    hide At, Said, OnError, ReplyText, OpOf;
    var op := OpOf(e.st);
    if op.Read? {
      BrokenReadEntered(e, err);
    } else {
      LogEndsWithAcc(e, op);
      BrokenWrite(e.st, e.recv, Put(e, op), e.acc, err);
    }
    EnteredInv(Break(e, err));
  }

  lemma RespondKeepsInv(e: End, m: Major)
    requires Inv(e) && e.st.Requested? && e.st.result.Ok?
    ensures Inv(Respond(e, m))
  {
    hide ReplyText, ParseHttps;
    EnteredInv(Respond(e, m));
  }

  // ----- whole runs -----

  /** What holds after feeding the bytes of `s`. */
  predicate Fed(e: End, s: seq<byte>) {
    && Inv(e) && e.recv <= s && (OpOf(e.st).Read? ==> e.recv == s) && !OpOf(e.st).Write?
    && (e.st.Requested? && e.st.result.Err? ==> !OfNetwork(e.st.result.error)) && !e.st.Replied?
  }

  lemma FedStart()
    ensures Fed(START, [])
  {
    EmptyIsOpen();
    EnteredInv(START);
  }

  /** A read is never half done. */
  lemma ReadFits(e: End, chunk: seq<byte>)
    requires Inv(e) && OpOf(e.st).Read? && |chunk| == 1
    ensures Sound(e, OpOf(e.st)) && Fits(OpOf(e.st), e.acc, chunk) && e.acc == []
  {
    hide At, Said;
  }

  lemma FedNext(e: End, s: seq<byte>)
    requires s != [] && Fed(e, s[..|s| - 1])
    ensures OpOf(e.st).Rest? ==> Fed(e, s)
    ensures !OpOf(e.st).Rest? ==>
      && Sound(e, OpOf(e.st)) && Fits(OpOf(e.st), e.acc, [s[|s| - 1]])
      && Fed(Advance(e, [s[|s| - 1]]), s)
  {
    hide Inv, OnFirstLine, OnHeaderLine, Stops;
    if !OpOf(e.st).Rest? {
      var chunk := [s[|s| - 1]];
      assert e.recv + chunk == s;
      ReadFits(e, chunk);
      assert [] + chunk == chunk;
      AdvanceKeepsInv(e, chunk);
      ReadIsClean(e.st, chunk);
    }
  }

  lemma ReadIsClean(st: State, data: seq<byte>)
    requires OpOf(st).Read? && |data| == 1
    ensures var t := OnDone(st, data);
            && !OpOf(t).Write? && !t.Replied?
            && (t.Requested? && t.result.Err? ==> !OfNetwork(t.result.error))
  {
    hide Stops;
  }

  /** The machine fed with the bytes of `s`, until it has no read outstanding. */
  function Feed(s: seq<byte>): (e: End)
    ensures Fed(e, s)
  {
    hide Fed;
    if s == [] then
      FedStart();
      START
    else
      var e := Feed(s[..|s| - 1]);
      FedNext(e, s);
      if OpOf(e.st).Rest? then e else Advance(e, [s[|s| - 1]])
  }

  /** The byte-by-byte reader stops exactly when the one-shot parser has an answer for the bytes it has taken,
      with that answer, and at the last byte of what the answer is for. */
  lemma StagedReaderRefinesParser(s: seq<byte>)
    ensures var e := Feed(s);
            match ParseHttps(s)
            case More => OpOf(e.st).Read? && e.recv == s
            case Bad(err, used) => used == |e.recv| && e.st.Requested? && e.st.result == Err(err)
            case Done(Connect(d, v), used) => used == |e.recv| && e.st == Requested(Ok(d), v)
            case Done(_, used) => used == |e.recv| && e.st.Hung?
  {
    hide Feed, ParseHttps;
    var e := Feed(s);
    if OpOf(e.st).Read? {
      assert e.acc == [] && Taken(e, OpOf(e.st)) == e.recv;
      WantsMore(e.st, e.recv);
    } else {
      var rest := s[|e.recv|..];
      assert s == e.recv + rest;
      RestingHasAnswer(e);
      ParseStable(e.recv, rest);
    }
  }

  lemma RestingHasAnswer(e: End)
    requires Inv(e) && OpOf(e.st).Rest? && !e.st.Replied?
    requires e.st.Requested? && e.st.result.Err? ==> !OfNetwork(e.st.result.error)
    ensures match ParseHttps(e.recv)
            case More => false
            case Bad(err, used) => used == |e.recv| && e.st.Requested? && e.st.result == Err(err)
            case Done(Connect(d, v), used) => used == |e.recv| && e.st == Requested(Ok(d), v)
            case Done(_, used) => used == |e.recv| && e.st.Hung?
  {
    hide ParseHttps;
  }

  lemma {:induction false} HeadersStable(s: seq<byte>, t: seq<byte>)
    requires !ParseHeaders(s).More?
    ensures ParseHeaders(s).used <= |s| && ParseHeaders(s + t) == ParseHeaders(s)
    decreases |s|
  {
    hide LineLength, Trimmed;
    LineExtends(s, t);
    var k := LineLength(s).value;
    var r := Trimmed(s[..k]);
    if r.Some? && r.value != [] {
      HeadersStable(s[k..], t);
    }
  }

  lemma ParseStable(s: seq<byte>, t: seq<byte>)
    requires !ParseHttps(s).More?
    ensures ParseHttps(s).used <= |s| && ParseHttps(s + t) == ParseHttps(s)
  {
    hide LineLength, Trimmed, ParseHeaders, ParseFirstLine;
    LineExtends(s, t);
    var k := LineLength(s).value;
    if !ParseHeaders(s[k..]).More? {
      HeadersStable(s[k..], t);
    }
  }

  // ----- the grammar of requests -----

  /** A line: at most 2048 bytes, the last of which is the only LF. */
  predicate IsLine(l: seq<byte>) {
    0 < |l| <= MAX_LINE && l[|l| - 1] == LF && LF !in l[..|l| - 1]
  }

  predicate IsBlank(l: seq<byte>) {
    l == [LF] || l == [CR, LF]
  }

  datatype Request = Request(first: seq<byte>, headers: seq<seq<byte>>, blank: seq<byte>)

  function Block(headers: seq<seq<byte>>, blank: seq<byte>): seq<byte> {
    if headers == [] then blank else headers[0] + Block(headers[1..], blank)
  }

  function RequestBytes(r: Request): seq<byte> {
    r.first + Block(r.headers, r.blank)
  }

  /** Header lines may be anything that is not empty. */
  predicate BlockOk(headers: seq<seq<byte>>, blank: seq<byte>) {
    IsBlank(blank) && forall i :: 0 <= i < |headers| ==> IsLine(headers[i]) && !IsBlank(headers[i])
  }

  predicate RequestOk(r: Request, d: Destination, v: Version) {
    && IsLine(r.first) && ParseFirstLine(Text(Trimmed(r.first).value)) == Connect(d, v)
    && BlockOk(r.headers, r.blank)
  }

  lemma EndsWithLf(l: seq<byte>)
    ensures Stops(l, [LF], MAX_LINE) <==> |l| == MAX_LINE || (l != [] && l[|l| - 1] == LF)
  {
    if l != [] {
      assert l[|l| - 1..] == [l[|l| - 1]];
    }
  }

  /** A line at the start of a text is what `read_line` reads. */
  lemma LineIsRead(l: seq<byte>, t: seq<byte>)
    requires IsLine(l)
    ensures LineLength(l + t) == Some(|l|) && (l + t)[..|l|] == l && (l + t)[|l|..] == t
    ensures Trimmed(l).Some? && (Trimmed(l).value == [] <==> IsBlank(l))
  {
    hide Stops;
    EndsWithLf(l);
    assert l[..|l|] == l;
    forall j | 0 <= j < |l| ensures !Stops(l[..j], [LF], MAX_LINE) {
      EndsWithLf(l[..j]);
      assert j > 0 ==> l[..j][j - 1] == l[..|l| - 1][j - 1];
    }
    UntilIs(l, [LF], MAX_LINE, |l|);
    Extend(l, t, [LF], MAX_LINE);
  }

  /** What `read_line` reads is a line, unless it is too long. */
  lemma ReadIsLine(s: seq<byte>)
    requires LineLength(s).Some? && Trimmed(s[..LineLength(s).value]).Some?
    ensures IsLine(s[..LineLength(s).value])
  {
    hide Stops;
    var k := LineLength(s).value;
    var l := s[..k];
    forall j | 0 <= j < k - 1 ensures l[j] != LF {
      EndsWithLf(s[..j + 1]);
    }
    if k > MAX_LINE {
      EndsWithLf(s[..MAX_LINE]);
    }
  }

  lemma {:induction false} BlockIsParsed(headers: seq<seq<byte>>, blank: seq<byte>, t: seq<byte>)
    requires BlockOk(headers, blank)
    ensures ParseHeaders(Block(headers, blank) + t) == Done((), |Block(headers, blank)|)
  {
    hide LineLength, Trimmed, IsLine;
    if headers == [] {
      BlankIsLine(blank);
      LineIsRead(blank, t);
    } else {
      var rest := Block(headers[1..], blank);
      BlockIsParsed(headers[1..], blank, t);
      LineIsRead(headers[0], rest + t);
      assert headers[0] + rest + t == headers[0] + (rest + t);
    }
  }

  lemma BlankIsLine(l: seq<byte>)
    requires IsBlank(l)
    ensures IsLine(l)
  {
  }

  lemma {:induction false} ParsedIsBlock(s: seq<byte>) returns (headers: seq<seq<byte>>, blank: seq<byte>)
    requires ParseHeaders(s).Done?
    ensures BlockOk(headers, blank) && ParseHeaders(s).used <= |s| && s[..ParseHeaders(s).used] == Block(headers, blank)
    decreases |s|
  {
    hide LineLength, Trimmed, IsLine;
    var k := LineLength(s).value;
    var l := s[..k];
    ReadIsLine(s);
    LineIsRead(l, []);
    if IsBlank(l) {
      headers, blank := [], l;
    } else {
      headers, blank := ParsedIsBlock(s[k..]);
      var n := ParseHeaders(s[k..]).used;
      assert s[..k + n] == l + s[k..][..n];
      var all := [l] + headers;
      assert all[0] == l && all[1..] == headers;
      headers := all;
    }
  }

  lemma RequestIsParsed(r: Request, d: Destination, v: Version, t: seq<byte>)
    requires RequestOk(r, d, v)
    ensures ParseHttps(RequestBytes(r) + t) == Done(Connect(d, v), |RequestBytes(r)|)
  {
    hide LineLength, Trimmed, IsLine, ParseHeaders, ParseFirstLine, Block, BlockOk;
    var b := Block(r.headers, r.blank);
    LineIsRead(r.first, b + t);
    assert r.first + b + t == r.first + (b + t);
    BlockIsParsed(r.headers, r.blank, t);
  }

  /** The request in front of a stream. */
  lemma ParsedIsRequest(s: seq<byte>, d: Destination, v: Version) returns (r: Request)
    requires ParseHttps(s).Done? && ParseHttps(s).value == Connect(d, v)
    ensures RequestOk(r, d, v) && ParseHttps(s).used <= |s| && s[..ParseHttps(s).used] == RequestBytes(r)
  {
    hide LineLength, Trimmed, IsLine, ParseHeaders, ParseFirstLine, Block, BlockOk;
    var k := LineLength(s).value;
    var l := s[..k];
    ReadIsLine(s);
    var headers, blank := ParsedIsBlock(s[k..]);
    var n := ParseHeaders(s[k..]).used;
    assert s[..k + n] == l + s[k..][..n];
    r := Request(l, headers, blank);
  }

  predicate Begins(s: seq<byte>, r: Request, n: nat) {
    RequestBytes(r) <= s && |RequestBytes(r)| == n
  }

  /** A stream is accepted exactly if it begins with a valid CONNECT line, any number of non-empty lines and an
      empty line, each of at most 2048 bytes with its LF; what is consumed is exactly that. */
  lemma AcceptedExactly(s: seq<byte>, d: Destination, v: Version, n: nat)
    ensures Feed(s).st == Requested(Ok(d), v) && |Feed(s).recv| == n <==> exists r :: RequestOk(r, d, v) && Begins(s, r, n)
  {
    hide ParseHttps, RequestOk, RequestBytes, Feed;
    StagedReaderRefinesParser(s);
    if ParseHttps(s).Done? && ParseHttps(s).value == Connect(d, v) && ParseHttps(s).used == n {
      var r := ParsedIsRequest(s, d, v);
      assert RequestOk(r, d, v) && Begins(s, r, n);
    }
    if r :| RequestOk(r, d, v) && Begins(s, r, n) {
      RequestIsParsed(r, d, v, s[n..]);
      assert s == RequestBytes(r) + s[n..];
    }
  }

  // ----- requests that hang -----

  /** A complete request line that names a target which the scanner of addresses never gets past. */
  ghost predicate HangingLine(l: seq<byte>) {
    IsLine(l) && IsEndlessLine(Text(Trimmed(l).value))
  }

  lemma EndlessParsed(s: seq<byte>, n: nat)
    ensures ParseHttps(s) == Done(Endless, n) <==> n <= |s| && HangingLine(s[..n])
  {
    hide LineLength, Trimmed, IsLine, ParseHeaders, ParseFirstLine, IsEndlessLine;
    if LineLength(s).Some? && Trimmed(s[..LineLength(s).value]).Some? {
      ReadIsLine(s);
      EndlessExactly(Text(Trimmed(s[..LineLength(s).value]).value));
    }
    if n <= |s| && HangingLine(s[..n]) {
      LineIsRead(s[..n], s[n..]);
      assert s == s[..n] + s[n..];
      EndlessExactly(Text(Trimmed(s[..n]).value));
    }
  }

  lemma MalformedIsBad(s: seq<byte>)
    ensures ParseHttps(s).Done? ==> !ParseHttps(s).value.Malformed?
  {
    hide LineLength, Trimmed, ParseHeaders, ParseFirstLine;
  }

  /** The byte-by-byte reader hangs exactly on a stream that begins with such a line, at its last byte. */
  lemma HungExactly(s: seq<byte>, n: nat)
    ensures Feed(s).st.Hung? && |Feed(s).recv| == n <==> n <= |s| && HangingLine(s[..n])
  {
    hide ParseHttps, Feed, HangingLine;
    StagedReaderRefinesParser(s);
    MalformedIsBad(s);
    EndlessParsed(s, n);
  }

  /** In every state, told from the bytes taken. */
  lemma HungAt(st: State, c: seq<byte>)
    requires At(st, c)
    ensures st.Hung? <==> HangingLine(c)
  {
    hide ParseHttps, LineLength, HangingLine, Head, ParseFirstLine;
    EndlessParsed(c, |c|);
    assert c[..|c|] == c;
    if OpOf(st).Read? {
      WantsMore(st, c);
    }
  }

  /** One request that hangs, whatever follows it. */
  lemma HangingRequest(t: seq<byte>)
    ensures Feed(Octets("CONNECT http://u@[::1%1]junk HTTP/1.0" + "\r\n") + t).st.Hung?
  {
    hide Feed, IsEndlessLine;
    var text := "CONNECT http://u@[::1%1]junk HTTP/1.0";
    var l := Octets(text + "\r\n");
    EndlessRequest();
    LineOfText(text);
    assert (l + t)[..|l|] == l;
    HungExactly(l + t, |l|);
  }

  lemma LineOfText(text: string)
    requires Plain(text) && 0 < |text| < 100
    ensures var l := Octets(text + "\r\n"); IsLine(l) && Trimmed(l).Some? && Text(Trimmed(l).value) == text
  {
    hide IsBlank;
    PlainLine(text);
    var l := Octets(text + "\r\n");
    assert l[|text|] == CR && l[|text| + 1] == LF;
    assert forall i :: 0 <= i < |text| ==> l[i] as char == text[i];
  }

  // ----- the headers that were meant to be refused -----

  /** What `verify_header_line` accepts: two non-empty parts around the only ": ". */
  predicate HeaderVerifies(line: seq<byte>) {
    var p := Split(Text(line), ": ");
    |p| == 2 && p[0] != "" && p[1] != ""
  }

  /** Reading headers as it was meant, with the outcome of `verify_header_line` looked at. */
  function StrictHeaders(s: seq<byte>): Parse<()>
    decreases |s|
  {
    match LineLength(s)
    case None => More
    case Some(k) =>
      match Trimmed(s[..k])
      case None => Bad(LineTooLong, k)
      case Some(t) =>
        if t == [] then Done((), k)
        else if !HeaderVerifies(t) then Bad(ProtocolViolation, k)
        else Offset(StrictHeaders(s[k..]), k)
  }

  /** No complete header line up to the empty one fails to verify. */
  predicate AllVerify(s: seq<byte>)
    decreases |s|
  {
    var k := LineLength(s);
    k.Some? && Trimmed(s[..k.value]).Some? && Trimmed(s[..k.value]).value != [] ==>
      HeaderVerifies(Trimmed(s[..k.value]).value) && AllVerify(s[k.value..])
  }

  lemma {:induction false} NeverAViolation(s: seq<byte>)
    ensures ParseHeaders(s).Bad? ==> ParseHeaders(s).error == LineTooLong
    decreases |s|
  {
    hide LineLength, Trimmed;
    var k := LineLength(s);
    if k.Some? && Trimmed(s[..k.value]).Some? && Trimmed(s[..k.value]).value != [] {
      LengthBounds(s);
      NeverAViolation(s[k.value..]);
    }
  }

  lemma LengthBounds(s: seq<byte>)
    ensures LineLength(s).Some? ==> 0 < LineLength(s).value <= |s|
  {
  }

  /** The code reads headers as it was meant to exactly if there is no header line that does not verify. */
  lemma {:induction false} HeadersAsMeant(s: seq<byte>)
    ensures ParseHeaders(s) == StrictHeaders(s) <==> AllVerify(s)
    decreases |s|
  {
    hide LineLength, Trimmed, HeaderVerifies;
    NeverAViolation(s);
    var k := LineLength(s);
    if k.Some? && Trimmed(s[..k.value]).Some? && Trimmed(s[..k.value]).value != [] {
      HeadersAsMeant(s[k.value..]);
    }
  }

  /** Any accepted request can have a header line without a colon added, and is still accepted. */
  lemma BadHeaderAccepted(r: Request, d: Destination, v: Version)
    requires RequestOk(r, d, v)
    ensures RequestOk(r.(headers := r.headers + [[120, LF]]), d, v)
    ensures Trimmed([120, LF]) == Some([120]) && !HeaderVerifies([120])
  {
    var more := r.headers + [[120, LF]];
    assert IsLine([120, LF]) && !IsBlank([120, LF]);
    assert forall i :: 0 <= i < |more| ==> more[i] == if i < |r.headers| then r.headers[i] else [120, LF];
    ShortHeader();
  }

  lemma ShortHeader()
    ensures Trimmed([120, LF]) == Some([120]) && !HeaderVerifies([120])
  {
    assert [120, LF][..1] == [120];
    TooShortToSplit(Text([120]), ": ");
  }

  lemma TooShortToSplit(s: string, d: string)
    requires |s| < |d|
    ensures Split(s, d) == [s]
  {
  }

  /** Only success is reported as success: the status code starts with '2' or '5'. */
  lemma HonestStatus(v: Version, m: Major)
    ensures |ReplyText(v, m)| > 9
    ensures ReplyText(v, m)[9] == if m == Succeeded then '2' as int else '5' as int
  {
    var a := VersionText(v) + " ";
    assert |a| == 9;
    var b := a + Status(m);
    assert b[9] == Status(m)[0];
    var t := b + "\r\nContent-Length: 0\r\n\r\n";
    assert t[9] == b[9];
  }

  const CONTENT_LENGTH: seq<byte> := Octets("Content-Length: 0\r\n")

  lemma OctetsAppend(a: string, b: string)
    ensures Octets(a + b) == Octets(a) + Octets(b)
  {
  }

  /** The reply as the lines of a message. */
  lemma ReplyLines(v: Version, m: Major)
    ensures ReplyText(v, m) == Octets(VersionText(v) + " " + Status(m) + "\r\n") + (CONTENT_LENGTH + [CR, LF])
  {
    hide VersionText, Status;
    var a := VersionText(v) + " " + Status(m);
    assert a + "\r\nContent-Length: 0\r\n\r\n" == (a + "\r\n") + ("Content-Length: 0\r\n" + "\r\n");
    OctetsAppend(a + "\r\n", "Content-Length: 0\r\n" + "\r\n");
    OctetsAppend("Content-Length: 0\r\n", "\r\n");
    assert Octets("\r\n") == [CR, LF];
  }

  /** A reader of lines up to an empty one takes exactly the reply off a stream, so the payload begins right behind. */
  lemma ReplyEndsAtEmptyLine(v: Version, m: Major, payload: seq<byte>)
    ensures ParseHeaders(ReplyText(v, m) + payload) == Done((), |ReplyText(v, m)|)
  {
    hide ParseHeaders, ReplyText;
    var first := Octets(VersionText(v) + " " + Status(m) + "\r\n");
    var headers, blank := [first, CONTENT_LENGTH], [CR, LF];
    ReplyLines(v, m);
    assert headers[1..] == [CONTENT_LENGTH] && [CONTENT_LENGTH][1..] == [];
    assert Block([CONTENT_LENGTH], blank) == CONTENT_LENGTH + blank;
    assert Block(headers, blank) == first + (CONTENT_LENGTH + blank);
    StatusLineOk(v, m);
    BlockIsParsed(headers, blank, payload);
  }

  /** Text that a line may consist of. */
  predicate Plain(s: string) {
    forall i :: 0 <= i < |s| ==> ' ' <= s[i] <= '~'
  }

  lemma PlainLine(s: string)
    requires Plain(s) && 0 < |s| < 100
    ensures IsLine(Octets(s + "\r\n")) && !IsBlank(Octets(s + "\r\n"))
  {
    var l := Octets(s + "\r\n");
    assert |l| == |s| + 2 && l[|s|] == CR && l[|s| + 1] == LF;
    var front := l[..|l| - 1];
    forall i | 0 <= i < |front| ensures front[i] != LF {
      assert front[i] == l[i];
      assert i < |s| ==> l[i] == s[i] as int % 0x100 && ' ' <= s[i] <= '~';
    }
    assert l[0] == s[0] as int % 0x100 && ' ' <= s[0] <= '~';
  }

  lemma PlainVersion(v: Version)
    ensures Plain(VersionText(v)) && |VersionText(v)| == 8
  {
  }

  lemma PlainStatus(m: Major)
    ensures Plain(Status(m)) && |Status(m)| < 50
  {
  }

  lemma PlainLength()
    ensures Plain("Content-Length: 0") && Octets("Content-Length: 0" + "\r\n") == CONTENT_LENGTH
  {
    assert "Content-Length: 0" + "\r\n" == "Content-Length: 0\r\n";
  }

  lemma StatusLineOk(v: Version, m: Major)
    ensures IsLine(Octets(VersionText(v) + " " + Status(m) + "\r\n")) && IsLine(CONTENT_LENGTH)
    ensures !IsBlank(Octets(VersionText(v) + " " + Status(m) + "\r\n")) && !IsBlank(CONTENT_LENGTH)
  {
    hide VersionText, Status, IsLine, IsBlank;
    PlainVersion(v);
    PlainStatus(m);
    PlainLine(VersionText(v) + " " + Status(m));
    PlainLength();
    PlainLine("Content-Length: 0");
  }
}
