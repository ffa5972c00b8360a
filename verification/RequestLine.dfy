/** The request line of the HTTPS input: "CONNECT host:port HTTP/1.x". */
module RequestLine {
  import opened Bytes
  import opened Splitting
  import opened Proxy
  import opened UrlGrammar
  import U = UrlParsing
  import P = Ipv6Printer
  import G = Ipv6Grammar

  datatype Version = Http10 | Http11

  function VersionText(v: Version): string {
    match v
    case Http10 => "HTTP/1.0"
    case Http11 => "HTTP/1.1"
  }

  /** `Endless`: the address scanner does not return. */
  datatype Reading = Connect(dst: Destination, version: Version) | Malformed | Endless

  /** `destination_from_url_parser`. */
  function DestinationOf(host: U.Host, port: uint16): Destination {
    match host
    case Ip(a) => Destination([], a, port)
    case Name(n) => Destination(Octets(n), NO_DESTINATION.ip, port)
  }

  /** No scheme, no credentials, but a port; a path is neither refused nor used. */
  function ReadTarget(text: string, v: Version): Reading {
    match U.ParseUrl(text)
    case Failed => Malformed
    case Hangs => Endless
    case Parsed(u) =>
      if u.scheme.Some? || u.username.Some? || u.password.Some? || u.port.None? then Malformed
      else Connect(DestinationOf(u.host, u.port.value), v)
  }

  /** `parse_first_line`. */
  function ParseFirstLine(line: string): Reading {
    var parts := Split(line, " ");
    if |parts| != 3 || parts[0] != "CONNECT" then Malformed
    else if parts[2] == "HTTP/1.0" then ReadTarget(parts[1], Http10)
    else if parts[2] == "HTTP/1.1" then ReadTarget(parts[1], Http11)
    else Malformed
  }

  lemma LastPart(a: string)
    requires ' ' !in a
    ensures Leftmost([a], " ") && Join([a], " ") == a
  {
    CharAbsent(a, ' ');
  }

  /** One more part in front. */
  lemma FirstPart(a: string, parts: seq<string>)
    requires ' ' !in a && parts != [] && Leftmost(parts, " ")
    ensures Leftmost([a] + parts, " ") && Join([a] + parts, " ") == a + " " + Join(parts, " ")
  {
    var all := [a] + parts;
    assert all[0] == a && all[1..] == parts;
    FirstChar(a, ' ', "");
    assert a + " " + "" == a + " ";
  }

  /** A text of three parts without spaces in them. */
  lemma ThreeParts(a: string, b: string, c: string)
    requires ' ' !in a && ' ' !in b && ' ' !in c
    ensures Split(a + " " + (b + " " + c), " ") == [a, b, c]
  {
    LastPart(c);
    FirstPart(b, [c]);
    assert [b] + [c] == [b, c];
    FirstPart(a, [b, c]);
    assert [a] + [b, c] == [a, b, c];
    LeftmostIsSplit([a, b, c], " ");
  }

  lemma JoinThree(a: string, b: string, c: string)
    ensures Join([a, b, c], " ") == a + " " + (b + " " + c)
  {
    assert [a, b, c][1..] == [b, c] && [b, c][1..] == [c];
    assert Join([b, c], " ") == b + " " + Join([c], " ");
  }

  /** The middle one of three parts has no space in it. */
  lemma MiddlePart(line: string)
    requires |Split(line, " ")| == 3
    ensures var p := Split(line, " ");
            line == p[0] + " " + (p[1] + " " + p[2]) && ' ' !in p[1]
  {
    var p := Split(line, " ");
    SplitIsLeftmost(line, " ");
    assert p == [p[0], p[1], p[2]];
    JoinThree(p[0], p[1], p[2]);
    if ' ' in p[1] {
      var j :| 0 <= j < |p[1]| && p[1][j] == ' ';
      PartsAvoidDelimiter(p, " ", 1, j);
      CharOccursAt(p[1], ' ', j);
    }
  }

  /** The method, one space, a target without spaces, one space, and a version. */
  predicate IsRequestLine(line: string, target: string, v: Version) {
    ' ' !in target && line == "CONNECT" + " " + (target + " " + VersionText(v))
  }

  lemma LineReads(line: string, target: string, v: Version)
    requires IsRequestLine(line, target, v)
    ensures ParseFirstLine(line) == ReadTarget(target, v)
  {
    hide ReadTarget;
    ThreeParts("CONNECT", target, VersionText(v));
  }

  lemma ReadLineHasShape(line: string)
    requires !ParseFirstLine(line).Malformed?
    ensures |Split(line, " ")| == 3
    ensures var target := Split(line, " ")[1];
            || (IsRequestLine(line, target, Http10) && ParseFirstLine(line) == ReadTarget(target, Http10))
            || (IsRequestLine(line, target, Http11) && ParseFirstLine(line) == ReadTarget(target, Http11))
  {
    hide ReadTarget;
    MiddlePart(line);
  }

  lemma TargetVersion(t: string, v: Version)
    ensures ReadTarget(t, v).Connect? ==> ReadTarget(t, v).version == v
  {
  }

  /** The components of a target: a host that can be read, a port that can be read, and perhaps a path. */
  predicate IsTarget(s: Site, d: Destination) {
    && Canonical(Parts(None, None, None, s))
    && s.port.Some? && U.ReadPort(s.port.value).Some?
    && U.ReadHost(s.bracketed, s.host).HostIs?
    && d == DestinationOf(U.ReadHost(s.bracketed, s.host).host, U.ReadPort(s.port.value).value)
  }

  /** The URL that a target is read as. */
  function TargetUrl(s: Site): U.Url
    requires U.ReadHost(s.bracketed, s.host).HostIs? && s.port.Some?
  {
    U.Url(None, None, None, U.ReadHost(s.bracketed, s.host).host, U.ReadPort(s.port.value), s.path)
  }

  lemma TextOfSite(s: Site)
    ensures Unparse(Parts(None, None, None, s)) == JoinSite(s)
  {
    assert "" + JoinSite(s) == JoinSite(s);
  }

  lemma TargetReads(s: Site, d: Destination, v: Version)
    requires IsTarget(s, d)
    ensures ReadTarget(JoinSite(s), v) == Connect(d, v)
  {
    hide U.ParseUrl, Canonical, DestinationOf, Unparse, JoinSite, U.ReadHost, U.ReadPort;
    var p := Parts(None, None, None, s);
    TextOfSite(s);
    assert U.ReadParts(p) == Some(TargetUrl(s));
    hide U.ReadParts;
    U.ParseExact(JoinSite(s), TargetUrl(s));
  }

  lemma ReadTargetIsTarget(text: string, d: Destination, v: Version) returns (s: Site)
    requires ReadTarget(text, v) == Connect(d, v)
    ensures IsTarget(s, d) && text == JoinSite(s)
  {
    hide Canonical, U.ParseUrl, DestinationOf, Unparse, JoinSite, U.ReadHost, U.ReadPort;
    var u := U.ParseUrl(text).url;
    U.ParseExact(text, u);
    var p :| Canonical(p) && text == Unparse(p) && U.ReadParts(p) == Some(u);
    s := p.site;
    assert p == Parts(None, None, None, s);
    TextOfSite(s);
  }

  /** A request line is accepted exactly if it is the method, one space, a target without spaces, one space
      and a version, where the target is the text of a readable host and port; any path behind them is ignored. */
  lemma {:induction false} FirstLineExact(line: string, d: Destination, v: Version)
    ensures ParseFirstLine(line) == Connect(d, v) <==>
            exists s :: IsTarget(s, d) && IsRequestLine(line, JoinSite(s), v)
  {
    hide ParseFirstLine, ReadTarget, IsTarget, IsRequestLine, JoinSite;
    if ParseFirstLine(line) == Connect(d, v) {
      ReadLineHasShape(line);
      var t := Split(line, " ")[1];
      TargetVersion(t, Http10);
      TargetVersion(t, Http11);
      var s := ReadTargetIsTarget(t, d, v);
      assert IsTarget(s, d) && IsRequestLine(line, JoinSite(s), v);
    }
    if s :| IsTarget(s, d) && IsRequestLine(line, JoinSite(s), v) {
      TargetReads(s, d, v);
      LineReads(line, JoinSite(s), v);
    }
  }

  lemma EndlessTarget(text: string, v: Version)
    ensures ReadTarget(text, v) == Endless <==> U.ParseUrl(text) == U.Outcome.Hangs
  {
    hide U.ParseUrl, DestinationOf;
  }

  /** The line names a target that the scanner of addresses never gets past. */
  ghost predicate IsEndlessLine(line: string) {
    exists o, v :: U.HangsAt(o) && IsRequestLine(line, U.OpeningText(o), v)
  }

  /** Parsing a request line never returns exactly if it is the method, one space, a target without spaces, one space and
      a version, and the target has a bracketed host that sends the scanner into its endless loop; what else there is in
      the target does not matter, even if it would have been refused later. */
  lemma {:induction false} EndlessExactly(line: string)
    ensures ParseFirstLine(line) == Endless <==> IsEndlessLine(line)
  {
    hide ParseFirstLine, ReadTarget, IsRequestLine, U.HangsAt, U.OpeningText, U.ParseUrl;
    if ParseFirstLine(line) == Endless {
      ReadLineHasShape(line);
      var t := Split(line, " ")[1];
      EndlessTarget(t, Http10);
      EndlessTarget(t, Http11);
      U.HangsExactly(t);
      var o :| U.HangsAt(o) && t == U.OpeningText(o);
      assert U.HangsAt(o) && (IsRequestLine(line, U.OpeningText(o), Http10) || IsRequestLine(line, U.OpeningText(o), Http11));
    }
    if o, v :| U.HangsAt(o) && IsRequestLine(line, U.OpeningText(o), v) {
      var t := U.OpeningText(o);
      LineReads(line, t, v);
      U.HangsExactly(t);
      EndlessTarget(t, v);
    }
  }

  const ENDLESS: U.Opening := U.Opening(Some("http"), Some("u"), None, "::1%1", "junk")

  lemma EndlessOpening()
    ensures U.HangsAt(ENDLESS)
  {
    hide JoinUser, U.InBrackets, Find, OccursAt, G.Meaning;
    P.LoopbackSpins();
    forall j: nat ensures !OccursAt("http", "://", j) {
      MarkOccurs("http", j);
    }
  }

  lemma EndlessText()
    ensures U.OpeningText(ENDLESS) == "http://u@[::1%1]junk"
  {
    assert U.InBrackets("::1%1", "junk") == "[::1%1]junk";
    assert "u" + "@" + "[::1%1]junk" == "u@[::1%1]junk";
    assert "http" + "://" + "u@[::1%1]junk" == "http://u@[::1%1]junk";
  }

  /** One such line: the host is the loopback address with scope 1. The scheme, the credentials and what follows the
      bracket would all have been refused. */
  lemma EndlessRequest()
    ensures IsEndlessLine("CONNECT http://u@[::1%1]junk HTTP/1.0")
  {
    hide U.HangsAt, U.OpeningText;
    EndlessOpening();
    EndlessText();
    var target := U.OpeningText(ENDLESS);
    var line := "CONNECT http://u@[::1%1]junk HTTP/1.0";
    assert target + " " + VersionText(Http10) == "http://u@[::1%1]junk HTTP/1.0";
    assert line == "CONNECT" + " " + (target + " " + VersionText(Http10));
    assert IsRequestLine(line, U.OpeningText(ENDLESS), Http10);
  }
}
