/** What the request line of an HTTPS client names, read as it is written, and when the code takes the client there. */
module HttpsAsked {
  import opened Bytes
  import opened Numerals
  import opened Splitting
  import opened Proxy
  import opened UrlGrammar
  import opened RequestLine
  import U = UrlParsing
  import A = IpAddresses
  import G = Ipv6Grammar
  import V4 = Ipv4Text
  import V6 = Rfc4291
  import H = HttpsServer
  import I = Input
  import System

  // ----- what a line names -----

  /** A host in brackets names the address of which it is a standard text, a bare host the IPv4 address of which it is the
      printed text, and any other bare host is a name. */
  ghost predicate HostNames(s: Site, h: U.Host) {
    if s.bracketed then
      exists x :: V6.IsStandard(x) && s.host == V6.StandardText(x) && h == U.Ip(A.V6(G.WordBytes(V6.StandardWords(x))))
    else if IsPrintedQuad(s.host) then exists q: V4.Quad :: s.host == V4.Print(q) && h == U.Ip(A.V4(q))
    else h == U.Name(s.host)
  }

  ghost predicate IsPrintedQuad(host: string) {
    exists q: V4.Quad :: host == V4.Print(q)
  }

  /** A port is named by its digits. */
  predicate PortNames(text: string, port: uint16) {
    text != "" && AllDigits(text) && Value(0, text, 10) == port
  }

  ghost predicate Names(s: Site, d: Destination) {
    exists h, port :: HostNames(s, h) && s.port.Some? && PortNames(s.port.value, port) && d == DestinationOf(h, port)
  }

  // ----- where that is what the code reads -----

  /** Standard IPv6 text in brackets, with nothing hidden behind a NUL; otherwise a whole printed IPv4 address, or a name
      that does not begin like one. */
  ghost predicate PlainHost(s: Site) {
    if s.bracketed then CStr(s.host) == s.host && !V6.BeyondStandard(Split(s.host, ":"))
    else V4.BeginsLikeQuad(s.host) ==> IsPrintedQuad(s.host)
  }

  predicate PlainPort(text: string) {
    text != "" && AllDigits(text)
  }

  ghost predicate PlainSite(s: Site) {
    PlainHost(s) && s.port.Some? && PlainPort(s.port.value)
  }

  lemma DigitsAreRead(text: string, v: uint16)
    requires U.ReadPort(text) == Some(v) && PlainPort(text)
    ensures PortNames(text, v)
  {
    hide StrToUint, Value, CStr;
    var f := PlainDigits(text);
    StrToUintExact(text, FieldValue(f));
  }

  /** Digits alone are a field. */
  lemma PlainDigits(text: string) returns (f: Field)
    requires PlainPort(text)
    ensures IsField(f) && FieldText(f) == CStr(text) == text && FieldValue(f) == Signed(false, Value(0, text, 10))
  {
    f := Field("", "", text);
    CStrIdentity(text);
    assert "" + "" + text == text;
  }

  lemma BareHostReads(s: Site, h: U.Host)
    requires !s.bracketed && U.ReadHost(false, s.host) == U.HostIs(h)
    ensures HostNames(s, h) <==> PlainHost(s)
    ensures h.Ip? <==> V4.BeginsLikeQuad(s.host)
  {
    hide V4.Parse, V4.Print, V4.BeginsLikeQuad;
    V4.AcceptedExactly(s.host);
    forall q: V4.Quad | s.host == V4.Print(q) ensures h == U.Ip(A.V4(q)) && V4.BeginsLikeQuad(s.host) {
      V4.PlainRoundTrip(q);
    }
  }

  lemma BracketedHostReads(s: Site, h: U.Host)
    requires s.bracketed && U.ReadHost(true, s.host) == U.HostIs(h)
    ensures HostNames(s, h) <==> PlainHost(s)
    ensures forall g :: HostNames(s, g) ==> g == h
  {
    hide V6.IsStandard, V6.StandardText, V6.StandardWords, V6.BeyondStandard, G.Meaning, G.WordBytes, Split;
    forall x | V6.IsStandard(x) && s.host == V6.StandardText(x)
      ensures x.InHex? && h == U.Ip(A.V6(G.WordBytes(V6.StandardWords(x)))) && PlainHost(s)
    {
      V6.StandardIsAccepted(x);
      HexIsPlain(s.host, x);
    }
    if PlainHost(s) {
      var x := V6.AcceptedIsStandard(s.host);
      V6.StandardIsAccepted(x);
      assert HostNames(s, h);
    }
  }

  lemma HexIsPlain(host: string, x: V6.Standard)
    requires V6.IsStandard(x) && x.InHex? && host == V6.StandardText(x)
    ensures CStr(host) == host && !V6.BeyondStandard(Split(host, ":"))
  {
    hide V6.IsHexadecimal, V6.HexadecimalText, V6.BeyondStandard, Split;
    V6.HexadecimalPlain(x.x);
    V6.HexadecimalSplits(x.x);
    V6.HexadecimalIsNotBeyond(x.x);
  }

  /** Hosts that lead to one destination are the same, unless one is the empty name. */
  lemma SameHost(g: U.Host, h: U.Host, p: uint16, q: uint16)
    requires DestinationOf(g, p) == DestinationOf(h, q)
    requires (g.Name? ==> g.name != "") && (h.Name? ==> h.name != "")
    ensures p == q && (g.Ip? <==> h.Ip?) && (g.Ip? ==> g == h)
  {
  }

  lemma NamedHost(s: Site, g: U.Host, h: U.Host)
    requires U.ReadHost(s.bracketed, s.host) == U.HostIs(h) && HostNames(s, g)
    requires (g.Ip? <==> h.Ip?) && (g.Ip? ==> g == h)
    ensures HostNames(s, h)
  {
    hide V4.Parse, V6.IsStandard, V6.StandardText, V6.StandardWords, A.FromText6;
    if !s.bracketed && h.Name? {
      assert g == h;
    }
  }

  /** The destination that is read for a target is the one that the target names exactly if host and port are plain. */
  lemma {:induction false} TargetAsNamed(s: Site, d: Destination)
    requires IsTarget(s, d)
    ensures Names(s, d) <==> PlainSite(s)
  {
    hide HostNames, PlainHost, U.ReadHost, U.ReadPort, PortNames, DestinationOf, Canonical;
    var h := U.ReadHost(s.bracketed, s.host).host;
    var v := U.ReadPort(s.port.value).value;
    if s.bracketed {
      BracketedHostReads(s, h);
    } else {
      BareHostReads(s, h);
    }
    NotEmpty(s, h);
    if g, port :| HostNames(s, g) && PortNames(s.port.value, port) && d == DestinationOf(g, port) {
      NamesNotEmpty(s, g);
      SameHost(g, h, port, v);
      NamedHost(s, g, h);
      PlainNames(s.port.value, port);
    }
    if PlainSite(s) {
      DigitsAreRead(s.port.value, v);
      assert HostNames(s, h) && PortNames(s.port.value, v) && d == DestinationOf(h, v);
    }
  }

  lemma PlainNames(text: string, port: uint16)
    requires PortNames(text, port)
    ensures PlainPort(text)
  {
  }

  lemma NotEmpty(s: Site, h: U.Host)
    requires U.ReadHost(s.bracketed, s.host) == U.HostIs(h)
    ensures h.Name? ==> h.name != "" && !s.bracketed
    ensures !s.bracketed ==> s.host != ""
  {
    hide V4.Parse;
    if s.host == "" {
      V4.ParsedHasDot("");
    }
  }

  lemma NamesNotEmpty(s: Site, g: U.Host)
    requires HostNames(s, g) && (!s.bracketed ==> s.host != "")
    ensures g.Name? ==> g.name != ""
  {
    hide V6.IsStandard, V6.StandardText, V6.StandardWords, V4.Print;
  }

  // ----- in the system -----

  /** An HTTPS client that has been read begins its stream with a request line for some host and port, and it is taken
      where this line says exactly if the host is a plain name or address and the port is plain digits. The components
      of the target are the only canonical ones (`UrlGrammar.CutExact`). */
  lemma TakenWhereNamed(x: System.Setup, evs: seq<System.Event>) returns (l: seq<byte>, s: Site, v: Version)
    requires System.Run(x, evs).Some? && x.kind.Https?
    requires var t := System.Run(x, evs).value.session; t.Connecting? || t.Replying? || t.Relaying?
    ensures var w := System.Run(x, evs).value;
            && H.IsLine(l) && l <= w.net.inRecv && H.Trimmed(l).Some?
            && IsRequestLine(Text(H.Trimmed(l).value), JoinSite(s), v)
            && Canonical(Parts(None, None, None, s))
            && (Names(s, w.session.dst) <==> PlainSite(s))
  {
    hide System.Run, System.Inv, H.ParseHttps, IsTarget, IsRequestLine, H.Trimmed, H.IsLine, Names, PlainSite, Canonical;
    System.RunKeepsInv(x, evs);
    var w := System.Run(x, evs).value;
    System.RequestOfDestination(x, w);
    l, s, v := LineOfRequest(w.net.inRecv, w.session.dst);
    TargetAsNamed(s, w.session.dst);
    TargetIsCanonical(s, w.session.dst);
  }

  lemma LineOfRequest(bs: seq<byte>, d: Destination) returns (l: seq<byte>, s: Site, v: Version)
    requires I.Request(I.Https, bs).Some? && I.Request(I.Https, bs).value.0 == d
    ensures H.IsLine(l) && l <= bs && H.Trimmed(l).Some?
    ensures IsTarget(s, d) && IsRequestLine(Text(H.Trimmed(l).value), JoinSite(s), v)
  {
    hide H.ParseHttps, IsTarget, IsRequestLine, H.Trimmed, H.IsLine, ParseFirstLine, H.BlockOk, H.RequestBytes;
    v := H.ParseHttps(bs).value.version;
    var r := H.ParsedIsRequest(bs, d, v);
    l := r.first;
    FirstIsPrefix(r, bs, H.ParseHttps(bs).used);
    H.LineIsRead(l, []);
    FirstLineExact(Text(H.Trimmed(l).value), d, v);
    s :| IsTarget(s, d) && IsRequestLine(Text(H.Trimmed(l).value), JoinSite(s), v);
  }

  lemma TargetIsCanonical(s: Site, d: Destination)
    requires IsTarget(s, d)
    ensures Canonical(Parts(None, None, None, s))
  {
  }

  lemma FirstIsPrefix(r: H.Request, s: seq<byte>, n: nat)
    requires n <= |s| && s[..n] == H.RequestBytes(r)
    ensures r.first <= s
  {
    assert r.first == H.RequestBytes(r)[..|r.first|];
  }
}
