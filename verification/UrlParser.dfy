/** `url_parser::parse`: what a URL reads as, its round trip with printing, and the cursor-based parser. */
module UrlParsing {
  import opened Bytes
  import opened Splitting
  import opened Numerals
  import opened IpAddresses
  import opened UrlGrammar
  import Ipv4Text
  import Ipv6Printer
  import Ipv6Grammar

  datatype Host = Ip(address: Address) | Name(name: string)

  datatype Url = Url(scheme: Option<string>, username: Option<string>, password: Option<string>,
                     host: Host, port: Option<uint16>, path: string)

  /** `Hangs`: the host text starts the endless loop of the IPv6 scanner. */
  datatype Outcome = Parsed(url: Url) | Failed | Hangs

  datatype HostReading = HostIs(host: Host) | NoHost | HostHangs

  /** A bracketed host must be an IPv6 address; any other is an IPv4 address if it starts like one,
      and a non-empty name otherwise. */
  function ReadHost(bracketed: bool, raw: string): HostReading {
    if bracketed then
      match FromText6(raw)
      case Yes(a) => HostIs(Ip(a))
      case No => NoHost
      case Hangs => HostHangs
    else
      match FromText4(raw)
      case Yes(a) => HostIs(Ip(a))
      case _ => if raw == "" then NoHost else HostIs(Name(raw))
  }

  function ReadPort(text: string): Option<uint16> {
    match StrToUint(text)
    case None => None
    case Some(v) => if v > 0xFFFF then None else Some(v)
  }

  /** The host at the start of what follows the credentials, and the text behind it. The host is read
      before the text behind it is judged. */
  datatype HostStep = HostAt(host: Host, tail: string) | HostFails | HostLoops

  function StepHost(rest: string): HostStep {
    match CutHost(rest)
    case None => HostFails
    case Some((bracketed, raw, tail)) =>
      match ReadHost(bracketed, raw)
      case NoHost => HostFails
      case HostHangs => HostLoops
      case HostIs(h) => if bracketed && HostEnd(tail) != 0 then HostFails else HostAt(h, tail)
  }

  /** The port, if there is one, and the path behind it. */
  datatype PortStep = PortAt(port: Option<uint16>, path: string) | PortFails

  function ReadOptionalPort(text: Option<string>, path: string): PortStep {
    if text.None? then PortAt(None, path)
    else match ReadPort(text.value)
      case None => PortFails
      case Some(v) => PortAt(Some(v), path)
  }

  function StepPort(tail: string): PortStep {
    var (text, path) := CutPort(tail);
    ReadOptionalPort(text, path)
  }

  /** The values of components; none if the host or the port text is no good. */
  function ReadParts(p: Parts): Option<Url> {
    match ReadHost(p.site.bracketed, p.site.host)
    case HostIs(h) =>
      (match ReadOptionalPort(p.site.port, p.site.path)
       case PortAt(port, path) => Some(Url(p.scheme, p.user, p.password, h, port, path))
       case PortFails => None)
    case _ => None
  }

  /** The whole parser. */
  function ParseUrl(url: string): Outcome {
    match CutScheme(url)
    case None => Failed
    case Some((scheme, rest)) =>
      var (user, password, rest2) := CutUser(rest);
      match StepHost(rest2)
      case HostFails => Failed
      case HostLoops => Outcome.Hangs
      case HostAt(host, tail) =>
        match StepPort(tail)
        case PortFails => Failed
        case PortAt(port, path) => Parsed(Url(scheme, user, password, host, port, path))
  }

  lemma ParseIsReadCut(url: string, u: Url)
    ensures ParseUrl(url) == Parsed(u) <==> Cut(url).Some? && ReadParts(Cut(url).value) == Some(u)
  {
  }

  /** Accepted URLs are exactly the texts of unmistakable components with readable host and port;
      in particular nothing of the URL is lost. */
  lemma {:induction false} ParseExact(url: string, u: Url)
    ensures ParseUrl(url) == Parsed(u) <==> exists p :: Canonical(p) && url == Unparse(p) && ReadParts(p) == Some(u)
  {
    ParseIsReadCut(url, u);
    if ParseUrl(url) == Parsed(u) {
      CutExact(url, Cut(url).value);
    }
    if p :| Canonical(p) && url == Unparse(p) && ReadParts(p) == Some(u) {
      CutExact(url, p);
    }
  }

  // ----- URLs that hang -----

  /** A URL up to the bracket that closes its host, and whatever follows. */
  datatype Opening = Opening(scheme: Option<string>, user: Option<string>, password: Option<string>,
                             host: string, tail: string)

  function InBrackets(host: string, tail: string): string {
    "[" + host + "]" + tail
  }

  function OpeningText(o: Opening): string {
    JoinScheme(o.scheme, JoinUser(o.user, o.password, InBrackets(o.host, o.tail)))
  }

  /** No delimiter could be mistaken, and the host is an address with a scope that the scanner never gets past. Nothing
      is asked of the text behind the host. */
  predicate HangsAt(o: Opening) {
    var site := InBrackets(o.host, o.tail);
    && CanonicalScheme(o.scheme, JoinUser(o.user, o.password, site)) && CanonicalUser(o.user, o.password, site)
    && ']' !in o.host && Ipv6Grammar.Meaning(o.host).Spins?
  }

  /** The empty text is an address for the scanner, and so not one with a scope. */
  lemma EmptyDoesNotSpin()
    ensures !Ipv6Grammar.Meaning("").Spins?
  {
    assert CStr("") == "";
    CharAbsent("", '%');
  }

  lemma HostLoopsExactly(rest: string, host: string, tail: string)
    ensures CutHost(rest) == Some((true, host, tail)) <==> rest == InBrackets(host, tail) && ']' !in host
  {
    if rest != "" && rest[0] == '[' {
      BracketCut(rest);
    }
    if rest == InBrackets(host, tail) && ']' !in host {
      BracketedHostCuts(host, tail);
    }
  }

  lemma LoopingHost(rest: string)
    ensures StepHost(rest).HostLoops? <==>
            CutHost(rest).Some? && CutHost(rest).value.0 && Ipv6Grammar.Meaning(CutHost(rest).value.1).Spins?
  {
    hide Ipv6Grammar.Meaning, HostEnd;
    EmptyDoesNotSpin();
  }

  /** A URL hangs exactly if it has, behind scheme and credentials, a bracketed host that sends the scanner into its
      endless loop, whatever comes behind the bracket: the host is read before the rest is judged. */
  lemma {:induction false} HangsExactly(url: string)
    ensures ParseUrl(url) == Outcome.Hangs <==> exists o :: HangsAt(o) && url == OpeningText(o)
  {
    hide CutScheme, CutUser, StepHost, StepPort, CutHost, CanonicalScheme, CanonicalUser, JoinScheme, JoinUser;
    hide Ipv6Grammar.Meaning, InBrackets;
    if ParseUrl(url) == Outcome.Hangs {
      var (scheme, rest) := CutScheme(url).value;
      var (user, password, site) := CutUser(rest);
      LoopingHost(site);
      var (_, host, tail) := CutHost(site).value;
      SchemeExact(url, scheme, rest);
      UserExact(rest, user, password, site);
      HostLoopsExactly(site, host, tail);
      var o := Opening(scheme, user, password, host, tail);
      assert HangsAt(o) && url == OpeningText(o);
    }
    if o :| HangsAt(o) && url == OpeningText(o) {
      var site := InBrackets(o.host, o.tail);
      var rest := JoinUser(o.user, o.password, site);
      SchemeExact(url, o.scheme, rest);
      UserExact(rest, o.user, o.password, site);
      HostLoopsExactly(site, o.host, o.tail);
      LoopingHost(site);
    }
  }

  // ----- printing and parsing -----

  function ToParts(u: Url): Parts {
    Parts(u.scheme, u.username, u.password,
          Site(u.host.Ip? && u.host.address.V6?,
               if u.host.Ip? then ToText(u.host.address) else u.host.name,
               if u.port.Some? then Some(Numeral(u.port.value, 10)) else None,
               u.path))
  }

  function UrlText(u: Url): string {
    Unparse(ToParts(u))
  }

  /** A name that is not empty and does not begin like an IPv4 address. */
  ghost predicate HostStandsForItself(h: Host) {
    h.Name? ==> h.name != "" && !Ipv4Text.BeginsLikeQuad(h.name)
  }

  /** A bare host is an address exactly if it begins like one, four fields joined by dots, and a name otherwise. */
  lemma BareHostExact(raw: string, h: Host)
    ensures ReadHost(false, raw) == HostIs(h) <==>
            match h
            case Ip(V4(q)) => exists x :: Ipv4Text.IsQuadText(CStr(raw), x, q)
            case Ip(V6(_)) => false
            case Name(n) => n == raw && raw != "" && !Ipv4Text.BeginsLikeQuad(raw)
  {
    hide Ipv4Text.Parse, Ipv4Text.IsQuadText, Ipv4Text.BeginsLikeQuad;
    Ipv4Text.AcceptedExactly(raw);
    if h.Ip? && h.address.V4? {
      Ipv4Text.ParseExact(raw, h.address.quad);
    }
  }

  /** A name that is a printed quad with more behind it, but no digit at once, is taken for that quad:
      "1.2.3.4.example.com" for 1.2.3.4. */
  lemma QuadWithTail(q: Ipv4Text.Quad, tail: string)
    requires !IsDigit(At(tail, 0))
    ensures ReadHost(false, Ipv4Text.Print(q) + tail) == HostIs(Ip(V4(q)))
  {
    hide Ipv4Text.Parse, Ipv4Text.Print;
    Ipv4Text.RoundTrip(q, tail);
    assert At(CStr(tail), 0) == At(tail, 0);
    assert DigitsEnd(CStr(tail), 0) == 0;
  }

  lemma HostReadsBack(h: Host)
    ensures var p := ToParts(Url(None, None, None, h, None, "")).site;
            ReadHost(p.bracketed, p.host) == HostIs(h) <==> HostStandsForItself(h)
  {
    hide Ipv4Text.Parse, Ipv4Text.BeginsLikeQuad, ToText, FromText6;
    if h.Ip? {
      RoundTrip(h.address);
    } else {
      Ipv4Text.AcceptedExactly(h.name);
    }
  }

  lemma PortReadsBack(v: uint16)
    ensures ReadPort(Numeral(v, 10)) == Some(v)
  {
    StrToUintReadsNumeral(v);
  }

  lemma PrintedReadsBack(u: Url)
    ensures ReadParts(ToParts(u)) == Some(u) <==> HostStandsForItself(u.host)
  {
    HostReadsBack(u.host);
    if u.port.Some? {
      PortReadsBack(u.port.value);
    }
  }

  /** Parts that read as `u` and have the text of `u` are the printed parts of `u`. */
  lemma PartsAreThePrintedOnes(p: Parts, u: Url)
    requires Canonical(p) && ReadParts(p) == Some(u) && Unparse(p) == UrlText(u)
    ensures p == ToParts(u)
  {
    var q := ToParts(u);
    assert JoinSite(p.site) == JoinSite(q.site) by {
      SameScheme(p.scheme, JoinUser(p.user, p.password, JoinSite(p.site)), JoinUser(q.user, q.password, JoinSite(q.site)));
      SameUser(p.user, p.password, JoinSite(p.site), JoinSite(q.site));
    }
    SameSite(p.site, q.site, u);
  }

  lemma SameScheme(scheme: Option<string>, a: string, b: string)
    requires JoinScheme(scheme, a) == JoinScheme(scheme, b)
    ensures a == b
  {
    var s := if scheme.Some? then scheme.value + "://" else "";
    assert (s + a)[|s|..] == a && (s + b)[|s|..] == b;
  }

  lemma SameUser(user: Option<string>, password: Option<string>, a: string, b: string)
    requires JoinUser(user, password, a) == JoinUser(user, password, b)
    ensures a == b
  {
    if user.Some? {
      var s := if password.Some? then user.value + ":" + password.value + "@" else user.value + "@";
      assert JoinUser(user, password, a)[|s|..] == a && JoinUser(user, password, b)[|s|..] == b;
    }
  }

  /** The first delimiter behind two texts without it is in one place. */
  lemma SameHead(a: string, c: char, x: string, b: string, y: string)
    requires a + [c] + x == b + [c] + y && c !in a && c !in b
    ensures a == b && x == y
  {
    FirstChar(a, c, x);
    FirstChar(b, c, y);
    var s := a + [c] + x;
    assert s[..|a|] == a && s[..|b|] == b && s[|a| + 1..] == x && s[|b| + 1..] == y;
  }

  lemma SameBracketed(p: Site, q: Site)
    requires p.bracketed && q.bracketed && JoinSite(p) == JoinSite(q) && ']' !in p.host && ']' !in q.host
    ensures p.host == q.host && JoinPort(p.port, p.path) == JoinPort(q.port, q.path)
  {
    var a, b := "[" + p.host, "[" + q.host;
    var x, y := JoinPort(p.port, p.path), JoinPort(q.port, q.path);
    assert JoinSite(p) == a + [']'] + x && JoinSite(q) == b + [']'] + y;
    SameHead(a, ']', x, b, y);
    assert a[1..] == p.host && b[1..] == q.host;
  }

  lemma BareText(p: Site)
    requires !p.bracketed && p.port.Some?
    ensures JoinSite(p) == p.host + [':'] + (p.port.value + p.path)
    ensures JoinPort(p.port, p.path) == ":" + (p.port.value + p.path)
  {
    Assoc(":", p.port.value, p.path);
    Assoc(p.host, ":", p.port.value + p.path);
  }

  lemma SameBare(p: Site, q: Site)
    requires !p.bracketed && !q.bracketed && JoinSite(p) == JoinSite(q) && ':' !in p.host && ':' !in q.host
    requires (p.port.Some? <==> q.port.Some?) && p.path == q.path
    ensures p.host == q.host && JoinPort(p.port, p.path) == JoinPort(q.port, q.path)
  {
    if p.port.Some? {
      var x, y := p.port.value + p.path, q.port.value + q.path;
      BareText(p);
      BareText(q);
      SameHead(p.host, ':', x, q.host, y);
    } else {
      Halves(p.host, p.path);
      Halves(q.host, q.path);
      assert |p.host| == |q.host|;
    }
  }

  lemma PrintedHostPlain(h: Host)
    requires h.Ip?
    ensures h.address.V6? ==> ']' !in ToText(h.address)
    ensures h.address.V4? ==> ':' !in ToText(h.address)
  {
    if h.address.V6? {
      Ipv6Printer.PrintPlain(Ipv6Grammar.BytesWords(h.address.octets));
    } else {
      Ipv4Text.DottedPlain(h.address.quad);
    }
  }

  lemma SameSite(p: Site, q: Site, u: Url)
    requires CanonicalSite(p) && q == ToParts(u).site && JoinSite(p) == JoinSite(q)
    requires ReadHost(p.bracketed, p.host) == HostIs(u.host) && p.path == u.path
    requires p.port.Some? <==> u.port.Some?
    ensures p == q
  {
    if u.host.Ip? {
      PrintedHostPlain(u.host);
    }
    if q.bracketed {
      SameBracketed(p, q);
    } else {
      SameBare(p, q);
    }
    SamePort(p.port, q.port, p.path);
  }

  lemma SamePort(p: Option<string>, q: Option<string>, path: string)
    requires (p.Some? <==> q.Some?) && JoinPort(p, path) == JoinPort(q, path)
    ensures p == q
  {
    if p.Some? {
      var s := JoinPort(p, path);
      assert s[1..|s| - |path|] == p.value && s[1..|s| - |path|] == q.value;
    }
  }

  /** Printing a URL and parsing the text gives the URL back exactly when no delimiter in it could be
      mistaken and its host name, if it has one, is not empty and does not begin like an IPv4 address. */
  lemma UrlRoundTrip(u: Url)
    ensures ParseUrl(UrlText(u)) == Parsed(u) <==> Canonical(ToParts(u)) && HostStandsForItself(u.host)
  {
    PrintedReadsBack(u);
    ParseExact(UrlText(u), u);
    if ParseUrl(UrlText(u)) == Parsed(u) {
      var p :| Canonical(p) && UrlText(u) == Unparse(p) && ReadParts(p) == Some(u);
      PartsAreThePrintedOnes(p, u);
    }
  }

  // ----- the parser itself -----

  lemma OccursInRest(s: string, d: string, x: nat, j: nat)
    requires x <= |s|
    ensures OccursAt(s[x..], d, j) <==> OccursAt(s, d, x + j)
  {
    if x + j + |d| <= |s| {
      assert s[x..][j..j + |d|] == s[x + j..x + j + |d|];
    }
  }

  /** Searching from a cursor is searching in the rest of the text. */
  lemma FindRest(s: string, d: string, x: nat, k: nat)
    requires x + k <= |s|
    ensures Find(s, d, x + k) == match Find(s[x..], d, k) case None => None case Some(i) => Some(x + i)
  {
    hide OccursAt;
    var r := Find(s[x..], d, k);
    forall j: nat | x + k <= j && (r.None? || j < x + r.value) ensures !OccursAt(s, d, j) {
      OccursInRest(s, d, x, j - x);
      assert !OccursAt(s[x..], d, j - x);
    }
    if r.Some? {
      OccursInRest(s, d, x, r.value);
      FindIs(s, d, x + k, x + r.value);
    }
  }

  /** Behind the host and the port stands a path or nothing. */
  lemma CursorAtPath(rest: string, tail: string, path: string)
    requires StepHost(rest).HostAt? && StepHost(rest).tail == tail
    requires StepPort(tail).PortAt? && StepPort(tail).path == path
    ensures CanonicalPath(path)
  {
    BareHostEnds(rest);
    var (text, p) := CutPort(tail);
    PortExact(tail, text, p);
  }

  class UrlParser {
    var scheme: Option<string>
    var username: Option<string>
    var password: Option<string>
    var host: Host
    var port: Option<uint16>
    var path: string

    function Value(): Url
      reads this
    {
      Url(scheme, username, password, host, port, path)
    }

    constructor ()
    {
      scheme, username, password, port, path := None, None, None, None, "";
      host := Name("");
    }

    /** The end of a bare host, or the place where what follows a bracket must start. */
    method FindHostEnd(url: string, x: nat) returns (z: nat)
      requires x <= |url|
      ensures x <= z <= |url| && z == x + HostEnd(url[x..])
    {
      FindRest(url, ":", x, 0);
      FindRest(url, "/", x, 0);
      var r := Find(url, ":", x);
      if r.None? {
        r := Find(url, "/", x);
      }
      z := if r.None? then |url| else r.value;
    }

    /** An IPv6 host in brackets at the cursor, and the cursor after it. */
    method ParseBracketed(url: string, x: nat) returns (answer: Answer, h: Host, y: nat)
      requires x < |url| && url[x] == '['
      ensures y <= |url|
      ensures match StepHost(url[x..])
              case HostFails => answer == False
              case HostLoops => answer == NoReturn
              case HostAt(host, tail) => answer == True && h == host && url[y..] == tail
    {
      answer, h, y := False, Name(""), x;
      FindRest(url, "]", x, 1);
      var z := Find(url, "]", x + 1);
      if z.None? {
        return;
      }
      var raw := url[x + 1..z.value];
      y := z.value + 1;
      assert CutHost(url[x..]) == Some((true, raw, url[y..])) by {
        assert url[x..][1..z.value - x] == raw && url[x..][z.value - x + 1..] == url[y..];
      }
      var ip := new IpAddress();
      answer := ip.FromStringIpv6(raw);
      if answer == True {
        h := Ip(ip.Value());
        var rest := FindHostEnd(url, y);
        answer := if y != rest then False else True;
      }
    }

    /** An IPv4 address or a name at the cursor, and the cursor after it. */
    method ParseBare(url: string, x: nat) returns (ok: bool, h: Host, y: nat)
      requires x <= |url| && At(url, x) != '['
      ensures y <= |url|
      ensures ok <==> StepHost(url[x..]).HostAt?
      ensures !StepHost(url[x..]).HostLoops?
      ensures ok ==> StepHost(url[x..]) == HostAt(h, url[y..])
    {
      y := FindHostEnd(url, x);
      var raw := url[x..y];
      assert CutHost(url[x..]) == Some((false, raw, url[y..])) by {
        assert url[x..][..y - x] == raw && url[x..][y - x..] == url[y..] && At(url[x..], 0) == At(url, x);
      }
      var ip := new IpAddress();
      var a := ip.FromStringIpv4(raw);
      ok := a == True || raw != "";
      h := if a == True then Ip(ip.Value()) else Name(raw);
    }

    /** The optional port at the cursor, and the cursor after it. */
    method ParsePort(url: string, x: nat) returns (ok: bool, p: Option<uint16>, y: nat)
      requires x <= |url|
      ensures x <= y <= |url|
      ensures ok <==> StepPort(url[x..]).PortAt?
      ensures ok ==> StepPort(url[x..]) == PortAt(p, url[y..])
    {
      ok, p, y := true, None, x;
      if At(url, x) != ':' {
        assert At(url[x..], 0) == At(url, x);
        return;
      }
      FindRest(url, "/", x, 0);
      var z := Find(url, "/", x);
      if z.Some? {
        CharOccursAt(url, '/', z.value);
      }
      y := if z.Some? then z.value else |url|;
      var portRaw := url[x + 1..y];
      assert CutPort(url[x..]) == (Some(portRaw), url[y..]) by {
        var rest := url[x..];
        assert At(rest, 0) == ':' && rest[1..y - x] == portRaw && rest[y - x..] == url[y..];
        assert z.None? ==> rest[1..] == portRaw && url[y..] == "";
      }
      var port32 := StrToUint(portRaw);
      if port32.None? || port32.value > 0xFFFF {
        ok := false;
      } else {
        p := Some(port32.value);
      }
    }

    method ParseScheme(url: string) returns (ok: bool, s: Option<string>, x: nat)
      ensures x <= |url|
      ensures ok <==> CutScheme(url).Some?
      ensures ok ==> CutScheme(url) == Some((s, url[x..]))
    {
      ok, s, x := true, None, 0;
      var r := Find(url, "://", 0);
      if r.Some? {
        if r.value == 0 {
          ok := false;
        } else {
          s, x := Some(url[..r.value]), r.value + 3;
        }
      }
    }

    method ParseUser(url: string, x: nat) returns (user: Option<string>, pass: Option<string>, y: nat)
      requires x <= |url|
      ensures y <= |url| && CutUser(url[x..]) == (user, pass, url[y..])
    {
      user, pass, y := None, None, x;
      FindRest(url, "@", x, 0);
      var at := Find(url, "@", x);
      if at.Some? {
        var both := url[x..at.value];
        y := at.value + 1;
        assert url[x..][..at.value - x] == both && url[x..][at.value - x + 1..] == url[y..];
        var z := Find(both, ":", 0);
        if z.Some? {
          user, pass := Some(both[..z.value]), Some(both[z.value + 1..]);
        } else {
          user := Some(both);
        }
      }
    }

    /** `parse`: the members change only when the whole URL is accepted. */
    method Parse(url: string) returns (answer: Answer)
      modifies this
      ensures match ParseUrl(url)
              case Parsed(u) => answer == True && Value() == u
              case Failed => answer == False && Value() == old(Value())
              case Hangs => answer == NoReturn && Value() == old(Value())
    {
      hide StepHost, StepPort, CutScheme, CutUser, HostEnd;
      var ok, newScheme, x := ParseScheme(url);
      if !ok {
        return False;
      }
      var user, pass;
      user, pass, x := ParseUser(url, x);
      var h, y;
      if At(url, x) == '[' {
        answer, h, y := ParseBracketed(url, x);
        if answer != True {
          return;
        }
      } else {
        ok, h, y := ParseBare(url, x);
        if !ok {
          return False;
        }
      }
      var p, z;
      ok, p, z := ParsePort(url, y);
      if !ok {
        return False;
      }
      CursorAtPath(url[x..], url[y..], url[z..]);
      assert At(url[z..], 0) == At(url, z);
      var newPath := if At(url, z) == '/' then url[z..] else "";
      scheme, username, password, host, port, path := newScheme, user, pass, h, p, newPath;
      return True;
    }
  }
}
