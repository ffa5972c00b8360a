/** URL text as its components: how the parser cuts a URL, how components are put together again, and
    which components are the result of some cut. */
module UrlGrammar {
  import opened Bytes
  import opened Splitting
  import opened Numerals

  /** The raw text of the components; delimiters are left out. */
  datatype Parts = Parts(scheme: Option<string>, user: Option<string>, password: Option<string>, site: Site)

  /** What follows the credentials. `bracketed` hosts stand in square brackets. */
  datatype Site = Site(bracketed: bool, host: string, port: Option<string>, path: string)

  function Unparse(p: Parts): string {
    JoinScheme(p.scheme, JoinUser(p.user, p.password, JoinSite(p.site)))
  }

  function JoinScheme(scheme: Option<string>, rest: string): string {
    (if scheme.Some? then scheme.value + "://" else "") + rest
  }

  function JoinUser(user: Option<string>, password: Option<string>, rest: string): string {
    if user.None? then rest
    else if password.None? then user.value + "@" + rest
    else user.value + ":" + password.value + "@" + rest
  }

  function JoinSite(s: Site): string {
    (if s.bracketed then "[" + s.host + "]" else s.host) + JoinPort(s.port, s.path)
  }

  function JoinPort(port: Option<string>, path: string): string {
    if port.Some? then ":" + port.value + path else path
  }

  // ----- cutting, in the order of the parser -----

  /** The scheme ends at the first "://", which must not be at the start. */
  function CutScheme(url: string): Option<(Option<string>, string)> {
    match Find(url, "://", 0)
    case None => Some((None, url))
    case Some(x) => if x == 0 then None else Some((Some(url[..x]), url[x + 3..]))
  }

  /** Everything up to the first '@' is credentials; the first ':' in it starts the password. */
  function CutUser(rest: string): (Option<string>, Option<string>, string) {
    match Find(rest, "@", 0)
    case None => (None, None, rest)
    case Some(y) =>
      var both := rest[..y];
      match Find(both, ":", 0)
      case Some(z) => (Some(both[..z]), Some(both[z + 1..]), rest[y + 1..])
      case None => (Some(both), None, rest[y + 1..])
  }

  /** A bare host ends at the first ':' of all that is left, or failing that at the first '/'. */
  function HostEnd(rest: string): (z: nat)
    ensures z <= |rest|
  {
    var colon := Find(rest, ":", 0);
    var slash := Find(rest, "/", 0);
    if colon.Some? then colon.value else if slash.Some? then slash.value else |rest|
  }

  /** The host text, whether it is bracketed, and what follows; an unclosed bracket is an error. */
  function CutHost(rest: string): Option<(bool, string, string)> {
    if At(rest, 0) == '[' && rest != "" then
      match Find(rest, "]", 1)
      case None => None
      case Some(z) => Some((true, rest[1..z], rest[z + 1..]))
    else
      Some((false, rest[..HostEnd(rest)], rest[HostEnd(rest)..]))
  }

  /** Port text runs from ':' to the first '/', the path from there on. */
  function CutPort(rest: string): (Option<string>, string) {
    if At(rest, 0) == ':' && rest != "" then
      match Find(rest, "/", 0)
      case Some(z) => (Some(rest[1..z]), rest[z..])
      case None => (Some(rest[1..]), "")
    else (None, rest)
  }

  /** After a closing bracket only a port, a path or nothing may follow, judged as the end of a host is. */
  function CutSite(rest: string): Option<Site> {
    match CutHost(rest)
    case None => None
    case Some((bracketed, host, tail)) =>
      if bracketed && HostEnd(tail) != 0 then None
      else var (port, path) := CutPort(tail); Some(Site(bracketed, host, port, path))
  }

  function Cut(url: string): Option<Parts> {
    match CutScheme(url)
    case None => None
    case Some((scheme, rest)) =>
      var (user, password, rest2) := CutUser(rest);
      match CutSite(rest2)
      case None => None
      case Some(site) => Some(Parts(scheme, user, password, site))
  }

  // ----- which components a cut can produce -----

  predicate CanonicalScheme(scheme: Option<string>, rest: string) {
    if scheme.Some? then scheme.value != "" && Find(scheme.value, "://", 0).None? else Find(rest, "://", 0).None?
  }

  predicate CanonicalUser(user: Option<string>, password: Option<string>, rest: string) {
    if user.None? then password.None? && '@' !in rest
    else
      && '@' !in user.value && ':' !in user.value
      && (password.Some? ==> '@' !in password.value)
  }

  predicate CanonicalPath(path: string) {
    path == "" || path[0] == '/'
  }

  /** Without a port there is no ':' anywhere in a bare host or in the path. */
  predicate CanonicalSite(s: Site) {
    && CanonicalPath(s.path)
    && (s.port.Some? ==> '/' !in s.port.value)
    && (s.port.None? ==> ':' !in s.path)
    && if s.bracketed then ']' !in s.host
       else
         && ':' !in s.host && (s.host != "" ==> s.host[0] != '[')
         && (s.port.None? ==> '/' !in s.host)
  }

  predicate Canonical(p: Parts) {
    var rest := JoinUser(p.user, p.password, JoinSite(p.site));
    && CanonicalUser(p.user, p.password, JoinSite(p.site))
    && CanonicalSite(p.site)
    && CanonicalScheme(p.scheme, rest)
  }

  // ----- cutting and joining are inverse -----

  lemma SplitHere(s: string, i: nat)
    requires i < |s|
    ensures s == s[..i] + [s[i]] + s[i + 1..]
  {
  }

  /** A found character, and the text around it. */
  lemma {:induction false} FoundChar(s: string, c: char)
    ensures var r := Find(s, [c], 0);
            if r.None? then c !in s
            else r.value < |s| && s == s[..r.value] + [c] + s[r.value + 1..] && c !in s[..r.value]
  {
    CharAbsent(s, c);
    var r := Find(s, [c], 0);
    if r.Some? {
      CharOccursAt(s, c, r.value);
      SplitHere(s, r.value);
      var a := s[..r.value];
      forall i | 0 <= i < |a| ensures a[i] != c {
        CharOccursAt(s, c, i);
        assert a[i] == s[i] && !OccursAt(s, [c], i);
      }
    }
  }

  lemma MarkOccurs(s: string, j: nat)
    ensures OccursAt(s, "://", j) <==> j + 3 <= |s| && s[j] == ':' && s[j + 1] == '/' && s[j + 2] == '/'
  {
    if j + 3 <= |s| {
      assert s[j..j + 3] == [s[j], s[j + 1], s[j + 2]];
    }
  }

  /** No proper suffix of "://" is also a prefix of it, so an occurrence cannot straddle the end of a scheme. */
  lemma {:induction false} SchemeMark(a: string)
    ensures Find(a + "://", "://", 0) == Some(|a|) <==> Find(a, "://", 0).None?
  {
    var s := a + "://";
    MarkOccurs(s, |a|);
    forall j: nat | j < |a| ensures OccursAt(s, "://", j) <==> OccursAt(a, "://", j) {
      MarkOccurs(s, j);
      MarkOccurs(a, j);
    }
    if Find(a, "://", 0).None? {
      FindIs(s, "://", 0, |a|);
    }
  }

  lemma SchemeExact(url: string, scheme: Option<string>, rest: string)
    ensures CutScheme(url) == Some((scheme, rest)) <==> url == JoinScheme(scheme, rest) && CanonicalScheme(scheme, rest)
  {
    var r := Find(url, "://", 0);
    if r.Some? {
      assert url == url[..r.value] + "://" + url[r.value + 3..];
      FindInPrefix(url[..r.value], "://", url[r.value + 3..]);
      SchemeMark(url[..r.value]);
    }
    if scheme.Some? {
      FindInPrefix(scheme.value, "://", rest);
      SchemeMark(scheme.value);
      var u := scheme.value + "://" + rest;
      assert u[..|scheme.value|] == scheme.value && u[|scheme.value| + 3..] == rest;
    } else {
      assert "" + rest == rest;
    }
  }

  lemma UserExact(text: string, user: Option<string>, password: Option<string>, rest: string)
    ensures CutUser(text) == (user, password, rest) <==>
            text == JoinUser(user, password, rest) && CanonicalUser(user, password, rest)
  {
    FoundChar(text, '@');
    var y := Find(text, "@", 0);
    if y.Some? {
      FoundChar(text[..y.value], ':');
    }
    if text == JoinUser(user, password, rest) && CanonicalUser(user, password, rest) {
      JoinedUserCuts(user, password, rest);
    }
  }

  lemma JoinedUserCuts(user: Option<string>, password: Option<string>, rest: string)
    requires CanonicalUser(user, password, rest)
    ensures CutUser(JoinUser(user, password, rest)) == (user, password, rest)
  {
    if user.None? {
      CharAbsent(rest, '@');
    } else {
      var both := if password.None? then user.value else user.value + ":" + password.value;
      var text := both + "@" + rest;
      assert JoinUser(user, password, rest) == text;
      FirstChar(both, '@', rest);
      assert text[..|both|] == both && text[|both| + 1..] == rest;
      if password.None? {
        CharAbsent(both, ':');
      } else {
        FirstChar(user.value, ':', password.value);
        assert both[..|user.value|] == user.value && both[|user.value| + 1..] == password.value;
      }
    }
  }

  lemma PortExact(text: string, port: Option<string>, path: string)
    requires HostEnd(text) == 0
    ensures CutPort(text) == (port, path) <==>
            && text == JoinPort(port, path)
            && CanonicalPath(path) && (if port.Some? then '/' !in port.value else ':' !in path)
  {
    hide Find, HostEnd, CutPort;
    HostEndIsStart(text);
    CutIsJoined(text);
    if port.Some? && CanonicalPath(path) && '/' !in port.value {
      PortIsCut(port.value, path);
    }
  }

  lemma CutIsJoined(text: string)
    ensures var (port, path) := CutPort(text);
            && text == JoinPort(port, path)
            && (port.Some? <==> text != "" && text[0] == ':')
            && (port.Some? ==> CanonicalPath(path) && '/' !in port.value)
  {
    hide Find;
    FoundChar(text, '/');
    var z := Find(text, "/", 0);
    if text != "" && text[0] == ':' {
      assert text == ":" + text[1..];
      if z.Some? {
        assert text[1..] == text[1..z.value] + text[z.value..];
        assert text == ":" + text[1..z.value] + text[z.value..];
        assert text[z.value] == '/';
      }
    }
  }

  lemma PortIsCut(port: string, path: string)
    requires CanonicalPath(path) && '/' !in port
    ensures CutPort(":" + port + path) == (Some(port), path)
  {
    hide Find;
    var t := ":" + port + path;
    assert t[1..|port| + 1] == port && t[|port| + 1..] == path;
    if path != "" {
      assert t == (":" + port) + ['/'] + path[1..];
      FirstChar(":" + port, '/', path[1..]);
    } else {
      assert t == ":" + port && t[1..] == port;
      CharAbsent(t, '/');
    }
  }

  /** Text at which a host ends at once: it is empty, a port, or a path without a colon. */
  lemma HostEndIsStart(text: string)
    ensures HostEnd(text) == 0 <==> text == "" || text[0] == ':' || (text[0] == '/' && ':' !in text)
  {
    FoundChar(text, ':');
    FoundChar(text, '/');
    if text != "" && text[0] == ':' {
      FirstChar("", ':', text[1..]);
      assert text == "" + [':'] + text[1..];
    } else if text != "" && text[0] == '/' {
      FirstChar("", '/', text[1..]);
      assert text == "" + ['/'] + text[1..];
    }
  }

  lemma BareHostEnds(text: string)
    ensures var e := HostEnd(text); HostEnd(text[e..]) == 0 && ':' !in text[..e] && (At(text, e) == ':' || '/' !in text[..e])
  {
    FoundChar(text, ':');
    FoundChar(text, '/');
    HostEndIsStart(text[HostEnd(text)..]);
  }

  lemma FirstStop(text: string, e: nat)
    requires e <= |text| && ':' !in text[..e]
    requires (e < |text| && text[e] == ':') || (':' !in text && '/' !in text[..e] && (e < |text| ==> text[e] == '/'))
    ensures HostEnd(text) == e
  {
    if e < |text| {
      SplitHere(text, e);
      FirstChar(text[..e], text[e], text[e + 1..]);
    } else {
      assert text[..e] == text;
      CharAbsent(text, '/');
    }
    CharAbsent(text, ':');
  }

  lemma BareHostEndsAt(host: string, port: Option<string>, path: string)
    requires CanonicalSite(Site(false, host, port, path))
    ensures HostEnd(host + JoinPort(port, path)) == |host|
  {
    var tail := JoinPort(port, path);
    var text := host + tail;
    assert text[..|host|] == host;
    assert |host| < |text| ==> text[|host|] == tail[0];
    if port.None? {
      assert ':' !in tail;
    }
    FirstStop(text, |host|);
  }

  lemma BareSiteExact(text: string, s: Site)
    requires !s.bracketed
    ensures CutSite(text) == Some(s) <==> text == JoinSite(s) && CanonicalSite(s)
  {
    hide CutPort, HostEnd;
    var e := HostEnd(text);
    BareHostEnds(text);
    PortExact(text[e..], s.port, s.path);
    if CutSite(text) == Some(s) {
      assert text == text[..e] + text[e..];
    }
    if text == JoinSite(s) && CanonicalSite(s) {
      BareHostEndsAt(s.host, s.port, s.path);
      assert text[..e] == s.host && text[e..] == JoinPort(s.port, s.path);
    }
  }

  lemma {:induction false} BracketCut(text: string)
    requires text != "" && text[0] == '['
    ensures var r := Find(text, "]", 1);
            if r.None? then ']' !in text[1..]
            else 1 <= r.value < |text| && ']' !in text[1..r.value] && text == "[" + text[1..r.value] + "]" + text[r.value + 1..]
  {
    var r := Find(text, "]", 1);
    forall i: nat | 1 <= i < |text| && (r.None? || i < r.value) ensures text[i] != ']' {
      CharOccursAt(text, ']', i);
      assert !OccursAt(text, "]", i);
    }
    if r.Some? {
      CharOccursAt(text, ']', r.value);
      SplitHere(text, r.value);
      assert text[..r.value] == "[" + text[1..r.value];
    }
  }

  lemma BracketedSiteExact(text: string, s: Site)
    requires s.bracketed
    ensures CutSite(text) == Some(s) <==> text == JoinSite(s) && CanonicalSite(s)
  {
    if text != "" && text[0] == '[' {
      BracketCut(text);
      var r := Find(text, "]", 1);
      if r.Some? && HostEnd(text[r.value + 1..]) == 0 {
        PortExact(text[r.value + 1..], s.port, s.path);
      }
    }
    if text == JoinSite(s) && CanonicalSite(s) {
      BracketedSiteCuts(s);
    }
  }

  lemma BracketedSiteCuts(s: Site)
    requires s.bracketed && CanonicalSite(s)
    ensures CutSite(JoinSite(s)) == Some(s)
  {
    hide CutHost, CutPort, HostEnd;
    var tail := JoinPort(s.port, s.path);
    BracketedHostCuts(s.host, tail);
    HostEndIsStart(tail);
    PortExact(tail, s.port, s.path);
  }

  lemma BracketedHostCuts(host: string, tail: string)
    requires ']' !in host
    ensures CutHost("[" + host + "]" + tail) == Some((true, host, tail))
  {
    var text := "[" + host + "]" + tail;
    var z := 1 + |host|;
    CharOccursAt(text, ']', z);
    forall j: nat | 1 <= j < z ensures !OccursAt(text, "]", j) {
      CharOccursAt(text, ']', j);
      assert text[j] == host[j - 1];
    }
    FindIs(text, "]", 1, z);
    assert text[1..z] == host && text[z + 1..] == tail;
  }

  lemma SiteExact(text: string, s: Site)
    ensures CutSite(text) == Some(s) <==> text == JoinSite(s) && CanonicalSite(s)
  {
    if s.bracketed {
      BracketedSiteExact(text, s);
    } else {
      BareSiteExact(text, s);
    }
  }

  /** Cutting is lossless, and cutting and joining are inverse: a URL is cut into `p` exactly when it is
      the text of `p` and no delimiter of `p` could be mistaken. */
  lemma CutExact(url: string, p: Parts)
    ensures Cut(url) == Some(p) <==> url == Unparse(p) && Canonical(p)
  {
    var rest := JoinUser(p.user, p.password, JoinSite(p.site));
    SchemeExact(url, p.scheme, rest);
    UserExact(rest, p.user, p.password, JoinSite(p.site));
    SiteExact(JoinSite(p.site), p.site);
    if Cut(url) == Some(p) {
      var rest1 := CutScheme(url).value.1;
      var rest2 := CutUser(rest1).2;
      SchemeExact(url, p.scheme, rest1);
      UserExact(rest1, p.user, p.password, rest2);
      SiteExact(rest2, p.site);
    }
  }
}
