/** The frames of SOCKS5 as sections 3, 4 and 6 of RFC 1928 and section 2 of RFC 1929 lay them out, and
    one-shot parsers for them, restricted to what the program checks. */
module Rfc1928 {
  import opened Bytes
  import opened IpAddresses
  import opened Proxy

  /** What a parser makes of the beginning of a stream: it wants more, or it is done after `used` bytes. */
  datatype Parse<+T> = More | Bad(error: Error, used: nat) | Done(value: T, used: nat)

  // ----- frames -----

  function Greeting(code: byte): seq<byte> {
    [5, 1, code]
  }

  predicate Encodable(d: Destination) {
    |d.hostname| <= 255
  }

  function AddressField(d: Destination): seq<byte>
    requires Encodable(d)
  {
    if d.UsingHostname() then [3, |d.hostname|] + d.hostname
    else match d.ip
      case V4(quad) => [1] + quad
      case V6(octets) => [4] + octets
  }

  /** VER, CMD, RSV, ATYP, DST.ADDR, DST.PORT. */
  function ConnectFrame(d: Destination): seq<byte>
    requires Encodable(d)
  {
    [5, 1, 0] + AddressField(d) + Net16(d.port)
  }

  predicate CredsFit(c: Credentials) {
    |c.username| <= 255 && |c.password| <= 255
  }

  /** The sub-negotiation; the program sends version 5 where section 2 of RFC 1929 has 1. */
  function CredsFrame(c: Credentials): seq<byte>
    requires CredsFit(c)
  {
    [5, |c.username|] + c.username + [|c.password|] + c.password
  }

  function ReplyFrame(rep: byte): seq<byte> {
    [5, rep, 0, 1, 0, 0, 0, 0, 0, 0]
  }

  // ----- one-shot parsers -----

  /** VER, NMETHODS, METHODS: the methods must include 0. */
  function ParseGreeting(s: seq<byte>): Parse<()> {
    if |s| < 2 then More
    else if s[0] != 5 || s[1] == 0 then Bad(ProtocolViolation, 2)
    else
      var end: nat := 2 + s[1] as int;
      if |s| < end then More
      else if 0 !in s[2..end] then Bad(ProtocolViolation, end)
      else Done((), end)
  }

  /** Length of the address and port behind the four-byte header, if it can be told yet. */
  function AddressLength(s: seq<byte>): Option<nat>
    requires |s| >= 4
  {
    if s[3] == 1 then Some(6)
    else if s[3] == 4 then Some(18)
    else if |s| > 4 then Some(3 + s[4] as int)
    else None
  }

  /** The destination in a complete frame, in network byte order throughout. */
  function FrameDestination(s: seq<byte>): Destination
    requires |s| >= 4 && (s[3] == 1 || s[3] == 3 || s[3] == 4)
    requires AddressLength(s).Some? && |s| >= 4 + AddressLength(s).value
  {
    var end := 4 + AddressLength(s).value;
    var port := FromNet16(s[end - 2], s[end - 1]);
    if s[3] == 1 then Destination([], V4(s[4..8]), port)
    else if s[3] == 4 then Destination([], V6(s[4..20]), port)
    else Destination(s[5..5 + s[4] as int], NO_DESTINATION.ip, port)
  }

  /** A CONNECT request; the reserved byte is not looked at. */
  function ParseConnect(s: seq<byte>): Parse<Destination> {
    if |s| < 4 then More
    else if s[0] != 5 then Bad(ProtocolViolation, 4)
    else if s[1] != 1 then Bad(UnsupportedCommand, 4)
    else if s[3] != 1 && s[3] != 3 && s[3] != 4 then Bad(ProtocolViolation, 4)
    else if AddressLength(s).None? || |s| < 4 + AddressLength(s).value then More
    else Done(FrameDestination(s), 4 + AddressLength(s).value)
  }

  function Offset<T>(p: Parse<T>, k: nat): Parse<T> {
    match p
    case More => More
    case Bad(e, used) => Bad(e, k + used)
    case Done(v, used) => Done(v, k + used)
  }

  /** Everything a client without credentials says before the reply to its request. */
  function ParseRequest(s: seq<byte>): Parse<Destination> {
    match ParseGreeting(s)
    case More => More
    case Bad(e, used) => Bad(e, used)
    case Done(_, used) => if used <= |s| then Offset(ParseConnect(s[used..]), used) else More
  }

  /** A reply to CONNECT: the reply code. The bound address is read and ignored. */
  function ParseReply(s: seq<byte>): Parse<byte> {
    if |s| < 4 then More
    else if s[0] != 5 || s[1] > 8 then Bad(ProtocolViolation, 4)
    else if s[3] != 1 && s[3] != 3 && s[3] != 4 then Bad(ProtocolViolation, 4)
    else if AddressLength(s).None? || |s| < 4 + AddressLength(s).value then More
    else Done(s[1], 4 + AddressLength(s).value)
  }

  /** The answer to the greeting of a client that offers `code`. */
  function ParseMethodReply(s: seq<byte>, code: byte): Parse<()> {
    if |s| < 2 then More
    else if s[0] != 5 then Bad(ProtocolViolation, 2)
    else if s[1] == 0xFF then Bad(BadAuthMethod, 2)
    else if s[1] != code then Bad(ProtocolViolation, 2)
    else Done((), 2)
  }

  /** The answer to the credentials; version 5 is expected where section 2 of RFC 1929 has 1. */
  function ParseCredsReply(s: seq<byte>): Parse<()> {
    if |s| < 2 then More
    else if s[0] != 5 then Bad(ProtocolViolation, 2)
    else if s[1] != 0 then Bad(AuthFailed, 2)
    else Done((), 2)
  }

  // ----- parsers and frames are inverse -----

  /** Where the parts of a frame stand, with anything behind it. */
  lemma FrameLayout(a: seq<byte>, port: seq<byte>, tail: seq<byte>)
    requires |port| == 2
    ensures var s := [5, 1, 0] + a + port + tail;
            && |s| == 5 + |a| + |tail| && s[0] == 5 && s[1] == 1 && s[2] == 0
            && s[3..3 + |a|] == a && s[3 + |a|] == port[0] && s[4 + |a|] == port[1]
  {
    var s := [5, 1, 0] + a + port + tail;
    forall i | 0 <= i < |a| ensures s[3..3 + |a|][i] == a[i] {
      assert s[3..3 + |a|][i] == s[3 + i];
    }
  }

  lemma Later(s: seq<byte>, i: nat, j: nat, k: nat)
    requires i + k <= j <= |s|
    ensures s[i..j][k..] == s[i + k..j] && (i < j ==> s[i..j][0] == s[i]) && (i + 1 < j ==> s[i..j][1] == s[i + 1])
  {
  }

  /** The address and port of a frame, with anything behind it. */
  lemma FrameParts(d: Destination, tail: seq<byte>)
    requires Encodable(d) && !d.UsingHostname()
    ensures var f, s := ConnectFrame(d), ConnectFrame(d) + tail;
            && |f| == 5 + |AddressField(d)| && |f| <= |s| && s[0] == 5 && s[1] == 1
            && s[3] == (if d.ip.V4? then 1 else 4) && |f| == (if d.ip.V4? then 10 else 22)
            && s[4..|f| - 2] == (if d.ip.V4? then d.ip.quad else d.ip.octets)
            && s[|f| - 2] == d.port / 0x100 && s[|f| - 1] == d.port % 0x100
  {
    var a := AddressField(d);
    FrameLayout(a, Net16(d.port), tail);
    var s := ConnectFrame(d) + tail;
    Later(s, 3, 3 + |a|, 1);
    AddressTail(d);
  }

  lemma AddressTail(d: Destination)
    requires Encodable(d) && !d.UsingHostname()
    ensures var a := AddressField(d);
            && |a| == (if d.ip.V4? then 5 else 17) && a[0] == (if d.ip.V4? then 1 else 4)
            && a[1..] == (if d.ip.V4? then d.ip.quad else d.ip.octets)
  {
    match d.ip
    case V4(q) => Halves([1], q);
    case V6(b) => Halves([4], b);
  }

  /** The name and port of a frame, with anything behind it. */
  lemma NameFrameParts(d: Destination, tail: seq<byte>)
    requires Encodable(d) && d.UsingHostname()
    ensures var f, s, n := ConnectFrame(d), ConnectFrame(d) + tail, |d.hostname|;
            && |f| == 7 + n && |f| <= |s| && s[0] == 5 && s[1] == 1 && s[3] == 3 && s[4] == n
            && s[5..5 + n] == d.hostname && s[5 + n] == d.port / 0x100 && s[6 + n] == d.port % 0x100
  {
    var a := AddressField(d);
    FrameLayout(a, Net16(d.port), tail);
    var s := ConnectFrame(d) + tail;
    Later(s, 3, 3 + |a|, 2);
    Halves([3, |d.hostname|], d.hostname);
  }

  /** The frame of a destination is read back as that destination, whatever comes after it. */
  lemma ConnectRoundTrip(d: Destination, tail: seq<byte>)
    requires Encodable(d)
    ensures var p := ParseConnect(ConnectFrame(d) + tail);
            p.Done? && SameTarget(p.value, d) && p.used == |ConnectFrame(d)|
  {
    hide ConnectFrame, AddressField;
    if d.UsingHostname() {
      NameFrameParts(d, tail);
    } else {
      FrameParts(d, tail);
    }
  }

  /** What a request was read from is the frame of the result (the reserved byte aside) exactly if it does not give an
      empty name: that is accepted, and taken for the address of a destination in which nothing has been stored. */
  lemma ConnectSound(s: seq<byte>)
    requires ParseConnect(s).Done?
    ensures var p := ParseConnect(s);
            && p.used <= |s| && Encodable(p.value)
            && (s[..p.used][2 := 0] == ConnectFrame(p.value) <==> !(s[3] == 3 && s[4] == 0))
            && (s[3] == 3 && s[4] == 0 ==> p.value.ip == NO_DESTINATION.ip && !p.value.UsingHostname())
  {
    var p := ParseConnect(s);
    if s[3] == 3 && s[4] == 0 {
      assert ConnectFrame(p.value)[3] == 1;
    } else {
      FrameOfResult(s);
    }
  }

  lemma FrameOfResult(s: seq<byte>)
    requires ParseConnect(s).Done? && !(s[3] == 3 && s[4] == 0)
    ensures var p := ParseConnect(s);
            p.used <= |s| && Encodable(p.value) && s[..p.used][2 := 0] == ConnectFrame(p.value)
  {
    var p := ParseConnect(s);
    var d := p.value;
    var f := ConnectFrame(d);
    assert f == [5, 1, 0] + (AddressField(d) + Net16(d.port));
    assert |f| == p.used;
    forall i | 0 <= i < |f| ensures s[..p.used][2 := 0][i] == f[i] {
      if 3 <= i < |f| - 2 {
        assert f[i] == AddressField(d)[i - 3];
      }
    }
  }

  /** The program's reply is read back as its code, whatever comes after it. */
  lemma ReplyRoundTrip(rep: byte, tail: seq<byte>)
    requires rep <= 8
    ensures ParseReply(ReplyFrame(rep) + tail) == Done(rep, |ReplyFrame(rep)|)
  {
    var s := ReplyFrame(rep) + tail;
    assert s[0] == 5 && s[1] == rep && s[3] == 1;
  }

  /** Once a parser is done, or has given up, later bytes do not matter. */
  lemma ParseRequestStable(s: seq<byte>, t: seq<byte>)
    requires !ParseRequest(s).More?
    ensures ParseRequest(s).used <= |s| && ParseRequest(s + t) == ParseRequest(s)
  {
    var g := ParseGreeting(s);
    var end := 2 + s[1] as int;
    assert |s| >= end ==> (s + t)[2..end] == s[2..end];
    if g.Done? {
      var u := s[g.used..];
      assert (s + t)[g.used..] == u + t;
      ParseConnectStable(u, t);
    }
  }

  lemma ParseConnectStable(s: seq<byte>, t: seq<byte>)
    requires !ParseConnect(s).More?
    ensures ParseConnect(s).used <= |s| && ParseConnect(s + t) == ParseConnect(s)
  {
    var p := ParseConnect(s);
    if p.Done? {
      if s[3] == 1 {
        assert (s + t)[4..8] == s[4..8];
      }
      if s[3] == 4 {
        assert (s + t)[4..20] == s[4..20];
      }
      if s[3] == 3 {
        var end := 5 + s[4] as int;
        assert (s + t)[5..end] == s[5..end];
      }
    }
  }

  lemma ParseReplyStable(s: seq<byte>, t: seq<byte>)
    requires !ParseReply(s).More?
    ensures ParseReply(s).used <= |s| && ParseReply(s + t) == ParseReply(s)
  {
  }

  // ----- distinct values have distinguishable frames -----

  /** Frames of two destinations, neither of which is shorter than the other allows: if one is a prefix
      of the other, they are frames of the same target. */
  lemma ConnectPrefixFree(a: Destination, b: Destination)
    requires Encodable(a) && Encodable(b) && ConnectFrame(a) <= ConnectFrame(b)
    ensures SameTarget(a, b) && ConnectFrame(a) == ConnectFrame(b)
  {
    var f, g := ConnectFrame(a), ConnectFrame(b);
    var tail := g[|f|..];
    assert g == f + tail && g == g + [];
    ConnectRoundTrip(a, tail);
    ConnectRoundTrip(b, []);
    assert tail == [];
  }

  function ParseCreds(s: seq<byte>): Parse<Credentials> {
    if |s| < 2 then More
    else
      var n: nat := s[1];
      if |s| < 3 + n then More
      else
        var m: nat := s[2 + n];
        if |s| < 3 + n + m then More else Done(Credentials(s[2..2 + n], s[3 + n..3 + n + m]), 3 + n + m)
  }

  lemma CredsRoundTrip(c: Credentials, tail: seq<byte>)
    requires CredsFit(c)
    ensures ParseCreds(CredsFrame(c) + tail) == Done(c, |CredsFrame(c)|)
  {
    var n, m := |c.username|, |c.password|;
    var s := CredsFrame(c) + tail;
    assert s[1] == n && s[2 + n] == m;
    assert s[2..2 + n] == c.username;
    assert s[3 + n..3 + n + m] == c.password;
  }

  lemma CredsPrefixFree(a: Credentials, b: Credentials)
    requires CredsFit(a) && CredsFit(b) && CredsFrame(a) <= CredsFrame(b)
    ensures a == b
  {
    var f, g := CredsFrame(a), CredsFrame(b);
    assert g == f + g[|f|..] && g == g + [];
    CredsRoundTrip(a, g[|f|..]);
    CredsRoundTrip(b, []);
  }

  // ----- where the program departs from RFC 1929 -----

  /** VER, ULEN, UNAME, PLEN, PASSWD as section 2 of RFC 1929 has them. */
  function StandardCredsFrame(c: Credentials): seq<byte>
    requires CredsFit(c)
  {
    [1, |c.username|] + c.username + [|c.password|] + c.password
  }

  /** The program's frame is never the standard's, but differs from it in the version only. */
  lemma CredsFrameHasWrongVersion(c: Credentials)
    requires CredsFit(c)
    ensures CredsFrame(c) != StandardCredsFrame(c) && CredsFrame(c) == StandardCredsFrame(c)[0 := 5]
  {
    var f, g := CredsFrame(c), StandardCredsFrame(c);
    assert f[0] == 5 && g[0] == 1;
    assert f[1..] == g[1..] by {
      assert f[1..] == [|c.username|] + c.username + [|c.password|] + c.password;
      assert g[1..] == [|c.username|] + c.username + [|c.password|] + c.password;
    }
    assert f == [5] + f[1..] && g[0 := 5] == [5] + g[1..];
  }

  /** An answer is taken for success exactly if its version is 5 and its status is 0; a standard one, of version 1, is
      always taken for a violation of the protocol. */
  lemma StandardCredsReplyRefused(version: byte, status: byte, t: seq<byte>)
    ensures ParseCredsReply([version, status] + t).Done? <==> version == 5 && status == 0
    ensures version == 1 ==> ParseCredsReply([version, status] + t) == Bad(ProtocolViolation, 2)
  {
    var s := [version, status] + t;
    assert s[0] == version && s[1] == status;
  }
}
