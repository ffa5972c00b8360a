/** `common::net::ip_address`: a tagged address, its text, and the text dispatcher that tries IPv4 first. */
module IpAddresses {
  import opened Bytes
  import opened Numerals
  import opened Ipv6Grammar
  import Ipv4Text
  import Ipv6Printer
  import Ipv6Scanner

  type Quad = Ipv4Text.Quad
  type Octets16 = b: seq<byte> | |b| == 16 witness Ipv6Grammar.WordBytes([0, 0, 0, 0, 0, 0, 0, 0])

  datatype Address = V4(quad: Quad) | V6(octets: Octets16)

  /** What reading an address from text comes to; `Hangs` is the endless loop of the IPv6 scanner. */
  datatype Reading = Yes(address: Address) | No | Hangs

  function ToText(a: Address): string {
    match a
    case V4(q) => Ipv4Text.Print(q)
    case V6(b) => Ipv6Printer.Print(BytesWords(b))
  }

  function FromText4(s: string): Reading {
    match Ipv4Text.Parse(s)
    case None => No
    case Some(q) => Yes(V4(q))
  }

  /** The scanner takes the empty text for an address; this reader does not. */
  function FromText6(s: string): Reading {
    if s == "" then No
    else match Meaning(s)
      case Rejected => No
      case Spins => Hangs
      case Accepted(ws) => if |ws| == 8 then Yes(V6(WordBytes(ws))) else No
  }

  function FromText(s: string): Reading {
    var r := FromText4(s);
    if r.Yes? then r else FromText6(s)
  }

  lemma MeaningIsEightWords(s: string)
    ensures Meaning(s).Accepted? ==> |Meaning(s).words| == 8
  {
  }

  lemma PrintNotEmpty(ws: Ipv6Printer.Words8)
    ensures Ipv6Printer.Print(ws) != ""
  {
  }

  /** Printed IPv6 text is never empty and never taken by the IPv4 branch. */
  lemma Ipv6TextIsNotIpv4(b: Octets16)
    ensures ToText(V6(b)) != "" && FromText4(ToText(V6(b))) == No
  {
    hide Ipv4Text.Parse, BytesWords, WordBytes;
    var text := ToText(V6(b));
    Ipv6Printer.PrintPlain(BytesWords(b));
    PrintNotEmpty(BytesWords(b));
    hide Ipv6Printer.Print;
    forall i | 0 <= i < |text| ensures text[i] != '.' {
      assert text[i] in text;
    }
    Ipv4Text.ParsedHasDot(text);
  }

  /** Every address survives being printed and read through the dispatcher. */
  lemma RoundTrip(a: Address)
    ensures FromText(ToText(a)) == Yes(a)
    ensures a.V6? ==> FromText6(ToText(a)) == Yes(a)
    ensures a.V4? ==> FromText4(ToText(a)) == Yes(a)
  {
    hide Meaning, Ipv4Text.Parse, Ipv4Text.Print, Ipv6Printer.Print, WordBytes, BytesWords;
    match a
    case V4(q) =>
      Ipv4Text.PlainRoundTrip(q);
    case V6(b) =>
      Ipv6TextIsNotIpv4(b);
      Ipv6Printer.RoundTrip(BytesWords(b));
  }

  /** Distinct addresses have distinct text. */
  lemma {:induction false} TextInjective(a: Address, b: Address)
    requires ToText(a) == ToText(b)
    ensures a == b
  {
    RoundTrip(a);
    RoundTrip(b);
  }

  datatype Kind = Ipv4 | Ipv6

  class IpAddress {
    var kind: Kind
    var memory: seq<byte>  // the union: an IPv4 address is its first four bytes

    ghost predicate Valid()
      reads this
    {
      |memory| == 16
    }

    function Value(): Address
      reads this
      requires Valid()
    {
      if kind == Ipv4 then V4(memory[..4]) else V6(memory)
    }

    constructor ()
      ensures Valid() && Value() == V4([255, 255, 255, 255])
    {
      kind := Ipv4;
      memory := seq(16, _ => 255);
      new;
      assert memory[..4] == [255, 255, 255, 255];
    }

    method SetIpv4(v4: Quad)
      requires Valid()
      modifies this
      ensures Valid() && Value() == V4(v4)
    {
      kind := Ipv4;
      memory := v4 + memory[4..];
    }

    method SetIpv6(v6: Octets16)
      requires Valid()
      modifies this
      ensures Valid() && Value() == V6(v6)
    {
      kind := Ipv6;
      memory := v6;
    }

    /** `to_wstring`: the 128-character buffer is always large enough. */
    method ToString() returns (text: string)
      requires Valid()
      ensures text == ToText(Value())
    {
      var buf := new char[128];
      if kind == Ipv4 {
        QuadTextFits(memory[..4]);
        var ok := Ipv6Printer.Sprintf(buf, 0, Ipv4Text.Print(memory[..4]));
        text := buf[..|Ipv4Text.Print(memory[..4])|];
      } else {
        Ipv6Printer.PrintLength(BytesWords(memory));
        var aborted, n := Ipv6Printer.InetNtop6(memory, buf);
        text := buf[..n];
      }
    }

    method FromStringIpv4(str: string) returns (answer: Answer)
      requires Valid()
      modifies this
      ensures Valid() && !answer.NoReturn?
      ensures answer.True? <==> FromText4(str).Yes?
      ensures if answer.True? then Value() == FromText4(str).address else Value() == old(Value())
    {
      match Ipv4Text.Parse(str)
      case None => return False;
      case Some(q) =>
        SetIpv4(q);
        return True;
    }

    method FromStringIpv6(str: string) returns (answer: Answer)
      requires Valid()
      modifies this
      ensures Valid()
      ensures answer.True? <==> FromText6(str).Yes?
      ensures answer.NoReturn? <==> FromText6(str).Hangs?
      ensures if answer.True? then Value() == FromText6(str).address else Value() == old(Value())
    {
      if str == "" {
        return False;
      }
      var x := new byte[16];
      MeaningIsEightWords(str);
      var verdict := Ipv6Scanner.InetPton6(str, x);
      match verdict
      case MinusOne => return False;
      case NoReturn => return Answer.NoReturn;
      case One =>
        SetIpv6(x[..]);
        return True;
    }

    method FromString(str: string) returns (answer: Answer)
      requires Valid()
      modifies this
      ensures Valid()
      ensures answer.True? <==> FromText(str).Yes?
      ensures answer.NoReturn? <==> FromText(str).Hangs?
      ensures if answer.True? then Value() == FromText(str).address else Value() == old(Value())
    {
      answer := FromStringIpv4(str);
      if answer == True {
        return;
      }
      answer := FromStringIpv6(str);
    }

    /** `operator==`: the bytes behind a shorter address do not count. */
    method Equals(r: IpAddress) returns (same: bool)
      requires Valid() && r.Valid()
      ensures same <==> Value() == r.Value()
    {
      if kind != r.kind {
        return false;
      }
      if kind == Ipv4 {
        return memory[..4] == r.memory[..4];
      }
      return memory == r.memory;
    }
  }

  lemma QuadTextFits(q: Quad)
    ensures |Ipv4Text.Print(q)| <= 15
  {
    forall i | 0 <= i < 4 ensures |Numeral(q[i], 10)| <= 3 {
      var a := q[i] / 10;
      var b := a / 10;
      assert |Numeral(b, 10)| == 1;
      assert |Numeral(a, 10)| <= 2;
    }
    var t := q[1..];
    var u := t[1..];
    assert |Ipv4Text.Dotted(u)| <= 7;
    assert |Ipv4Text.Dotted(t)| <= 11;
  }
}
