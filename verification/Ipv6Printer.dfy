/** The IPv6 branch of `inet_ntop`, and the round trip with the scanner. */
module Ipv6Printer {
  import opened Bytes
  import opened Numerals
  import opened Splitting
  import opened Ipv6Grammar
  import Ipv6Scanner

  type Words8 = ws: seq<uint16> | |ws| == 8 witness [0, 0, 0, 0, 0, 0, 0, 0]

  /** The end of the run of zero words at `b`. */
  function ZeroEnd(ws: Words8, b: nat): (e: nat)
    requires b <= 8
    ensures b <= e <= 8 && (forall i :: b <= i < e ==> ws[i] == 0) && (e < 8 ==> ws[e] != 0)
    decreases 8 - b
  {
    if b < 8 && ws[b] == 0 then ZeroEnd(ws, b + 1) else b
  }

  /** The text printed for the words from `b` on; `z` tells whether a zero run has been compressed already. */
  function PrintFrom(ws: Words8, b: nat, z: bool): string
    requires b <= 8
    decreases 8 - b
  {
    if b == 8 then ""
    else if ws[b] == 0 && !z then
      var e := ZeroEnd(ws, b);
      ":" + (if e < 8 then "" else ":") + PrintFrom(ws, e, true)
    else (if b > 0 then ":" else "") + Numeral(ws[b], 16) + PrintFrom(ws, b + 1, z)
  }

  function Print(ws: Words8): string {
    PrintFrom(ws, 0, false)
  }

  lemma {:induction false} PrintFromLength(ws: Words8, b: nat, z: bool)
    requires b <= 8
    ensures |PrintFrom(ws, b, z)| <= if b == 0 then 39 else 5 * (8 - b)
    decreases 8 - b
  {
    if b < 8 {
      if ws[b] == 0 && !z {
        PrintFromLength(ws, ZeroEnd(ws, b), true);
      } else {
        HexNumeralLength(ws[b]);
        PrintFromLength(ws, b + 1, z);
      }
    }
  }

  /** At most 39 characters, whatever the address. */
  lemma PrintLength(ws: Words8)
    ensures |Print(ws)| <= 39
  {
    PrintFromLength(ws, 0, false);
  }

  lemma {:induction false} PrintFromPlain(ws: Words8, b: nat, z: bool)
    requires b <= 8
    ensures forall c :: c in PrintFrom(ws, b, z) ==> IsHex(c) || c == ':'
    decreases 8 - b
  {
    if b < 8 {
      if ws[b] == 0 && !z {
        PrintFromPlain(ws, ZeroEnd(ws, b), true);
      } else {
        PrintFromPlain(ws, b + 1, z);
      }
    }
  }

  /** Printed addresses consist of hexadecimal digits and colons. */
  lemma PrintPlain(ws: Words8)
    ensures forall c :: c in Print(ws) ==> IsHex(c) || c == ':'
  {
    PrintFromPlain(ws, 0, false);
  }

  function Hexes(ws: seq<uint16>): (fs: seq<string>)
    ensures |fs| == |ws| && forall i :: 0 <= i < |ws| ==> fs[i] == Numeral(ws[i], 16)
  {
    seq(|ws|, i requires 0 <= i < |ws| => Numeral(ws[i], 16))
  }

  lemma {:induction false} JoinAppend(a: seq<string>, b: seq<string>, d: string)
    requires a != [] && b != []
    ensures Join(a + b, d) == Join(a, d) + d + Join(b, d)
    decreases |a|
  {
    assert (a + b)[1..] == a[1..] + b;
    if |a| > 1 {
      JoinAppend(a[1..], b, d);
    } else {
      assert a[1..] + b == b;
    }
  }

  lemma {:induction false} PrintRest(ws: Words8, b: nat)
    requires 0 < b < 8
    ensures PrintFrom(ws, b, true) == ":" + Join(Hexes(ws[b..]), ":")
    decreases 8 - b
  {
    hide Numeral;
    var num := Numeral(ws[b], 16);
    if b < 7 {
      PrintRest(ws, b + 1);
      assert Hexes(ws[b..]) == [num] + Hexes(ws[b + 1..]);
      JoinCons(num, Hexes(ws[b + 1..]));
      Assoc(":", num, ":" + Join(Hexes(ws[b + 1..]), ":"));
      Assoc(num, ":", Join(Hexes(ws[b + 1..]), ":"));
    } else {
      assert PrintFrom(ws, 8, true) == "";
      assert Hexes(ws[b..]) == [num];
    }
  }

  lemma JoinCons(f: string, fs: seq<string>)
    requires fs != []
    ensures Join([f] + fs, ":") == f + ":" + Join(fs, ":")
  {
    assert ([f] + fs)[1..] == fs;
  }

  /** The first zero word, or 8. */
  function FirstZero(ws: Words8, b: nat): (i: nat)
    requires b <= 8
    ensures b <= i <= 8 && (forall k :: b <= k < i ==> ws[k] != 0) && (i < 8 ==> ws[i] == 0)
    decreases 8 - b
  {
    if b < 8 && ws[b] != 0 then FirstZero(ws, b + 1) else b
  }

  lemma Regroup(a: string, b: string, c: string, d: string)
    ensures a + b + (":" + c + d) == a + (b + ":" + c) + d
  {
  }

  lemma Regroup2(a: string, c: string)
    ensures a + ":" + "" + ":" + c == a + (":" + ":" + c)
  {
  }

  /** Up to the first zero word, plain groups are printed. */
  lemma {:induction false} PrintFront(ws: Words8, b: nat)
    requires b < 8 && ws[b] != 0
    ensures var i := FirstZero(ws, b);
            PrintFrom(ws, b, false) == (if b > 0 then ":" else "") + Join(Hexes(ws[b..i]), ":") + PrintFrom(ws, i, false)
    decreases 8 - b
  {
    var i := FirstZero(ws, b);
    var sep := if b > 0 then ":" else "";
    var num := Numeral(ws[b], 16);
    hide Numeral;
    if b + 1 < i {
      PrintFront(ws, b + 1);
      assert Hexes(ws[b..i]) == [num] + Hexes(ws[b + 1..i]);
      JoinCons(num, Hexes(ws[b + 1..i]));
      Regroup(sep, num, Join(Hexes(ws[b + 1..i]), ":"), PrintFrom(ws, i, false));
    } else {
      assert Hexes(ws[b..i]) == [num];
    }
  }

  /** The fields of the printed text: those before the gap, the gap, those after it. */
  function PrintedFields(ws: Words8): (fs: seq<string>) {
    var i := FirstZero(ws, 0);
    if i == 8 then Hexes(ws)
    else
      var j := ZeroEnd(ws, i);
      (if i == 0 then [""] else Hexes(ws[..i])) + [""] + (if j == 8 then [""] else Hexes(ws[j..]))
  }

  /** From a zero word on: the gap and what follows it. */
  lemma PrintGap(ws: Words8, i: nat)
    requires i < 8 && ws[i] == 0
    ensures var j := ZeroEnd(ws, i);
            PrintFrom(ws, i, false) == ":" + ":" + Join(if j == 8 then [""] else Hexes(ws[j..]), ":")
  {
    var j := ZeroEnd(ws, i);
    if j < 8 {
      PrintRest(ws, j);
    } else {
      assert PrintFrom(ws, 8, true) == "";
    }
  }

  lemma JoinGap(front: seq<string>, back: seq<string>)
    requires front != [] && back != []
    ensures Join(front + [""] + back, ":") == Join(front, ":") + (":" + ":" + Join(back, ":"))
  {
    JoinAppend(front + [""], back, ":");
    JoinAppend(front, [""], ":");
    Regroup2(Join(front, ":"), Join(back, ":"));
  }

  lemma {:induction false} PrintUpToGap(ws: Words8, i: nat)
    requires i == FirstZero(ws, 0)
    ensures Print(ws) == Join(if i == 0 then [""] else Hexes(ws[..i]), ":") + PrintFrom(ws, i, false)
  {
    var rest := PrintFrom(ws, i, false);
    if i > 0 {
      PrintFront(ws, 0);
      assert ws[0..i] == ws[..i];
      var front := Join(Hexes(ws[..i]), ":");
      assert "" + front == front;
    } else {
      assert Join([""], ":") + rest == rest;
    }
  }

  lemma PrintJoinsFields(ws: Words8)
    ensures PrintedFields(ws) != [] && Print(ws) == Join(PrintedFields(ws), ":")
  {
    var i := FirstZero(ws, 0);
    PrintUpToGap(ws, i);
    if i == 8 {
      assert ws[..8] == ws;
    } else {
      PrintGap(ws, i);
      JoinGap(if i == 0 then [""] else Hexes(ws[..i]), if ZeroEnd(ws, i) == 8 then [""] else Hexes(ws[ZeroEnd(ws, i)..]));
    }
  }

  lemma {:induction false} NoColonLeftmost(fs: seq<string>)
    requires fs != [] && forall f :: f in fs ==> ':' !in f
    ensures Leftmost(fs, ":")
    decreases |fs|
  {
    var f := fs[0];
    CharAbsent(f, ':');
    if |fs| > 1 {
      var t := f + ":";
      forall j: nat | j <= |f| ensures OccursAt(t, ":", j) <==> j == |f| {
        CharOccursAt(t, ':', j);
      }
      FindIs(t, ":", 0, |f|);
      NoColonLeftmost(fs[1..]);
    }
  }

  lemma {:induction false} WordsAppend(a: seq<string>, b: seq<string>)
    requires FieldsOk(a) && FieldsOk(b)
    ensures FieldsOk(a + b) && Words(a + b) == Words(a) + Words(b)
    decreases |a|
  {
    if a == [] {
      assert a + b == b;
    } else {
      assert (a + b)[1..] == a[1..] + b;
      WordsAppend(a[1..], b);
    }
  }

  lemma {:induction false} HexesWords(ws: seq<uint16>)
    ensures FieldsOk(Hexes(ws)) && Words(Hexes(ws)) == ws
    decreases |ws|
  {
    if ws != [] {
      NumeralValue(ws[0], 16);
      HexesWords(ws[1..]);
      assert Hexes(ws)[1..] == Hexes(ws[1..]);
    }
  }

  lemma EmptyFieldWords()
    ensures FieldsOk([""]) && Words([""]) == [0]
  {
    assert [""][1..] == [];
  }

  lemma {:induction false} FirstGapIs(fs: seq<string>, k: nat, g: nat)
    requires k <= g < |fs| - 1 && fs[g] == [] && forall i :: k <= i < g ==> fs[i] != []
    ensures FirstGap(fs, k) == Some(g)
    decreases g - k
  {
    if k < g {
      FirstGapIs(fs, k + 1, g);
    }
  }

  /** Fields with exactly one gap denote the words around it. */
  lemma {:induction false} GapDenotes(front: seq<string>, back: seq<string>)
    requires FieldsOk(front) && FieldsOk(back) && front != [] && back != [] && |front| + |back| <= 8
    requires forall k :: 1 <= k < |front| ==> front[k] != []
    ensures Denote(front + [""] + back) == Some(Assemble(Words(front), Words(back)))
  {
    var fs := front + [""] + back;
    EmptyFieldWords();
    WordsAppend(front, [""]);
    WordsAppend(front + [""], back);
    FirstGapIs(fs, 1, |front|);
    var all := Words(fs);
    assert all[..|front|] == Words(front);
    assert all[|front| + 1..] == Words(back);
  }

  /** The fields denote the words they were printed from. */
  lemma PrintedFieldsDenote(ws: Words8)
    ensures Denote(PrintedFields(ws)) == Some(ws)
  {
    var i := FirstZero(ws, 0);
    if i == 8 {
      HexesWords(ws);
      assert Assemble(ws, []) == ws;
    } else {
      var j := ZeroEnd(ws, i);
      var front := if i == 0 then [""] else Hexes(ws[..i]);
      var back := if j == 8 then [""] else Hexes(ws[j..]);
      EmptyFieldWords();
      HexesWords(ws[..i]);
      HexesWords(ws[j..]);
      GapDenotes(front, back);
      Reassemble(ws, i, j, Words(front), Words(back));
    }
  }

  lemma Reassemble(ws: Words8, i: nat, j: nat, front: seq<uint16>, back: seq<uint16>)
    requires i < j <= 8 && forall k :: i <= k < j ==> ws[k] == 0
    requires front == if i == 0 then [0] else ws[..i]
    requires back == if j == 8 then [0] else ws[j..]
    ensures |front| + |back| <= 8 && Assemble(front, back) == ws
  {
  }

  /** Scanning the printed text of any address gives the address back. */
  lemma RoundTrip(ws: Words8)
    ensures Meaning(Print(ws)) == Accepted(ws)
    ensures Ipv6Scanner.Run(Ipv6Scanner.Start(Print(ws))) == Accepted(ws)
  {
    PrintHasNoScope(ws);
    PrintSplits(ws);
    PrintedFieldsDenote(ws);
    Ipv6Scanner.ScannerMeaning(Print(ws));
  }

  lemma PrintHasNoScope(ws: Words8)
    ensures CStr(Print(ws)) == Print(ws) && Find(Print(ws), "%", 0).None?
  {
    var text := Print(ws);
    PrintPlain(ws);
    forall i | 0 <= i < |text| ensures text[i] != '\0' {
      assert text[i] in text;
    }
    CStrIdentity(text);
    CharAbsent(text, '%');
  }

  lemma PrintSplits(ws: Words8)
    ensures Split(Print(ws), ":") == PrintedFields(ws)
  {
    PrintJoinsFields(ws);
    FieldsHaveNoColon(ws);
    NoColonLeftmost(PrintedFields(ws));
    LeftmostIsSplit(PrintedFields(ws), ":");
  }

  lemma HexesHaveNoColon(ws: seq<uint16>)
    ensures forall f :: f in Hexes(ws) ==> ':' !in f
  {
    forall f | f in Hexes(ws) ensures ':' !in f {
      assert AllHex(f);
    }
  }

  lemma FieldsHaveNoColon(ws: Words8)
    ensures forall f :: f in PrintedFields(ws) ==> ':' !in f
  {
    var i := FirstZero(ws, 0);
    HexesHaveNoColon(ws);
    HexesHaveNoColon(ws[..i]);
    HexesHaveNoColon(ws[ZeroEnd(ws, i)..]);
  }

  lemma NoNulAppended(text: string, suffix: string)
    requires (forall c :: c in text ==> c != '\0') && AllDigits(suffix)
    ensures CStr(text + "%" + suffix) == text + "%" + suffix
  {
    var all := text + "%" + suffix;
    forall i | 0 <= i < |all| ensures all[i] != '\0' {
      assert i < |text| ==> all[i] == text[i] && text[i] in text;
      assert i > |text| ==> all[i] == suffix[i - |text| - 1];
    }
    CStrIdentity(all);
  }

  /** Every printed address followed by '%' and a scope number of 16 bits sends the scanner into its endless loop;
      "::%1" is one of them. */
  lemma PrintedWithScopeSpins(ws: Words8, scope: uint16)
    ensures Meaning(Print(ws) + "%" + Numeral(scope, 10)) == Spins
  {
    hide Print, Numeral, Denote, Split;
    var text, suffix := Print(ws), Numeral(scope, 10);
    var all := text + "%" + suffix;
    PrintHasNoScope(ws);
    PrintPlain(ws);
    NoNulAppended(text, suffix);
    CharAbsent(text, '%');
    FirstChar(text, '%', suffix);
    assert all[..|text|] == text && all[|text| + 1..] == suffix;
    NumeralValue(scope, 10);
    assert Denote(Split(text, ":")).Some? by {
      RoundTrip(ws);
    }
  }

  /** The loopback address with scope 1. */
  lemma LoopbackSpins()
    ensures Meaning("::1%1") == Spins
  {
    var ws: Words8 := [0, 0, 0, 0, 0, 0, 0, 1];
    assert Numeral(1, 16) == "1" && Numeral(1, 10) == "1";
    assert PrintFrom(ws, 8, true) == "";
    assert PrintFrom(ws, 7, true) == ":1";
    assert ZeroEnd(ws, 0) == 7;
    assert Print(ws) == "::1";
    PrintedWithScopeSpins(ws, 1);
    assert "::1" + "%" + "1" == "::1%1";
  }

  /** `sprintf_s(dest + n, length - n, text)`: text that does not fit, with its terminator, aborts the program. */
  method Sprintf(dest: array<char>, n: nat, text: string) returns (ok: bool)
    requires n < dest.Length
    modifies dest
    ensures ok <==> n + |text| < dest.Length
    ensures ok ==> dest[..n + |text|] == old(dest[..n]) + text && dest[n + |text|] == '\0'
  {
    if dest.Length - n <= |text| {
      return false;
    }
    for i := 0 to |text|
      invariant dest[..n] == old(dest[..n])
      invariant forall k :: 0 <= k < i ==> dest[n + k] == text[k]
    {
      dest[n + i] := text[i];
    }
    dest[n + |text|] := '\0';
    return true;
  }

  /** The inner loop: past the zero words at byte `b`, which is where word `k` stands. */
  method SkipZeros(bytes: seq<byte>, b: nat, ghost ws: Words8, ghost k: nat) returns (c: nat)
    requires |bytes| == 16 && b == 2 * k && k < 8 && WordBytes(ws) == bytes && ws[k] == 0
    ensures c == 2 * ZeroEnd(ws, k) && k < ZeroEnd(ws, k)
  {
    c := b + 2;
    ghost var e := k + 1;
    while c < 16 && bytes[c] == 0 && bytes[c + 1] == 0
      invariant c == 2 * e && k < e <= 8
      invariant ZeroEnd(ws, k) == ZeroEnd(ws, e)
    {
      WordBytesAt(ws, e);
      c, e := c + 2, e + 1;
    }
    if c < 16 {
      WordBytesAt(ws, e);
    }
  }

  /** One turn of the printing loop: the piece printed at `b`, and where printing goes on. */
  method NextPiece(bytes: seq<byte>, b: nat, z: bool, ghost ws: Words8, ghost k: nat)
    returns (piece: string, c: nat, y: bool, ghost e: nat)
    requires |bytes| == 16 && b == 2 * k && k < 8 && WordBytes(ws) == bytes
    ensures c == 2 * e && k < e <= 8
    ensures PrintFrom(ws, k, z) == piece + PrintFrom(ws, e, y)
  {
    WordBytesAt(ws, k);
    var word: uint16 := FromNet16(bytes[b], bytes[b + 1]);
    assert word == ws[k];
    if bytes[b] == 0 && bytes[b + 1] == 0 && !z {
      c := SkipZeros(bytes, b, ws, k);
      e := ZeroEnd(ws, k);
      piece, y := ":" + (if c < 16 then "" else ":"), true;
    } else {
      c, e, y := b + 2, k + 1, z;
      piece := (if b > 0 then ":" else "") + Numeral(word, 16);
    }
  }

  lemma PrintEnd(ws: Words8, z: bool)
    ensures PrintFrom(ws, 8, z) == ""
  {
  }

  /** One turn of the loop, with what is then still to be printed. */
  method PrintPiece(bytes: seq<byte>, dest: array<char>, n: nat, b: nat, z: bool, ghost ws: Words8, ghost k: nat)
    returns (ok: bool, m: nat, c: nat, y: bool, ghost e: nat)
    requires |bytes| == 16 && b == 2 * k && k < 8 && WordBytes(ws) == bytes && n < dest.Length
    modifies dest
    ensures ok ==>
      && c == 2 * e && k < e <= 8 && m < dest.Length && dest[m] == '\0'
      && dest[..m] + PrintFrom(ws, e, y) == old(dest[..n]) + PrintFrom(ws, k, z)
    ensures !ok ==> dest.Length <= n + |PrintFrom(ws, k, z)|
  {
    hide PrintFrom, WordBytes;
    var piece;
    piece, c, y, e := NextPiece(bytes, b, z, ws, k);
    Assoc(dest[..n], piece, PrintFrom(ws, e, y));
    ok := Sprintf(dest, n, piece);
    m := n + |piece|;
  }

  /** `inet_ntop(AF_INET6, bytes, dest, length)` without a scope: the printed text and its terminator,
      or an aborted `sprintf_s` exactly when they do not fit in a non-empty buffer. */
  method InetNtop6(bytes: seq<byte>, dest: array<char>) returns (aborted: bool, n: nat)
    requires |bytes| == 16
    modifies dest
    ensures var text := Print(BytesWords(bytes));
            && (aborted <==> 0 < dest.Length <= |text|)
            && (!aborted && 0 < dest.Length ==> n == |text| && dest[..n] == text && dest[n] == '\0')
  {
    ghost var ws: Words8 := BytesWords(bytes);
    ghost var text := Print(ws);
    n := 0;
    var b, z := 0, false;
    ghost var k := 0;
    assert dest[..0] + PrintFrom(ws, 0, false) == text;
    hide PrintFrom, BytesWords, WordBytes;
    while n < dest.Length && b < 16
      invariant b == 2 * k && k <= 8 && n <= dest.Length
      invariant 0 < dest.Length ==> n < dest.Length && (b > 0 ==> dest[n] == '\0')
      invariant dest[..n] + PrintFrom(ws, k, z) == text
      decreases 16 - b
    {
      var ok, m;
      ok, m, b, z, k := PrintPiece(bytes, dest, n, b, z, ws, k);
      if !ok {
        return true, n;
      }
      n := m;
    }
    if 0 < dest.Length {
      PrintEnd(ws, z);
    }
    return false, n;
  }
}
