/** The text of IPv6 addresses as section 2.2 of RFC 4291 has it, in all three forms, and exactly where the scanner departs
    from it. */
module Rfc4291 {
  import opened Bytes
  import opened Numerals
  import opened Splitting
  import opened Ipv6Grammar
  import P = Ipv6Printer
  import Q = Ipv4Text

  /** One to four hexadecimal digits. */
  predicate IsGroup(g: string) {
    1 <= |g| <= 4 && AllHex(g)
  }

  predicate AreGroups(gs: seq<string>) {
    forall i :: 0 <= i < |gs| ==> IsGroup(gs[i])
  }

  /** Forms 1 and 2: eight groups, or groups on both sides of a "::" that stands for at least one group of zeros. */
  datatype Hexadecimal = Full(groups: seq<string>) | Compressed(front: seq<string>, back: seq<string>)

  predicate IsHexadecimal(x: Hexadecimal) {
    match x
    case Full(gs) => |gs| == 8 && AreGroups(gs)
    case Compressed(front, back) => AreGroups(front) && AreGroups(back) && |front| + |back| <= 7
  }

  function JoinGroups(gs: seq<string>): string {
    if gs == [] then "" else Join(gs, ":")
  }

  function HexadecimalText(x: Hexadecimal): string {
    match x
    case Full(gs) => JoinGroups(gs)
    case Compressed(front, back) => JoinGroups(front) + (":" + ":" + JoinGroups(back))
  }

  lemma {:induction false} GroupsAreFields(gs: seq<string>)
    requires AreGroups(gs)
    ensures FieldsOk(gs)
    decreases |gs|
  {
    if gs != [] {
      GroupFits(gs[0]);
      GroupsAreFields(gs[1..]);
    }
  }

  lemma GroupFits(g: string)
    requires IsGroup(g)
    ensures FieldOk(g)
  {
    ValueBelow(0, g);
  }

  lemma {:induction false} ValueBelow(acc: nat, s: string)
    requires AllHex(s) && |s| <= 4
    ensures Value(acc, s, 16) < (acc + 1) *
              (if |s| == 0 then 1 else if |s| == 1 then 0x10 else if |s| == 2 then 0x100 else if |s| == 3 then 0x1000
               else 0x1_0000)
    decreases |s|
  {
    if s != "" {
      ValueBelow(acc * 16 + HexDigit(s[0]), s[1..]);
    }
  }

  /** The words that a hexadecimal text stands for. */
  function HexadecimalWords(x: Hexadecimal): (ws: seq<uint16>)
    requires IsHexadecimal(x)
    ensures |ws| == 8
  {
    match x
    case Full(gs) =>
      GroupsAreFields(gs);
      Words(gs)
    case Compressed(front, back) =>
      GroupsAreFields(front);
      GroupsAreFields(back);
      Assemble(Words(front), Words(back))
  }

  // ----- the fields of a hexadecimal text -----

  function Padded(gs: seq<string>): (fs: seq<string>)
    ensures fs != []
  {
    if gs == [] then [""] else gs
  }

  function FieldsOf(x: Hexadecimal): seq<string> {
    match x
    case Full(gs) => gs
    case Compressed(front, back) => Padded(front) + [""] + Padded(back)
  }

  lemma PaddedJoin(gs: seq<string>)
    ensures Join(Padded(gs), ":") == JoinGroups(gs)
  {
  }

  lemma GroupHasNoColon(f: string)
    requires f == "" || IsGroup(f)
    ensures ':' !in f
  {
  }

  lemma NoColons(fs: seq<string>)
    requires forall i :: 0 <= i < |fs| ==> fs[i] == "" || IsGroup(fs[i])
    ensures forall f :: f in fs ==> ':' !in f
  {
    forall f | f in fs ensures ':' !in f {
      GroupHasNoColon(f);
    }
  }

  lemma FieldsOfPlain(x: Hexadecimal)
    requires IsHexadecimal(x)
    ensures FieldsOf(x) != [] && forall i :: 0 <= i < |FieldsOf(x)| ==> FieldsOf(x)[i] == "" || IsGroup(FieldsOf(x)[i])
  {
    hide IsGroup;
  }

  lemma HexadecimalSplits(x: Hexadecimal)
    requires IsHexadecimal(x)
    ensures Split(HexadecimalText(x), ":") == FieldsOf(x)
  {
    hide IsGroup, Join, Padded, Leftmost, Split;
    var fs := FieldsOf(x);
    FieldsOfPlain(x);
    NoColons(fs);
    P.NoColonLeftmost(fs);
    if x.Compressed? {
      P.JoinGap(Padded(x.front), Padded(x.back));
      PaddedJoin(x.front);
      PaddedJoin(x.back);
    }
    LeftmostIsSplit(fs, ":");
  }

  lemma PaddedWords(gs: seq<string>)
    requires AreGroups(gs)
    ensures FieldsOk(gs) && FieldsOk(Padded(gs))
    ensures Words(Padded(gs)) == if gs == [] then [0] else Words(gs)
  {
    GroupsAreFields(gs);
    P.EmptyFieldWords();
  }

  lemma PaddingIsZero(front: seq<uint16>, back: seq<uint16>)
    requires |front| + |back| <= 7
    ensures var f, b := if front == [] then [0] else front, if back == [] then [0] else back;
            |f| + |b| <= 8 && Assemble(f, b) == Assemble(front, back)
  {
    var f, b := if front == [] then [0] else front, if back == [] then [0] else back;
    var u, v := Assemble(f, b), Assemble(front, back);
    forall i | 0 <= i < 8 ensures u[i] == v[i] {
    }
  }

  lemma NoGapInGroups(gs: seq<string>)
    requires AreGroups(gs)
    ensures FirstGap(gs, 1).None?
  {
  }

  lemma HexadecimalDenotes(x: Hexadecimal)
    requires IsHexadecimal(x)
    ensures Denote(FieldsOf(x)) == Some(HexadecimalWords(x))
  {
    match x
    case Full(gs) =>
      GroupsAreFields(gs);
      NoGapInGroups(gs);
      assert Assemble(Words(gs), []) == Words(gs);
    case Compressed(front, back) =>
      PaddedWords(front);
      PaddedWords(back);
      GapDenotesPadded(front, back);
      PaddingIsZero(Words(front), Words(back));
  }

  lemma GapDenotesPadded(front: seq<string>, back: seq<string>)
    requires AreGroups(front) && AreGroups(back) && |front| + |back| <= 7
    requires FieldsOk(Padded(front)) && FieldsOk(Padded(back))
    ensures |Words(Padded(front))| + |Words(Padded(back))| <= 8
    ensures Denote(Padded(front) + [""] + Padded(back)) == Some(Assemble(Words(Padded(front)), Words(Padded(back))))
  {
    hide Denote, Assemble;
    P.GapDenotes(Padded(front), Padded(back));
  }

  lemma {:induction false} JoinedPlain(fs: seq<string>, c: char)
    requires fs != [] && (forall i :: 0 <= i < |fs| ==> c !in fs[i]) && c != ':'
    ensures c !in Join(fs, ":")
    decreases |fs|
  {
    if |fs| > 1 {
      JoinedPlain(fs[1..], c);
    }
  }

  lemma HexadecimalPlain(x: Hexadecimal)
    requires IsHexadecimal(x)
    ensures CStr(HexadecimalText(x)) == HexadecimalText(x) && Find(HexadecimalText(x), "%", 0).None?
  {
    hide Join, IsHexadecimal, Split;
    var t := HexadecimalText(x);
    var fs := FieldsOf(x);
    FieldsOfPlain(x);
    HexadecimalSplits(x);
    SplitIsLeftmost(t, ":");
    forall i | 0 <= i < |fs| ensures '%' !in fs[i] && '\0' !in fs[i] {
      GroupIsPlain(fs[i]);
    }
    JoinedPlain(fs, '%');
    JoinedPlain(fs, '\0');
    CharAbsent(t, '%');
    CStrIdentity(t);
  }

  lemma GroupIsPlain(f: string)
    requires f == "" || IsGroup(f)
    ensures '%' !in f && '\0' !in f
  {
  }

  /** Every text in form 1 or 2 is accepted, for the words that it stands for. */
  lemma HexadecimalIsAccepted(x: Hexadecimal)
    requires IsHexadecimal(x)
    ensures Meaning(HexadecimalText(x)) == Accepted(HexadecimalWords(x))
  {
    hide HexadecimalText, FieldsOf, IsHexadecimal, HexadecimalWords, Denote, Split;
    HexadecimalPlain(x);
    HexadecimalSplits(x);
    HexadecimalDenotes(x);
  }

  // ----- what is accepted beyond the standard -----

  /** A field of more than four digits: leading zeros. */
  predicate HasLongField(fields: seq<string>) {
    exists i :: 0 <= i < |fields| && |fields[i]| > 4
  }

  /** An empty field that does not belong to the gap `gap`, if there is one: the gap may take an empty field at the very
      start or at the very end with it. */
  predicate HasStrayEmptyField(fields: seq<string>, gap: Option<nat>) {
    exists i :: 0 <= i < |fields| && fields[i] == "" && !(gap.Some? && OfGap(fields, gap.value, i))
  }

  predicate OfGap(fields: seq<string>, gap: nat, i: nat) {
    i == gap || (i == 0 && gap == 1) || (i == |fields| - 1 && gap == |fields| - 2)
  }

  /** The groups before and after a gap. */
  function Front(fields: seq<string>, gap: nat): seq<string>
    requires 0 < gap < |fields| - 1
  {
    if gap == 1 && fields[0] == "" then [] else fields[..gap]
  }

  function Back(fields: seq<string>, gap: nat): seq<string>
    requires 0 < gap < |fields| - 1
  {
    if gap == |fields| - 2 && fields[gap + 1] == "" then [] else fields[gap + 1..]
  }

  /** Too few words for an address without a gap, or so many that the gap stands for nothing. */
  predicate HasWrongCount(fields: seq<string>) {
    match FirstGap(fields, 1)
    case None => |fields| < 8
    case Some(i) => |Front(fields, i)| + |Back(fields, i)| == 8
  }

  /** The four liberties of the scanner. */
  predicate BeyondStandard(fields: seq<string>) {
    HasLongField(fields) || HasStrayEmptyField(fields, FirstGap(fields, 1)) || HasWrongCount(fields)
  }

  lemma FieldIsGroup(fields: seq<string>, i: nat)
    requires i < |fields| && FieldsOk(fields) && !HasLongField(fields) && fields[i] != ""
    ensures IsGroup(fields[i])
  {
    FieldOkAt(fields, i);
    assert |fields[i]| <= 4;
  }

  lemma {:induction false} FieldOkAt(fields: seq<string>, i: nat)
    requires i < |fields| && FieldsOk(fields)
    ensures FieldOk(fields[i])
    decreases |fields|
  {
    if i > 0 {
      FieldOkAt(fields[1..], i - 1);
    }
  }

  lemma FrontAreGroups(fields: seq<string>, gap: nat)
    requires 0 < gap < |fields| - 1 && FieldsOk(fields) && !HasLongField(fields) && !HasStrayEmptyField(fields, Some(gap))
    ensures AreGroups(Front(fields, gap)) && (fields[gap] == "" ==> Padded(Front(fields, gap)) == fields[..gap])
  {
    hide IsGroup;
    var front := Front(fields, gap);
    forall i | 0 <= i < |front| ensures IsGroup(front[i]) {
      assert front[i] == fields[i];
      FieldIsGroup(fields, i);
    }
    if front == [] {
      assert fields[..gap] == [""];
    }
  }

  lemma BackAreGroups(fields: seq<string>, gap: nat)
    requires 0 < gap < |fields| - 1 && FieldsOk(fields) && !HasLongField(fields) && !HasStrayEmptyField(fields, Some(gap))
    ensures AreGroups(Back(fields, gap)) && Padded(Back(fields, gap)) == fields[gap + 1..]
  {
    hide IsGroup;
    var back := Back(fields, gap);
    forall i | 0 <= i < |back| ensures IsGroup(back[i]) {
      assert back[i] == fields[gap + 1 + i];
      FieldIsGroup(fields, gap + 1 + i);
    }
    if back == [] {
      assert fields[gap + 1..] == [""];
    }
  }

  /** Fields that denote words, without any of the liberties, are those of a hexadecimal text. */
  lemma FieldsAreHexadecimal(fields: seq<string>) returns (x: Hexadecimal)
    requires fields != [] && Denote(fields).Some? && !BeyondStandard(fields)
    ensures IsHexadecimal(x) && FieldsOf(x) == fields
  {
    hide IsGroup, HasLongField;
    match FirstGap(fields, 1)
    case None =>
      x := Full(fields);
      forall i | 0 <= i < |fields| ensures IsGroup(fields[i]) {
        FieldIsGroup(fields, i);
      }
    case Some(i) =>
      FrontAreGroups(fields, i);
      BackAreGroups(fields, i);
      x := Compressed(Front(fields, i), Back(fields, i));
      assert fields == fields[..i] + [fields[i]] + fields[i + 1..];
  }

  lemma GroupsAreShort(fs: seq<string>)
    requires forall i :: 0 <= i < |fs| ==> fs[i] == "" || IsGroup(fs[i])
    ensures !HasLongField(fs)
  {
  }

  lemma GapOfPadded(front: seq<string>, back: seq<string>)
    requires AreGroups(front) && AreGroups(back)
    ensures var fs := Padded(front) + [""] + Padded(back);
            FirstGap(fs, 1) == Some(|Padded(front)|)
  {
    P.FirstGapIs(Padded(front) + [""] + Padded(back), 1, |Padded(front)|);
  }

  lemma PaddedParts(front: seq<string>, back: seq<string>)
    requires AreGroups(front) && AreGroups(back)
    ensures var fs, g := Padded(front) + [""] + Padded(back), |Padded(front)|;
            0 < g < |fs| - 1 && Front(fs, g) == front && Back(fs, g) == back && !HasStrayEmptyField(fs, Some(g))
  {
    var fs, g := Padded(front) + [""] + Padded(back), |Padded(front)|;
    assert fs[..g] == Padded(front) && fs[g + 1..] == Padded(back) && fs[g] == "";
    if front != [] {
      assert fs[0] == front[0] && IsGroup(front[0]);
    }
    if back != [] {
      assert fs[g + 1] == back[0] && IsGroup(back[0]);
    }
    forall i | 0 <= i < |fs| && fs[i] == "" ensures OfGap(fs, g, i) {
      if i < g {
        assert fs[i] == Padded(front)[i];
      } else if i > g {
        assert fs[i] == Padded(back)[i - g - 1];
      }
    }
  }

  /** None of the liberties is taken in the fields of a hexadecimal text. */
  lemma HexadecimalIsNotBeyond(x: Hexadecimal)
    requires IsHexadecimal(x)
    ensures !BeyondStandard(FieldsOf(x))
  {
    hide HasLongField, Padded;
    FieldsOfPlain(x);
    GroupsAreShort(FieldsOf(x));
    match x
    case Full(gs) => NoGapInGroups(gs);
    case Compressed(front, back) =>
      GapOfPadded(front, back);
      PaddedParts(front, back);
  }

  /** Text in form 1 or 2 is exactly what the scanner accepts without using any of its liberties: fields of more than four
      digits, empty fields standing for 0, fewer than eight words without a gap, and a gap that stands for no word. */
  lemma {:induction false} HexadecimalExactly(s: string)
    ensures (exists x :: IsHexadecimal(x) && CStr(s) == HexadecimalText(x)) <==>
            Meaning(s).Accepted? && !BeyondStandard(Split(CStr(s), ":"))
  {
    hide IsHexadecimal, HexadecimalText, BeyondStandard, Denote, Split, Join;
    var t := CStr(s);
    CStrTwice(s);
    if x :| IsHexadecimal(x) && t == HexadecimalText(x) {
      HexadecimalIsAccepted(x);
      HexadecimalSplits(x);
      HexadecimalIsNotBeyond(x);
      assert Meaning(s).Accepted?;
    }
    if Meaning(s).Accepted? && !BeyondStandard(Split(t, ":")) {
      var x := FieldsAreHexadecimal(Split(t, ":"));
      HexadecimalSplits(x);
      SplitIsLeftmost(t, ":");
      SplitIsLeftmost(HexadecimalText(x), ":");
      assert IsHexadecimal(x) && t == HexadecimalText(x);
    }
  }

  /** A text and its part before the first NUL mean the same. */
  lemma CStrTwice(s: string)
    ensures CStr(CStr(s)) == CStr(s) && Meaning(CStr(s)) == Meaning(s)
  {
    hide Denote, Split;
    CStrIdentity(CStr(s));
  }

  lemma HexesAreGroups(ws: seq<uint16>)
    ensures AreGroups(P.Hexes(ws))
  {
    forall i | 0 <= i < |ws| ensures IsGroup(P.Hexes(ws)[i]) {
      HexNumeralLength(ws[i]);
    }
  }

  /** What is printed is always in form 1 or 2. */
  lemma PrintedIsStandard(ws: P.Words8) returns (x: Hexadecimal)
    ensures IsHexadecimal(x) && P.Print(ws) == HexadecimalText(x) && HexadecimalWords(x) == ws
  {
    hide IsGroup, Join, P.Print, HexadecimalWords, Meaning;
    var i := P.FirstZero(ws, 0);
    P.PrintJoinsFields(ws);
    if i == 8 {
      x := Full(P.Hexes(ws));
      HexesAreGroups(ws);
    } else {
      var j := P.ZeroEnd(ws, i);
      ZeroRun(ws, i);
      x := Compressed(P.Hexes(ws[..i]), P.Hexes(ws[j..]));
      HexesAreGroups(ws[..i]);
      HexesAreGroups(ws[j..]);
      P.JoinGap(Padded(x.front), Padded(x.back));
      PaddedJoin(x.front);
      PaddedJoin(x.back);
    }
    HexadecimalIsAccepted(x);
    P.RoundTrip(ws);
  }

  lemma ZeroRun(ws: P.Words8, i: nat)
    requires i < 8 && ws[i] == 0
    ensures i < P.ZeroEnd(ws, i) <= 8
  {
  }

  // ----- the third form -----

  /** The three forms: in form 3 the last two words are written as an IPv4 address, behind six groups or behind groups
      and a gap. */
  datatype Standard =
    | InHex(x: Hexadecimal)
    | Mixed(front: seq<string>, gap: bool, back: seq<string>, q: Q.Quad)

  predicate IsStandard(x: Standard) {
    match x
    case InHex(h) => IsHexadecimal(h)
    case Mixed(front, gap, back, _) =>
      AreGroups(front) && AreGroups(back) && if gap then |front| + |back| <= 5 else |front| == 6 && back == []
  }

  function StandardText(x: Standard): string {
    match x
    case InHex(h) => HexadecimalText(h)
    case Mixed(front, gap, back, q) =>
      if gap then JoinGroups(front) + (":" + ":" + JoinGroups(back + [Q.Print(q)])) else JoinGroups(front + [Q.Print(q)])
  }

  /** The two words that an IPv4 address in the last place stands for. */
  function QuadWords(q: Q.Quad): seq<uint16> {
    [FromNet16(q[0], q[1]), FromNet16(q[2], q[3])]
  }

  function StandardWords(x: Standard): (ws: seq<uint16>)
    requires IsStandard(x)
    ensures |ws| == 8
  {
    match x
    case InHex(h) => HexadecimalWords(h)
    case Mixed(front, gap, back, q) =>
      GroupsAreFields(front);
      GroupsAreFields(back);
      if gap then Assemble(Words(front), Words(back) + QuadWords(q)) else Words(front) + QuadWords(q)
  }

  lemma FieldsPlain(fs: seq<string>, i: nat)
    requires FieldsOk(fs) && i < |fs|
    ensures '.' !in fs[i]
  {
    FieldOkAt(fs, i);
  }

  /** The scanner knows no dots. */
  lemma {:induction false} DottedIsRefused(s: string)
    requires '.' in CStr(s)
    ensures Meaning(s).Rejected?
  {
    hide Split, Denote, EndlessScope, Find, CStr;
    var t := CStr(s);
    var r := Find(t, "%", 0);
    if r.Some? {
      CharOccursAt(t, '%', r.value);
      if '.' in t[..r.value] {
        DottedDenotesNothing(t[..r.value]);
      } else {
        DotBehindScope(t, r.value);
      }
    } else {
      DottedDenotesNothing(t);
    }
  }

  lemma DottedDenotesNothing(address: string)
    requires '.' in address
    ensures Denote(Split(address, ":")).None?
  {
    hide Split, Join, FieldsOk;
    var fs := Split(address, ":");
    if FieldsOk(fs) {
      forall i | 0 <= i < |fs| ensures '.' !in fs[i] {
        FieldsPlain(fs, i);
      }
      SplitIsLeftmost(address, ":");
      JoinedPlain(fs, '.');
    }
  }

  lemma DotBehindScope(t: string, i: nat)
    requires i < |t| && t[i] == '%' && '.' in t && '.' !in t[..i]
    ensures !EndlessScope(t[i + 1..])
  {
    var j :| 0 <= j < |t| && t[j] == '.';
    assert forall k :: 0 <= k < i ==> t[k] == t[..i][k];
    assert t[i + 1..][j - i - 1] == '.';
  }

  lemma PrintedQuad(q: Q.Quad)
    ensures '.' in Q.Print(q) && '\0' !in Q.Print(q)
  {
    Q.DottedPlain(q);
  }

  /** Groups, and an IPv4 address behind them. */
  lemma MixedGroups(gs: seq<string>, q: Q.Quad)
    requires AreGroups(gs)
    ensures var t := JoinGroups(gs + [Q.Print(q)]); '.' in t && '\0' !in t
  {
    hide IsGroup, Q.Print;
    var fs := gs + [Q.Print(q)];
    PrintedQuad(q);
    forall i | 0 <= i < |fs| ensures '\0' !in fs[i] {
      if i < |gs| {
        GroupIsPlain(gs[i]);
      }
    }
    JoinedPlain(fs, '\0');
    LastIsJoined(gs, Q.Print(q));
  }

  lemma {:induction false} LastIsJoined(gs: seq<string>, last: string)
    requires '.' in last
    ensures '.' in Join(gs + [last], ":")
    decreases |gs|
  {
    var fs := gs + [last];
    if gs != [] {
      assert fs[1..] == gs[1..] + [last];
      LastIsJoined(gs[1..], last);
    }
  }

  lemma GroupsArePlain(gs: seq<string>)
    requires AreGroups(gs)
    ensures '\0' !in JoinGroups(gs)
  {
    hide IsGroup;
    forall i | 0 <= i < |gs| ensures '\0' !in gs[i] {
      GroupIsPlain(gs[i]);
    }
    if gs != [] {
      JoinedPlain(gs, '\0');
    }
  }

  lemma MixedHasDot(x: Standard)
    requires IsStandard(x) && x.Mixed?
    ensures CStr(StandardText(x)) == StandardText(x) && '.' in StandardText(x)
  {
    hide JoinGroups, Q.Print;
    if x.gap {
      GroupsArePlain(x.front);
      MixedGroups(x.back, x.q);
    } else {
      MixedGroups(x.front, x.q);
    }
    CStrIdentity(StandardText(x));
  }

  /** Of the standard texts, exactly those in forms 1 and 2 are accepted, for the words that they stand for; every text in
      form 3 is refused. */
  lemma StandardIsAccepted(x: Standard)
    requires IsStandard(x)
    ensures Meaning(StandardText(x)) == if x.Mixed? then Rejected else Accepted(StandardWords(x))
  {
    hide HexadecimalText, IsHexadecimal, HexadecimalWords, Meaning, AreGroups, JoinGroups;
    match x
    case InHex(h) => HexadecimalIsAccepted(h);
    case Mixed(_, _, _, _) =>
      MixedHasDot(x);
      DottedIsRefused(StandardText(x));
  }

  /** Accepted text without any of the liberties is that of a standard address. */
  lemma AcceptedIsStandard(s: string) returns (x: Standard)
    requires Meaning(s).Accepted? && !BeyondStandard(Split(CStr(s), ":"))
    ensures IsStandard(x) && x.InHex? && CStr(s) == StandardText(x)
  {
    hide IsHexadecimal, HexadecimalText, BeyondStandard, Meaning, Split;
    HexadecimalExactly(s);
    var h :| IsHexadecimal(h) && CStr(s) == HexadecimalText(h);
    x := InHex(h);
  }

  /** The text of an address in form 3. */
  ghost predicate IsMixedText(t: string) {
    exists x :: IsStandard(x) && x.Mixed? && t == StandardText(x)
  }

  /** The standard and the scanner agree on a text: what one takes it for, the other does. */
  ghost predicate Agree(s: string) {
    forall ws :: Meaning(s) == Accepted(ws) <==> StandsFor(CStr(s), ws)
  }

  ghost predicate StandsFor(t: string, ws: seq<uint16>) {
    exists x :: IsStandard(x) && t == StandardText(x) && StandardWords(x) == ws
  }

  /** They agree on a text exactly if it is not in form 3, and is not accepted with one of the liberties. */
  lemma {:induction false} AgreeExactly(s: string)
    ensures Agree(s) <==> !IsMixedText(CStr(s)) && !(Meaning(s).Accepted? && BeyondStandard(Split(CStr(s), ":")))
  {
    hide IsStandard, StandardText, StandardWords, BeyondStandard, Meaning, Split;
    var t := CStr(s);
    CStrTwice(s);
    StandardTextIs(s);
    forall x | IsStandard(x) && t == StandardText(x)
      ensures Meaning(s) == if x.Mixed? then Rejected else Accepted(StandardWords(x))
    {
      StandardIsAccepted(x);
    }
    if x :| IsStandard(x) && t == StandardText(x) {
      assert StandsFor(t, StandardWords(x));
    }
  }

  /** The texts of the standard, told by what the scanner makes of them. */
  lemma {:induction false} StandardTextIs(s: string)
    ensures (exists x :: IsStandard(x) && CStr(s) == StandardText(x)) <==>
            IsMixedText(CStr(s)) || (Meaning(s).Accepted? && !BeyondStandard(Split(CStr(s), ":")))
  {
    hide IsHexadecimal, HexadecimalText, BeyondStandard, Meaning, Split, JoinGroups, AreGroups;
    var t := CStr(s);
    HexadecimalExactly(s);
    if h :| IsHexadecimal(h) && t == HexadecimalText(h) {
      assert IsStandard(InHex(h)) && t == StandardText(InHex(h));
    }
    if x :| IsStandard(x) && t == StandardText(x) {
      if x.InHex? {
        assert IsHexadecimal(x.x) && t == HexadecimalText(x.x);
      }
    }
  }
}
