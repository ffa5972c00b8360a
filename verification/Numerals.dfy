/** Numerals as the C library prints and reads them: `%u`, `%x`, `strtoul`. */
module Numerals {
  import opened Bytes

  /** The character a C string holds at index `p`; the terminator follows the last one. */
  function At(s: string, p: nat): char {
    if p < |s| then s[p] else '\0'
  }

  /** What a `const char*` argument shows of a string: everything before the first NUL. */
  function CStr(s: string): (t: string)
    ensures |t| <= |s| && t == s[..|t|] && At(s, |t|) == '\0'
    ensures forall i :: 0 <= i < |t| ==> t[i] != '\0'
  {
    if s == [] || s[0] == '\0' then [] else [s[0]] + CStr(s[1..])
  }

  lemma {:induction false} CStrIdentity(s: string)
    requires forall i :: 0 <= i < |s| ==> s[i] != '\0'
    ensures CStr(s) == s
  {
    if s != [] {
      CStrIdentity(s[1..]);
    }
  }

  predicate IsDigit(c: char) {
    '0' <= c <= '9'
  }

  predicate IsHex(c: char) {
    IsDigit(c) || 'a' <= c <= 'f' || 'A' <= c <= 'F'
  }

  function HexDigit(c: char): (v: nat)
    requires IsHex(c)
    ensures v < 16
  {
    if IsDigit(c) then c as int - '0' as int
    else if 'a' <= c then c as int - 'a' as int + 10
    else c as int - 'A' as int + 10
  }

  predicate AllDigits(s: string) {
    forall i :: 0 <= i < |s| ==> IsDigit(s[i])
  }

  predicate AllHex(s: string) {
    forall i :: 0 <= i < |s| ==> IsHex(s[i])
  }

  /** The two bases in use. */
  type Base = b: nat | b == 10 || b == 16 witness 10

  /** `n` with one more digit `d` behind it, and the two parts of a number. */
  function Push(n: nat, d: nat, base: Base): nat {
    if base == 10 then n * 10 + d else n * 16 + d
  }

  function Quotient(n: nat, base: Base): nat {
    if base == 10 then n / 10 else n / 16
  }

  function Remainder(n: nat, base: Base): (r: nat)
    ensures r < base && Push(Quotient(n, base), r, base) == n
  {
    if base == 10 then n % 10 else n % 16
  }

  /** Value of `s` read in the given base after `acc`; the empty numeral is `acc` itself. */
  function Value(acc: nat, s: string, base: Base): (v: nat)
    requires AllHex(s)
    ensures v >= acc
    decreases |s|
  {
    if s == [] then acc else Value(Push(acc, HexDigit(s[0]), base), s[1..], base)
  }

  lemma {:induction false} ValueAppend(acc: nat, s: string, t: string, base: Base)
    requires AllHex(s) && AllHex(t)
    ensures AllHex(s + t)
    ensures Value(acc, s + t, base) == Value(Value(acc, s, base), t, base)
    decreases |s|
  {
    if s == [] {
      assert s + t == t;
    } else {
      assert (s + t)[1..] == s[1..] + t;
      ValueAppend(Push(acc, HexDigit(s[0]), base), s[1..], t, base);
    }
  }

  function Digit(v: nat): (c: char)
    requires v < 16
    ensures IsHex(c) && HexDigit(c) == v && (v < 10 ==> IsDigit(c))
  {
    if v < 10 then '0' + v as char else 'a' + (v - 10) as char
  }

  /** `%u` (base 10) and `%x` (base 16) of a number. */
  function Numeral(n: nat, base: Base): (s: string)
    ensures s != [] && AllHex(s) && (base == 10 ==> AllDigits(s))
  {
    if n < base then [Digit(n)] else Numeral(Quotient(n, base), base) + [Digit(Remainder(n, base))]
  }

  lemma {:induction false} NumeralValue(n: nat, base: Base)
    ensures Value(0, Numeral(n, base), base) == n
  {
    if n >= base {
      var q, d := Quotient(n, base), Digit(Remainder(n, base));
      NumeralValue(q, base);
      ValueAppend(0, Numeral(q, base), [d], base);
      assert [d][1..] == [];
    }
  }

  lemma HexNumeralLength(n: nat)
    requires n < 0x1_0000
    ensures |Numeral(n, 16)| <= 4
  {
    var a := n / 16;
    var b := a / 16;
    var c := b / 16;
    assert c < 16 && |Numeral(c, 16)| == 1;
    assert |Numeral(b, 16)| <= 2;
    assert |Numeral(a, 16)| <= 3;
  }

  predicate IsSpace(c: char) {
    c == ' ' || '\t' <= c <= '\r'
  }

  function SkipSpace(s: string, p: nat): (q: nat)
    requires p <= |s|
    ensures p <= q <= |s|
    decreases |s| - p
  {
    if IsSpace(At(s, p)) && p < |s| then SkipSpace(s, p + 1) else p
  }

  function DigitsEnd(s: string, p: nat): (q: nat)
    requires p <= |s|
    ensures p <= q <= |s| && AllDigits(s[p..q]) && !IsDigit(At(s, q))
    decreases |s| - p
  {
    if p < |s| && IsDigit(s[p]) then
      var q := DigitsEnd(s, p + 1);
      assert s[p..q] == [s[p]] + s[p + 1..q];
      q
    else p
  }

  /** The outcome of one numeric conversion: the number and the index after its last digit. */
  datatype Conversion = NoNumber | Number(value: uint32, end: nat)

  const ULONG_MAX: nat := 0xFFFF_FFFF

  /** What a conversion makes of a sign and a magnitude: too large a magnitude saturates, whatever the sign; any other
      is negated in 32-bit arithmetic behind a minus sign. */
  function Signed(minus: bool, magnitude: nat): uint32 {
    if magnitude > ULONG_MAX then ULONG_MAX
    else if minus then (ULONG_MAX + 1 - magnitude) % (ULONG_MAX + 1)
    else magnitude
  }

  /** One `%u` conversion, or `strtoul` in base 10, at `p`: optional space, optional sign, digits.
      Without digits there is no conversion. */
  function Unsigned(s: string, p: nat): (r: Conversion)
    requires p <= |s|
    ensures r.Number? ==> p < r.end <= |s|
  {
    var q := SkipSpace(s, p);
    var start := if At(s, q) == '-' || At(s, q) == '+' then q + 1 else q;
    var end := DigitsEnd(s, start);
    if end == start then NoNumber
    else Number(Signed(At(s, q) == '-', Value(0, s[start..end], 10)), end)
  }

  // ----- the texts of conversions -----

  datatype Field = Field(space: string, sign: string, digits: string)

  /** Any space, at most one sign, at least one digit. */
  predicate IsField(f: Field) {
    && (forall i :: 0 <= i < |f.space| ==> IsSpace(f.space[i]))
    && (f.sign == "" || f.sign == "+" || f.sign == "-")
    && f.digits != "" && AllDigits(f.digits)
  }

  function FieldText(f: Field): string {
    f.space + f.sign + f.digits
  }

  function FieldValue(f: Field): uint32
    requires IsField(f)
  {
    Signed(f.sign == "-", Value(0, f.digits, 10))
  }

  predicate StandsAt(s: string, p: nat, t: string) {
    p + |t| <= |s| && s[p..p + |t|] == t
  }

  lemma StandsAtParts(s: string, p: nat, a: string, b: string)
    ensures StandsAt(s, p, a + b) <==> StandsAt(s, p, a) && StandsAt(s, p + |a|, b)
  {
    var n := p + |a| + |b|;
    if n <= |s| {
      assert s[p..n] == s[p..p + |a|] + s[p + |a|..n];
      assert (a + b)[..|a|] == a && (a + b)[|a|..] == b;
      if StandsAt(s, p, a + b) {
        assert s[p..n][..|a|] == s[p..p + |a|] && s[p..n][|a|..] == s[p + |a|..n];
      }
    }
  }

  lemma StandsAtChar(s: string, p: nat, t: string, i: nat)
    requires StandsAt(s, p, t) && i < |t|
    ensures s[p + i] == t[i]
  {
    assert s[p..p + |t|][i] == s[p + i];
  }

  lemma {:induction false} SkipSpaceIs(s: string, p: nat, q: nat)
    requires p <= q <= |s| && (forall i :: p <= i < q ==> IsSpace(s[i])) && !IsSpace(At(s, q))
    ensures SkipSpace(s, p) == q
    decreases q - p
  {
    if p < q {
      SkipSpaceIs(s, p + 1, q);
    }
  }

  lemma {:induction false} SkippedIsSpace(s: string, p: nat)
    requires p <= |s|
    ensures var q := SkipSpace(s, p); forall i :: p <= i < q ==> IsSpace(s[i])
    decreases |s| - p
  {
    if p < |s| && IsSpace(s[p]) {
      SkippedIsSpace(s, p + 1);
    }
  }

  lemma {:induction false} DigitsEndIs(s: string, p: nat, e: nat)
    requires p <= e <= |s| && (forall i :: p <= i < e ==> IsDigit(s[i])) && !IsDigit(At(s, e))
    ensures DigitsEnd(s, p) == e
    decreases e - p
  {
    if p < e {
      DigitsEndIs(s, p + 1, e);
    }
  }

  /** The three parts of a field where it stands. */
  lemma FieldParts(s: string, p: nat, f: Field)
    requires StandsAt(s, p, FieldText(f))
    ensures var q := p + |f.space|;
            StandsAt(s, p, f.space) && StandsAt(s, q, f.sign) && StandsAt(s, q + |f.sign|, f.digits)
  {
    StandsAtParts(s, p, f.space + f.sign, f.digits);
    StandsAtParts(s, p, f.space, f.sign);
  }

  lemma SpaceIsSkipped(s: string, p: nat, space: string)
    requires StandsAt(s, p, space) && (forall i :: 0 <= i < |space| ==> IsSpace(space[i])) && !IsSpace(At(s, p + |space|))
    ensures SkipSpace(s, p) == p + |space|
  {
    forall i | p <= i < p + |space| ensures IsSpace(s[i]) {
      StandsAtChar(s, p, space, i - p);
    }
    SkipSpaceIs(s, p, p + |space|);
  }

  lemma DigitsAreRead(s: string, p: nat, digits: string)
    requires StandsAt(s, p, digits) && AllDigits(digits) && digits != "" && !IsDigit(At(s, p + |digits|))
    ensures DigitsEnd(s, p) == p + |digits| && IsDigit(At(s, p))
  {
    forall i | p <= i < p + |digits| ensures IsDigit(s[i]) {
      StandsAtChar(s, p, digits, i - p);
    }
    DigitsEndIs(s, p, p + |digits|);
  }

  lemma SignAt(s: string, q: nat, sign: string, start: nat)
    requires (sign == "" || sign == "+" || sign == "-") && StandsAt(s, q, sign) && start == q + |sign| && IsDigit(At(s, start))
    ensures start == (if At(s, q) == '-' || At(s, q) == '+' then q + 1 else q)
    ensures (At(s, q) == '-' <==> sign == "-") && !IsSpace(At(s, q))
  {
    if sign != "" {
      StandsAtChar(s, q, sign, 0);
    }
  }

  lemma FieldLength(f: Field)
    ensures |FieldText(f)| == |f.space| + |f.sign| + |f.digits|
  {
  }

  /** A field is converted where it stands, if no digit follows. */
  lemma FieldIsRead(s: string, p: nat, f: Field)
    requires IsField(f) && StandsAt(s, p, FieldText(f)) && !IsDigit(At(s, p + |FieldText(f)|))
    ensures p <= |s| && Unsigned(s, p) == Number(FieldValue(f), p + |FieldText(f)|)
  {
    hide Signed, Value, SkipSpace, DigitsEnd, FieldText;
    var q := p + |f.space|;
    var start := q + |f.sign|;
    FieldLength(f);
    FieldParts(s, p, f);
    DigitsAreRead(s, start, f.digits);
    SignAt(s, q, f.sign, start);
    SpaceIsSkipped(s, p, f.space);
  }

  /** What is converted is a field. */
  lemma ReadIsField(s: string, p: nat) returns (f: Field)
    requires p <= |s| && Unsigned(s, p).Number?
    ensures IsField(f) && StandsAt(s, p, FieldText(f)) && !IsDigit(At(s, p + |FieldText(f)|))
    ensures Unsigned(s, p) == Number(FieldValue(f), p + |FieldText(f)|)
  {
    hide Signed, Value, FieldText;
    var q := SkipSpace(s, p);
    SkippedIsSpace(s, p);
    var start := if At(s, q) == '-' || At(s, q) == '+' then q + 1 else q;
    var end := DigitsEnd(s, start);
    f := Field(s[p..q], s[q..start], s[start..end]);
    assert start == q + 1 ==> s[q..start] == [s[q]];
    SliceIsField(s, p, q, start, end);
  }

  lemma SliceIsField(s: string, p: nat, q: nat, start: nat, end: nat)
    requires p <= q <= start <= end <= |s|
    ensures var f := Field(s[p..q], s[q..start], s[start..end]);
            StandsAt(s, p, FieldText(f)) && |FieldText(f)| == end - p
  {
    StandsAtParts(s, p, s[p..q], s[q..start]);
    StandsAtParts(s, p, s[p..q] + s[q..start], s[start..end]);
  }

  /** The parts of a field can be told from its text. */
  lemma SameFieldText(f: Field, g: Field)
    requires IsField(f) && IsField(g) && FieldText(f) == FieldText(g)
    ensures f == g
  {
    var s := FieldText(f);
    FieldSpace(f);
    FieldSpace(g);
    assert s[..|f.space|] == f.space && s[..|g.space|] == g.space;
    assert s[|f.space|..] == f.sign + f.digits && s[|g.space|..] == g.sign + g.digits;
    var r := s[|f.space|..];
    assert f.sign == "" ==> r == f.digits && IsDigit(r[0]);
    assert g.sign == "" ==> r == g.digits && IsDigit(r[0]);
    assert f.sign != "" ==> r[0] == f.sign[0] && r[1..] == f.digits;
    assert g.sign != "" ==> r[0] == g.sign[0] && r[1..] == g.digits;
  }

  lemma FieldSpace(f: Field)
    requires IsField(f)
    ensures SkipSpace(FieldText(f), 0) == |f.space|
  {
    var s := FieldText(f);
    var n := |f.space|;
    assert s == f.space + (f.sign + f.digits);
    assert At(s, n) == (f.sign + f.digits)[0];
    SkipSpaceIs(s, 0, n);
  }

  /** A printed number without anything around it. */
  function PlainField(n: nat): (f: Field)
    ensures IsField(f) && FieldText(f) == Numeral(n, 10)
  {
    var f := Field("", "", Numeral(n, 10));
    assert FieldText(f) == "" + Numeral(n, 10) == Numeral(n, 10);
    f
  }

  lemma PlainValue(n: uint32)
    ensures FieldValue(PlainField(n)) == n
  {
    NumeralValue(n, 10);
  }

  /** `str_to_uint`: the conversion must reach the end of the C string; no conversion ends where it starts. */
  function StrToUint(s: string): Option<uint32> {
    var t := CStr(s);
    match Unsigned(t, 0)
    case NoNumber => if t == [] then Some(0) else None
    case Number(v, end) => if end == |t| then Some(v) else None
  }

  /** A printed number is read back where it stands, provided no digit follows. */
  lemma UnsignedReadsNumeral(s: string, p: nat, n: uint32)
    requires StandsAt(s, p, Numeral(n, 10)) && !IsDigit(At(s, p + |Numeral(n, 10)|))
    ensures p <= |s| && Unsigned(s, p) == Number(n, p + |Numeral(n, 10)|)
  {
    FieldIsRead(s, p, PlainField(n));
    PlainValue(n);
  }

  /** Text is converted to `v` exactly if its part before the first NUL is a field worth `v`, or is empty and `v` is 0. */
  lemma StrToUintExact(s: string, v: uint32)
    ensures StrToUint(s) == Some(v) <==>
            (CStr(s) == "" && v == 0) || exists f :: IsField(f) && CStr(s) == FieldText(f) && v == FieldValue(f)
  {
    hide Unsigned, FieldText, FieldValue, IsField;
    var t := CStr(s);
    if Unsigned(t, 0).Number? {
      var f := ReadIsField(t, 0);
      if Unsigned(t, 0).end == |t| {
        assert t[0..|t|] == t;
        assert IsField(f) && t == FieldText(f);
      }
    }
    if f :| IsField(f) && t == FieldText(f) && v == FieldValue(f) {
      assert t[0..|t|] == t;
      FieldIsRead(t, 0, f);
      FieldNotEmpty(f);
    }
    if t == "" {
      assert SkipSpace(t, 0) == 0;
      NothingToRead();
    }
  }

  lemma FieldNotEmpty(f: Field)
    requires IsField(f)
    ensures FieldText(f) != ""
  {
  }

  lemma NothingToRead()
    ensures Unsigned("", 0).NoNumber?
  {
  }

  lemma StrToUintReadsNumeral(n: uint32)
    ensures StrToUint(Numeral(n, 10)) == Some(n)
  {
    var d := Numeral(n, 10);
    CStrIdentity(d);
    assert d[0..|d|] == d;
    UnsignedReadsNumeral(d, 0, n);
  }
}
