/** Dotted-quad text: the IPv4 branches of `inet_ntop` and `inet_pton`. */
module Ipv4Text {
  import opened Bytes
  import opened Numerals

  type Quad = q: seq<byte> | |q| == 4 witness [0, 0, 0, 0]

  /** Numbers printed with `%u` and joined by dots. */
  function Dotted(ns: seq<uint32>): string
    requires ns != []
  {
    if |ns| == 1 then Numeral(ns[0], 10) else Numeral(ns[0], 10) + "." + Dotted(ns[1..])
  }

  /** `sprintf("%u.%u.%u.%u")`. */
  function Print(q: Quad): string {
    Dotted(q)
  }

  /** `%u` conversions separated by the literal '.', from index `p`: the numbers read before the first failure. */
  function ScanDotted(s: string, p: nat, wanted: nat): (r: seq<uint32>)
    requires p <= |s|
    ensures |r| <= wanted
    decreases wanted
  {
    if wanted == 0 then []
    else match Unsigned(s, p)
      case NoNumber => []
      case Number(v, end) =>
        if wanted > 1 && At(s, end) == '.' then [v] + ScanDotted(s, end + 1, wanted - 1) else [v]
  }

  /** `inet_pton(AF_INET)`: four conversions, each at most 255; whatever follows the fourth is not looked at. */
  function Parse(src: string): Option<Quad> {
    var b := ScanDotted(CStr(src), 0, 4);
    if |b| != 4 || exists i :: 0 <= i < 4 && b[i] > 255 then None else Some(b)
  }

  // ----- the texts that are read -----

  predicate AreFields(fs: seq<Field>) {
    forall i :: 0 <= i < |fs| ==> IsField(fs[i])
  }

  /** Fields joined by dots. */
  function FieldsText(fs: seq<Field>): string
    requires fs != []
  {
    if |fs| == 1 then FieldText(fs[0]) else FieldText(fs[0]) + ("." + FieldsText(fs[1..]))
  }

  function FieldValues(fs: seq<Field>): (vs: seq<uint32>)
    requires AreFields(fs)
    ensures |vs| == |fs| && forall i :: 0 <= i < |fs| ==> vs[i] == FieldValue(fs[i])
  {
    seq(|fs|, i requires 0 <= i < |fs| => FieldValue(fs[i]))
  }

  /** The fields `fs` stand in `s` at `p`, and no digit follows the last of them. */
  predicate FieldsAt(s: string, p: nat, fs: seq<Field>)
    requires fs != []
    decreases |fs|
  {
    var end := p + |FieldText(fs[0])|;
    && StandsAt(s, p, FieldText(fs[0]))
    && if |fs| == 1 then !IsDigit(At(s, end)) else At(s, end) == '.' && end < |s| && FieldsAt(s, end + 1, fs[1..])
  }

  lemma {:induction false} FieldsAtText(s: string, p: nat, fs: seq<Field>)
    requires fs != []
    ensures FieldsAt(s, p, fs) <==> StandsAt(s, p, FieldsText(fs)) && !IsDigit(At(s, p + |FieldsText(fs)|))
    decreases |fs|
  {
    hide FieldText, StandsAt;
    var t := FieldText(fs[0]);
    if |fs| > 1 {
      var more := FieldsText(fs[1..]);
      var end := p + |t|;
      StandsAtParts(s, p, t, "." + more);
      StandsAtParts(s, end, ".", more);
      DotAt(s, end);
      FieldsAtText(s, end + 1, fs[1..]);
    }
  }

  lemma DotAt(s: string, p: nat)
    ensures StandsAt(s, p, ".") <==> p < |s| && At(s, p) == '.'
  {
    if p < |s| {
      assert s[p..p + 1] == [s[p]];
    }
  }

  lemma FirstFieldRead(s: string, p: nat, fs: seq<Field>)
    requires fs != [] && AreFields(fs) && FieldsAt(s, p, fs)
    ensures p <= |s| && Unsigned(s, p) == Number(FieldValue(fs[0]), p + |FieldText(fs[0])|)
  {
    hide FieldText, FieldValue;
    FieldIsRead(s, p, fs[0]);
  }

  /** Fields are scanned where they stand. */
  lemma {:induction false} FieldsAreScanned(s: string, p: nat, fs: seq<Field>)
    requires fs != [] && AreFields(fs) && FieldsAt(s, p, fs)
    ensures p <= |s| && ScanDotted(s, p, |fs|) == FieldValues(fs)
    decreases |fs|
  {
    hide FieldText, FieldValue, Unsigned, StandsAt;
    FirstFieldRead(s, p, fs);
    if |fs| > 1 {
      var tail := fs[1..];
      FieldsAreScanned(s, p + |FieldText(fs[0])| + 1, tail);
      assert fs == [fs[0]] + tail;
      OneMoreField(fs[0], tail);
    } else {
      assert FieldValues(fs) == [FieldValue(fs[0])];
    }
  }

  lemma OneMoreField(f: Field, more: seq<Field>)
    requires IsField(f) && AreFields(more)
    ensures var fs := [f] + more;
            fs[0] == f && fs[1..] == more && AreFields(fs) && FieldValues(fs) == [FieldValue(f)] + FieldValues(more)
  {
    hide IsField, FieldValue, FieldValues;
    var fs := [f] + more;
    assert forall i :: 1 <= i < |fs| ==> fs[i] == more[i - 1];
    assert FieldValues(fs)[0] == FieldValue(f);
  }

  /** As many numbers as wanted are scanned only from fields. */
  lemma {:induction false} ScannedIsFields(s: string, p: nat, n: nat) returns (fs: seq<Field>)
    requires p <= |s| && n > 0 && |ScanDotted(s, p, n)| == n
    ensures |fs| == n && AreFields(fs) && FieldsAt(s, p, fs) && FieldValues(fs) == ScanDotted(s, p, n)
    decreases n
  {
    hide FieldText, FieldValue, Unsigned, StandsAt;
    var f := ReadIsField(s, p);
    var end := p + |FieldText(f)|;
    fs := [f];
    if n > 1 {
      var more := ScannedIsFields(s, end + 1, n - 1);
      fs := [f] + more;
      OneMoreField(f, more);
    } else {
      assert FieldValues(fs) == [FieldValue(f)];
    }
  }

  /** Four fields joined by dots, and what follows them. */
  datatype QuadText = QuadText(fields: seq<Field>, tail: string)

  /** `t` is the text of `x`: field "." field "." field "." field, each with its space, sign and digits, and a tail that
      does not begin with a digit; the fields are worth the four numbers of `q`. */
  predicate IsQuadText(t: string, x: QuadText, q: Quad) {
    && |x.fields| == 4 && AreFields(x.fields) && FieldValues(x.fields) == q
    && t == FieldsText(x.fields) + x.tail && !IsDigit(At(x.tail, 0))
  }

  lemma QuadTextAt(t: string, x: QuadText)
    requires x.fields != []
    ensures t == FieldsText(x.fields) + x.tail && !IsDigit(At(x.tail, 0)) ==> FieldsAt(t, 0, x.fields)
    ensures FieldsAt(t, 0, x.fields) && |FieldsText(x.fields)| <= |t| && x.tail == t[|FieldsText(x.fields)|..] ==>
      t == FieldsText(x.fields) + x.tail && !IsDigit(At(x.tail, 0))
  {
    hide FieldsText, FieldsAt;
    FieldsAtText(t, 0, x.fields);
    var f := FieldsText(x.fields);
    if t == f + x.tail {
      assert t[..|f|] == f && t[|f|..] == x.tail;
      assert At(t, |f|) == At(x.tail, 0);
    }
    if StandsAt(t, 0, f) && |f| <= |t| && x.tail == t[|f|..] {
      assert t == t[..|f|] + t[|f|..];
      assert At(t, |f|) == At(x.tail, 0);
    }
  }

  /** Exactly these texts are read as an IPv4 address: four fields joined by dots, each any space, at most one sign and
      at least one digit, and worth at most 255, and behind them anything that does not begin with a digit. */
  lemma {:induction false} ParseExact(src: string, q: Quad)
    ensures Parse(src) == Some(q) <==> exists x :: IsQuadText(CStr(src), x, q)
  {
    hide ScanDotted, FieldsText, FieldsAt;
    var t := CStr(src);
    if Parse(src) == Some(q) {
      var fs := ScannedIsFields(t, 0, 4);
      FieldsAtText(t, 0, fs);
      var x := QuadText(fs, t[|FieldsText(fs)|..]);
      QuadTextAt(t, x);
      assert IsQuadText(t, x, q);
    }
    if x :| IsQuadText(t, x, q) {
      QuadTextIsRead(src, x, q);
    }
  }

  lemma QuadTextIsRead(src: string, x: QuadText, q: Quad)
    requires IsQuadText(CStr(src), x, q)
    ensures Parse(src) == Some(q)
  {
    hide ScanDotted, FieldsText, FieldsAt;
    var t := CStr(src);
    QuadTextAt(t, x);
    FieldsAreScanned(t, 0, x.fields);
    var b := ScanDotted(t, 0, 4);
    assert b == FieldValues(x.fields) == q;
    assert forall i :: 0 <= i < 4 ==> b[i] == q[i] && q[i] <= 255;
    assert Parse(src).Some?;
    assert Parse(src).value == q;
  }

  /** The text begins like an IPv4 address. */
  ghost predicate BeginsLikeQuad(src: string) {
    exists x, q :: IsQuadText(CStr(src), x, q)
  }

  lemma AcceptedExactly(src: string)
    ensures Parse(src).Some? <==> BeginsLikeQuad(src)
  {
    if Parse(src).Some? {
      var q: Quad := Parse(src).value;
      ParseExact(src, q);
      var x :| IsQuadText(CStr(src), x, q);
      assert BeginsLikeQuad(src);
    }
    if BeginsLikeQuad(src) {
      var x, q: Quad :| IsQuadText(CStr(src), x, q);
      QuadTextIsRead(src, x, q);
      assert Parse(src) == Some(q);
      assert Parse(src).Some?;
    }
  }

  /** A text is the text of at most one list of fields of a given length. */
  lemma {:induction false} SameFieldsAt(s: string, p: nat, fs: seq<Field>, gs: seq<Field>)
    requires fs != [] && |fs| == |gs| && AreFields(fs) && AreFields(gs) && FieldsAt(s, p, fs) && FieldsAt(s, p, gs)
    ensures fs == gs
    decreases |fs|
  {
    hide FieldText, FieldValue, Unsigned;
    FirstFieldRead(s, p, fs);
    FirstFieldRead(s, p, gs);
    SameFieldText(fs[0], gs[0]);
    if |fs| > 1 {
      SameFieldsAt(s, p + |FieldText(fs[0])| + 1, fs[1..], gs[1..]);
      assert fs == [fs[0]] + fs[1..] && gs == [gs[0]] + gs[1..];
    }
  }

  function PlainFields(ns: seq<uint32>): (fs: seq<Field>)
    ensures |fs| == |ns| && AreFields(fs) && forall i :: 0 <= i < |ns| ==> fs[i] == PlainField(ns[i])
  {
    seq(|ns|, i requires 0 <= i < |ns| => PlainField(ns[i]))
  }

  lemma {:induction false} PlainFieldsText(ns: seq<uint32>)
    requires ns != []
    ensures FieldsText(PlainFields(ns)) == Dotted(ns)
    decreases |ns|
  {
    hide FieldText, PlainField;
    if |ns| > 1 {
      PlainFieldsText(ns[1..]);
      assert PlainFields(ns)[1..] == PlainFields(ns[1..]);
      Assoc(Numeral(ns[0], 10), ".", Dotted(ns[1..]));
    }
  }

  /** Text that is read as `q` is the printed text of `q` exactly if nothing follows its fields and each of them is a
      printed number, without space, sign or leading zeros. */
  lemma {:induction false} AcceptedIsPrinted(src: string, x: QuadText, q: Quad)
    requires IsQuadText(CStr(src), x, q)
    ensures CStr(src) == Print(q) <==> x.tail == "" && forall i :: 0 <= i < 4 ==> x.fields[i] == PlainField(q[i])
  {
    hide FieldText, FieldsText, FieldsAt, FieldValues, PlainField;
    var t := CStr(src);
    var y := QuadText(PlainFields(q), "");
    PlainFieldsText(q);
    if t == Print(q) {
      assert t == FieldsText(y.fields) + "";
      QuadTextAt(t, x);
      QuadTextAt(t, y);
      SameFieldsAt(t, 0, x.fields, y.fields);
      assert |x.tail| == 0;
    }
    if x.tail == "" && forall i :: 0 <= i < 4 ==> x.fields[i] == PlainField(q[i]) {
      assert x.fields == y.fields;
      assert FieldsText(x.fields) + "" == FieldsText(x.fields);
    }
  }

  lemma {:induction false} DottedPlain(ns: seq<uint32>)
    requires ns != []
    ensures forall i :: 0 <= i < |Dotted(ns)| ==> IsDigit(Dotted(ns)[i]) || Dotted(ns)[i] == '.'
    decreases |ns|
  {
    if |ns| > 1 {
      DottedPlain(ns[1..]);
    }
  }

  /** Digits put behind a number change it, unless there are none, or it is 0 and so are they. */
  lemma {:induction false} ValueUnchanged(acc: nat, ds: string)
    requires AllDigits(ds)
    ensures AllHex(ds) && (Value(acc, ds, 10) == acc <==> ds == "" || (acc == 0 && forall i :: 0 <= i < |ds| ==> ds[i] == '0'))
    decreases |ds|
  {
    if ds != "" {
      var next := Push(acc, HexDigit(ds[0]), 10);
      ValueUnchanged(next, ds[1..]);
      assert next == acc <==> acc == 0 && ds[0] == '0';
      assert forall i :: 0 < i < |ds| ==> ds[i] == ds[1..][i - 1];
    }
  }

  /** The fields of a printed quad with digits behind it. */
  function Extended(q: Quad, ds: string): seq<Field> {
    [PlainField(q[0]), PlainField(q[1]), PlainField(q[2]), Field("", "", Numeral(q[3], 10) + ds)]
  }

  lemma ExtendedFields(q: Quad, ds: string)
    requires AllDigits(ds)
    ensures AreFields(Extended(q, ds)) && FieldsText(Extended(q, ds)) == Print(q) + ds
  {
    hide FieldText, PlainField;
    var fs := Extended(q, ds);
    var n3 := Numeral(q[3], 10);
    LastField(n3, ds);
    assert fs[1..][1..][1..] == [fs[3]];
    assert q[1..][1..][1..] == [q[3]];
    assert FieldsText(fs[1..][1..]) == FieldText(fs[2]) + ("." + FieldsText([fs[3]]));
    assert FieldsText([fs[3]]) == n3 + ds && Dotted([q[3]]) == n3;
    assert Dotted(q[1..][1..]) == Numeral(q[2], 10) + "." + n3;
    Joined(Numeral(q[2], 10), n3, ds);
    Joined(Numeral(q[1], 10), Dotted(q[1..][1..]), ds);
    Joined(Numeral(q[0], 10), Dotted(q[1..]), ds);
  }

  lemma LastField(n: string, ds: string)
    requires n != "" && AllDigits(n) && AllDigits(ds)
    ensures IsField(Field("", "", n + ds)) && FieldText(Field("", "", n + ds)) == n + ds
  {
  }

  lemma Joined(a: string, b: string, ds: string)
    ensures a + ("." + (b + ds)) == a + "." + b + ds
  {
  }

  lemma ExtendedValues(q: Quad, ds: string)
    requires AllDigits(ds)
    ensures AreFields(Extended(q, ds))
    ensures FieldValues(Extended(q, ds)) == q <==> ds == "" || (q[3] == 0 && forall i :: 0 <= i < |ds| ==> ds[i] == '0')
  {
    var fs := Extended(q, ds);
    var n3 := Numeral(q[3], 10);
    LastField(n3, ds);
    forall i | 0 <= i < 3 ensures FieldValue(fs[i]) == q[i] {
      PlainValue(q[i]);
    }
    ValueUnchanged(q[3], ds);
    NumeralValue(q[3], 10);
    ValueAppend(0, n3, ds, 10);
    assert FieldValue(fs[3]) == Signed(false, Value(q[3], ds, 10));
    assert FieldValue(fs[3]) == q[3] <==> Value(q[3], ds, 10) == q[3];
    if FieldValue(fs[3]) == q[3] {
      assert FieldValues(fs) == q;
    }
  }

  /** A printed quad with text behind it is read as that quad exactly if the text does not begin with a digit, or the
      last number is 0 and the text begins with zeros and no other digit. */
  lemma {:induction false} RoundTrip(q: Quad, tail: string)
    ensures var t := CStr(tail);
            var ds := t[..DigitsEnd(t, 0)];
            Parse(Print(q) + tail) == Some(q) <==> ds == "" || (q[3] == 0 && forall i :: 0 <= i < |ds| ==> ds[i] == '0')
  {
    hide ScanDotted, FieldsText, FieldsAt, Extended, DigitsEnd;
    var t := CStr(tail);
    var k := DigitsEnd(t, 0);
    assert t[0..k] == t[..k];
    var ds, rest := t[..k], t[k..];
    var fs := Extended(q, ds);
    DottedPlain(q);
    CStrPrefix(Print(q), tail);
    ExtendedFields(q, ds);
    ExtendedLength(q, ds);
    ExtendedValues(q, ds);
    assert t == ds + rest;
    Assoc(Print(q), ds, rest);
    assert At(rest, 0) == At(t, k);
    QuadTextAt(Print(q) + t, QuadText(fs, rest));
    FieldsAreScanned(Print(q) + t, 0, fs);
    assert ScanDotted(CStr(Print(q) + tail), 0, 4) == FieldValues(fs);
  }

  lemma ExtendedLength(q: Quad, ds: string)
    ensures |Extended(q, ds)| == 4
  {
  }

  /** In particular a printed quad alone is read back. */
  lemma PlainRoundTrip(q: Quad)
    ensures Parse(Print(q)) == Some(q)
  {
    hide Parse, Print;
    RoundTrip(q, "");
    assert Print(q) + "" == Print(q);
    assert CStr("") == "";
  }

  lemma {:induction false} CStrPrefix(a: string, b: string)
    requires forall i :: 0 <= i < |a| ==> a[i] != '\0'
    ensures CStr(a + b) == a + CStr(b)
  {
    if a == [] {
      assert a + b == b;
    } else {
      assert (a + b)[1..] == a[1..] + b;
      CStrPrefix(a[1..], b);
    }
  }

  /** Only text with a dot in it is taken for an IPv4 address. */
  lemma ParsedHasDot(s: string)
    requires forall i :: 0 <= i < |s| ==> s[i] != '.'
    ensures Parse(s).None?
  {
    var t := CStr(s);
    assert |ScanDotted(t, 0, 4)| <= 1;
  }
}
