/** The IPv6 branch of `inet_pton`: one iteration of its loop as a function, what whole runs of the loop
    amount to, and the loop itself over its two byte arrays. */
module Ipv6Scanner {
  import opened Bytes
  import opened Numerals
  import opened Splitting
  import opened Ipv6Grammar

  datatype Mode = FrontWord | FrontColon | BackWord | Scope | Done

  /** `rest` is the text `p` points at; `front` and `back` are the words stored so far. */
  datatype Config =
    | Config(mode: Mode, rest: string, word: nat, front: seq<uint16>, back: seq<uint16>)
    | Fail

  predicate Wellformed(c: Config) {
    c.Config? ==> |c.front| + |c.back| <= 8 && (c.mode == FrontWord || c.mode == FrontColon ==> c.back == [])
  }

  predicate Live(c: Config) {
    c.Config? && c.mode != Done
  }

  function Start(src: string): (c: Config)
    ensures Wellformed(c)
  {
    Config(FrontWord, src, 0, [], [])
  }

  /** One iteration of the loop; a finished run stays as it is. */
  function Step(c: Config): (r: Config)
    requires Wellformed(c)
    ensures Wellformed(r)
    ensures Live(c) && c.word <= 0xFFFF && r.Config? ==> r.word <= 0xFFFFF
  {
    if !Live(c) then c
    else if c.word > 0xFFFF then Fail
    else
      var x := At(c.rest, 0);
      match c.mode
      case FrontWord =>
        if IsHex(x) then c.(word := c.word * 16 + HexDigit(x), rest := c.rest[1..])
        else if |c.front| == 8 then Fail
        else AfterWord(c.(front := c.front + [c.word], word := 0), FrontColon)
      case FrontColon =>
        if x == ':' then c.(mode := BackWord, rest := c.rest[1..]) else c.(mode := FrontWord)
      case BackWord =>
        if IsHex(x) then c.(word := c.word * 16 + HexDigit(x), rest := c.rest[1..])
        else if |c.front| + |c.back| == 8 then Fail
        else AfterWord(c.(back := c.back + [c.word], word := 0), BackWord)
      case Scope =>
        if IsDigit(x) then c.(word := c.word * 10 + HexDigit(x), rest := c.rest[1..])
        else if x == '\0' then c
        else Fail
  }

  /** What follows a stored word: a colon, a scope, the end, or an error. */
  function AfterWord(c: Config, next: Mode): (r: Config)
    requires c.Config? && Wellformed(c) && c.word == 0 && (c.back == [] || next == BackWord)
    ensures Wellformed(r) && (r.Config? ==> r.word == 0)
  {
    var x := At(c.rest, 0);
    if x == ':' then c.(mode := next, rest := c.rest[1..])
    else if x == '%' then c.(mode := Scope, rest := c.rest[1..])
    else if x == '\0' then c.(mode := Done)
    else Fail
  }

  function Rank(c: Config): nat {
    if !Live(c) then 0 else if c.mode == FrontColon then 2 else 1
  }

  function Length(c: Config): nat {
    if c.Fail? then 0 else |c.rest|
  }

  /** The configuration in which an iteration changes nothing and the loop guard still holds. */
  predicate Stuck(c: Config) {
    c.Config? && c.mode == Scope && c.word <= 0xFFFF && At(c.rest, 0) == '\0'
  }

  /** Every other live configuration is left for one that is smaller: fewer characters, or a lower rank. */
  lemma StepProgress(c: Config)
    requires Wellformed(c) && Live(c)
    ensures Step(c) == c <==> Stuck(c)
    ensures !Stuck(c) ==>
      Length(Step(c)) < Length(c) || (Length(Step(c)) == Length(c) && Rank(Step(c)) < Rank(c)) || Step(c).Fail?
  {
  }

  /** The outcome of the loop. */
  function Run(c: Config): Outcome
    requires Wellformed(c)
    decreases if c.Fail? then 0 else 1, Length(c), Rank(c)
  {
    if c.Fail? then Rejected
    else if c.mode == Done then Accepted(Assemble(c.front, c.back))
    else if Stuck(c) then Spins
    else
      StepProgress(c);
      Run(Step(c))
  }

  lemma RunStep(c: Config)
    requires Wellformed(c) && Live(c) && !Stuck(c)
    ensures Run(c) == Run(Step(c))
  {
  }

  /** A turn of the loop returns at once, finds itself stuck, or goes on with the same outcome. */
  lemma RunTurn(c: Config)
    requires Wellformed(c) && Live(c)
    ensures if Stuck(c) then Run(c) == Spins
            else if Step(c).Fail? then Run(c) == Rejected
            else Run(c) == Run(Step(c))
    ensures c.word > 0xFFFF ==> Run(c) == Rejected
  {
  }

  lemma RunEnds(c: Config)
    requires Wellformed(c) && !Live(c)
    ensures Run(c) == if c.Fail? then Rejected else Accepted(Assemble(c.front, c.back))
  {
  }

  function Iterate(c: Config, n: nat): (r: Config)
    requires Wellformed(c)
    ensures Wellformed(r)
    decreases n
  {
    if n == 0 then c else Iterate(Step(c), n - 1)
  }

  lemma {:induction false} RunHalts(c: Config) returns (n: nat)
    requires Wellformed(c) && !Run(c).Spins?
    ensures !Live(Iterate(c, n))
    ensures Run(c) == Run(Iterate(c, n))
    decreases if c.Fail? then 0 else 1, Length(c), Rank(c)
  {
    if Live(c) {
      StepProgress(c);
      var m := RunHalts(Step(c));
      n := m + 1;
    } else {
      n := 0;
    }
  }

  lemma {:induction false} RunNeverHalts(c: Config, n: nat)
    requires Wellformed(c) && Run(c).Spins?
    ensures Live(Iterate(c, n))
    decreases n
  {
    if n > 0 {
      StepProgress(c);
      RunNeverHalts(Step(c), n - 1);
    }
  }

  /** Hexadecimal digits only add to the current word, until it is too large. */
  lemma {:induction false} ReadHex(c: Config, k: nat)
    requires Wellformed(c) && c.Config? && (c.mode == FrontWord || c.mode == BackWord)
    requires k <= |c.rest| && AllHex(c.rest[..k])
    ensures var v := Value(c.word, c.rest[..k], 16);
            Run(c) == if v > 0xFFFF then Rejected else Run(c.(rest := c.rest[k..], word := v))
    decreases k
  {
    hide Run;
    if c.word > 0xFFFF {
      TooLarge(c);
    } else if k == 0 {
      assert c.rest[0..] == c.rest;
      assert c.(rest := c.rest[0..], word := c.word) == c;
    } else {
      RunStep(c);
      Shift(c.rest, k);
      var d := c.(word := c.word * 16 + HexDigit(c.rest[0]), rest := c.rest[1..]);
      assert Step(c) == d;
      ReadHex(d, k - 1);
    }
  }

  lemma TooLarge(c: Config)
    requires Wellformed(c) && Live(c) && c.word > 0xFFFF
    ensures Run(c) == Rejected
  {
    hide Run;
    RunStep(c);
    RunEnds(Step(c));
  }

  /** A prefix and the text behind it, seen from the second character. */
  lemma Shift(s: string, k: nat)
    requires 0 < k <= |s|
    ensures s[..k][0] == s[0] && s[1..][..k - 1] == s[..k][1..] && s[1..][k - 1..] == s[k..]
  {
  }

  function FirstNonHex(s: string): (k: nat)
    ensures k <= |s| && AllHex(s[..k]) && (k < |s| ==> !IsHex(s[k]))
  {
    if s == [] || !IsHex(s[0]) then 0
    else
      var k := FirstNonHex(s[1..]);
      assert s[..k + 1] == [s[0]] + s[1..][..k];
      k + 1
  }

  /** A field with a foreign character, or with too large a value, is rejected. */
  lemma BadField(c: Config, f: string)
    requires Wellformed(c) && c.Config? && (c.mode == FrontWord || c.mode == BackWord) && c.word == 0
    requires |f| <= |c.rest| && f == c.rest[..|f|] && !FieldOk(f)
    requires forall i :: 0 <= i < |f| ==> f[i] != ':' && f[i] != '%' && f[i] != '\0'
    ensures Run(c) == Rejected
  {
    hide Run;
    var k := FirstNonHex(f);
    assert c.rest[..k] == f[..k];
    ReadHex(c, k);
    if k == |f| {
      assert f[..k] == f;
    } else if Value(0, f[..k], 16) <= 0xFFFF {
      var d := c.(rest := c.rest[k..], word := Value(0, f[..k], 16));
      assert At(d.rest, 0) == f[k];
      RunStep(d);
      assert Step(d) == Fail;
      RunEnds(Fail);
    }
  }

  /** Reading the scope: digits until the end, and then for ever, unless they are worth too much. */
  lemma {:induction false} ReadScope(c: Config)
    requires Wellformed(c) && c.Config? && c.mode == Scope
    ensures var t := CStr(c.rest);
            Run(c) == if AllDigits(t) && Value(c.word, t, 10) <= 0xFFFF then Spins else Rejected
    decreases |c.rest|
  {
    var t := CStr(c.rest);
    if c.word > 0xFFFF {
      assert Step(c) == Fail;
    } else if At(c.rest, 0) == '\0' {
      assert t == [];
    } else if IsDigit(c.rest[0]) {
      var d := Step(c);
      ReadScope(d);
      assert t == [c.rest[0]] + CStr(d.rest);
      assert t[1..] == CStr(d.rest);
      assert AllDigits(t) <==> AllDigits(t[1..]);
    } else {
      assert Step(c) == Fail && t[0] == c.rest[0];
    }
  }

  /** The words denoted by fields read from the front, after the words `front`. */
  function FrontFields(front: seq<uint16>, fields: seq<string>): (r: Option<(seq<uint16>, seq<uint16>)>)
    requires fields != [] && |front| <= 8
    ensures r.Some? ==> |r.value.0| + |r.value.1| <= 8
    decreases |fields|
  {
    if !FieldOk(fields[0]) || |front| == 8 then None
    else
      var front' := front + [Value(0, fields[0], 16)];
      if |fields| == 1 then Some((front', []))
      else if fields[1] == [] && |fields| > 2 then BackFields(front', [], fields[2..])
      else FrontFields(front', fields[1..])
  }

  function BackFields(front: seq<uint16>, back: seq<uint16>, fields: seq<string>): (r: Option<(seq<uint16>, seq<uint16>)>)
    requires fields != [] && |front| + |back| <= 8
    ensures r.Some? ==> |r.value.0| + |r.value.1| <= 8
    decreases |fields|
  {
    if !FieldOk(fields[0]) || |front| + |back| == 8 then None
    else
      var back' := back + [Value(0, fields[0], 16)];
      if |fields| == 1 then Some((front, back')) else BackFields(front, back', fields[1..])
  }

  /** What is left to do after the last field `u` of `c.rest`: end, or a scope. */
  function Finish(tail: string, words: Option<(seq<uint16>, seq<uint16>)>): Outcome
    requires words.Some? ==> |words.value.0| + |words.value.1| <= 8
  {
    match words
    case None => Rejected
    case Some((front, back)) =>
      if At(tail, 0) == '%' then (if EndlessScope(CStr(tail[1..])) then Spins else Rejected)
      else Accepted(Assemble(front, back))
  }

  /** `u` is the part of `rest` up to its scope or its end. */
  predicate Address(rest: string, u: string) {
    && |u| <= |rest| && u == rest[..|u|]
    && (forall i :: 0 <= i < |u| ==> u[i] != '%' && u[i] != '\0')
    && (At(rest, |u|) == '%' || At(rest, |u|) == '\0')
  }

  lemma AddressTail(rest: string, u: string, k: nat)
    requires Address(rest, u) && k <= |u|
    ensures Address(rest[k..], u[k..]) && rest[k..][|u| - k..] == rest[|u|..]
  {
    var r, v := rest[k..], u[k..];
    assert forall i :: 0 <= i < |v| ==> v[i] == u[k + i] == rest[k + i] == r[i];
    assert At(r, |v|) == At(rest, |u|);
  }

  lemma LastField(c: Config, u: string)
    requires Wellformed(c) && c.Config? && (c.mode == FrontWord || c.mode == BackWord) && c.word == 0
    requires Address(c.rest, u) && AllHex(u) && Value(0, u, 16) <= 0xFFFF
    requires |c.front| + |c.back| < 8 && (c.mode == FrontWord ==> c.back == [])
    ensures var w := Value(0, u, 16);
            Run(c) == Finish(c.rest[|u|..], Some(if c.mode == FrontWord then (c.front + [w], []) else (c.front, c.back + [w])))
  {
    hide Run, Finish;
    ReadHex(c, |u|);
    var d := c.(rest := c.rest[|u|..], word := Value(0, u, 16));
    assert At(d.rest, 0) == At(c.rest, |u|);
    EndOfWord(d);
  }

  /** The last word is stored, and the text ends or has a scope. */
  lemma EndOfWord(d: Config)
    requires Wellformed(d) && d.Config? && (d.mode == FrontWord || d.mode == BackWord) && d.word <= 0xFFFF
    requires |d.front| + |d.back| < 8 && (At(d.rest, 0) == '%' || At(d.rest, 0) == '\0')
    ensures Run(d) == Finish(d.rest, Some(if d.mode == FrontWord then (d.front + [d.word], []) else (d.front, d.back + [d.word])))
  {
    hide Run;
    RunStep(d);
    var e := Step(d);
    if At(d.rest, 0) == '%' {
      assert e.mode == Scope && e.rest == d.rest[1..] && e.word == 0;
      ReadScope(e);
    } else {
      RunEnds(e);
    }
  }

  /** The field before the first colon of `u`. */
  lemma ColonField(c: Config, u: string, i: nat)
    requires Wellformed(c) && c.Config? && (c.mode == FrontWord || c.mode == BackWord) && c.word == 0
    requires Address(c.rest, u) && i < |u| && u[i] == ':' && FieldOk(u[..i])
    requires |c.front| + |c.back| < 8 && (c.mode == FrontWord ==> c.back == [])
    ensures var w := Value(0, u[..i], 16); var rest := c.rest[i + 1..];
            Run(c) == Run(if c.mode == FrontWord then Config(FrontColon, rest, 0, c.front + [w], [])
                          else Config(BackWord, rest, 0, c.front, c.back + [w]))
    ensures Address(c.rest[i + 1..], u[i + 1..])
  {
    hide Run;
    assert c.rest[..i] == u[..i];
    ReadHex(c, i);
    var d := c.(rest := c.rest[i..], word := Value(0, u[..i], 16));
    assert At(d.rest, 0) == ':' && d.rest[1..] == c.rest[i + 1..];
    RunStep(d);
    AddressTail(c.rest, u, i + 1);
  }

  /** Splitting at the first colon, in the words of `Split`. */
  lemma FirstField(u: string) returns (r: Option<nat>, f: string)
    ensures r == Find(u, ":", 0) && |f| <= |u| && f == u[..|f|] && Split(u, ":")[0] == f
    ensures forall i :: 0 <= i < |f| ==> f[i] != ':'
    ensures r.None? ==> f == u && Split(u, ":") == [u]
    ensures r.Some? ==> r.value == |f| < |u| && u[|f|] == ':'
    ensures r.Some? ==> Split(u, ":")[1..] == Split(u[|f| + 1..], ":")
  {
    r := Find(u, ":", 0);
    if r.None? {
      f := u;
      CharAbsent(u, ':');
    } else {
      f := u[..r.value];
      CharOccursAt(u, ':', r.value);
      forall i | 0 <= i < |f| ensures f[i] != ':' {
        CharOccursAt(u, ':', i);
      }
      assert Split(u, ":") == [f] + Split(u[|f| + 1..], ":");
    }
  }

  lemma SplitAtStart(u: string)
    ensures Split(u, ":")[0] == [] && |Split(u, ":")| > 1 <==> u != [] && u[0] == ':'
    ensures u != [] && u[0] == ':' ==> Split(u, ":")[1..] == Split(u[1..], ":")
  {
    var r, f := FirstField(u);
  }

  lemma {:induction false} ReadBack(c: Config, u: string)
    requires Wellformed(c) && c.Config? && c.mode == BackWord && c.word == 0 && Address(c.rest, u)
    ensures Run(c) == Finish(c.rest[|u|..], BackFields(c.front, c.back, Split(u, ":")))
    decreases |u|
  {
    hide Run, Finish, BackFields, Address, Split, FieldOk;
    var r, f := FirstField(u);
    var fields := Split(u, ":");
    assert fields[0] == f;
    BackFieldsStep(c.front, c.back, fields);
    AddressHead(c.rest, u, f);
    FieldOkIs(f);
    FinishNone(c.rest[|u|..]);
    if !FieldOk(f) {
      BadField(c, f);
    } else if |c.front| + |c.back| == 8 {
      FullField(c, f);
    } else if r.None? {
      LastField(c, u);
    } else {
      ColonField(c, u, |f|);
      ReadBack(Config(BackWord, c.rest[|f| + 1..], 0, c.front, c.back + [Value(0, f, 16)]), u[|f| + 1..]);
      AddressTail(c.rest, u, |f| + 1);
    }
  }

  lemma BackFieldsStep(front: seq<uint16>, back: seq<uint16>, fields: seq<string>)
    requires fields != [] && |front| + |back| <= 8
    ensures BackFields(front, back, fields) ==
            if !FieldOk(fields[0]) || |front| + |back| == 8 then None
            else if |fields| == 1 then Some((front, back + [Value(0, fields[0], 16)]))
            else BackFields(front, back + [Value(0, fields[0], 16)], fields[1..])
  {
  }

  lemma FinishNone(tail: string)
    ensures Finish(tail, None) == Rejected
  {
  }

  lemma FieldOkIs(f: string)
    ensures FieldOk(f) <==> AllHex(f) && Value(0, f, 16) <= 0xFFFF
  {
  }

  /** The first field of an address part has no special character, and something that is no digit follows it. */
  lemma AddressHead(rest: string, u: string, f: string)
    requires Address(rest, u) && |f| <= |u| && f == u[..|f|] && (|f| < |u| ==> u[|f|] == ':')
    requires forall i :: 0 <= i < |f| ==> f[i] != ':'
    ensures |f| <= |u| <= |rest| && f == rest[..|f|] && !IsHex(At(rest, |f|))
    ensures forall i :: 0 <= i < |f| ==> f[i] != ':' && f[i] != '%' && f[i] != '\0'
  {
    assert forall i :: 0 <= i < |f| ==> f[i] == u[i];
  }

  lemma FullField(c: Config, f: string)
    requires Wellformed(c) && c.Config? && (c.mode == FrontWord || c.mode == BackWord) && c.word == 0
    requires |f| <= |c.rest| && f == c.rest[..|f|] && FieldOk(f) && !IsHex(At(c.rest, |f|))
    requires if c.mode == FrontWord then |c.front| == 8 else |c.front| + |c.back| == 8
    ensures Run(c) == Rejected
  {
    hide Run;
    ReadHex(c, |f|);
    var d := c.(rest := c.rest[|f|..], word := Value(0, f, 16));
    assert At(d.rest, 0) == At(c.rest, |f|);
    RunStep(d);
    assert Step(d) == Fail;
    RunEnds(Fail);
  }

  lemma {:induction false} ReadFront(c: Config, u: string)
    requires Wellformed(c) && c.Config? && c.mode == FrontWord && c.word == 0 && c.back == [] && Address(c.rest, u)
    ensures Run(c) == Finish(c.rest[|u|..], FrontFields(c.front, Split(u, ":")))
    decreases |u|, 0
  {
    hide Run, Finish, FrontFields, BackFields, Address, Split, FieldOk;
    var r, f := FirstField(u);
    var fields := Split(u, ":");
    assert fields[0] == f;
    FrontFieldsEnd(c.front, fields);
    AddressHead(c.rest, u, f);
    FieldOkIs(f);
    FinishNone(c.rest[|u|..]);
    if !FieldOk(f) {
      BadField(c, f);
    } else if |c.front| == 8 {
      FullField(c, f);
    } else if r.None? {
      LastField(c, u);
    } else {
      ColonField(c, u, |f|);
      ReadColon(Config(FrontColon, c.rest[|f| + 1..], 0, c.front + [Value(0, f, 16)], []), u[|f| + 1..]);
      SplitAtStart(u[|f| + 1..]);
      AddressTail(c.rest, u, |f| + 1);
      FrontFieldsStep(c.front, Split(u, ":"));
    }
  }

  lemma FrontFieldsEnd(front: seq<uint16>, fields: seq<string>)
    requires fields != [] && |front| <= 8
    ensures !FieldOk(fields[0]) || |front| == 8 ==> FrontFields(front, fields).None?
    ensures FieldOk(fields[0]) && |front| < 8 && |fields| == 1 ==>
      FrontFields(front, fields) == Some((front + [Value(0, fields[0], 16)], []))
  {
  }

  lemma FrontFieldsStep(front: seq<uint16>, fields: seq<string>)
    requires |fields| > 1 && FieldOk(fields[0]) && |front| < 8
    ensures var rest := fields[1..]; var more := front + [Value(0, fields[0], 16)];
            FrontFields(front, fields) ==
            if rest[0] == [] && |rest| > 1 then BackFields(more, [], rest[1..]) else FrontFields(more, rest)
  {
    assert fields[1..][1..] == fields[2..];
  }

  lemma {:induction false} ReadColon(c: Config, u: string)
    requires Wellformed(c) && c.Config? && c.mode == FrontColon && c.word == 0 && Address(c.rest, u)
    ensures Run(c) == Finish(c.rest[|u|..],
                             if u != [] && u[0] == ':' then BackFields(c.front, [], Split(u[1..], ":"))
                             else FrontFields(c.front, Split(u, ":")))
    decreases |u|, 1
  {
    hide Run, Finish, FrontFields, BackFields, Split;
    assert u != [] ==> c.rest[0] == u[0];
    RunStep(c);
    if u != [] && u[0] == ':' {
      AddressTail(c.rest, u, 1);
      ReadBack(Step(c), u[1..]);
    } else {
      ReadFront(Step(c), u);
    }
  }

  lemma WordsTail(fields: seq<string>)
    requires fields != [] && FieldsOk(fields)
    ensures Words(fields)[0] == Value(0, fields[0], 16) && Words(fields)[1..] == Words(fields[1..])
  {
  }

  lemma {:induction false} BackFieldsAre(front: seq<uint16>, back: seq<uint16>, fields: seq<string>)
    requires fields != [] && |front| + |back| <= 8
    ensures BackFields(front, back, fields) ==
            if FieldsOk(fields) && |front| + |back| + |fields| <= 8 then Some((front, back + Words(fields))) else None
    decreases |fields|
  {
    if FieldOk(fields[0]) && |front| + |back| < 8 {
      var w: uint16 := Value(0, fields[0], 16);
      if |fields| > 1 {
        BackFieldsAre(front, back + [w], fields[1..]);
      }
      if FieldsOk(fields) {
        WordsTail(fields);
        var ws := Words(fields);
        assert back + ws == back + [w] + ws[1..];
        if |fields| == 1 {
          assert back + ws == back + [w];
        }
      }
    }
  }

  lemma {:induction false} GapShift(fields: seq<string>, k: nat)
    requires fields != []
    ensures FirstGap(fields, k + 1) == match FirstGap(fields[1..], k) case None => None case Some(i) => Some(i + 1)
    decreases |fields| - k
  {
    if k + 2 < |fields| {
      GapShift(fields, k + 1);
    }
  }

  /** The words before and after the gap of `fields`, put behind `front`. */
  function Parted(front: seq<uint16>, fields: seq<string>): Option<(seq<uint16>, seq<uint16>)> {
    if !FieldsOk(fields) then None
    else
      var ws := Words(fields);
      match FirstGap(fields, 1)
      case None => if |front| + |ws| <= 8 then Some((front + ws, [])) else None
      case Some(i) => if |front| + |ws| - 1 <= 8 then Some((front + ws[..i], ws[i + 1..])) else None
  }

  lemma PartedStep(front: seq<uint16>, fields: seq<string>)
    requires |fields| > 1 && FieldOk(fields[0]) && !(fields[1] == [] && |fields| > 2)
    ensures Parted(front, fields) == Parted(front + [Value(0, fields[0], 16)], fields[1..])
  {
    hide FirstGap, Words;
    GapShift(fields, 1);
    LateGap(fields);
    if FieldsOk(fields) {
      WordsTail(fields);
      var ws, ws1 := Words(fields), Words(fields[1..]);
      var g := FirstGap(fields[1..], 1);
      ShiftWords(front, ws, if g.Some? then g.value else 0);
      assert ws1 == ws[1..] && ws[0] == Value(0, fields[0], 16);
    }
  }

  /** A gap is not at the second field, unless that is empty and not the last. */
  lemma LateGap(fields: seq<string>)
    requires |fields| > 1 && !(fields[1] == [] && |fields| > 2)
    ensures FirstGap(fields, 1) == FirstGap(fields, 2)
  {
  }

  /** The first word moves from one list to the end of the other. */
  lemma ShiftWords(front: seq<uint16>, ws: seq<uint16>, g: nat)
    requires ws != [] && g < |ws|
    ensures front + ws == front + [ws[0]] + ws[1..]
    ensures front + ws[..g + 1] == front + [ws[0]] + ws[1..][..g]
    ensures g + 2 <= |ws| ==> ws[g + 2..] == ws[1..][g + 1..]
  {
    assert ws == [ws[0]] + ws[1..];
    assert ws[..g + 1] == [ws[0]] + ws[1..][..g];
  }

  lemma PartedSingle(front: seq<uint16>, f: string)
    requires FieldOk(f)
    ensures Parted(front, [f]) == if |front| < 8 then Some((front + [Value(0, f, 16)], [])) else None
  {
    assert [f][1..] == [];
    assert FieldsOk([f]) && FirstGap([f], 1).None?;
    WordsTail([f]);
    var ws := Words([f]);
    assert |ws| == 1 && ws == [ws[0]];
  }

  lemma PartedGap(front: seq<uint16>, fields: seq<string>)
    requires |fields| > 2 && FieldOk(fields[0]) && fields[1] == [] && |front| < 8
    ensures Parted(front, fields) == BackFields(front + [Value(0, fields[0], 16)], [], fields[2..])
  {
    var w: uint16 := Value(0, fields[0], 16);
    var tail := fields[2..];
    BackFieldsAre(front + [w], [], tail);
    assert FirstGap(fields, 1) == Some(1);
    assert fields[1..][0] == [] && FieldOk([]) && fields[1..][1..] == tail;
    assert FieldsOk(fields[1..]) == FieldsOk(tail);
    assert FieldsOk(fields) == FieldsOk(fields[1..]);
    if FieldsOk(tail) {
      var ws, back := Words(fields), Words(tail);
      WordsTail(fields);
      WordsTail(fields[1..]);
      assert ws[2..] == ws[1..][1..] == back && ws[..1] == [w];
      assert [] + back == back;
    }
  }

  lemma {:induction false} FrontFieldsAre(front: seq<uint16>, fields: seq<string>)
    requires fields != [] && |front| <= 8
    ensures FrontFields(front, fields) == Parted(front, fields)
    decreases |fields|
  {
    if FieldOk(fields[0]) && |front| < 8 {
      if |fields| == 1 {
        PartedSingle(front, fields[0]);
        assert fields == [fields[0]];
      } else if fields[1] == [] && |fields| > 2 {
        PartedGap(front, fields);
      } else {
        PartedStep(front, fields);
        FrontFieldsAre(front + [Value(0, fields[0], 16)], fields[1..]);
      }
    }
  }

  lemma {:induction false} CStrTail(s: string, k: nat)
    requires k <= |CStr(s)|
    ensures CStr(s[k..]) == CStr(s)[k..]
    decreases k
  {
    if k == 0 {
      assert s[0..] == s;
    } else {
      CStrTail(s[1..], k - 1);
      assert s[1..][k - 1..] == s[k..];
    }
  }

  /** The part of a C string before its first '%', or all of it. */
  function AddressPart(src: string): string {
    var t := CStr(src);
    var r := Find(t, "%", 0);
    if r.Some? then t[..r.value] else t
  }

  lemma AddressPartIs(src: string)
    ensures var t, u := CStr(src), AddressPart(src); var r := Find(t, "%", 0);
            && Address(src, u)
            && (r.None? ==> At(src, |u|) == '\0')
            && (r.Some? ==> At(src[|u|..], 0) == '%' && CStr(src[|u|..][1..]) == t[r.value + 1..])
  {
    hide CStr, Find;
    var t := CStr(src);
    var r := Find(t, "%", 0);
    CharAbsent(t, '%');
    if r.Some? {
      CharOccursAt(t, '%', r.value);
      NothingBefore(t, '%', r.value);
      CStrTail(src, r.value + 1);
      assert src[r.value..][1..] == src[r.value + 1..];
    }
  }

  lemma NothingBefore(t: string, c: char, n: nat)
    requires Find(t, [c], 0) == Some(n)
    ensures n < |t| && forall i :: 0 <= i < n ==> t[i] != c
  {
    CharOccursAt(t, c, n);
    forall i | 0 <= i < n ensures t[i] != c {
      CharOccursAt(t, c, i);
    }
  }

  lemma FieldsMean(fields: seq<string>)
    requires fields != []
    ensures Denote(fields) == match FrontFields([], fields) case None => None case Some((f, b)) => Some(Assemble(f, b))
  {
    FrontFieldsAre([], fields);
    if FieldsOk(fields) {
      var ws := Words(fields);
      assert [] + ws == ws;
      var g := FirstGap(fields, 1);
      if g.Some? {
        assert [] + ws[..g.value] == ws[..g.value];
      }
    }
  }

  /** The loop computes the meaning of its text: front words, zero padding, back words, or an error. */
  lemma {:induction false} ScannerMeaning(src: string)
    ensures Run(Start(src)) == Meaning(src)
  {
    hide Run, Denote, Split, FrontFields, Find, CStr, EndlessScope;
    var u := AddressPart(src);
    AddressPartIs(src);
    ReadFront(Start(src), u);
    FieldsMean(Split(u, ":"));
    assert At(src[|u|..], 0) == At(src, |u|);
  }

  /** The loop runs for ever exactly on text whose address part is fine and is followed by '%' and
      nothing but decimal digits worth at most 0xFFFF. On all other text it reaches `done` or an error. */
  lemma LoopEndsUnlessScoped(src: string)
    ensures (forall n: nat :: Live(Iterate(Start(src), n))) <==> Meaning(src) == Spins
  {
    ScannerMeaning(src);
    if Meaning(src) == Spins {
      forall n: nat ensures Live(Iterate(Start(src), n)) {
        RunNeverHalts(Start(src), n);
      }
    } else {
      var n := RunHalts(Start(src));
    }
  }

  /** What the call does: it returns 1, it returns -1, or it never returns. */
  datatype Verdict = One | MinusOne | NoReturn

  /** `dest` holds the front words and zeros, `back` the back words. */
  ghost predicate Stored(dest: array<byte>, numFront: nat, back: array<byte>, numBack: nat, c: Config)
    reads dest, back
  {
    && dest.Length == back.Length == 16
    && Wellformed(c) && c.Config?
    && numFront == 2 * |c.front| && numBack == 2 * |c.back|
    && dest[..numFront] == WordBytes(c.front) && back[..numBack] == WordBytes(c.back)
    && (forall i :: numFront <= i < 16 ==> dest[i] == 0)
  }

  /** The bytes of the assembled address. */
  lemma {:induction false} AssembledBytes(front: seq<uint16>, back: seq<uint16>, bs: seq<byte>)
    requires |front| + |back| <= 8 && |bs| == 16
    requires bs[..2 * |front|] == WordBytes(front) && bs[16 - 2 * |back|..] == WordBytes(back)
    requires forall i :: 2 * |front| <= i < 16 - 2 * |back| ==> bs[i] == 0
    ensures bs == WordBytes(Assemble(front, back))
  {
    var n := 8 - |front| - |back|;
    WordBytesAppend(front + Zeros(n), back);
    WordBytesAppend(front, Zeros(n));
    WordBytesZeros(n);
    var mid := bs[2 * |front|..16 - 2 * |back|];
    assert bs == bs[..2 * |front|] + mid + bs[16 - 2 * |back|..];
    assert mid == WordBytes(Zeros(n));
  }

  method StoreWord(a: array<byte>, n: nat, word: nat, ghost ws: seq<uint16>)
    requires n + 2 <= a.Length && word <= 0xFFFF && n == 2 * |ws| && a[..n] == WordBytes(ws)
    modifies a
    ensures a[..n + 2] == WordBytes(ws + [word])
    ensures forall i :: n + 2 <= i < a.Length ==> a[i] == old(a[i])
  {
    a[n] := word / 0x100;
    a[n + 1] := word % 0x100;
    assert (ws + [word])[..|ws|] == ws;
    assert a[..n + 2] == a[..n] + [a[n], a[n + 1]];
  }

  /** `memset(bytes, 0, 16)`. */
  method Clear(dest: array<byte>)
    modifies dest
    ensures forall i :: 0 <= i < dest.Length ==> dest[i] == 0
  {
    for i := 0 to dest.Length
      invariant forall j :: 0 <= j < i ==> dest[j] == 0
    {
      dest[i] := 0;
    }
  }

  /** The last loop: the back bytes go to the end of the address. */
  method CopyBack(dest: array<byte>, back: array<byte>, numBack: nat)
    requires dest != back && dest.Length == back.Length == 16 && numBack <= 16
    modifies dest
    ensures forall j :: 0 <= j < 16 - numBack ==> dest[j] == old(dest[j])
    ensures forall j :: 0 <= j < numBack ==> dest[16 - numBack + j] == back[j]
  {
    for i := 0 to numBack
      invariant forall j :: 0 <= j < 16 - numBack ==> dest[j] == old(dest[j])
      invariant forall j :: 0 <= j < i ==> dest[16 - numBack + j] == back[j]
    {
      dest[16 - numBack + i] := back[i];
    }
  }

  /** The back bytes never reach the front words, so the address is the front, zeros, and the back. */
  method FinishAddress(dest: array<byte>, numFront: nat, back: array<byte>, numBack: nat, ghost c: Config)
    requires dest != back && Stored(dest, numFront, back, numBack, c)
    modifies dest
    ensures dest[..] == WordBytes(Assemble(c.front, c.back))
  {
    ghost var was := dest[..];
    assert was[..numFront] == WordBytes(c.front);
    CopyBack(dest, back, numBack);
    ghost var bs := dest[..];
    assert bs[..numFront] == was[..numFront];
    assert bs[16 - numBack..] == back[..numBack];
    AssembledBytes(c.front, c.back, bs);
  }

  /** What may follow a stored word, in either kind of word. */
  method Separator(src: string, p: nat, next: Mode, ghost c: Config) returns (ok: bool, mode: Mode, q: nat)
    requires p <= |src| && c.Config? && c.rest == src[p..] && c.word == 0 && Wellformed(c)
    requires c.back == [] || next == BackWord
    ensures ok <==> AfterWord(c, next).Config?
    ensures ok ==> q <= |src| && AfterWord(c, next) == c.(mode := mode, rest := src[q..])
  {
    ok, mode, q := true, next, p;
    if At(src, p) == ':' {
      q := p + 1;
    } else if At(src, p) == '%' {
      mode, q := Scope, p + 1;
    } else if At(src, p) == '\0' {
      mode := Done;
    } else {
      ok := false;
    }
  }

  /** The case `fword` of the switch. */
  method FrontCase(src: string, p: nat, word: nat, dest: array<byte>, numFront: nat, back: array<byte>, numBack: nat,
                   ghost c: Config)
    returns (ok: bool, state: Mode, q: nat, w: nat, n: nat)
    requires dest != back && Stored(dest, numFront, back, numBack, c) && word <= 0xFFFF
    requires p <= |src| && c == Config(FrontWord, src[p..], word, c.front, [])
    modifies dest
    ensures ok <==> Step(c).Config?
    ensures ok ==> var d := Step(c); q <= |src| && d == Config(state, src[q..], w, d.front, d.back)
    ensures ok ==> Stored(dest, n, back, numBack, Step(c))
  {
    var x := At(src, p);
    if IsHex(x) {
      return true, FrontWord, p + 1, word * 16 + HexDigit(x), numFront;
    }
    if numFront == 16 {
      return false, FrontWord, p, word, numFront;
    }
    StoreWord(dest, numFront, word, c.front);
    ok, state, q := Separator(src, p, FrontColon, c.(front := c.front + [word], word := 0));
    w, n := 0, numFront + 2;
  }

  /** The case `bword` of the switch. */
  method BackCase(src: string, p: nat, word: nat, dest: array<byte>, numFront: nat, back: array<byte>, numBack: nat,
                  ghost c: Config)
    returns (ok: bool, state: Mode, q: nat, w: nat, n: nat)
    requires dest != back && Stored(dest, numFront, back, numBack, c) && word <= 0xFFFF
    requires p <= |src| && c == Config(BackWord, src[p..], word, c.front, c.back)
    modifies back
    ensures ok <==> Step(c).Config?
    ensures ok ==> var d := Step(c); q <= |src| && d == Config(state, src[q..], w, d.front, d.back)
    ensures ok ==> Stored(dest, numFront, back, n, Step(c))
  {
    var x := At(src, p);
    if IsHex(x) {
      return true, BackWord, p + 1, word * 16 + HexDigit(x), numBack;
    }
    if numFront + numBack == 16 {
      return false, BackWord, p, word, numBack;
    }
    StoreWord(back, numBack, word, c.back);
    ok, state, q := Separator(src, p, BackWord, c.(back := c.back + [word], word := 0));
    w, n := 0, numBack + 2;
  }

  /** The cases `fcolon` and `scope`, which store nothing. */
  method OtherCase(src: string, p: nat, word: nat, mode: Mode, ghost c: Config) returns (ok: bool, state: Mode, q: nat, w: nat)
    requires Wellformed(c) && c.Config? && p <= |src| && word <= 0xFFFF && c == Config(mode, src[p..], word, c.front, c.back)
    requires (mode == FrontColon && word == 0) || (mode == Scope && !Stuck(c))
    ensures ok <==> Step(c).Config?
    ensures ok ==> q <= |src| && Step(c) == c.(mode := state, rest := src[q..], word := w)
  {
    var x := At(src, p);
    ok, state, q, w := true, mode, p, word;
    if mode == FrontColon {
      if x == ':' {
        state, q := BackWord, p + 1;
      } else {
        state := FrontWord;
      }
    } else if IsDigit(x) {
      w, q := word * 10 + HexDigit(x), p + 1;
    } else {
      ok := false;
    }
  }

  /** `inet_pton(AF_INET6, src, dest)`. A live configuration that an iteration leaves as it is makes the
      loop of `inet_pton` endless; here it ends the method with `NoReturn`. */
  method InetPton6(src: string, dest: array<byte>) returns (verdict: Verdict)
    requires dest.Length == 16
    modifies dest
    ensures verdict.NoReturn? <==> Meaning(src).Spins?
    ensures verdict.One? <==> Meaning(src).Accepted?
    ensures verdict.One? ==> dest[..] == WordBytes(Meaning(src).words)
  {
    hide Run, Meaning, Assemble;
    ScannerMeaning(src);
    Clear(dest);
    var back := new byte[16];
    var numFront, numBack, p, word: nat, state := 0, 0, 0, 0, FrontWord;
    ghost var c := Start(src);
    assert src[0..] == src;
    while state != Done
      invariant Stored(dest, numFront, back, numBack, c)
      invariant p <= |src| && word <= 0xFFFFF
      invariant c == Config(state, src[p..], word, c.front, c.back)
      invariant state == FrontColon ==> word == 0
      invariant Run(c) == Meaning(src)
      decreases |src| - p, Rank(c)
    {
      RunTurn(c);
      if word > 0xFFFF {
        return MinusOne;
      }
      if state == Scope && At(src, p) == '\0' {
        return Verdict.NoReturn;
      }
      StepProgress(c);
      var ok;
      if state == FrontWord {
        ok, state, p, word, numFront := FrontCase(src, p, word, dest, numFront, back, numBack, c);
      } else if state == BackWord {
        ok, state, p, word, numBack := BackCase(src, p, word, dest, numFront, back, numBack, c);
      } else {
        ok, state, p, word := OtherCase(src, p, word, state, c);
      }
      if !ok {
        return MinusOne;
      }
      c := Step(c);
    }
    RunEnds(c);
    FinishAddress(dest, numFront, back, numBack, c);
    return One;
  }
}
