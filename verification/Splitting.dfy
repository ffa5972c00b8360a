/** Substring search and splitting: `bin_scan`, `str_split` and their inverse. */
module Splitting {
  import opened Bytes

  predicate OccursAt(s: string, d: string, i: nat) {
    i + |d| <= |s| && s[i..i + |d|] == d
  }

  /** The least occurrence of `d` in `s` at or after `from`. */
  function Find(s: string, d: string, from: nat): (r: Option<nat>)
    requires from <= |s|
    ensures r.Some? ==> from <= r.value && OccursAt(s, d, r.value)
    ensures r.Some? ==> forall j: nat :: from <= j < r.value ==> !OccursAt(s, d, j)
    ensures r.None? ==> forall j: nat :: from <= j ==> !OccursAt(s, d, j)
    decreases |s| - from
  {
    if |s| < from + |d| then None
    else if OccursAt(s, d, from) then Some(from)
    else if from == |s| then None
    else Find(s, d, from + 1)
  }

  /** What the search finds is fixed by the occurrences alone. */
  lemma FindIs(s: string, d: string, from: nat, i: nat)
    requires from <= i && OccursAt(s, d, i)
    requires forall j: nat :: from <= j < i ==> !OccursAt(s, d, j)
    ensures from <= |s| && Find(s, d, from) == Some(i)
  {
    var r := Find(s, d, from);
    assert r.Some? ==> r.value <= i;
  }

  /** Occurrences of a single character. */
  lemma CharOccursAt(s: string, c: char, j: nat)
    ensures OccursAt(s, [c], j) <==> j < |s| && s[j] == c
  {
    if j < |s| {
      assert s[j..j + 1] == [s[j]];
    }
  }

  lemma CharAbsent(s: string, c: char)
    ensures Find(s, [c], 0).None? <==> c !in s
  {
    if c !in s {
      forall j: nat ensures !OccursAt(s, [c], j) {
        CharOccursAt(s, c, j);
      }
    } else {
      var j :| 0 <= j < |s| && s[j] == c;
      CharOccursAt(s, c, j);
    }
  }

  /** The first delimiter behind a text is the one right behind it exactly if the text has none in it. */
  lemma FirstChar(a: string, c: char, b: string)
    ensures Find(a + [c] + b, [c], 0) == Some(|a|) <==> c !in a
  {
    var s := a + [c] + b;
    CharOccursAt(s, c, |a|);
    if c !in a {
      forall j: nat | j < |a| ensures !OccursAt(s, [c], j) {
        CharOccursAt(s, c, j);
        assert s[j] == a[j];
      }
      FindIs(s, [c], 0, |a|);
    } else {
      var j :| 0 <= j < |a| && a[j] == c;
      CharOccursAt(s, c, j);
    }
  }

  /** `bin_scan`: memory is compared with the pattern position by position. */
  method BinScan(mem: string, pat: string) returns (r: Option<nat>)
    ensures r == Find(mem, pat, 0)
    ensures r.Some? ==> mem[..r.value] + pat + mem[r.value + |pat|..] == mem
  {
    if |mem| < |pat| {
      return None;
    }
    var maxToScan := |mem| - |pat|;
    var i := 0;
    while i <= maxToScan
      invariant i <= maxToScan + 1
      invariant forall j: nat :: j < i ==> !OccursAt(mem, pat, j)
    {
      if mem[i..i + |pat|] == pat {
        FindIs(mem, pat, 0, i);
        assert mem == mem[..i] + mem[i..i + |pat|] + mem[i + |pat|..];
        return Some(i);
      }
      i := i + 1;
    }
    return None;
  }

  /** Text split at the leftmost, non-overlapping occurrences of the delimiter. */
  function Split(s: string, d: string): (parts: seq<string>)
    requires d != []
    ensures parts != []
    decreases |s|
  {
    var r := Find(s, d, 0);
    if r.None? then [s] else [s[..r.value]] + Split(s[r.value + |d|..], d)
  }

  function Join(parts: seq<string>, d: string): string
    requires parts != []
  {
    if |parts| == 1 then parts[0] else parts[0] + d + Join(parts[1..], d)
  }

  /** Each part ends at the first place the delimiter could be found; the last part has no delimiter at all. */
  ghost predicate Leftmost(parts: seq<string>, d: string)
    requires parts != []
  {
    if |parts| == 1 then
      Find(parts[0], d, 0).None?
    else
      Find(parts[0] + d, d, 0) == Some(|parts[0]|) && Leftmost(parts[1..], d)
  }

  lemma OccursInPrefix(p: string, d: string, x: string, j: nat)
    requires j <= |p|
    ensures OccursAt(p + d + x, d, j) <==> OccursAt(p + d, d, j)
    ensures OccursAt(p + d, d, |p|)
  {
    var s, t := p + d + x, p + d;
    assert s[j..j + |d|] == t[j..j + |d|];
    assert t[|p|..|p| + |d|] == d;
  }

  lemma FindInPrefix(p: string, d: string, x: string)
    ensures Find(p + d + x, d, 0) == Some(|p|) <==> Find(p + d, d, 0) == Some(|p|)
  {
    hide OccursAt;
    var s, t := p + d + x, p + d;
    forall j: nat | j <= |p| ensures (OccursAt(s, d, j) <==> OccursAt(t, d, j)) && OccursAt(t, d, |p|) {
      OccursInPrefix(p, d, x, j);
    }
    assert OccursAt(s, d, |p|) && OccursAt(t, d, |p|);
    if Find(t, d, 0) == Some(|p|) {
      forall j: nat | j < |p| ensures !OccursAt(s, d, j) {
        assert OccursAt(s, d, j) <==> OccursAt(t, d, j);
      }
      FindIs(s, d, 0, |p|);
    }
    if Find(s, d, 0) == Some(|p|) {
      forall j: nat | j < |p| ensures !OccursAt(t, d, j) {
        assert OccursAt(s, d, j) <==> OccursAt(t, d, j);
      }
      FindIs(t, d, 0, |p|);
    }
  }

  lemma {:induction false} SplitIsLeftmost(s: string, d: string)
    requires d != []
    ensures Join(Split(s, d), d) == s && Leftmost(Split(s, d), d)
    decreases |s|
  {
    var r := Find(s, d, 0);
    if r.Some? {
      var i := r.value;
      var rest := s[i + |d|..];
      assert s == s[..i] + d + rest;
      FindInPrefix(s[..i], d, rest);
      SplitIsLeftmost(rest, d);
      assert Split(s, d)[1..] == Split(rest, d);
    }
  }

  lemma {:induction false} LeftmostIsSplit(parts: seq<string>, d: string)
    requires d != [] && parts != [] && Leftmost(parts, d)
    ensures Split(Join(parts, d), d) == parts
  {
    if |parts| > 1 {
      hide Find, Split;
      var rest := Join(parts[1..], d);
      FindInPrefix(parts[0], d, rest);
      LeftmostIsSplit(parts[1..], d);
      SplitFirst(parts[0], d, rest);
      assert parts == [parts[0]] + parts[1..];
    }
  }

  lemma SplitFirst(p: string, d: string, rest: string)
    requires d != [] && Find(p + d + rest, d, 0) == Some(|p|)
    ensures Split(p + d + rest, d) == [p] + Split(rest, d)
  {
    hide Find;
    var s := p + d + rest;
    assert s[..|p|] == p;
    Halves(p + d, rest);
  }

  /** Splitting is the one leftmost way of writing `s` as parts joined by `d`. */
  lemma SplitExact(s: string, d: string, parts: seq<string>)
    requires d != [] && parts != []
    ensures parts == Split(s, d) <==> Join(parts, d) == s && Leftmost(parts, d)
  {
    SplitIsLeftmost(s, d);
    if Leftmost(parts, d) {
      LeftmostIsSplit(parts, d);
    }
  }

  /** No part contains the delimiter. */
  lemma {:induction false} PartsAvoidDelimiter(parts: seq<string>, d: string, k: nat, j: nat)
    requires d != [] && parts != [] && Leftmost(parts, d) && k < |parts|
    ensures !OccursAt(parts[k], d, j)
  {
    if k > 0 {
      PartsAvoidDelimiter(parts[1..], d, k - 1, j);
    } else if |parts| > 1 && OccursAt(parts[0], d, j) {
      var t := parts[0] + d;
      assert t[j..j + |d|] == parts[0][j..j + |d|];
      assert OccursAt(t, d, j);
    }
  }

  function Count(s: string, c: char): nat {
    if s == [] then 0 else Count(s[..|s| - 1], c) + (if s[|s| - 1] == c then 1 else 0)
  }

  lemma {:induction false} CountAppend(a: string, b: string, c: char)
    ensures Count(a + b, c) == Count(a, c) + Count(b, c)
    decreases |b|
  {
    if b == [] {
      assert a + b == a;
    } else {
      assert (a + b)[..|a + b| - 1] == a + b[..|b| - 1];
      CountAppend(a, b[..|b| - 1], c);
    }
  }

  lemma {:induction false} CountNone(s: string, c: char)
    requires Find(s, [c], 0).None?
    ensures Count(s, c) == 0
  {
    if s != [] {
      assert !OccursAt(s, [c], |s| - 1);
      var t := s[..|s| - 1];
      forall j: nat ensures !OccursAt(t, [c], j) {
        assert OccursAt(t, [c], j) ==> OccursAt(s, [c], j);
      }
      CountNone(t, c);
    }
  }

  /** Split at one character: one part more than there are delimiters. */
  lemma {:induction false} SplitCount(s: string, c: char)
    ensures |Split(s, [c])| == Count(s, c) + 1
    decreases |s|
  {
    var r := Find(s, [c], 0);
    if r.None? {
      CountNone(s, c);
    } else {
      var i := r.value;
      assert s == s[..i] + [c] + s[i + 1..];
      SplitCount(s[i + 1..], c);
      CountAppend(s[..i] + [c], s[i + 1..], c);
      CountAppend(s[..i], [c], c);
      forall j: nat ensures !OccursAt(s[..i], [c], j) {
        assert OccursAt(s[..i], [c], j) ==> OccursAt(s, [c], j);
      }
      CountNone(s[..i], c);
    }
  }

  lemma SplitOnce(s: string, d: string)
    requires d != []
    ensures var r := Find(s, d, 0);
            Split(s, d) == if r.None? then [s] else [s[..r.value]] + Split(s[r.value + |d|..], d)
  {
  }

  /** `_str_split_T`, the `char` instance. An empty delimiter leaves no parts (the assertion aside). */
  method StrSplit(subj: string, delim: string) returns (parts: seq<string>)
    ensures delim == [] ==> parts == []
    ensures delim != [] ==> parts == Split(subj, delim)
  {
    hide Split, Find;
    parts := [];
    if |delim| == 0 {
      return;
    }
    var start := 0;
    while true
      invariant start <= |subj|
      invariant Split(subj, delim) == parts + Split(subj[start..], delim)
      decreases |subj| - start
    {
      var pend := BinScan(subj[start..], delim);
      SplitOnce(subj[start..], delim);
      if pend.None? {
        break;
      }
      var end := start + pend.value;
      assert subj[start..][..pend.value] == subj[start..end];
      assert subj[start..][pend.value + |delim|..] == subj[end + |delim|..];
      Assoc(parts, [subj[start..end]], Split(subj[end + |delim|..], delim));
      parts := parts + [subj[start..end]];
      start := end + |delim|;
    }
    parts := parts + [subj[start..]];
  }
}
