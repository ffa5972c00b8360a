/** `debug_uid_table`: the allocator of small ids, and the handles that hold them. */
module UidTable {
  import opened Bytes

  /** The id given out when the table is full; it is never in the table. */
  const EXHAUSTED: uint32 := 0xFFFF_FFFF

  predicate NoDuplicates(t: seq<uint32>) {
    forall i, j :: 0 <= i < j < |t| ==> t[i] != t[j]
  }

  /** The least id from `i` on that is not in the table, or `EXHAUSTED`. */
  function FirstFree(t: seq<uint32>, i: uint32): (r: uint32)
    ensures i <= r
    ensures forall k: uint32 :: i <= k < r ==> k in t
    ensures r < EXHAUSTED ==> r !in t
    decreases EXHAUSTED - i
  {
    if i == EXHAUSTED || i !in t then i else FirstFree(t, i + 1)
  }

  function Alloc(t: seq<uint32>): (uint32, seq<uint32>) {
    var id := FirstFree(t, 0);
    (id, if id == EXHAUSTED then t else t + [id])
  }

  function IndexOf(t: seq<uint32>, id: uint32): (k: nat)
    ensures k <= |t| && (k < |t| ==> t[k] == id) && (forall j :: 0 <= j < k ==> t[j] != id)
    ensures k == |t| ==> id !in t
  {
    if t == [] || t[0] == id then 0 else 1 + IndexOf(t[1..], id)
  }

  function Free(t: seq<uint32>, id: uint32): seq<uint32> {
    var k := IndexOf(t, id);
    if k == |t| then t else t[..k] + t[k + 1..]
  }

  class Core {
    var table: seq<uint32>

    constructor ()
      ensures table == []
    {
      table := [];
    }

    /** `alloc`: searches the ids from 0 upwards. */
    method AllocId() returns (id: uint32)
      modifies this
      ensures (id, table) == Alloc(old(table))
    {
      var i: uint32 := 0;
      while i < EXHAUSTED
        invariant FirstFree(table, 0) == FirstFree(table, i)
        invariant table == old(table)
      {
        var found := false;
        for k := 0 to |table|
          invariant found <==> i in table[..k]
        {
          if table[k] == i {
            found := true;
          }
        }
        assert table[..|table|] == table;
        if !found {
          table := table + [i];
          return i;
        }
        i := i + 1;
      }
      return EXHAUSTED;
    }

    /** `free`: erases the first entry equal to the id, if there is one. */
    method FreeId(id: uint32)
      modifies this
      ensures table == Free(old(table), id)
    {
      var k := 0;
      while k < |table| && table[k] != id
        invariant k <= |table| && forall j :: 0 <= j < k ==> table[j] != id
      {
        k := k + 1;
      }
      if k < |table| {
        table := table[..k] + table[k + 1..];
      }
    }
  }

  // ----- pigeonhole -----

  lemma RemoveAt(s: seq<uint32>, k: nat)
    requires k < |s|
    ensures multiset(s[..k] + s[k + 1..]) == multiset(s) - multiset{s[k]}
  {
    assert s == s[..k] + [s[k]] + s[k + 1..];
  }

  /** A table that holds all ids below `n` has at least `n` entries. */
  lemma {:induction false} Pigeonhole(t: seq<uint32>, n: uint32)
    requires forall k: uint32 :: k < n ==> k in t
    ensures n <= |t|
    decreases n
  {
    if n > 0 {
      var i := IndexOf(t, n - 1);
      var rest := t[..i] + t[i + 1..];
      forall k: uint32 | k < n - 1 ensures k in rest {
        assert k in t && t[i] != k;
        var j :| 0 <= j < |t| && t[j] == k;
        assert rest[if j < i then j else j - 1] == k;
      }
      Pigeonhole(rest, n - 1);
    }
  }

  /** The id given out is the least unused one, and never above the number of ids in use. */
  lemma AllocIsSmall(t: seq<uint32>)
    requires |t| < EXHAUSTED
    ensures var id := Alloc(t).0;
            id <= |t| && id !in t && forall k: uint32 :: k < id ==> k in t
  {
    Pigeonhole(t, FirstFree(t, 0));
  }

  // ----- all histories -----

  /** `New` constructs a `debug_uid`, which allocates; `Drop(k)` destroys the k-th living one, which frees its id. */
  datatype Event = New | Drop(k: nat)

  datatype World = World(table: seq<uint32>, live: seq<uint32>)

  function Exec(w: World, e: Event): World {
    match e
    case New => var (id, t) := Alloc(w.table); World(t, w.live + [id])
    case Drop(k) => if k < |w.live| then World(Free(w.table, w.live[k]), w.live[..k] + w.live[k + 1..]) else w
  }

  function Run(es: seq<Event>): World {
    if es == [] then World([], []) else Exec(Run(es[..|es| - 1]), es[|es| - 1])
  }

  /** The table holds each id once, and holds exactly the ids of the living handles that have a proper id. */
  ghost predicate Inv(w: World) {
    && (forall x: uint32 :: multiset(w.table)[x] <= 1)
    && multiset(w.live)[EXHAUSTED := 0] == multiset(w.table)
  }

  lemma {:induction false} RunKeepsInv(es: seq<Event>)
    ensures Inv(Run(es))
  {
    if es != [] {
      RunKeepsInv(es[..|es| - 1]);
      ExecKeepsInv(Run(es[..|es| - 1]), es[|es| - 1]);
    }
  }

  lemma ExecKeepsInv(w: World, e: Event)
    requires Inv(w)
    ensures Inv(Exec(w, e))
  {
    match e
    case New =>
      var (id, t) := Alloc(w.table);
      if id == EXHAUSTED {
        assert multiset(w.live + [id])[EXHAUSTED := 0] == multiset(w.live)[EXHAUSTED := 0];
      } else {
        assert multiset(w.live + [id])[EXHAUSTED := 0] == multiset(w.live)[EXHAUSTED := 0] + multiset{id};
      }
    case Drop(k) =>
      if k < |w.live| {
        DropKeepsInv(w, k);
      }
  }

  lemma FreeRemovesOne(t: seq<uint32>, id: uint32)
    ensures multiset(Free(t, id)) == multiset(t) - multiset{id}
  {
    hide IndexOf;
    var k := IndexOf(t, id);
    if k < |t| {
      RemoveAt(t, k);
    } else {
      assert multiset(t)[id] == 0;
      NothingToRemove(multiset(t), id);
    }
  }

  lemma NothingToRemove(m: multiset<uint32>, id: uint32)
    requires m[id] == 0
    ensures m - multiset{id} == m
  {
  }

  lemma MaskedRemoval(m: multiset<uint32>, id: uint32)
    requires id in m
    ensures (m - multiset{id})[EXHAUSTED := 0] == m[EXHAUSTED := 0] - multiset{id}
  {
  }

  lemma DropKeepsInv(w: World, k: nat)
    requires Inv(w) && k < |w.live|
    ensures Inv(Exec(w, Drop(k)))
  {
    hide Free;
    var id := w.live[k];
    RemoveAt(w.live, k);
    FreeRemovesOne(w.table, id);
    MaskedRemoval(multiset(w.live), id);
    RemovalKeepsSingle(multiset(w.table), id);
  }

  lemma RemovalKeepsSingle(m: multiset<uint32>, id: uint32)
    requires forall x: uint32 :: m[x] <= 1
    ensures forall x: uint32 :: (m - multiset{id})[x] <= 1
  {
  }

  /** At no time were more than `n` handles alive. */
  ghost predicate NeverMoreThan(es: seq<Event>, n: nat) {
    forall k :: 0 <= k <= |es| ==> |Run(es[..k]).live| <= n
  }

  /** At all times the living handles were distinct. */
  ghost predicate AlwaysDistinct(es: seq<Event>) {
    forall k :: 0 <= k <= |es| ==> NoDuplicates(Run(es[..k]).live)
  }

  /** At all times the table was exactly the ids of the living handles. */
  ghost predicate AlwaysTheTable(es: seq<Event>) {
    forall k :: 0 <= k <= |es| ==> multiset(Run(es[..k]).live) == multiset(Run(es[..k]).table)
  }

  /** The living handles are distinct at all times exactly if there are never more than 2^32 of them, one of which then
      is the exhausted one. */
  lemma {:induction false} LiveHandlesDistinct(es: seq<Event>)
    ensures AlwaysDistinct(es) <==> NeverMoreThan(es, 0x1_0000_0000)
  {
    hide Run;
    if AlwaysDistinct(es) {
      forall k | 0 <= k <= |es| ensures |Run(es[..k]).live| <= 0x1_0000_0000 {
        DistinctAreFew(Run(es[..k]).live, 0x1_0000_0000);
      }
    }
    if NeverMoreThan(es, 0x1_0000_0000) {
      forall k | 0 <= k <= |es| ensures NoDuplicates(Run(es[..k]).live) {
        UpTo(es, k, 0x1_0000_0000);
        FewAreDistinct(es[..k]);
        SinglesAreDistinct(Run(es[..k]).live);
      }
    }
  }

  /** The table is exactly the ids of the living handles at all times exactly if there are never more than 2^32 - 1. */
  lemma {:induction false} TableIsTheLiving(es: seq<Event>)
    ensures AlwaysTheTable(es) <==> NeverMoreThan(es, EXHAUSTED)
  {
    hide Run;
    if AlwaysTheTable(es) {
      forall k | 0 <= k <= |es| ensures |Run(es[..k]).live| <= EXHAUSTED {
        var w := Run(es[..k]);
        RunKeepsInv(es[..k]);
        TableIsSmall(w);
        assert |multiset(w.live)| == |w.live| && |multiset(w.table)| == |w.table|;
      }
    }
    if NeverMoreThan(es, EXHAUSTED) {
      forall k | 0 <= k <= |es| ensures multiset(Run(es[..k]).live) == multiset(Run(es[..k]).table) {
        UpTo(es, k, EXHAUSTED);
        FewAreProper(es[..k]);
        RunKeepsInv(es[..k]);
        ProperOnly(Run(es[..k]).live);
      }
    }
  }

  lemma UpTo(es: seq<Event>, k: nat, n: nat)
    requires k <= |es| && NeverMoreThan(es, n)
    ensures NeverMoreThan(es[..k], n)
  {
    forall i | 0 <= i <= k ensures |Run(es[..k][..i]).live| <= n {
      assert es[..k][..i] == es[..i];
    }
  }

  /** Distinct ids below `n` are at most `n`. */
  lemma {:induction false} DistinctAreFew(s: seq<uint32>, n: nat)
    requires NoDuplicates(s) && forall i :: 0 <= i < |s| ==> s[i] < n
    ensures |s| <= n
    decreases n
  {
    assert s != [] ==> s[0] < n;
    if s != [] {
      if i :| 0 <= i < |s| && s[i] == n - 1 {
        var rest := s[..i] + s[i + 1..];
        forall j | 0 <= j < |rest| ensures rest[j] < n - 1 {
          assert rest[j] == s[if j < i then j else j + 1];
        }
        DistinctAreFew(rest, n - 1);
      } else {
        DistinctAreFew(s, n - 1);
      }
    }
  }

  lemma TableIsSmall(w: World)
    requires Inv(w)
    ensures |w.table| <= EXHAUSTED
  {
    SinglesAreDistinct(w.table);
    assert multiset(w.table)[EXHAUSTED] == 0;
    forall i | 0 <= i < |w.table| ensures w.table[i] < EXHAUSTED {
      assert w.table[i] in multiset(w.table);
    }
    DistinctAreFew(w.table, EXHAUSTED);
  }

  /** A full table holds all proper ids. */
  lemma FullTable(t: seq<uint32>)
    requires Alloc(t).0 == EXHAUSTED
    ensures EXHAUSTED <= |t|
  {
    Pigeonhole(t, EXHAUSTED);
  }

  lemma ProperOnly(s: seq<uint32>)
    requires EXHAUSTED !in s
    ensures multiset(s)[EXHAUSTED := 0] == multiset(s)
  {
  }

  lemma MaskedSize(m: multiset<uint32>)
    ensures |m[EXHAUSTED := 0]| + m[EXHAUSTED] == |m|
  {
    assert m == m[EXHAUSTED := 0] + multiset{}[EXHAUSTED := m[EXHAUSTED]];
  }

  /** The number of living handles is that of the ids in the table and of the exhausted ones. */
  lemma LiveCount(w: World)
    requires Inv(w)
    ensures |w.live| == |w.table| + multiset(w.live)[EXHAUSTED]
  {
    MaskedSize(multiset(w.live));
    assert |multiset(w.live)| == |w.live| && |multiset(w.table)| == |w.table|;
  }

  lemma Before(es: seq<Event>, n: nat)
    requires es != [] && NeverMoreThan(es, n)
    ensures NeverMoreThan(es[..|es| - 1], n) && |Run(es).live| <= n
  {
    UpTo(es, |es| - 1, n);
    assert es[..|es|] == es;
  }

  /** At most 2^32 handles: the exhausted one is given out once at most. */
  lemma {:induction false} FewAreDistinct(es: seq<Event>)
    requires NeverMoreThan(es, 0x1_0000_0000)
    ensures forall x: uint32 :: multiset(Run(es).live)[x] <= 1
  {
    if es != [] {
      var before := es[..|es| - 1];
      var w := Run(before);
      Before(es, 0x1_0000_0000);
      FewAreDistinct(before);
      RunKeepsInv(before);
      RunKeepsInv(es);
      LiveCount(w);
      ExecKeepsSingle(w, es[|es| - 1]);
    }
  }

  lemma ExecKeepsSingle(w: World, e: Event)
    requires Inv(w) && Inv(Exec(w, e)) && |Exec(w, e).live| <= 0x1_0000_0000
    requires forall x: uint32 :: multiset(w.live)[x] <= 1
    ensures forall x: uint32 :: multiset(Exec(w, e).live)[x] <= 1
  {
    hide Alloc, Free;
    match e
    case New => NewKeepsSingle(w);
    case Drop(k) =>
      if k < |w.live| {
        RemoveAt(w.live, k);
        RemovalKeepsSingle(multiset(w.live), w.live[k]);
      }
  }

  lemma NewKeepsSingle(w: World)
    requires Inv(w) && Inv(Exec(w, New)) && |Exec(w, New).live| <= 0x1_0000_0000 && multiset(w.live)[EXHAUSTED] <= 1
    ensures forall x: uint32 :: multiset(Exec(w, New).live)[x] <= 1
  {
    hide Alloc, Inv;
    var id := Alloc(w.table).0;
    SingleOrExhausted(Exec(w, New));
    if id == EXHAUSTED {
      FullTable(w.table);
    }
    LiveCount(Exec(w, New));
    NewHandle(w);
  }

  /** A new handle adds its id to the living ones, and to the table unless it is the exhausted one. */
  lemma NewHandle(w: World)
    ensures var id := Alloc(w.table).0;
            && multiset(Exec(w, New).live) == multiset(w.live) + multiset{id}
            && Exec(w, New).table == if id == EXHAUSTED then w.table else w.table + [id]
  {
  }

  /** Proper ids are held once. */
  lemma SingleOrExhausted(w: World)
    requires Inv(w)
    ensures forall x: uint32 :: x != EXHAUSTED ==> multiset(w.live)[x] <= 1
  {
    forall x: uint32 | x != EXHAUSTED ensures multiset(w.live)[x] <= 1 {
      assert multiset(w.live)[EXHAUSTED := 0][x] == multiset(w.live)[x];
    }
  }

  /** At most 2^32 - 1 handles: the exhausted one is never given out. */
  lemma {:induction false} FewAreProper(es: seq<Event>)
    requires NeverMoreThan(es, EXHAUSTED)
    ensures EXHAUSTED !in Run(es).live
  {
    if es != [] {
      var before := es[..|es| - 1];
      var w, e := Run(before), es[|es| - 1];
      Before(es, EXHAUSTED);
      FewAreProper(before);
      RunKeepsInv(before);
      LiveCount(w);
      if e.New? && Alloc(w.table).0 == EXHAUSTED {
        FullTable(w.table);
      }
      ExecAddsNoExhausted(w, e);
    }
  }

  lemma SinglesAreDistinct(s: seq<uint32>)
    requires forall x: uint32 :: multiset(s)[x] <= 1
    ensures NoDuplicates(s)
  {
    forall i, j | 0 <= i < j < |s| ensures s[i] != s[j] {
      var a, b := s[..j], s[j..];
      assert s == a + b && a[i] in a && b[0] in b;
      assert multiset(s)[s[i]] == multiset(a)[s[i]] + multiset(b)[s[i]];
    }
  }

  lemma ExecAddsNoExhausted(w: World, e: Event)
    requires EXHAUSTED !in w.live && (e.New? ==> Alloc(w.table).0 != EXHAUSTED)
    ensures EXHAUSTED !in Exec(w, e).live
  {
  }

  /** Giving back the exhausted handle changes nothing. */
  lemma FreeExhausted(es: seq<Event>)
    ensures Free(Run(es).table, EXHAUSTED) == Run(es).table
  {
    RunKeepsInv(es);
    assert multiset(Run(es).table)[EXHAUSTED] == 0;
  }
}
