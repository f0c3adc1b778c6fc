/** Recall: which memories are candidates, how clear they are, and the one order they are returned in. Clarity is the
    double nearest to the exact fraction. */
module Recall {
  import opened Wrappers
  import opened TextOrder
  import opened StableSort
  import opened Binary64
  import opened Metadata
  import opened Fingerprint
  import opened Domain
  import opened Tables
  import opened Invariant

  datatype Query = Query(scope: Scope, asOf: int, limit: nat, kinds: seq<string>)

  datatype Item = Item(memory: MemoryRecord, clarity: real)

  function MemoryIds(t: Tables, scope: Scope): (r: set<string>)
    ensures forall x :: x in r <==> Key(scope, x) in t.memories
  {
    var r := set k | k in t.memories && k.scope == scope :: k.id;
    assert forall x :: Key(scope, x) in t.memories ==> Key(scope, x).id in r;
    r
  }

  /** The memories some edge in the scope belongs to. */
  function EdgeOwners(t: Tables, scope: Scope): (r: set<string>)
    ensures forall x :: x in r <==> exists e :: e in t.edges && e.scope == scope && e.memory == x
  {
    set e | e in t.edges && e.scope == scope :: e.memory
  }

  predicate Eligible(r: MemoryRecord, asOf: int, kinds: seq<string>) {
    r.status.Active? && r.recallUntil > asOf && (kinds == [] || r.kind in kinds)
  }

  /** A scope can be recalled when every one of its memories reads back and no edge lacks its memory. */
  predicate Recallable(t: Tables, scope: Scope) {
    && (forall x :: x in MemoryIds(t, scope) ==> MemoryAt(t, Key(scope, x)).Some?)
    && EdgeOwners(t, scope) == MemoryIds(t, scope)
  }

  function Candidates(t: Tables, q: Query): (r: set<MemoryRecord>)
    requires Recallable(t, q.scope)
    ensures forall m :: m in r <==>
      Key(q.scope, m.memoryId) in t.memories && MemoryAt(t, Key(q.scope, m.memoryId)) == Some(m)
        && m.status.Active? && q.asOf < m.recallUntil && (q.kinds == [] || m.kind in q.kinds)
  {
    hide ReadMemory;
    var r := set x | x in MemoryIds(t, q.scope) && Eligible(MemoryAt(t, Key(q.scope, x)).value, q.asOf, q.kinds)
               :: MemoryAt(t, Key(q.scope, x)).value;
    assert forall x :: x in MemoryIds(t, q.scope) ==> MemoryAt(t, Key(q.scope, x)).value.memoryId == x by {
      forall x | x in MemoryIds(t, q.scope)
        ensures MemoryAt(t, Key(q.scope, x)).value.memoryId == x
      {
        RecordIdentity(Key(q.scope, x), t.memories[Key(q.scope, x)], SourceRows(t, Key(q.scope, x)));
      }
    }
    r
  }

  lemma RecordIdentity(k: Key, row: MemoryRow, rows: seq<SourceRow>)
    requires ReadMemory(k, row, rows).Some?
    ensures var r := ReadMemory(k, row, rows).value;
            r.memoryId == k.id && r.scope == k.scope && r.status == row.status && r.kind == row.kind
            && r.fingerprint == row.fingerprint && r.trust == row.trust && r.createdAt == row.createdAt
            && r.clearUntil == row.clearUntil && r.recallUntil == row.recallUntil && r.sources == EventIds(rows)
            && Decode(row.metadata) == Some(r.metadata) && r.content == row.content
  {
    hide Decode, FingerprintOf, MinOf;
  }

  /** In a valid state no recall fails. */
  lemma ValidIsRecallable(t: Tables, scope: Scope)
    requires Valid(t)
    ensures Recallable(t, scope)
  {
    hide KeysAgree, MemoriesReadable, EventsReadable, TombstonesReadable, AuditReadable, NoneResurrected, Recallable;
    ReadableIsRecallable(t, scope);
  }

  lemma ReadableIsRecallable(t: Tables, scope: Scope)
    requires KeysAgree(t) && MemoriesReadable(t)
    ensures Recallable(t, scope)
  {
    hide ReadMemory, SourceRows;
    forall x | x in MemoryIds(t, scope)
      ensures MemoryAt(t, Key(scope, x)).Some? && x in EdgeOwners(t, scope)
    {
      assert MemoryAt(t, Key(scope, x)).Some?;
      HasAnEdge(t, Key(scope, x));
    }
    forall x | x in EdgeOwners(t, scope)
      ensures x in MemoryIds(t, scope)
    {
      var e :| e in t.edges && e.scope == scope && e.memory == x;
      assert Key(e.scope, e.memory) in t.memories;
    }
  }

  lemma HasAnEdge(t: Tables, k: Key)
    requires k in t.memories && MemoryAt(t, k).Some?
    ensures exists e :: e in t.edges && e.scope == k.scope && e.memory == k.id
  {
    hide FingerprintOf, Decode, MinOf;
    assert SourceRows(t, k) != [];
    assert SourceIds(t, k) != {};
    var x :| x in SourceIds(t, k);
    assert EdgeKey(k.scope, k.id, x).memory == k.id;
  }

  // ----- clarity

  /** Full until `clearUntil`, then linear down to zero at `recallUntil`. */
  function ExactClarity(m: MemoryRecord, asOf: int): real
    requires asOf < m.recallUntil
  {
    if asOf <= m.clearUntil then 1.0
    else (m.recallUntil - asOf) as real / (m.recallUntil - m.clearUntil) as real
  }

  lemma FractionOrder(a: real, b: real, c: real)
    requires a <= b && 0.0 < c
    ensures a / c <= b / c
  {
    assert (b - a) / c >= 0.0;
    assert b / c - a / c == (b - a) / c;
  }

  /** The exact fraction lies in (0, 1] and only fades as time passes, from `clearUntil` on. */
  lemma ExactClarityFades(m: MemoryRecord, earlier: int, later: int)
    requires earlier <= later < m.recallUntil
    ensures 0.0 < ExactClarity(m, later) <= ExactClarity(m, earlier) <= 1.0
    ensures ExactClarity(m, later) == 1.0 <==> later <= m.clearUntil
  {
    if m.clearUntil < later {
      var window := (m.recallUntil - m.clearUntil) as real;
      FractionOrder((m.recallUntil - later) as real, window, window);
      assert 0.0 < (m.recallUntil - later) as real / window;
      StrictFraction((m.recallUntil - later) as real, window);
      if m.clearUntil < earlier {
        FractionOrder((m.recallUntil - later) as real, (m.recallUntil - earlier) as real, window);
        StrictFraction((m.recallUntil - earlier) as real, window);
      }
    }
  }

  /** Between the two deadlines the fraction falls by the time passed, measured in the length of that span. */
  lemma FadesLinearly(m: MemoryRecord, a: int, b: int)
    requires m.clearUntil <= a <= b < m.recallUntil
    ensures (ExactClarity(m, a) - ExactClarity(m, b)) * (m.recallUntil - m.clearUntil) as real == (b - a) as real
  {
    var window := (m.recallUntil - m.clearUntil) as real;
    Dividing((m.recallUntil - a) as real, window);
    Dividing((m.recallUntil - b) as real, window);
    assert window / window == 1.0;
    assert ExactClarity(m, a) * window == (m.recallUntil - a) as real;
    assert ExactClarity(m, b) * window == (m.recallUntil - b) as real;
  }

  lemma UnitRounds(x: real)
    requires 0.0 <= x <= 1.0
    ensures Round(1.0) == Some(1.0) && Round(x).Some?
  {
    hide Round, IsDouble;
    SmallIsDouble(1);
    RoundFixes(1.0);
    RoundGrows(x, 1.0);
  }

  /** `_clarity`: one timespan divided by another gives the nearest double. */
  function Clarity(m: MemoryRecord, asOf: int): real
    requires asOf < m.recallUntil
  {
    ExactClarityFades(m, asOf, asOf);
    UnitRounds(ExactClarity(m, asOf));
    Round(ExactClarity(m, asOf)).value
  }

  /** Clarity lies in (0, 1] as well, is full until `clearUntil`, and never grows as time passes. */
  lemma ClarityFades(m: MemoryRecord, earlier: int, later: int)
    requires IsTime(m.clearUntil) && IsTime(m.recallUntil) && earlier <= later < m.recallUntil
    ensures 0.0 < Clarity(m, later) <= Clarity(m, earlier) <= 1.0
    ensures later <= m.clearUntil ==> Clarity(m, later) == 1.0
  {
    hide Round, ExactClarity;
    ExactClarityFades(m, earlier, later);
    UnitRounds(ExactClarity(m, earlier));
    UnitRounds(ExactClarity(m, later));
    RoundGrows(ExactClarity(m, earlier), 1.0);
    RoundGrows(ExactClarity(m, later), ExactClarity(m, earlier));
    SmallestClarity(m, later);
    SmallestRounds(ExactClarity(m, later));
  }

  lemma FullClarity(m: MemoryRecord, asOf: int)
    requires asOf < m.recallUntil && asOf <= m.clearUntil
    ensures Clarity(m, asOf) == 1.0
  {
    hide Round;
    UnitRounds(1.0);
  }

  /** While a memory fades, its clarity is a double, and none is nearer to the time left by the length of the fading. */
  lemma ClarityIsNearest(m: MemoryRecord, asOf: int, y: real)
    requires m.clearUntil < asOf < m.recallUntil && IsDouble(y)
    ensures IsDouble(Clarity(m, asOf))
    ensures var q := (m.recallUntil - asOf) as real / (m.recallUntil - m.clearUntil) as real;
            Distance(Clarity(m, asOf), q) <= Distance(y, q)
  {
    hide Round, IsDouble;
    ExactClarityFades(m, asOf, asOf);
    UnitRounds(ExactClarity(m, asOf));
    RoundIsDouble(ExactClarity(m, asOf));
    RoundIsNearest(ExactClarity(m, asOf), y);
  }

  const TIME_BITS := 64

  /** The smallest fraction of two times is not rounded to nothing. */
  lemma SmallestRounds(x: real)
    requires 1.0 / MAX_TIME as real <= x <= 1.0
    ensures Round(x).Some? && 0.0 < Round(x).value
  {
    hide Round, Scale, Power;
    var p := Power(2, TIME_BITS) as real;
    TimesFit();
    ScaleAdds(2, TIME_BITS, -TIME_BITS);
    ScaleZero(2);
    ScaleIsPower(2, TIME_BITS);
    Reciprocals(MAX_TIME as real, p);
    assert p * Scale(2, -TIME_BITS) == 1.0;
    Inverse(p, Scale(2, -TIME_BITS));
    PowerStep(2, MANTISSA_BITS - 1);
    assert Binary(Scale(2, -TIME_BITS), 1, -TIME_BITS);
    RoundFixes(Scale(2, -TIME_BITS));
    UnitRounds(x);
    RoundGrows(Scale(2, -TIME_BITS), x);
  }

  lemma Inverse(a: real, b: real)
    requires 0.0 < a && a * b == 1.0
    ensures b == 1.0 / a
  {
    assert b == a * b / a;
  }

  lemma TimesFit()
    ensures MAX_TIME < Power(2, TIME_BITS)
  {
    assert Power(2, 4) == 16;
    PowerAdds(2, 4, 4);
    PowerAdds(2, 8, 8);
    PowerAdds(2, 16, 16);
    PowerAdds(2, 32, 32);
  }

  lemma SmallestClarity(m: MemoryRecord, asOf: int)
    requires IsTime(m.clearUntil) && IsTime(m.recallUntil) && asOf < m.recallUntil
    ensures 1.0 / MAX_TIME as real <= ExactClarity(m, asOf)
  {
    var max := MAX_TIME as real;
    assert 1.0 / max <= 1.0;
    if m.clearUntil < asOf {
      var remaining, window := (m.recallUntil - asOf) as real, (m.recallUntil - m.clearUntil) as real;
      assert 1.0 <= remaining && 0.0 < window <= max;
      FractionOrder(1.0, remaining, window);
      Reciprocals(window, max);
    }
  }

  lemma Reciprocals(a: real, b: real)
    requires 0.0 < a <= b
    ensures 1.0 / b <= 1.0 / a
  {
    FractionOrder(a, b, a * b);
    assert a / (a * b) == 1.0 / b && b / (a * b) == 1.0 / a;
  }

  lemma StrictFraction(a: real, c: real)
    requires 0.0 < a < c
    ensures a / c < 1.0
  {
    assert c / c == 1.0;
    assert (c - a) / c > 0.0;
    assert c / c - a / c == (c - a) / c;
  }

  // ----- order

  predicate Clearer(a: Item, b: Item) {
    a.clarity > b.clarity
  }

  predicate Newer(a: Item, b: Item) {
    a.memory.createdAt > b.memory.createdAt
  }

  predicate IdBefore(a: Item, b: Item) {
    Less(a.memory.memoryId, b.memory.memoryId)
  }

  /** The documented order: clarity down, creation time down, memory id up. */
  predicate RanksAbove(a: Item, b: Item) {
    || a.clarity > b.clarity
    || (a.clarity == b.clarity && a.memory.createdAt > b.memory.createdAt)
    || (a.clarity == b.clarity && a.memory.createdAt == b.memory.createdAt
        && Less(a.memory.memoryId, b.memory.memoryId))
  }

  lemma RankIsStrict()
    ensures forall a, b :: RanksAbove(a, b) ==> !RanksAbove(b, a)
  {
    forall a, b | RanksAbove(a, b)
      ensures !RanksAbove(b, a)
    {
      if IdBefore(a, b) {
        LessAsymmetric(a.memory.memoryId, b.memory.memoryId);
      }
    }
  }

  /** The three in-place sorts of `recall`, last key first. */
  function ThreeSorts(items: seq<Item>): (r: seq<Item>)
    ensures |r| == |items|
  {
    SortPermutes(items, IdBefore);
    SortPermutes(Sort(items, IdBefore), Newer);
    SortPermutes(Sort(Sort(items, IdBefore), Newer), Clearer);
    Sort(Sort(Sort(items, IdBefore), Newer), Clearer)
  }

  ghost predicate DistinctIds(items: seq<Item>) {
    forall i, j :: 0 <= i < j < |items| ==> items[i].memory.memoryId != items[j].memory.memoryId
  }

  ghost predicate IdsDiffer(a: Item, b: Item) {
    a.memory.memoryId != b.memory.memoryId
  }

  /** The id, then the creation time, then the clarity sort leave distinct memories in the documented order. */
  lemma ThreeSortsRank(items: seq<Item>)
    requires DistinctIds(items)
    ensures multiset(ThreeSorts(items)) == multiset(items)
    ensures Chain(ThreeSorts(items), RanksAbove)
  {
    assert WeakOrder(Clearer) && WeakOrder(Newer);
    assert WeakOrder(IdBefore) by {
      IdOrderIsWeak();
    }
    var a := Sort(items, IdBefore);
    var b := Sort(a, Newer);
    var c := Sort(b, Clearer);
    assert Chain(items, IdsDiffer);
    SortIsStable(items, IdBefore, IdsDiffer);
    SortIsStable(a, Newer, Lex(IdBefore, IdsDiffer));
    SortIsStable(b, Clearer, Lex(Newer, Lex(IdBefore, IdsDiffer)));
    SortPermutes(items, IdBefore);
    SortPermutes(a, Newer);
    SortPermutes(b, Clearer);
    forall i, j | 0 <= i < j < |c|
      ensures RanksAbove(c[i], c[j])
    {
      assert Lex(Clearer, Lex(Newer, Lex(IdBefore, IdsDiffer)))(c[i], c[j]);
      LessTotal(c[i].memory.memoryId, c[j].memory.memoryId);
    }
  }

  lemma IdOrderIsWeak()
    ensures WeakOrder(IdBefore)
  {
    forall x, y | IdBefore(x, y)
      ensures !IdBefore(y, x)
    {
      LessAsymmetric(x.memory.memoryId, y.memory.memoryId);
    }
    forall x, y, z | IdBefore(x, y)
      ensures IdBefore(x, z) || IdBefore(z, y)
    {
      LessTotal(x.memory.memoryId, z.memory.memoryId);
      if Less(z.memory.memoryId, x.memory.memoryId) {
        LessTransitive(z.memory.memoryId, x.memory.memoryId, y.memory.memoryId);
      }
    }
  }

  /** The result does not depend on the order in which the rows came out of the database. */
  lemma RecallIgnoresRowOrder(a: seq<Item>, b: seq<Item>)
    requires DistinctIds(a) && DistinctIds(b)
    requires multiset(a) == multiset(b)
    ensures ThreeSorts(a) == ThreeSorts(b)
  {
    ThreeSortsRank(a);
    ThreeSortsRank(b);
    RankIsStrict();
    ChainUnique(ThreeSorts(a), ThreeSorts(b), RanksAbove);
  }

  ghost predicate ItemOf(t: Tables, q: Query, x: Item)
    requires Recallable(t, q.scope)
  {
    x.memory in Candidates(t, q) && x.memory.recallUntil > q.asOf && x.clarity == Clarity(x.memory, q.asOf)
  }

  /** In the answer, or ranked below all of it. */
  ghost predicate Placed(answer: seq<Item>, x: Item) {
    x in answer || forall y :: y in answer ==> RanksAbove(y, x)
  }

  /** What `recall` promises of its answer: candidates in the documented order, as many as the limit allows, and every
      candidate left out ranks below every one returned. */
  ghost predicate IsRecall(t: Tables, q: Query, answer: seq<Item>)
    requires Recallable(t, q.scope)
  {
    && Chain(answer, RanksAbove)
    && (forall x :: x in answer ==> ItemOf(t, q, x))
    && |answer| == (if |Candidates(t, q)| <= q.limit then |Candidates(t, q)| else q.limit)
    && (forall x :: ItemOf(t, q, x) ==> Placed(answer, x))
  }

  lemma SameCandidatesSameRecall(t: Tables, u: Tables, q: Query, answer: seq<Item>)
    requires Recallable(t, q.scope) && Recallable(u, q.scope) && Candidates(t, q) == Candidates(u, q)
    ensures IsRecall(t, q, answer) <==> IsRecall(u, q, answer)
  {
    hide Recallable, Candidates, Clarity, Placed;
    assert forall x :: ItemOf(t, q, x) <==> ItemOf(u, q, x);
  }

  /** The items of a sequence, without order. */
  function ItemSet(s: seq<Item>): set<Item> {
    set x | x in s
  }

  lemma {:induction false} ChainSize(s: seq<Item>)
    requires Chain(s, RanksAbove)
    ensures |ItemSet(s)| == |s|
  {
    if s != [] {
      var init, x := s[..|s| - 1], s[|s| - 1];
      ChainSize(init);
      RankIsStrict();
      assert x !in ItemSet(init);
      assert s == init + [x];
      assert ItemSet(s) == ItemSet(init) + {x};
    }
  }

  lemma {:induction false} ChainMultiset(s: seq<Item>)
    requires Chain(s, RanksAbove)
    ensures multiset(s) == multiset(ItemSet(s))
  {
    if s != [] {
      var init, x := s[..|s| - 1], s[|s| - 1];
      ChainMultiset(init);
      RankIsStrict();
      assert x !in ItemSet(init);
      assert s == init + [x];
      assert ItemSet(s) == ItemSet(init) + {x};
    }
  }

  /** The promise determines the answer: `recall` is deterministic. */
  lemma RecallIsDetermined(t: Tables, q: Query, a: seq<Item>, b: seq<Item>)
    requires Recallable(t, q.scope) && IsRecall(t, q, a) && IsRecall(t, q, b)
    ensures a == b
  {
    hide Candidates, Recallable, Clarity;
    RankIsStrict();
    ChainSize(a);
    ChainSize(b);
    AllTaken(t, q, a, b);
    AllTaken(t, q, b, a);
    ChainMultiset(a);
    ChainMultiset(b);
    ChainUnique(a, b, RanksAbove);
  }

  lemma AllTaken(t: Tables, q: Query, a: seq<Item>, b: seq<Item>)
    requires Recallable(t, q.scope) && IsRecall(t, q, a) && IsRecall(t, q, b)
    requires |ItemSet(a)| == |a| && |ItemSet(b)| == |b|
    ensures ItemSet(a) <= ItemSet(b)
  {
    hide Candidates, Recallable, Clarity;
    RankIsStrict();
    forall x | x in ItemSet(a)
      ensures x in ItemSet(b)
    {
      if x !in b {
        var y := Missing(ItemSet(b), ItemSet(a), x);
        NotBothOmitted(t, q, a, b, x, y);
      }
    }
  }

  lemma NotBothOmitted(t: Tables, q: Query, a: seq<Item>, b: seq<Item>, x: Item, y: Item)
    requires Recallable(t, q.scope) && IsRecall(t, q, a) && IsRecall(t, q, b)
    requires x in a && y in b
    ensures x in b || y in a
  {
    hide Candidates, Recallable, Clarity;
    RankIsStrict();
    assert Placed(b, x) && Placed(a, y);
  }

  /** Of two sets of one size, if `x` is only in the second then something is only in the first. */
  lemma Missing(a: set<Item>, b: set<Item>, x: Item) returns (y: Item)
    requires |a| == |b| && x in b && x !in a
    ensures y in a && y !in b
  {
    if a <= b {
      assert a <= b - {x};
      SubsetSize(a, b - {x});
    }
    y :| y in a && y !in b;
  }

  lemma {:induction false} SubsetSize(a: set<Item>, b: set<Item>)
    requires a <= b
    ensures |a| <= |b|
  {
    assert b == a + (b - a);
  }

  /** A sequence of items is what the service builds from the candidates. */
  ghost predicate IsItems(t: Tables, q: Query, items: seq<Item>)
    requires Recallable(t, q.scope)
  {
    && DistinctIds(items) && |items| == |Candidates(t, q)|
    && (forall x :: x in items ==> ItemOf(t, q, x))
    && (forall m :: m in Candidates(t, q) ==> exists x :: x in items && x.memory == m)
  }

  /** The three sorts and the slice keep the promise. */
  lemma SortAndSliceIsRecall(t: Tables, q: Query, items: seq<Item>)
    requires Recallable(t, q.scope) && IsItems(t, q, items)
    ensures IsRecall(t, q, ThreeSorts(items)[..if |items| <= q.limit then |items| else q.limit])
  {
    hide Candidates, Recallable, Clarity, RanksAbove, ThreeSorts, IsItems, IsRecall;
    ThreeSortsItems(t, q, items);
    ThreeSortsRank(items) by { Distinct(t, q, items); }
    TopIsRecall(t, q, ThreeSorts(items), if |items| <= q.limit then |items| else q.limit);
  }

  lemma Distinct(t: Tables, q: Query, items: seq<Item>)
    requires Recallable(t, q.scope) && IsItems(t, q, items)
    ensures DistinctIds(items)
  {
    hide Candidates, Recallable, Clarity;
  }

  ghost predicate ExactlyTheItems(t: Tables, q: Query, items: seq<Item>)
    requires Recallable(t, q.scope)
  {
    && |items| == |Candidates(t, q)|
    && (forall x :: x in items <==> ItemOf(t, q, x))
  }

  lemma ThreeSortsItems(t: Tables, q: Query, items: seq<Item>)
    requires Recallable(t, q.scope) && IsItems(t, q, items)
    ensures ExactlyTheItems(t, q, ThreeSorts(items))
  {
    hide Candidates, Recallable, Clarity, RanksAbove, ThreeSorts;
    ThreeSortsRank(items);
    SameElements(ThreeSorts(items), items);
    forall x | ItemOf(t, q, x)
      ensures x in items
    {
      var y :| y in items && y.memory == x.memory;
      assert y == x;
    }
  }

  lemma TopIsRecall(t: Tables, q: Query, r: seq<Item>, n: nat)
    requires Recallable(t, q.scope) && ExactlyTheItems(t, q, r) && Chain(r, RanksAbove)
    requires n == if |r| <= q.limit then |r| else q.limit
    ensures IsRecall(t, q, r[..n])
  {
    hide Candidates, Recallable, ItemOf, RanksAbove, Chain, Placed;
    TopIsChain(r, n);
    forall x | ItemOf(t, q, x)
      ensures Placed(r[..n], x)
    {
      TopOrBelow(r, n, x);
    }
    forall x | x in r[..n]
      ensures ItemOf(t, q, x)
    {
      assert x in r;
    }
  }

  lemma TopIsChain(r: seq<Item>, n: nat)
    requires Chain(r, RanksAbove) && n <= |r|
    ensures Chain(r[..n], RanksAbove)
  {
    hide RanksAbove;
  }

  lemma TopOrBelow(r: seq<Item>, n: nat, x: Item)
    requires Chain(r, RanksAbove) && n <= |r| && x in r
    ensures Placed(r[..n], x)
  {
    hide RanksAbove, Chain;
    if x !in r[..n] {
      LeftOut(r, n, x);
    }
  }

  lemma SameElements(a: seq<Item>, b: seq<Item>)
    requires multiset(a) == multiset(b)
    ensures |a| == |b| && forall x :: x in a <==> x in b
  {
    assert |multiset(a)| == |a| && |multiset(b)| == |b|;
    forall x
      ensures x in a <==> x in b
    {
      assert x in multiset(a) <==> x in multiset(b);
    }
  }

  lemma LeftOut(r: seq<Item>, n: nat, y: Item)
    requires Chain(r, RanksAbove) && n <= |r| && y in r && y !in r[..n]
    ensures forall x :: x in r[..n] ==> RanksAbove(x, y)
  {
    assert r == r[..n] + r[n..];
    var j :| 0 <= j < |r| - n && r[n..][j] == y;
    assert y == r[n + j];
  }
}
