/** The public service's recall over the repository's candidates. */
module Service {
  import opened Wrappers
  import opened TextOrder
  import opened StableSort
  import opened Domain
  import opened Tables
  import opened Recall
  import opened Repository

  class TrueHeart {
    const repository: SQLiteRepository

    constructor (repository: SQLiteRepository)
      ensures this.repository == repository
    {
      this.repository := repository;
    }

    /** Candidates become items, the list is sorted in place by id, creation time and clarity, and cut to the limit. */
    method Recall(q: Query) returns (done: bool, answer: Option<seq<Item>>)
      modifies repository`attempts
      ensures old(repository.attempts) <= repository.attempts
      ensures done <==> repository.Undisturbed(old(repository.attempts))
      ensures done ==> (answer.Some? <==> Recallable(repository.committed, q.scope))
      ensures done && answer.Some? ==> IsRecall(repository.committed, q, answer.value)
      ensures done && answer.Some? ==> forall i, j :: 0 <= i < j < |answer.value| ==>
        var a, b := answer.value[i], answer.value[j];
        || a.clarity > b.clarity
        || (a.clarity == b.clarity && a.memory.createdAt > b.memory.createdAt)
        || (a.clarity == b.clarity && a.memory.createdAt == b.memory.createdAt
            && Less(a.memory.memoryId, b.memory.memoryId))
    {
      hide Recallable, Candidates, IsRecall, ThreeSorts;
      var found: Option<seq<MemoryRecord>>;
      done, found := repository.RecallCandidates(q);
      if !done || found.None? {
        return done, None;
      }
      var items := ItemsOf(q, found.value) by { CandidatesAreTimely(repository.committed, q); }
      ItemsAre(repository.committed, q, found.value, items);
      SortAndSliceIsRecall(repository.committed, q, items);
      ghost var input := items;
      items := Sort(items, IdBefore);
      items := Sort(items, Newer);
      items := Sort(items, Clearer);
      SortsAre(input, items);
      RankedByFields(repository.committed, q, items[..if |items| <= q.limit then |items| else q.limit]);
      return true, Some(items[..if |items| <= q.limit then |items| else q.limit]);
    }

    static method ItemsOf(q: Query, memories: seq<MemoryRecord>) returns (items: seq<Item>)
      requires forall m :: m in memories ==> q.asOf < m.recallUntil
      ensures |items| == |memories|
      ensures forall i :: 0 <= i < |items| ==> items[i] == Item(memories[i], Clarity(memories[i], q.asOf))
    {
      items := [];
      for i := 0 to |memories|
        invariant |items| == i
        invariant forall j :: 0 <= j < i ==> items[j] == Item(memories[j], Clarity(memories[j], q.asOf))
      {
        items := items + [Item(memories[i], Clarity(memories[i], q.asOf))];
      }
    }
  }

  lemma CandidatesAreTimely(t: Tables, q: Query)
    requires Recallable(t, q.scope)
    ensures forall m :: m in Candidates(t, q) ==> q.asOf < m.recallUntil
  {
    hide Recallable, ReadMemory, SourceRows;
  }

  /** The documented order, field by field. */
  lemma RankedByFields(t: Tables, q: Query, answer: seq<Item>)
    requires Recallable(t, q.scope) && IsRecall(t, q, answer)
    ensures forall i, j :: 0 <= i < j < |answer| ==>
      var a, b := answer[i], answer[j];
      || a.clarity > b.clarity
      || (a.clarity == b.clarity && a.memory.createdAt > b.memory.createdAt)
      || (a.clarity == b.clarity && a.memory.createdAt == b.memory.createdAt
          && Less(a.memory.memoryId, b.memory.memoryId))
  {
    hide Recallable, Candidates, ItemOf, Placed;
    forall i, j | 0 <= i < j < |answer|
      ensures RanksAbove(answer[i], answer[j])
    {
    }
  }

  lemma SortsAre(input: seq<Item>, output: seq<Item>)
    requires output == Sort(Sort(Sort(input, IdBefore), Newer), Clearer)
    ensures output == ThreeSorts(input) && |output| == |input|
  {
  }

  lemma ItemsAre(t: Tables, q: Query, memories: seq<MemoryRecord>, items: seq<Item>)
    requires Recallable(t, q.scope) && |items| == |memories|
    requires forall m :: m in memories <==> m in Candidates(t, q)
    requires forall i, j :: 0 <= i < j < |memories| ==> memories[i].memoryId != memories[j].memoryId
    requires forall m :: m in memories ==> q.asOf < m.recallUntil
    requires forall i :: 0 <= i < |items| ==> items[i] == Item(memories[i], Clarity(memories[i], q.asOf))
    ensures IsItems(t, q, items)
  {
    hide Recallable, Candidates, Clarity, ItemOf;
    DistinctSize(memories, Candidates(t, q));
    forall x | x in items
      ensures ItemOf(t, q, x)
    {
      var i :| 0 <= i < |items| && items[i] == x;
      assert memories[i] in memories;
      OneItem(t, q, memories[i]);
    }
    forall m | m in Candidates(t, q)
      ensures exists x :: x in items && x.memory == m
    {
      var i :| 0 <= i < |memories| && memories[i] == m;
      assert items[i] in items;
    }
  }

  lemma OneItem(t: Tables, q: Query, m: MemoryRecord)
    requires Recallable(t, q.scope) && m in Candidates(t, q) && q.asOf < m.recallUntil
    ensures ItemOf(t, q, Item(m, Clarity(m, q.asOf)))
  {
    hide Recallable, Candidates, Clarity;
  }

  lemma {:induction false} DistinctSize(memories: seq<MemoryRecord>, s: set<MemoryRecord>)
    requires forall m :: m in memories <==> m in s
    requires forall i, j :: 0 <= i < j < |memories| ==> memories[i].memoryId != memories[j].memoryId
    ensures |memories| == |s|
  {
    if memories == [] {
      assert s == {};
    } else {
      var init, last := memories[..|memories| - 1], memories[|memories| - 1];
      assert memories == init + [last];
      assert last !in init;
      DistinctSize(init, s - {last});
    }
  }
}
