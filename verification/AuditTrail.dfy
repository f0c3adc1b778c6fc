/** The audit projection: a scope's rows, newest first. Row identifiers are random and reach the model here, as distinct
    labels on the unordered log. */
module AuditTrail {
  import opened TextOrder
  import opened StableSort
  import opened Fingerprint
  import opened Tables

  datatype Labelled = Labelled(auditId: string, row: AuditRow)

  predicate MoreRecent(a: Labelled, b: Labelled) {
    a.row.occurredAt > b.row.occurredAt
  }

  predicate IdAfter(a: Labelled, b: Labelled) {
    Less(b.auditId, a.auditId)
  }

  /** Newest first, then by identifier downwards. */
  predicate ListedBefore(a: Labelled, b: Labelled) {
    a.row.occurredAt > b.row.occurredAt || (a.row.occurredAt == b.row.occurredAt && Less(b.auditId, a.auditId))
  }

  ghost predicate LabelsDiffer(a: Labelled, b: Labelled) {
    a.auditId != b.auditId
  }

  function Rows(log: seq<Labelled>): (r: seq<AuditRow>)
    ensures |r| == |log| && forall i :: 0 <= i < |r| ==> r[i] == log[i].row
  {
    seq(|log|, i requires 0 <= i < |log| => log[i].row)
  }

  /** The log with its identifiers, in whatever order. */
  ghost predicate IsLog(t: Tables, log: seq<Labelled>) {
    multiset(Rows(log)) == t.audit && Chain(log, LabelsDiffer)
  }

  /** The rows of one scope, in the order they came. */
  function InScope(log: seq<Labelled>, scope: Scope): (r: seq<Labelled>)
    ensures forall x :: x in r <==> x in log && x.row.scope == scope
  {
    if log == [] then [] else
      var last := log[|log| - 1];
      assert log == log[..|log| - 1] + [last];
      InScope(log[..|log| - 1], scope) + if last.row.scope == scope then [last] else []
  }

  function NewestFirst(rows: seq<Labelled>): (r: seq<Labelled>)
    ensures |r| == |rows|
  {
    SortPermutes(rows, IdAfter);
    SortPermutes(Sort(rows, IdAfter), MoreRecent);
    Sort(Sort(rows, IdAfter), MoreRecent)
  }

  /** The scope's rows, each as often as in the log, newest first and then by identifier downwards. */
  ghost predicate IsWholeListing(log: seq<Labelled>, scope: Scope, r: seq<Labelled>) {
    && (forall x :: multiset(r)[x] == if x.row.scope == scope then multiset(log)[x] else 0)
    && (forall i, j :: 0 <= i < j < |r| ==>
          || r[i].row.occurredAt > r[j].row.occurredAt
          || (r[i].row.occurredAt == r[j].row.occurredAt && Less(r[j].auditId, r[i].auditId)))
  }

  /** What an audit query promises: a listing of the scope's rows, cut off after as many as the limit allows. */
  ghost predicate IsListing(log: seq<Labelled>, scope: Scope, limit: nat, answer: seq<Labelled>) {
    exists rest :: IsWholeListing(log, scope, answer + rest) && (|answer| == limit || (|answer| < limit && rest == []))
  }

  lemma {:induction false} InScopeCounts(log: seq<Labelled>, scope: Scope, x: Labelled)
    ensures multiset(InScope(log, scope))[x] == if x.row.scope == scope then multiset(log)[x] else 0
  {
    if log != [] {
      InScopeCounts(log[..|log| - 1], scope, x);
      assert log == log[..|log| - 1] + [log[|log| - 1]];
    }
  }

  lemma {:induction false} InScopeDistinct(log: seq<Labelled>, scope: Scope)
    requires Chain(log, LabelsDiffer)
    ensures Chain(InScope(log, scope), LabelsDiffer)
  {
    if log != [] {
      var init, last := log[..|log| - 1], log[|log| - 1];
      InScopeDistinct(init, scope);
      var rows := InScope(init, scope);
      forall i | 0 <= i < |rows|
        ensures LabelsDiffer(rows[i], last)
      {
        assert rows[i] in init;
        var j :| 0 <= j < |init| && init[j] == rows[i];
        assert LabelsDiffer(log[j], log[|log| - 1]);
      }
    }
  }

  lemma SplitIsListing(log: seq<Labelled>, scope: Scope, limit: nat, r: seq<Labelled>, n: nat)
    requires IsWholeListing(log, scope, r) && n == if |r| <= limit then |r| else limit
    ensures IsListing(log, scope, limit, r[..n])
  {
    hide IsWholeListing;
    assert r[..n] + r[n..] == r;
  }

  /** Sorting twice and slicing keeps the promise. */
  lemma SliceIsListing(log: seq<Labelled>, scope: Scope, limit: nat)
    requires Chain(log, LabelsDiffer)
    ensures var r := NewestFirst(InScope(log, scope));
            IsListing(log, scope, limit, r[..if |r| <= limit then |r| else limit])
  {
    hide NewestFirst, LabelsDiffer, IsListing, InScope;
    var rows := InScope(log, scope);
    var r := NewestFirst(rows);
    InScopeDistinct(log, scope);
    NewestFirstIsDetermined(rows, rows);
    forall x: Labelled
      ensures multiset(r)[x] == if x.row.scope == scope then multiset(log)[x] else 0
    {
      InScopeCounts(log, scope, x);
    }
    SplitIsListing(log, scope, limit, r, if |r| <= limit then |r| else limit);
  }

  lemma IdOrderIsWeak()
    ensures WeakOrder(IdAfter)
  {
    forall x, y | IdAfter(x, y)
      ensures !IdAfter(y, x)
    {
      LessAsymmetric(y.auditId, x.auditId);
    }
    forall x, y, z | IdAfter(x, y)
      ensures IdAfter(x, z) || IdAfter(z, y)
    {
      LessTotal(z.auditId, x.auditId);
      if Less(x.auditId, z.auditId) {
        LessTransitive(y.auditId, x.auditId, z.auditId);
      }
    }
  }

  /** The two in-place sorts leave the rows in one strict order, whatever order they came in. */
  lemma NewestFirstIsDetermined(a: seq<Labelled>, b: seq<Labelled>)
    requires Chain(a, LabelsDiffer) && Chain(b, LabelsDiffer) && multiset(a) == multiset(b)
    ensures multiset(NewestFirst(a)) == multiset(a)
    ensures var r := NewestFirst(a);
            forall i, j :: 0 <= i < j < |r| ==>
              || r[i].row.occurredAt > r[j].row.occurredAt
              || (r[i].row.occurredAt == r[j].row.occurredAt && Less(r[j].auditId, r[i].auditId))
    ensures NewestFirst(a) == NewestFirst(b)
  {
    NewestFirstIsListed(a);
    NewestFirstIsListed(b);
    forall x, y | ListedBefore(x, y)
      ensures !ListedBefore(y, x)
    {
      if IdAfter(x, y) {
        LessAsymmetric(y.auditId, x.auditId);
      }
    }
    ChainUnique(NewestFirst(a), NewestFirst(b), ListedBefore);
    var r := NewestFirst(a);
    forall i, j | 0 <= i < j < |r|
      ensures ListedBefore(r[i], r[j])
    {
    }
  }

  lemma NewestFirstIsListed(rows: seq<Labelled>)
    requires Chain(rows, LabelsDiffer)
    ensures Chain(NewestFirst(rows), ListedBefore) && multiset(NewestFirst(rows)) == multiset(rows)
  {
    IdOrderIsWeak();
    assert WeakOrder(MoreRecent);
    var s := Sort(rows, IdAfter);
    var r := Sort(s, MoreRecent);
    SortIsStable(rows, IdAfter, LabelsDiffer);
    SortIsStable(s, MoreRecent, Lex(IdAfter, LabelsDiffer));
    SortPermutes(rows, IdAfter);
    SortPermutes(s, MoreRecent);
    forall i, j | 0 <= i < j < |r|
      ensures ListedBefore(r[i], r[j])
    {
      assert Lex(MoreRecent, Lex(IdAfter, LabelsDiffer))(r[i], r[j]);
      LessTotal(r[i].auditId, r[j].auditId);
    }
  }
}
