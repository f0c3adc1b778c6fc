/** The statements each operation sends, and what they do: from a valid state every one of them is accepted by the
    keys, foreign keys and checks in force at that moment, and together they amount to the operation's outcome. */
module Plans {
  import opened Wrappers
  import opened TextOrder
  import opened CanonicalJson
  import opened Metadata
  import opened Fingerprint
  import opened Domain
  import opened Tables
  import opened Policy
  import opened Invariant

  function IngestWrites(d: EventDraft, now: int): seq<Statement> {
    [InsertAudit(AuditRow(d.scope, Ingested, RawEvent, d.eventId, now, EventIngested)),
     InsertEvent(EventKey(d), NewEventRow(d, now)),
     InsertBody(EventKey(d), d.content)]
  }

  function EdgeInsert(t: Tables, k: Key, id: string): Statement
    requires Key(k.scope, id) in t.events
  {
    InsertEdge(EdgeKey(k.scope, k.id, id), Snapshot(t.events[Key(k.scope, id)]))
  }

  function EdgeInserts(t: Tables, k: Key, ids: seq<string>): seq<Statement>
    requires forall x :: x in ids ==> Key(k.scope, x) in t.events
  {
    if ids == [] then [] else EdgeInserts(t, k, ids[..|ids| - 1]) + [EdgeInsert(t, k, ids[|ids| - 1])]
  }

  function MaterializeWrites(t: Tables, d: MemoryDraft): seq<Statement>
    requires MemoryDraftOk(d)
    requires forall x :: x in Elements(d.sources) ==> Key(d.scope, x) in t.events
  {
    DraftHasRows(d);
    var ids := Elements(d.sources);
    [InsertMemory(MemoryKey(d), NewMemoryRow(d, DraftRows(t, d.scope, ids)))]
    + EdgeInserts(t, MemoryKey(d), SortedIn(ids))
    + [InsertAudit(AuditRow(d.scope, Materialized, Memory, d.memoryId, d.createdAt, MemoryMaterialized))]
  }

  /** `Sorted`, with the membership its callers need. */
  function SortedIn(ids: set<string>): (r: seq<string>)
    ensures forall x :: x in r <==> x in ids
    ensures r == Sorted(ids)
  {
    assert forall x :: x in Sorted(ids) <==> x in Elements(Sorted(ids));
    Sorted(ids)
  }

  function ExpireWrites(order: seq<Key>, asOf: int): seq<Statement> {
    if order == [] then [] else
      var k := order[|order| - 1];
      ExpireWrites(order[..|order| - 1], asOf)
      + [DeleteBody(k), SetEventStatus(k, EventExpired), InsertAudit(ExpireRow(k, asOf))]
  }

  function StatusWrites(c: Command, status: MemoryStatus): seq<Statement> {
    [SetMemoryStatus(Key(c.scope, c.entityId), status), InsertAudit(GovernRow(c))]
  }

  function CascadeWrites(scope: Scope, memories: seq<string>): seq<Statement> {
    if memories == [] then [] else
      var k := Key(scope, memories[|memories| - 1]);
      CascadeWrites(scope, memories[..|memories| - 1]) + [DeleteEdges(k), DeleteMemory(k)]
  }

  function TombWrites(t: Tables, c: Command, memories: seq<string>): seq<Statement>
    requires forall x :: x in memories ==> Key(c.scope, x) in t.memories
  {
    if memories == [] then [] else
      var m := memories[|memories| - 1];
      TombWrites(t, c, memories[..|memories| - 1]) + [InsertTombstone(TombKey(c.scope, Memory, m), Tomb(t, c, m))]
  }

  function ForgetWrites(t: Tables, c: Command): seq<Statement>
    requires Key(c.scope, c.entityId) in t.memories
  {
    CascadeWrites(c.scope, [c.entityId]) + TombWrites(t, c, [c.entityId]) + [InsertAudit(GovernRow(c))]
  }

  function EventWrites(c: Command): seq<Statement> {
    var k := Key(c.scope, c.entityId);
    [DeleteBody(k), DeleteEvent(k),
     InsertTombstone(TombKey(c.scope, RawEvent, c.entityId), Tombstone(c.occurredAt, GovernanceRequested, None))]
  }

  function DeleteEventWrites(t: Tables, c: Command): seq<Statement>
    requires forall x :: x in Dependents(t, Key(c.scope, c.entityId)) ==> Key(c.scope, x) in t.memories
  {
    var k := Key(c.scope, c.entityId);
    var ms := SortedIn(Dependents(t, k));
    CascadeWrites(c.scope, ms) + EventWrites(c) + TombWrites(t, c, ms)
    + [InsertAudit(GovernRow(c))]
  }

  /** Each key of `s` once, in any order: what a query without ORDER BY returns. */
  ghost predicate Enumerates(order: seq<Key>, s: set<Key>) {
    && (forall k :: k in order <==> k in s)
    && (forall i, j :: 0 <= i < j < |order| ==> order[i] != order[j])
  }

  ghost predicate IsMaterializePlan(t: Tables, d: MemoryDraft, ss: seq<Statement>)
    requires MemoryDraftOk(d)
  {
    if MemoryKey(d) in t.memories then ss == []
    else
      && (forall x :: x in Elements(d.sources) ==> Key(d.scope, x) in t.events)
      && ss == MaterializeWrites(t, d)
  }

  ghost predicate IsGovernPlan(t: Tables, c: Command, ss: seq<Statement>) {
    if c.entityType.RawEvent? then
      && (forall x :: x in Dependents(t, Key(c.scope, c.entityId)) ==> Key(c.scope, x) in t.memories)
      && ss == DeleteEventWrites(t, c)
    else
      && Key(c.scope, c.entityId) in t.memories
      && ss == match c.action
         case Seal => StatusWrites(c, Sealed)
         case Restore => StatusWrites(c, Active)
         case _ => ForgetWrites(t, c)
  }

  ghost predicate IsExpirePlan(t: Tables, asOf: int, ss: seq<Statement>) {
    exists order :: Enumerates(order, Due(t, asOf)) && ss == ExpireWrites(order, asOf)
  }

  /** `ss` is what `op` writes when it finds the tables `t`. */
  ghost predicate IsPlan(t: Tables, op: Op, ss: seq<Statement>)
    requires OpOk(op)
  {
    if Step(t, op).reply.Failed? then ss == [] else
      match op
      case Ingest(d, now) => ss == if EventKey(d) in t.events then [] else IngestWrites(d, now)
      case Materialize(d) => IsMaterializePlan(t, d, ss)
      case Expire(asOf) => IsExpirePlan(t, asOf, ss)
      case Govern(c) => IsGovernPlan(t, c, ss)
  }

  // ----- lists of statements

  function Then(e: Executed, s: Statement): Executed {
    if e.Done? then Exec(s, e.state) else e
  }

  lemma ExecNone(t: Tables)
    ensures ExecAll([], t) == Done(t)
  {
  }

  lemma ExecSnoc(ss: seq<Statement>, s: Statement, t: Tables)
    ensures ExecAll(ss + [s], t) == Then(ExecAll(ss, t), s)
  {
    hide Exec;
    assert (ss + [s])[..|ss|] == ss;
  }

  lemma ExecTwo(a: Statement, b: Statement, t: Tables)
    ensures ExecAll([a, b], t) == Then(Exec(a, t), b)
  {
    hide Exec;
    assert [a, b] == [a] + [b] && [a] == [] + [a];
    ExecSnoc([], a, t);
    ExecSnoc([a], b, t);
  }

  lemma ExecThree(a: Statement, b: Statement, c: Statement, t: Tables)
    ensures ExecAll([a, b, c], t) == Then(Then(Exec(a, t), b), c)
  {
    hide Exec;
    assert [a, b, c] == [a, b] + [c];
    ExecTwo(a, b, t);
    ExecSnoc([a, b], c, t);
  }

  lemma {:induction false} ExecConcat(a: seq<Statement>, b: seq<Statement>, t: Tables)
    ensures ExecAll(a + b, t) == if ExecAll(a, t).Done? then ExecAll(b, ExecAll(a, t).state) else ExecAll(a, t)
  {
    hide Exec;
    if b == [] {
      assert a + b == a;
    } else {
      var b', s := b[..|b| - 1], b[|b| - 1];
      assert a + b == (a + b') + [s] && b == b' + [s];
      ExecConcat(a, b', t);
      ExecSnoc(a + b', s, t);
      if ExecAll(a, t).Done? {
        ExecSnoc(b', s, ExecAll(a, t).state);
      }
    }
  }

  /** A list that executes has no failing prefix. */
  lemma {:induction false} PrefixExecutes(ss: seq<Statement>, n: nat, t: Tables)
    requires n <= |ss| && ExecAll(ss, t).Done?
    ensures ExecAll(ss[..n], t).Done?
  {
    hide Exec;
    if n < |ss| {
      PrefixExecutes(ss[..|ss| - 1], n, t);
      assert ss[..|ss| - 1][..n] == ss[..n];
    } else {
      assert ss[..n] == ss;
    }
  }

  // ----- each operation's list

  lemma CanonicalIsJson(v: Json)
    ensures JsonValid(Canonical(v))
  {
    ParsePrint(Normalize(v), []);
  }

  lemma IngestExecutes(t: Tables, d: EventDraft, now: int)
    requires EventDraftOk(d) && EventKey(d) !in t.events && EventKey(d) !in t.bodies
    requires d.clearFor <= INT64_MAX && d.recallFor <= INT64_MAX
    ensures ExecAll(IngestWrites(d, now), t) == Done(Ingested'(t, d, now))
  {
    hide Canonical, JsonValid, ExecAll;
    CanonicalIsJson(d.source.metadata);
    CanonicalIsJson(d.metadata);
    var ss := IngestWrites(d, now);
    ExecThree(ss[0], ss[1], ss[2], t);
    assert ss == [ss[0], ss[1], ss[2]];
  }

  lemma {:induction false} EdgeInsertsExecute(t: Tables, u: Tables, k: Key, ids: seq<string>)
    requires forall x :: x in ids ==> Key(k.scope, x) in t.events && ReceiptAt(t, Key(k.scope, x)).Some?
    requires forall i, j :: 0 <= i < j < |ids| ==> ids[i] != ids[j]
    requires k in u.memories && u.events == t.events
    requires forall x :: EdgeKey(k.scope, k.id, x) !in u.edges
    ensures ExecAll(EdgeInserts(t, k, ids), u) == Done(u.(edges := u.edges + NewEdges(t, k, Elements(ids))))
  {
    hide ReadReceipt, ExecAll, Exec, NewEdges;
    if ids == [] {
      ExecNone(u);
      NoNewEdges(t, k);
      assert Elements(ids) == {};
      assert u.edges + map[] == u.edges;
    } else {
      var init, x := ids[..|ids| - 1], ids[|ids| - 1];
      EdgeInsertsExecute(t, u, k, init);
      assert x !in Elements(init);
      assert ids == init + [x];
      assert Elements(ids) == Elements(init) + {x};
      ExecSnoc(EdgeInserts(t, k, init), EdgeInsert(t, k, x), u);
      OneEdge(t, u, k, Elements(init), x);
    }
  }

  lemma NoNewEdges(t: Tables, k: Key)
    ensures NewEdges(t, k, {}) == map[]
  {
  }

  lemma OneEdge(t: Tables, u: Tables, k: Key, ids: set<string>, x: string)
    requires forall y :: y in ids + {x} ==> Key(k.scope, y) in t.events
    requires ReceiptAt(t, Key(k.scope, x)).Some? && x !in ids
    requires k in u.memories && u.events == t.events && EdgeKey(k.scope, k.id, x) !in u.edges
    ensures Exec(EdgeInsert(t, k, x), u.(edges := u.edges + NewEdges(t, k, ids)))
      == Done(u.(edges := u.edges + NewEdges(t, k, ids + {x})))
  {
    hide ReadReceipt, NewEdges;
    ReceiptFacts(t, Key(k.scope, x));
    NewEdgesSnoc(t, u.edges, k, ids, x);
  }

  lemma NewEdgesSnoc(t: Tables, edges: map<EdgeKey, EdgeRow>, k: Key, ids: set<string>, x: string)
    requires forall y :: y in ids + {x} ==> Key(k.scope, y) in t.events
    requires x !in ids && EdgeKey(k.scope, k.id, x) !in edges
    ensures EdgeKey(k.scope, k.id, x) !in edges + NewEdges(t, k, ids)
    ensures edges + NewEdges(t, k, ids + {x})
      == (edges + NewEdges(t, k, ids))[EdgeKey(k.scope, k.id, x) := Snapshot(t.events[Key(k.scope, x)])]
  {
    assert EdgeKey(k.scope, k.id, x) in NewEdges(t, k, ids + {x});
    forall e
      ensures e in NewEdges(t, k, ids + {x}) <==> e in NewEdges(t, k, ids) || e == EdgeKey(k.scope, k.id, x)
    {
    }
  }

  lemma MaterializeExecutes(t: Tables, d: MemoryDraft)
    requires MemoryDraftOk(d) && Derivable(t, d) && MemoryKey(d) !in t.memories
    requires forall e :: e in t.edges ==> !(e.scope == d.scope && e.memory == d.memoryId)
    ensures ExecAll(MaterializeWrites(t, d), t) == Done(Materialized'(t, d))
  {
    hide Canonical, DraftRows, FingerprintOf, ReadReceipt, EdgeInserts, ExecAll, Exec, NewEdges, NewMemoryRow;
    DraftHasRows(d);
    var k, ids := MemoryKey(d), Elements(d.sources);
    var order := SortedIn(ids);
    var u := t.(memories := t.memories[k := NewMemoryRow(d, DraftRows(t, d.scope, ids))]);
    MemoryInserts(t, d);
    forall i, j | 0 <= i < j < |order|
      ensures order[i] != order[j]
    {
      LessIrreflexive(order[i]);
    }
    assert forall x :: EdgeKey(k.scope, k.id, x) !in u.edges;
    forall x | x in order
      ensures Key(k.scope, x) in t.events && ReceiptAt(t, Key(k.scope, x)).Some?
    {
      assert Usable(t, Key(k.scope, x));
    }
    EdgeInsertsExecute(t, u, k, order);
    assert Elements(order) == ids;
    var first := [InsertMemory(k, u.memories[k])];
    ExecConcat(first, EdgeInserts(t, k, order), t);
    AuditInserts(first + EdgeInserts(t, k, order), t,
                 AuditRow(d.scope, Materialized, Memory, d.memoryId, d.createdAt, MemoryMaterialized));
  }

  lemma MemoryInserts(t: Tables, d: MemoryDraft)
    requires MemoryDraftOk(d) && Derivable(t, d) && MemoryKey(d) !in t.memories
    ensures var row := NewMemoryRow(d, DraftRows(t, d.scope, Elements(d.sources)));
            ExecAll([InsertMemory(MemoryKey(d), row)], t) == Done(t.(memories := t.memories[MemoryKey(d) := row]))
  {
    hide Canonical, JsonValid, DraftRows, FingerprintOf, ExecAll;
    var s := InsertMemory(MemoryKey(d), NewMemoryRow(d, DraftRows(t, d.scope, Elements(d.sources))));
    CanonicalIsJson(d.metadata);
    ExecNone(t);
    ExecSnoc([], s, t);
    assert [] + [s] == [s];
  }

  lemma AuditInserts(ss: seq<Statement>, t: Tables, row: AuditRow)
    requires ExecAll(ss, t).Done?
    ensures ExecAll(ss + [InsertAudit(row)], t)
      == Done(var u := ExecAll(ss, t).state; u.(audit := u.audit + multiset{row}))
  {
    hide ExecAll;
    ExecSnoc(ss, InsertAudit(row), t);
  }

  function KeySet(order: seq<Key>): set<Key> {
    set k | k in order
  }

  lemma {:induction false} ExpireExecutes(t: Tables, order: seq<Key>, asOf: int)
    requires forall k :: k in order ==> k in t.events
    requires forall i, j :: 0 <= i < j < |order| ==> order[i] != order[j]
    ensures ExecAll(ExpireWrites(order, asOf), t) == Done(Expired'(t, KeySet(order), asOf))
  {
    hide ExecAll, Exec, Expired', ExpireThree;
    if order == [] {
      assert KeySet(order) == {};
      ExpireNothing(t, asOf);
      ExecNone(t);
    } else {
      var init, k := order[..|order| - 1], order[|order| - 1];
      ExpireExecutes(t, init, asOf);
      assert order == init + [k];
      assert KeySet(order) == KeySet(init) + {k};
      assert k !in KeySet(init);
      ExpireOne(t, KeySet(init), k, asOf);
      ExecConcat(ExpireWrites(init, asOf), ExpireThree(k, asOf), t);
      ExpireWritesSnoc(order, asOf);
    }
  }

  lemma ExpireWritesSnoc(order: seq<Key>, asOf: int)
    requires order != []
    ensures ExpireWrites(order, asOf) == ExpireWrites(order[..|order| - 1], asOf)
      + ExpireThree(order[|order| - 1], asOf)
  {
  }

  lemma ExpireNothing(t: Tables, asOf: int)
    ensures Expired'(t, {}, asOf) == t
  {
    var u := Expired'(t, {}, asOf);
    assert ExpireRows({}, asOf) == {};
    assert t.bodies - {} == t.bodies;
    assert u.events == t.events;
  }

  function ExpireThree(k: Key, asOf: int): seq<Statement> {
    [DeleteBody(k), SetEventStatus(k, EventExpired), InsertAudit(ExpireRow(k, asOf))]
  }

  lemma ExpireOne(t: Tables, due: set<Key>, k: Key, asOf: int)
    requires k in t.events && k !in due
    ensures ExecAll(ExpireThree(k, asOf), Expired'(t, due, asOf)) == Done(Expired'(t, due + {k}, asOf))
  {
    hide ExecAll, ExpireRows;
    var u, v := Expired'(t, due, asOf), Expired'(t, due + {k}, asOf);
    ExecThree(DeleteBody(k), SetEventStatus(k, EventExpired), InsertAudit(ExpireRow(k, asOf)), u);
    assert u.bodies - {k} == v.bodies;
    assert u.events[k := u.events[k].(status := EventExpired)] == v.events;
    ExpireRowsSnoc(due, k, asOf);
  }

  lemma ExpireRowsSnoc(due: set<Key>, k: Key, asOf: int)
    requires k !in due
    ensures multiset(ExpireRows(due + {k}, asOf)) == multiset(ExpireRows(due, asOf)) + multiset{ExpireRow(k, asOf)}
  {
    assert ExpireRows(due + {k}, asOf) == ExpireRows(due, asOf) + {ExpireRow(k, asOf)};
    assert ExpireRow(k, asOf) !in ExpireRows(due, asOf);
  }

  lemma StatusSet(t: Tables, k: Key, status: MemoryStatus)
    requires k in t.memories && !status.UnknownStatus?
    ensures Exec(SetMemoryStatus(k, status), t)
      == Done(t.(memories := t.memories[k := t.memories[k].(status := status)]))
  {
  }

  lemma StatusExecutes(t: Tables, c: Command, status: MemoryStatus)
    requires Key(c.scope, c.entityId) in t.memories && !status.UnknownStatus?
    ensures ExecAll(StatusWrites(c, status), t) == Done(WithStatus(t, c, status))
  {
    hide ExecAll, Exec;
    var k := Key(c.scope, c.entityId);
    var s := SetMemoryStatus(k, status);
    var u := t.(memories := t.memories[k := t.memories[k].(status := status)]);
    assert ExecAll([s], t) == Done(u) by {
      StatusSet(t, k, status);
      ExecNone(t);
      ExecSnoc([], s, t);
      assert [] + [s] == [s];
    }
    AuditInserts([s], t, GovernRow(c));
    assert StatusWrites(c, status) == [s] + [InsertAudit(GovernRow(c))];
  }

  function Cleared(t: Tables, scope: Scope, ids: set<string>): Tables {
    t.(memories := t.memories - Keys(scope, ids), edges := WithoutEdgesOf(t.edges, scope, ids))
  }

  lemma {:induction false} CascadeExecutes(t: Tables, scope: Scope, memories: seq<string>)
    ensures ExecAll(CascadeWrites(scope, memories), t) == Done(Cleared(t, scope, Elements(memories)))
  {
    hide ExecAll, Exec;
    if memories == [] {
      ExecNone(t);
      assert Elements(memories) == {} && Keys(scope, {}) == {};
      assert t.memories - {} == t.memories && WithoutEdgesOf(t.edges, scope, {}) == t.edges;
    } else {
      var init, m := memories[..|memories| - 1], memories[|memories| - 1];
      CascadeExecutes(t, scope, init);
      assert memories == init + [m];
      assert Elements(memories) == Elements(init) + {m};
      ClearOne(t, scope, Elements(init), m);
      ExecConcat(CascadeWrites(scope, init), [DeleteEdges(Key(scope, m)), DeleteMemory(Key(scope, m))], t);
    }
  }

  lemma ClearOne(t: Tables, scope: Scope, ids: set<string>, m: string)
    ensures ExecAll([DeleteEdges(Key(scope, m)), DeleteMemory(Key(scope, m))], Cleared(t, scope, ids))
      == Done(Cleared(t, scope, ids + {m}))
  {
    var u, k := Cleared(t, scope, ids), Key(scope, m);
    hide ExecAll;
    ExecTwo(DeleteEdges(k), DeleteMemory(k), u);
    assert Keys(scope, ids + {m}) == Keys(scope, ids) + {k};
    assert WithoutEdgesOf(WithoutEdgesOf(u.edges, scope, {m}), scope, {m}) == WithoutEdgesOf(t.edges, scope, ids + {m});
    assert u.memories - {k} == t.memories - Keys(scope, ids + {m});
  }

  lemma {:induction false} TombsExecute(t: Tables, u: Tables, c: Command, memories: seq<string>)
    requires forall x :: x in memories ==> Key(c.scope, x) in t.memories && TombKey(c.scope, Memory, x) !in u.tombstones
    requires forall i, j :: 0 <= i < j < |memories| ==> memories[i] != memories[j]
    ensures ExecAll(TombWrites(t, c, memories), u)
      == Done(u.(tombstones := u.tombstones + Tombs(t, c, Elements(memories))))
  {
    hide ExecAll, Exec, Tombs;
    if memories == [] {
      ExecNone(u);
      NoTombs(t, c);
      assert Elements(memories) == {};
      assert u.tombstones + map[] == u.tombstones;
    } else {
      var init, m := memories[..|memories| - 1], memories[|memories| - 1];
      TombsExecute(t, u, c, init);
      assert memories == init + [m];
      assert Elements(memories) == Elements(init) + {m};
      assert m !in Elements(init);
      OneTomb(t, u, c, Elements(init), m);
      ExecSnoc(TombWrites(t, c, init), InsertTombstone(TombKey(c.scope, Memory, m), Tomb(t, c, m)), u);
    }
  }

  lemma NoTombs(t: Tables, c: Command)
    ensures Tombs(t, c, {}) == map[]
  {
  }

  lemma OneTomb(t: Tables, u: Tables, c: Command, ids: set<string>, m: string)
    requires forall x :: x in ids + {m} ==> Key(c.scope, x) in t.memories
    requires m !in ids && TombKey(c.scope, Memory, m) !in u.tombstones
    ensures Exec(InsertTombstone(TombKey(c.scope, Memory, m), Tomb(t, c, m)),
      u.(tombstones := u.tombstones + Tombs(t, c, ids)))
      == Done(u.(tombstones := u.tombstones + Tombs(t, c, ids + {m})))
  {
    hide Tombs;
    TombSnoc(t, u, c, ids, m);
  }

  lemma TombSnoc(t: Tables, u: Tables, c: Command, ids: set<string>, m: string)
    requires forall x :: x in ids + {m} ==> Key(c.scope, x) in t.memories
    requires m !in ids && TombKey(c.scope, Memory, m) !in u.tombstones
    ensures TombKey(c.scope, Memory, m) !in u.tombstones + Tombs(t, c, ids)
    ensures (u.tombstones + Tombs(t, c, ids))[TombKey(c.scope, Memory, m) := Tomb(t, c, m)]
      == u.tombstones + Tombs(t, c, ids + {m})
  {
    hide Tombs;
    var a, b := Tombs(t, c, ids), Tombs(t, c, ids + {m});
    forall k
      ensures k in b <==> k in a || k == TombKey(c.scope, Memory, m)
      ensures k in b ==> b[k] == if k in a then a[k] else Tomb(t, c, m)
    {
      TombsOf(t, c, ids, k);
      TombsOf(t, c, ids + {m}, k);
    }
    TombsOf(t, c, ids, TombKey(c.scope, Memory, m));
  }

  lemma ForgetExecutes(t: Tables, c: Command)
    requires Key(c.scope, c.entityId) in t.memories && TombKey(c.scope, Memory, c.entityId) !in t.tombstones
    ensures ExecAll(ForgetWrites(t, c), t) == Done(Audited(WithoutMemories(t, c, {c.entityId}), c))
  {
    hide ExecAll, Exec, CascadeWrites, TombWrites;
    var ms := [c.entityId];
    assert Elements(ms) == {c.entityId};
    CascadeExecutes(t, c.scope, ms);
    var u := Cleared(t, c.scope, {c.entityId});
    TombsExecute(t, u, c, ms);
    ExecConcat(CascadeWrites(c.scope, ms), TombWrites(t, c, ms), t);
    AuditInserts(CascadeWrites(c.scope, ms) + TombWrites(t, c, ms), t, GovernRow(c));
  }

  /** An event without dependents can be deleted. */
  lemma EventDeletes(t: Tables, k: Key)
    requires Dependents(t, k) == {}
    ensures Exec(DeleteEvent(k), t) == Done(t.(events := t.events - {k}, bodies := t.bodies - {k}))
  {
    hide Dependents;
    forall e | e in t.edges
      ensures !(e.scope == k.scope && e.event == k.id)
    {
      assert e.scope == k.scope && e.event == k.id ==> e == EdgeKey(k.scope, e.memory, k.id);
      assert e.memory !in Dependents(t, k);
    }
  }

  lemma EventGoes(t: Tables, c: Command)
    requires Dependents(t, Key(c.scope, c.entityId)) == {}
    requires TombKey(c.scope, RawEvent, c.entityId) !in t.tombstones
    ensures ExecAll(EventWrites(c), t) == Done(Unevented(t, c))
  {
    hide ExecAll, Exec, Dependents;
    var k := Key(c.scope, c.entityId);
    var raw, row := TombKey(c.scope, RawEvent, c.entityId), Tombstone(c.occurredAt, GovernanceRequested, None);
    var u := t.(bodies := t.bodies - {k});
    var v := u.(events := u.events - {k}, bodies := u.bodies - {k});
    ExecThree(DeleteBody(k), DeleteEvent(k), InsertTombstone(raw, row), t);
    assert Exec(DeleteBody(k), t) == Done(u) by { BodyDeletes(t, k); }
    assert Dependents(u, k) == Dependents(t, k) by { SameEdgesSameDependents(t, u, k); }
    EventDeletes(u, k);
    TombInserts(v, raw, row);
    assert t.bodies - {k} - {k} == t.bodies - {k};
  }

  lemma BodyDeletes(t: Tables, k: Key)
    ensures Exec(DeleteBody(k), t) == Done(t.(bodies := t.bodies - {k}))
  {
  }

  lemma SameEdgesSameDependents(t: Tables, u: Tables, k: Key)
    requires t.edges == u.edges
    ensures Dependents(t, k) == Dependents(u, k)
  {
  }

  lemma TombInserts(t: Tables, k: TombKey, row: Tombstone)
    requires k !in t.tombstones
    ensures Exec(InsertTombstone(k, row), t) == Done(t.(tombstones := t.tombstones[k := row]))
  {
  }

  lemma DeleteEventExecutes(t: Tables, c: Command)
    requires var ds := Dependents(t, Key(c.scope, c.entityId));
             forall x :: x in ds ==> Key(c.scope, x) in t.memories && TombKey(c.scope, Memory, x) !in t.tombstones
    requires TombKey(c.scope, RawEvent, c.entityId) !in t.tombstones
    ensures ExecAll(DeleteEventWrites(t, c), t) == Done(WithoutEvent(t, c))
  {
    hide Exec, ExecAll, Tombs, Keys, CascadeWrites, TombWrites;
    var k := Key(c.scope, c.entityId);
    var ds := Dependents(t, k);
    var ms := SortedIn(ds);
    assert Elements(ms) == ds;
    var cascade, tombs, three := CascadeWrites(c.scope, ms), TombWrites(t, c, ms), EventWrites(c);
    CascadeExecutes(t, c.scope, ms);
    var u := Cleared(t, c.scope, ds);
    assert Dependents(u, k) == {};
    EventGoes(u, c);
    ExecConcat(cascade, three, t);
    forall i, j | 0 <= i < j < |ms|
      ensures ms[i] != ms[j]
    {
      LessIrreflexive(ms[i]);
    }
    var v := Unevented(u, c);
    TombsExecute(t, v, c, ms);
    ExecConcat(cascade + three, tombs, t);
    AuditInserts(cascade + three + tombs, t, GovernRow(c));
    TombOrder(t, c, ds);
  }

  lemma TombOrder(t: Tables, c: Command, ds: set<string>)
    requires forall x :: x in ds ==> Key(c.scope, x) in t.memories
    ensures var raw := TombKey(c.scope, RawEvent, c.entityId);
            var row := Tombstone(c.occurredAt, GovernanceRequested, None);
            t.tombstones[raw := row] + Tombs(t, c, ds) == (t.tombstones + Tombs(t, c, ds))[raw := row]
  {
    hide Tombs;
    TombsOf(t, c, ds, TombKey(c.scope, RawEvent, c.entityId));
  }

  lemma RefusedKeepsState(t: Tables, op: Op)
    requires OpOk(op) && Step(t, op).reply.Failed?
    ensures Step(t, op).state == t
  {
    hide Materialized', Ingested', Expired', WithStatus, WithoutMemories, WithoutEvent, TombsReadable,
      PrintTombsReadable, PrintTombstoned, SourcesError, DraftRows, NewMemoryRow, DraftPrint, ReadMemory, ReadReceipt,
      SameMemory, SameEvent, MinOf, LineageAgrees;
  }

  /** An operation that does not refuse: its statements all respect the keys, foreign keys and checks in force when they
      are sent, whatever the tables held, and together they yield its outcome. */
  lemma PlanExecutes(t: Tables, op: Op, ss: seq<Statement>)
    requires OpOk(op) && IsPlan(t, op, ss)
    ensures ExecAll(ss, t) == Done(Step(t, op).state)
  {
    hide Step, IsPlan;
    if Step(t, op).reply.Failed? {
      RefusedKeepsState(t, op);
      ExecNone(t);
      assert ss == [] by { NoWritesWhenRefused(t, op, ss); }
    } else {
      match op
      case Ingest(d, now) => IngestPlan(t, d, now, ss);
      case Materialize(d) => MaterializePlan(t, d, ss);
      case Expire(asOf) => ExpirePlan(t, asOf, ss);
      case Govern(c) => GovernPlan(t, c, ss);
    }
  }

  /** And such statements there always are: whatever the tables hold, every operation has a plan. */
  lemma PlanExists(t: Tables, op: Op) returns (ss: seq<Statement>)
    requires OpOk(op)
    ensures IsPlan(t, op, ss)
  {
    hide Step, IsPlan;
    if Step(t, op).reply.Failed? {
      ss := [];
      NothingIsAPlan(t, op);
    } else {
      match op
      case Ingest(d, now) => ss := IngestPlanExists(t, d, now);
      case Materialize(d) => ss := MaterializePlanExists(t, d);
      case Expire(asOf) => ss := ExpirePlanExists(t, asOf);
      case Govern(c) => ss := GovernPlanExists(t, c);
    }
  }

  lemma NothingIsAPlan(t: Tables, op: Op)
    requires OpOk(op) && Step(t, op).reply.Failed?
    ensures IsPlan(t, op, [])
  {
    hide Step;
  }

  lemma IngestPlanExists(t: Tables, d: EventDraft, now: int) returns (ss: seq<Statement>)
    requires OpOk(Ingest(d, now)) && !Step(t, Ingest(d, now)).reply.Failed?
    ensures IsPlan(t, Ingest(d, now), ss)
  {
    hide Step, IngestWrites;
    ss := if EventKey(d) in t.events then [] else IngestWrites(d, now);
  }

  lemma MaterializePlanExists(t: Tables, d: MemoryDraft) returns (ss: seq<Statement>)
    requires OpOk(Materialize(d)) && !Step(t, Materialize(d)).reply.Failed?
    ensures IsPlan(t, Materialize(d), ss)
  {
    hide MaterializeStep, MaterializeWrites, SourcesError, PrintTombstoned, ReadReceipt, MemoryDraftOk;
    ss := [];
    if MemoryKey(d) !in t.memories {
      RecordedMeansNew(t, d);
      SourcesPresent(t, d);
      ss := MaterializeWrites(t, d);
    }
  }

  lemma {:induction false} AnOrder(s: set<Key>) returns (order: seq<Key>)
    ensures Enumerates(order, s)
    decreases |s|
  {
    order := [];
    if s != {} {
      var k :| k in s;
      order := AnOrder(s - {k});
      order := order + [k];
    }
  }

  lemma ExpirePlanExists(t: Tables, asOf: int) returns (ss: seq<Statement>)
    requires OpOk(Expire(asOf)) && !Step(t, Expire(asOf)).reply.Failed?
    ensures IsPlan(t, Expire(asOf), ss)
  {
    hide Step, Due, ExpireWrites, Enumerates;
    var order := AnOrder(Due(t, asOf));
    ss := ExpireWrites(order, asOf);
  }

  lemma GovernPlanExists(t: Tables, c: Command) returns (ss: seq<Statement>)
    requires OpOk(Govern(c)) && !Step(t, Govern(c)).reply.Failed?
    ensures IsPlan(t, Govern(c), ss)
  {
    hide ReadReceipt, LineageAgrees, WithStatus, WithoutMemories, WithoutEvent, ForgetWrites, DeleteEventWrites,
      StatusWrites, MissingError;
    if c.entityType.RawEvent? {
      assert forall x :: x in Dependents(t, Key(c.scope, c.entityId)) ==> DependentOk(t, c.scope, x);
      ss := DeleteEventWrites(t, c);
    } else {
      ss := match c.action
      case Seal => StatusWrites(c, Sealed)
      case Restore => StatusWrites(c, Active)
      case _ => ForgetWrites(t, c);
    }
  }

  /** So does every prefix: stopped after any number of statements, none has been turned away. */
  lemma EveryPrefixExecutes(t: Tables, op: Op, ss: seq<Statement>, n: nat)
    requires OpOk(op) && IsPlan(t, op, ss) && n <= |ss|
    ensures ExecAll(ss[..n], t).Done?
  {
    hide Step, IsPlan, ExecAll;
    PlanExecutes(t, op, ss);
    PrefixExecutes(ss, n, t);
  }

  lemma NoWritesWhenRefused(t: Tables, op: Op, ss: seq<Statement>)
    requires OpOk(op) && IsPlan(t, op, ss) && Step(t, op).reply.Failed?
    ensures ss == []
  {
    hide Step;
  }

  lemma IngestPlan(t: Tables, d: EventDraft, now: int, ss: seq<Statement>)
    requires OpOk(Ingest(d, now)) && IsPlan(t, Ingest(d, now), ss) && !Step(t, Ingest(d, now)).reply.Failed?
    ensures ExecAll(ss, t) == Done(Step(t, Ingest(d, now)).state)
  {
    hide ReadReceipt, Ingested', IngestWrites, TombsReadable, SameEvent;
    if EventKey(d) !in t.events {
      IngestExecutes(t, d, now);
    }
  }

  lemma MaterializePlan(t: Tables, d: MemoryDraft, ss: seq<Statement>)
    requires OpOk(Materialize(d)) && IsPlan(t, Materialize(d), ss) && !Step(t, Materialize(d)).reply.Failed?
    ensures ExecAll(ss, t) == Done(Step(t, Materialize(d)).state)
  {
    hide MaterializeStep, Materialized', MaterializeWrites, Derivable, SourcesError, PrintTombstoned;
    if MemoryKey(d) !in t.memories {
      RecordedMeansNew(t, d);
      MaterializeNew(t, d);
      MaterializeExecutes(t, d);
    } else {
      ReplayedKeepsState(t, d);
      ExecNone(t);
    }
  }

  lemma ReplayedKeepsState(t: Tables, d: MemoryDraft)
    requires MemoryDraftOk(d) && MemoryKey(d) in t.memories
    ensures MaterializeStep(t, d).state == t
  {
    hide Materialized', TombsReadable, PrintTombsReadable, PrintTombstoned, SourcesError, DraftRows, NewMemoryRow,
      DraftPrint, ReadMemory, MemoryAt, SameMemory, MinOf;
  }

  /** A draft that was not refused had no tombstone in its way, only usable sources and no orphaned edges. */
  lemma RecordedMeansNew(t: Tables, d: MemoryDraft)
    requires MemoryDraftOk(d) && !MaterializeStep(t, d).reply.Failed?
    ensures TombsReadable(t, d.scope, d.memoryId) && PrintTombsReadable(t, d.scope, DraftPrint(d))
    ensures TombKey(d.scope, Memory, d.memoryId) !in t.tombstones && !PrintTombstoned(t, d.scope, DraftPrint(d))
    ensures MemoryKey(d) !in t.memories ==> SourcesError(t, d.scope, d.sources).None?
    ensures MemoryKey(d) !in t.memories ==> forall e :: e in t.edges ==> !(e.scope == d.scope && e.memory == d.memoryId)
  {
    hide Materialized', TombsReadable, PrintTombsReadable, PrintTombstoned, SourcesError, DraftRows, NewMemoryRow,
      DraftPrint, ReadMemory, MemoryAt, SameMemory, MinOf;
  }

  lemma ExpirePlan(t: Tables, asOf: int, ss: seq<Statement>)
    requires OpOk(Expire(asOf)) && IsPlan(t, Expire(asOf), ss) && !Step(t, Expire(asOf)).reply.Failed?
    ensures ExecAll(ss, t) == Done(Step(t, Expire(asOf)).state)
  {
    hide ReadReceipt, Expired', ExpireWrites;
    var order :| Enumerates(order, Due(t, asOf)) && ss == ExpireWrites(order, asOf);
    ExpireExecutes(t, order, asOf);
    assert KeySet(order) == Due(t, asOf);
  }

  lemma GovernPlan(t: Tables, c: Command, ss: seq<Statement>)
    requires OpOk(Govern(c)) && IsPlan(t, Govern(c), ss) && !Step(t, Govern(c)).reply.Failed?
    ensures ExecAll(ss, t) == Done(Step(t, Govern(c)).state)
  {
    hide ReadReceipt, LineageAgrees, WithStatus, WithoutMemories, WithoutEvent, ForgetWrites, DeleteEventWrites,
      StatusWrites;
    if c.entityType.RawEvent? {
      DeleteEventExecutes(t, c);
    } else {
      match c.action
      case Seal => StatusExecutes(t, c, Sealed);
      case Restore => StatusExecutes(t, c, Active);
      case _ => ForgetExecutes(t, c);
    }
  }
}
