/** Runs from the empty database that reach the states in which the obvious statements fail. The drafts are any drafts
    that trust and deadlines allow. */
module Reachable {
  import opened Wrappers
  import opened TextOrder
  import opened Metadata
  import opened Fingerprint
  import opened Domain
  import opened Tables
  import opened Policy
  import opened Invariant
  import opened Runs
  import opened Lifecycle
  import opened Cascade

  /** An event and a memory draft made from it alone, both acceptable. */
  ghost predicate Fits(d: EventDraft, now: int, m: MemoryDraft) {
    && EventDraftOk(d) && IsTime(now) && d.source.occurredAt + d.rawTtl <= MAX_TIME && d.recallFor <= INT64_MAX
    && MemoryDraftOk(m) && m.scope == d.scope && m.sources == [d.eventId]
    && m.trust <= d.source.trust && m.createdAt + d.recallFor <= MAX_TIME
  }

  /** The state after the event is ingested. */
  function WithEvent(d: EventDraft, now: int): Tables {
    Ingested'(EMPTY, d, now)
  }

  lemma EventIn(d: EventDraft, now: int)
    requires EventDraftOk(d) && IsTime(now) && d.source.occurredAt + d.rawTtl <= MAX_TIME && d.recallFor <= INT64_MAX
    ensures var t := WithEvent(d, now);
            && Run(EMPTY, [Ingest(d, now)]) == t && Valid(t) && EventKey(d) in t.events
            && t.memories == map[] && t.edges == map[] && t.tombstones == map[]
            && (forall k :: k in t.events ==> k == EventKey(d))
            && t.events[EventKey(d)].trust == d.source.trust && t.events[EventKey(d)].recallFor == d.recallFor
  {
    hide Valid, IngestStep;
    EmptyIsValid();
    FirstIngest(d, now);
    IngestKeepsValid(EMPTY, d, now);
    assert [Ingest(d, now)] == [] + [Ingest(d, now)];
    RunSnoc(EMPTY, [], Ingest(d, now));
  }

  /** Materializing a draft with the event as its only source, in a state that still has the event. */
  lemma MemoryIn(t: Tables, m: MemoryDraft)
    requires Valid(t) && MemoryDraftOk(m) && m.sources != [] && m.sources == [m.sources[0]]
    requires MemoryKey(m) !in t.memories && t.tombstones == map[] && Key(m.scope, m.sources[0]) in t.events
    requires m.trust <= t.events[Key(m.scope, m.sources[0])].trust
    requires m.createdAt + t.events[Key(m.scope, m.sources[0])].recallFor <= MAX_TIME
    ensures var u := MaterializeStep(t, m).state;
            && MaterializeStep(t, m).reply.Recorded? && Valid(u) && u.tombstones == map[] && u.events == t.events
            && MemoryKey(m) in u.memories && u.memories.Keys == t.memories.Keys + {MemoryKey(m)}
            && u.memories[MemoryKey(m)].fingerprint == DraftPrint(m)
            && (forall k :: k in t.memories ==> u.memories[k] == t.memories[k])
            && EdgeKey(m.scope, m.memoryId, m.sources[0]) in u.edges
  {
    hide Valid, MaterializeStep, FingerprintOf, Derivable, PrintTombstoned, Materialized';
    NoPrints(t, m);
    SingleSource(t, m, m.sources[0]);
    MaterializeKeepsValid(t, m);
    MaterializeHasShape(t, m);
    Present(t, m);
    StoredTables(t, m);
  }

  lemma Present(t: Tables, m: MemoryDraft)
    requires MemoryDraftOk(m)
    ensures Derivable(t, m) ==> forall x :: x in Elements(m.sources) ==> Key(m.scope, x) in t.events
  {
    hide DraftRows, NewMemoryRow, ReadReceipt, MinOf;
  }

  lemma StoredTables(t: Tables, m: MemoryDraft)
    requires MemoryDraftOk(m) && forall x :: x in Elements(m.sources) ==> Key(m.scope, x) in t.events
    ensures var u, k := Materialized'(t, m), MemoryKey(m);
            && u.tombstones == t.tombstones && u.events == t.events && u.memories.Keys == t.memories.Keys + {k}
            && k in u.memories && u.memories[k].fingerprint == DraftPrint(m)
            && (forall i :: i in t.memories && i != k ==> u.memories[i] == t.memories[i])
            && EdgeKey(m.scope, m.memoryId, m.sources[0]) in u.edges
  {
    hide FingerprintOf, DraftRows, NewEdges, MinOf, Canonical;
    DraftHasRows(m);
    NewEdgesHas(t, MemoryKey(m), Elements(m.sources), EdgeKey(m.scope, m.memoryId, m.sources[0]));
  }

  lemma NoPrints(t: Tables, m: MemoryDraft)
    requires t.tombstones == map[]
    ensures !PrintTombstoned(t, m.scope, DraftPrint(m))
  {
    hide FingerprintOf;
  }

  lemma ThreeOps(t: Tables, a: Op, b: Op, c: Op)
    requires OpOk(a) && OpOk(b) && OpOk(c)
    ensures OpsOk([a, b, c]) && Run(t, [a, b, c]) == Step(Step(Run(t, [a]), b).state, c).state
  {
    hide Step;
    assert [a, b] == [a] + [b] && [a, b, c] == [a, b] + [c];
    RunSnoc(t, [a], b);
    RunSnoc(t, [a, b], c);
  }

  lemma FourOps(t: Tables, a: Op, b: Op, c: Op, d: Op)
    requires OpOk(a) && OpOk(b) && OpOk(c) && OpOk(d)
    ensures OpsOk([a, b, c, d]) && Run(t, [a, b, c, d]) == Step(Step(Step(Run(t, [a]), b).state, c).state, d).state
  {
    hide Step;
    assert [a, b, c, d] == [a, b, c] + [d];
    ThreeOps(t, a, b, c);
    RunSnoc(t, [a, b, c], d);
  }

  /** Two memories made from one event under different identifiers share a fingerprint. Once one is forgotten the other
      is live, and replaying the other's own draft is refused as deleted. */
  lemma SiblingIsRefused(d: EventDraft, now: int, m: MemoryDraft, sibling: MemoryDraft, forget: Command)
    requires Fits(d, now, m) && Fits(d, now, sibling) && m.kind == sibling.kind && m.memoryId != sibling.memoryId
    requires forget.scope == m.scope && forget.entityType.Memory? && forget.action.Forget?
    requires forget.entityId == m.memoryId
    requires IsTime(forget.occurredAt)
    ensures OpsOk([Ingest(d, now), Materialize(m), Materialize(sibling), Govern(forget)])
    ensures var t := Run(EMPTY, [Ingest(d, now), Materialize(m), Materialize(sibling), Govern(forget)]);
            && MemoryKey(m) !in t.memories && MemoryKey(sibling) in t.memories
            && t.memories[MemoryKey(sibling)].fingerprint == DraftPrint(m) == DraftPrint(sibling)
            && MaterializeStep(t, sibling) == Refused(EntityDeleted(sibling.memoryId), t)
  {
    hide Valid, IngestStep, MaterializeStep, GovernStep, FingerprintOf, WithEvent, Run, PrintTombstoned, Ingested';
    EventIn(d, now);
    var t := WithEvent(d, now);
    MemoryIn(t, m);
    var u := MaterializeStep(t, m).state;
    MemoryIn(u, sibling);
    var v := MaterializeStep(u, sibling).state;
    RemovalIsExact(v, forget);
    SiblingSurvivesForget(v, forget);
    FourOps(EMPTY, Ingest(d, now), Materialize(m), Materialize(sibling), Govern(forget));
    var w := GovernStep(v, forget).state;
    assert Valid(w) by { StepKeepsValid(v, Govern(forget)); }
    KeptReadable(w, MemoryKey(sibling));
    Rematerialize(w, sibling);
  }

  lemma KeptReadable(t: Tables, k: Key)
    requires Valid(t) && k in t.memories
    ensures MemoryAt(t, k).Some?
  {
    hide KeysAgree, EventsReadable, TombstonesReadable, AuditReadable, NoneResurrected, ReadMemory, SourceRows;
  }

  /** A memory that bears its source's own identifier: deleting the event reports that identifier twice. */
  lemma NamesakeIsReportedTwice(d: EventDraft, now: int, m: MemoryDraft, delete: Command)
    requires Fits(d, now, m) && m.memoryId == d.eventId
    requires delete.scope == d.scope && delete.entityType.RawEvent? && delete.action.Delete?
    requires delete.entityId == d.eventId
    requires IsTime(delete.occurredAt)
    ensures OpsOk([Ingest(d, now), Materialize(m)])
    ensures var reply := GovernStep(Run(EMPTY, [Ingest(d, now), Materialize(m)]), delete).reply;
            reply.Affected? && multiset(reply.ids)[d.eventId] == 2
  {
    hide Valid, IngestStep, MaterializeStep, GovernStep, FingerprintOf, WithEvent, Run, Ingested';
    EventIn(d, now);
    MemoryIn(WithEvent(d, now), m);
    assert [Ingest(d, now), Materialize(m)] == [Ingest(d, now)] + [Materialize(m)];
    RunSnoc(EMPTY, [Ingest(d, now)], Materialize(m));
    ReportedTwice(MaterializeStep(WithEvent(d, now), m).state, delete, d.eventId);
  }

  /** An event deleted in its own scope, asked for in another: governance calls it foreign, materialization unknown. */
  lemma DeletedElsewhere(d: EventDraft, now: int, delete: Command, c: Command, m: MemoryDraft)
    requires EventDraftOk(d) && IsTime(now) && d.source.occurredAt + d.rawTtl <= MAX_TIME && d.recallFor <= INT64_MAX
    requires delete.scope == d.scope && delete.entityType.RawEvent? && delete.action.Delete?
    requires delete.entityId == d.eventId
    requires IsTime(delete.occurredAt)
    requires c.scope != d.scope && c.entityType.RawEvent? && c.action.Delete? && c.entityId == d.eventId
    requires MemoryDraftOk(m) && m.scope == c.scope && m.sources == [d.eventId]
    ensures OpsOk([Ingest(d, now), Govern(delete)])
    ensures var t := Run(EMPTY, [Ingest(d, now), Govern(delete)]);
            && TombstonedOnlyElsewhere(t, c)
            && GovernStep(t, c) == Refused(ScopeMismatch(d.eventId), t)
            && MaterializeStep(t, m) == Refused(EntityNotFound(d.eventId), t)
  {
    hide Valid, IngestStep, MaterializeStep, GovernStep, FingerprintOf, WithEvent, Run, Ingested', ExactlyRemoved;
    EventIn(d, now);
    var t := WithEvent(d, now);
    DeletionIsExact(t, delete);
    assert [Ingest(d, now), Govern(delete)] == [Ingest(d, now)] + [Govern(delete)];
    RunSnoc(EMPTY, [Ingest(d, now)], Govern(delete));
    var u := GovernStep(t, delete).state;
    assert Valid(u) by { StepKeepsValid(t, Govern(delete)); }
    OneTombstone(t, delete, u);
    assert TombKey(d.scope, RawEvent, d.eventId) in u.tombstones;
    UnknownSource(u, c, m, d.eventId);
  }

  /** After the only event is deleted nothing is left but its tombstone. */
  lemma OneTombstone(t: Tables, c: Command, u: Tables)
    requires ExactlyRemoved(t, c, u) && c.entityType.RawEvent? && t.tombstones == map[] && t.memories == map[]
    requires t.edges == map[] && forall k :: k in t.events ==> k == Key(c.scope, c.entityId)
    ensures u.events == map[] && u.memories == map[]
    ensures forall k :: k in u.tombstones <==> k == TombKey(c.scope, RawEvent, c.entityId)
  {
    forall k
      ensures k in u.tombstones <==> k == TombKey(c.scope, RawEvent, c.entityId)
    {
      assert k in u.tombstones <==> k in t.tombstones || Buried(t, c, k);
    }
  }

  lemma UnknownSource(u: Tables, c: Command, m: MemoryDraft, id: string)
    requires Valid(u) && u.events == map[] && u.memories == map[] && c.entityType.RawEvent? && c.action.Delete?
    requires exists k :: k in u.tombstones && k.entity.RawEvent? && k.id == id && k.scope != c.scope
    requires forall k :: k in u.tombstones ==> k.entity.RawEvent? && k.scope != c.scope
    requires c.entityId == id && MemoryDraftOk(m) && m.scope == c.scope && m.sources == [id]
    ensures TombstonedOnlyElsewhere(u, c)
    ensures GovernStep(u, c) == Refused(ScopeMismatch(id), u)
    ensures MaterializeStep(u, m) == Refused(EntityNotFound(id), u)
  {
    hide MaterializeStep, KeysAgree, EventsReadable, MemoriesReadable, AuditReadable, NoneResurrected, TombsReadable,
      PrintTombsReadable, TombsReadableAnywhere, DraftPrint, TombstoneOk, WithoutEvent, DependentOk;
    LookupsSucceed(u, m.scope, m.memoryId, DraftPrint(m));
    LookupsSucceed(u, m.scope, id, DraftPrint(m));
    MaterializeExits(u, m);
    assert m.sources[0] == id && SourceError(u, m.scope, id) == Some(EntityNotFound(id));
    assert SourcesError(u, m.scope, m.sources) == Some(EntityNotFound(id));
  }

  /** A memory forgotten in its own scope, asked for in another: governance calls it foreign; nothing bears it. */
  lemma ForgottenElsewhere(d: EventDraft, now: int, m: MemoryDraft, forget: Command, c: Command)
    requires Fits(d, now, m) && forget.scope == m.scope && forget.entityType.Memory? && forget.action.Forget?
    requires forget.entityId == m.memoryId && IsTime(forget.occurredAt)
    requires c.scope != m.scope && c.entityType.Memory? && c.entityId == m.memoryId
    ensures OpsOk([Ingest(d, now), Materialize(m), Govern(forget)])
    ensures var t := Run(EMPTY, [Ingest(d, now), Materialize(m), Govern(forget)]);
            !LiveSomewhere(t, Memory, m.memoryId) && GovernStep(t, c).reply == Failed(ScopeMismatch(m.memoryId))
  {
    hide Valid, IngestStep, MaterializeStep, GovernStep, FingerprintOf, WithEvent, Run, Ingested';
    EventIn(d, now);
    var t := WithEvent(d, now);
    MemoryIn(t, m);
    var u := MaterializeStep(t, m).state;
    RemovalIsExact(u, forget);
    ThreeOps(EMPTY, Ingest(d, now), Materialize(m), Govern(forget));
    var v := GovernStep(u, forget).state;
    assert Valid(v) by { StepKeepsValid(u, Govern(forget)); }
    assert TombKey(m.scope, Memory, m.memoryId) in v.tombstones;
    assert TombstonedOnlyElsewhere(v, c);
    ForeignWithoutBearerExactly(v, c);
  }
}
