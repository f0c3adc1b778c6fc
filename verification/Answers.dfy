/** What the operations answer, case by case: in a valid state, and, when rows are malformed, on any tables. */
module Answers {
  import opened Wrappers
  import opened TextOrder
  import opened Binary64
  import opened Metadata
  import opened Fingerprint
  import opened Domain
  import opened Tables
  import opened Policy
  import opened Invariant
  import opened Expiry
  import opened Lifecycle

  // ----- ingest

  /** In a valid state a new event whose body's deadline can be represented is stored if and only if both its periods
      fit a signed 64-bit column. */
  lemma PeriodsFitExactly(t: Tables, d: EventDraft, now: int)
    requires Valid(t) && EventDraftOk(d) && IsTime(now) && d.source.occurredAt + d.rawTtl <= MAX_TIME
    requires EventKey(d) !in t.events && TombKey(d.scope, RawEvent, d.eventId) !in t.tombstones
    ensures var o := Step(t, Ingest(d, now));
            if d.clearFor <= Power(2, 63) - 1 && d.recallFor <= Power(2, 63) - 1
            then o.reply.Received? && EventKey(d) in o.state.events && EventKey(d) in o.state.bodies
            else o == Refused(TooLargeForColumn, t)
  {
    hide Valid, Power, IngestStep, NewEventRow;
    IngestOutcome(t, d, now);
  }

  // ----- governance of what is not there

  /** The scope has no such entity. */
  predicate Absent(t: Tables, scope: Scope, entity: EntityType, id: string) {
    if entity.RawEvent? then Key(scope, id) !in t.events else Key(scope, id) !in t.memories
  }

  predicate HeldByAnother(t: Tables, scope: Scope, entity: EntityType, id: string) {
    || (entity.RawEvent? && exists k :: k in t.events && k.id == id && k.scope != scope)
    || (entity.Memory? && exists k :: k in t.memories && k.id == id && k.scope != scope)
  }

  predicate BuriedByAnother(t: Tables, scope: Scope, entity: EntityType, id: string) {
    exists k :: k in t.tombstones && k.entity == entity && k.id == id && k.scope != scope
  }

  /** In a valid state a command on an entity its scope does not have is refused: as deleted if it is tombstoned there,
      else as foreign if another scope has it or its tombstone, else as unknown. */
  lemma AbsentIsAnswered(t: Tables, c: Command)
    requires Valid(t) && IsTime(c.occurredAt) && (c.entityType.RawEvent? ==> c.action.Delete?)
    requires Absent(t, c.scope, c.entityType, c.entityId)
    ensures Step(t, Govern(c)) ==
      if TombKey(c.scope, c.entityType, c.entityId) in t.tombstones then Refused(EntityDeleted(c.entityId), t)
      else if HeldByAnother(t, c.scope, c.entityType, c.entityId)
        || BuriedByAnother(t, c.scope, c.entityType, c.entityId) then Refused(ScopeMismatch(c.entityId), t)
      else Refused(EntityNotFound(c.entityId), t)
  {
    hide KeysAgree, EventsReadable, MemoriesReadable, AuditReadable, NoneResurrected, TombsReadableAnywhere;
    LookupsSucceed(t, c.scope, c.entityId, Sha256([]));
  }

  /** What is tombstoned in a scope can no longer be governed there: every permitted command is refused as deleted. */
  lemma TombstonedIsDeleted(t: Tables, c: Command)
    requires Valid(t) && IsTime(c.occurredAt) && (c.entityType.RawEvent? ==> c.action.Delete?)
    requires TombKey(c.scope, c.entityType, c.entityId) in t.tombstones
    ensures Step(t, Govern(c)) == Refused(EntityDeleted(c.entityId), t)
  {
    hide KeysAgree, EventsReadable, MemoriesReadable, AuditReadable, TombstonesReadable, GovernStep;
    assert !Live(t, TombKey(c.scope, c.entityType, c.entityId));
    AbsentIsAnswered(t, c);
  }

  /** A raw event can only be deleted: on any tables every other command on one is refused for its action. */
  lemma RawEventsAreOnlyDeleted(t: Tables, c: Command)
    requires c.entityType.RawEvent?
    ensures GovernStep(t, c) == Refused(ValidationError(ActionField), t) <==> !c.action.Delete?
  {
    hide ReadReceipt, DependentOk, WithoutEvent, MissingError;
    MissingIsNoValidation(t, c);
  }

  lemma MissingIsNoValidation(t: Tables, c: Command)
    ensures !MissingError(t, c).ValidationError?
  {
    hide TombsReadableAnywhere, LiveSomewhere;
  }

  // ----- materialization

  /** The first of the draft's sources that its scope does not have. */
  predicate IsFirstAbsent(t: Tables, d: MemoryDraft, i: nat) {
    && i < |d.sources| && Key(d.scope, d.sources[i]) !in t.events
    && forall j :: 0 <= j < i ==> Key(d.scope, d.sources[j]) in t.events
  }

  /** Neither the draft's identifier nor its lineage is tombstoned in its scope, and no memory has the identifier. */
  predicate IsNew(t: Tables, d: MemoryDraft) {
    && MemoryKey(d) !in t.memories && TombKey(d.scope, Memory, d.memoryId) !in t.tombstones
    && !LineageBuried(t, d)
  }

  /** A memory with the draft's scope, kind and source set has been forgotten or deleted. */
  predicate LineageBuried(t: Tables, d: MemoryDraft) {
    exists k :: k in t.tombstones && k.scope == d.scope && k.entity.Memory?
                && t.tombstones[k].fingerprint == Some(FingerprintOf(d.scope, d.kind, Elements(d.sources)))
  }

  lemma {:induction false} FirstErrorIs(t: Tables, scope: Scope, ids: seq<string>, i: nat)
    requires EventsReadable(t) && i < |ids| && Key(scope, ids[i]) !in t.events
    requires forall j :: 0 <= j < i ==> Key(scope, ids[j]) in t.events
    ensures SourcesError(t, scope, ids) == SourceError(t, scope, ids[i])
  {
    hide ReadReceipt, TombsReadable;
    if i > 0 {
      assert Key(scope, ids[0]) in t.events;
      FirstErrorIs(t, scope, ids[1..], i - 1);
    }
  }

  /** In a valid state, a draft whose identifier or lineage is tombstoned is refused as deleted. */
  lemma BuriedDraftIsDeleted(t: Tables, d: MemoryDraft)
    requires Valid(t) && MemoryDraftOk(d)
    requires TombKey(d.scope, Memory, d.memoryId) in t.tombstones || LineageBuried(t, d)
    ensures Step(t, Materialize(d)) == Refused(EntityDeleted(d.memoryId), t)
  {
    hide KeysAgree, EventsReadable, MemoriesReadable, AuditReadable, NoneResurrected, TombsReadable, PrintTombsReadable,
      MaterializeStep, FingerprintOf;
    LookupsSucceed(t, d.scope, d.memoryId, DraftPrint(d));
    MaterializeExits(t, d);
  }

  /** In a valid state, a new draft with absent sources is refused for the first of them: as deleted if it is tombstoned
      in the scope, else as foreign if another scope has it, else as unknown. */
  lemma AbsentSourceIsAnswered(t: Tables, d: MemoryDraft, i: nat)
    requires Valid(t) && MemoryDraftOk(d) && IsNew(t, d) && IsFirstAbsent(t, d, i)
    ensures var x := d.sources[i];
            Step(t, Materialize(d)) ==
              if TombKey(d.scope, RawEvent, x) in t.tombstones then Refused(EntityDeleted(x), t)
              else if HeldByAnother(t, d.scope, RawEvent, x) then Refused(ScopeMismatch(x), t)
              else Refused(EntityNotFound(x), t)
  {
    hide KeysAgree, EventsReadable, MemoriesReadable, AuditReadable, NoneResurrected, TombsReadable, PrintTombsReadable,
      MaterializeStep, FingerprintOf, SourcesError;
    LookupsSucceed(t, d.scope, d.memoryId, DraftPrint(d));
    LookupsSucceed(t, d.scope, d.sources[i], DraftPrint(d));
    FirstErrorIs(t, d.scope, d.sources, i);
    MaterializeExits(t, d);
  }

  predicate LessTrustedSource(t: Tables, d: MemoryDraft) {
    exists x :: x in d.sources && Key(d.scope, x) in t.events && t.events[Key(d.scope, x)].trust < d.trust
  }

  predicate NoDeadline(t: Tables, d: MemoryDraft) {
    forall x :: x in d.sources && Key(d.scope, x) in t.events ==>
      d.createdAt + t.events[Key(d.scope, x)].recallFor > MAX_TIME
  }

  /** In a valid state, a new draft whose sources are all there is refused if one is less trusted, else if no deadline
      of a source can be represented, and is else stored. */
  lemma PresentSourcesAreAnswered(t: Tables, d: MemoryDraft)
    requires Valid(t) && MemoryDraftOk(d) && IsNew(t, d)
    requires forall x :: x in d.sources ==> Key(d.scope, x) in t.events
    ensures var o := Step(t, Materialize(d));
            if LessTrustedSource(t, d) then o == Refused(TrustEscalation(d.memoryId), t)
            else if NoDeadline(t, d) then o == Refused(ValidationError(CreatedAt), t)
            else o.reply.Recorded? && MemoryKey(d) in o.state.memories
  {
    hide Valid, TombsReadable, PrintTombsReadable, MaterializeStep, FingerprintOf, SourcesError, DraftRows,
      NewMemoryRow, MinOf, ReadMemory, DraftRowsMatch, Orphaned, Materialized', LineageBuried, PrintTombstoned, Usable,
      Clear, LessTrustedSource, NoDeadline, EventsReadable;
    NewIsClear(t, d);
    assert EventsReadable(t) by { ReadableEvents(t); }
    AllUsable(t, d);
    MaterializeStores(t, d);
    var rows := DraftRows(t, d.scope, Elements(d.sources));
    DraftRowsOk(t, d.scope, Elements(d.sources));
    DraftRowsAre(t, d);
    TrustDecides(t, d, rows);
    DeadlineDecides(t, d, rows);
    NothingOrphaned(t, d);
    MaterializedHas(t, d);
  }

  lemma NewIsClear(t: Tables, d: MemoryDraft)
    requires Valid(t) && IsNew(t, d)
    ensures Clear(t, d)
  {
    hide KeysAgree, EventsReadable, MemoriesReadable, AuditReadable, NoneResurrected, TombsReadable, PrintTombsReadable,
      FingerprintOf, LineageBuried, PrintTombstoned;
    LineageIsPrint(t, d);
    LookupsSucceed(t, d.scope, d.memoryId, DraftPrint(d));
  }

  lemma ReadableEvents(t: Tables)
    requires Valid(t)
    ensures EventsReadable(t)
  {
    hide EventsReadable;
  }

  /** The earliest deadline is representable when some source's is; the clear deadline is no later than the recall
      deadline. */
  lemma DeadlineDecides(t: Tables, d: MemoryDraft, rows: seq<SourceRow>)
    requires DraftRowsMatch(t, d, rows) && rows != [] && forall i :: 0 <= i < |rows| ==> SourceRowOk(rows[i])
    ensures NewMemoryRow(d, rows).clearUntil > MAX_TIME || NewMemoryRow(d, rows).recallUntil > MAX_TIME <==>
      NoDeadline(t, d)
  {
    hide MinOf, FingerprintOf, Canonical;
    PositiveMinima(rows);
    assert forall i :: 0 <= i < |rows| ==> RecallPeriods(rows)[i] == t.events[Key(d.scope, rows[i].event)].recallFor;
    var j :| 0 <= j < |rows| && RecallPeriods(rows)[j] == MinOf(RecallPeriods(rows));
    assert rows[j].event in d.sources;
    if d.createdAt + MinOf(RecallPeriods(rows)) > MAX_TIME {
      forall x | x in d.sources && Key(d.scope, x) in t.events
        ensures d.createdAt + t.events[Key(d.scope, x)].recallFor > MAX_TIME
      {
        var i :| 0 <= i < |rows| && rows[i].event == x;
        assert RecallPeriods(rows)[i] >= MinOf(RecallPeriods(rows));
      }
    }
  }

  lemma LineageIsPrint(t: Tables, d: MemoryDraft)
    ensures LineageBuried(t, d) <==> PrintTombstoned(t, d.scope, DraftPrint(d))
  {
    hide FingerprintOf;
  }

  lemma AllUsable(t: Tables, d: MemoryDraft)
    requires EventsReadable(t) && forall x :: x in d.sources ==> Key(d.scope, x) in t.events
    ensures SourcesError(t, d.scope, d.sources).None?
    ensures forall x :: x in Elements(d.sources) ==> Key(d.scope, x) in t.events && Usable(t, Key(d.scope, x))
  {
    hide ReadReceipt;
  }

  lemma NothingOrphaned(t: Tables, d: MemoryDraft)
    requires Valid(t) && MemoryKey(d) !in t.memories
    ensures !Orphaned(t, d)
  {
    hide EventsReadable, MemoriesReadable, AuditReadable, NoneResurrected, TombstonesReadable;
  }

  lemma TrustDecides(t: Tables, d: MemoryDraft, rows: seq<SourceRow>)
    requires DraftRowsMatch(t, d, rows) && rows != []
    ensures d.trust > MinOf(Trusts(rows)) <==> LessTrustedSource(t, d)
  {
    hide MinOf;
    assert forall i :: 0 <= i < |rows| ==> Trusts(rows)[i] == t.events[Key(d.scope, rows[i].event)].trust;
    if d.trust > MinOf(Trusts(rows)) {
      var i :| 0 <= i < |rows| && Trusts(rows)[i] == MinOf(Trusts(rows));
      assert rows[i].event in d.sources;
    }
    if x :| x in d.sources && Key(d.scope, x) in t.events && t.events[Key(d.scope, x)].trust < d.trust {
      var i :| 0 <= i < |rows| && rows[i].event == x;
      assert Trusts(rows)[i] < d.trust;
    }
  }

  lemma MaterializedHas(t: Tables, d: MemoryDraft)
    requires MemoryDraftOk(d) && forall x :: x in Elements(d.sources) ==> Key(d.scope, x) in t.events
    ensures MemoryKey(d) in Materialized'(t, d).memories
  {
    hide NewMemoryRow, DraftRows, NewEdges;
  }
}
