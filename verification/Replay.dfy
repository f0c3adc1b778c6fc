/** A second draft under an identifier in use: when it is taken for a replay, and when that is a question of text. */
module Replay {
  import opened TextOrder
  import opened Metadata
  import opened PlainMetadata
  import opened Fingerprint
  import opened Domain
  import opened Tables
  import opened Policy
  import opened Invariant
  import opened Runs
  import opened Lifecycle

  // ----- materialization

  /** The fields of a memory draft that idempotency compares. */
  predicate SameMemoryDraft(d: MemoryDraft, e: MemoryDraft) {
    && d.memoryId == e.memoryId && d.scope == e.scope && d.content == e.content
    && Elements(d.sources) == Elements(e.sources) && d.kind == e.kind && d.trust == e.trust
    && d.createdAt == e.createdAt
    && PyEqual(d.metadata, e.metadata)
  }

  /** After a first materialization, while the memory is live and whatever ran since: a draft under the same identifier
      is refused as deleted if a memory with the draft's own fingerprint has been tombstoned; else it gets the original
      record with its current status if no compared field differs, and conflicts if one does. */
  lemma MemoryConflictExactly(t: Tables, d: MemoryDraft, ops: seq<Op>, e: MemoryDraft)
    requires Valid(t) && MemoryDraftOk(d) && OpsOk(ops) && MemoryDraftOk(e) && MemoryKey(e) == MemoryKey(d)
    requires MemoryKey(d) !in t.memories && MaterializeStep(t, d).reply.Recorded?
    requires MemoryKey(d) in Run(MaterializeStep(t, d).state, ops).memories
    ensures var u := Run(MaterializeStep(t, d).state, ops);
            MaterializeStep(u, e) ==
              if PrintTombstoned(u, e.scope, DraftPrint(e)) then Refused(EntityDeleted(e.memoryId), u)
              else if SameMemoryDraft(d, e)
              then Outcome(Recorded(MaterializeStep(t, d).reply.record.(status := u.memories[MemoryKey(d)].status)), u)
              else Refused(IdempotencyConflict(e.memoryId), u)
  {
    hide MaterializeStep, ReadMemory, SourceRows, SameMemory, SameMemoryDraft, KeysAgree, MemoriesReadable,
      EventsReadable, AuditReadable, TombstonesReadable, NoneResurrected, PrintTombstoned, DraftPrint, Run;
    var u, k := Run(MaterializeStep(t, d).state, ops), MemoryKey(d);
    var r := MaterializeStep(t, d).reply.record;
    RecordNow(t, d, ops);
    ComparedMemoryFields(t, d, e);
    SameButStatus(r, e, u.memories[k].status);
    Rematerialize(u, e);
  }

  /** Comparing a draft with the record of another is comparing the two drafts. */
  lemma ComparedMemoryFields(t: Tables, d: MemoryDraft, e: MemoryDraft)
    requires Valid(t) && MemoryDraftOk(d) && MemoryKey(d) !in t.memories && MaterializeStep(t, d).reply.Recorded?
    requires MemoryKey(e) == MemoryKey(d)
    ensures SameMemory(MaterializeStep(t, d).reply.record, e) <==> SameMemoryDraft(d, e)
  {
    hide Valid, MaterializeStep, FingerprintOf, PyEqual, Normalize, MinOf, DraftRows, Sorted;
    NewRecord(t, d);
    NormalizedEquals(d.metadata, e.metadata);
    FingerprintInjective(d.scope, d.kind, Elements(d.sources), e.scope, e.kind, Elements(e.sources));
    assert Elements(Sorted(Elements(d.sources))) == Elements(d.sources);
    assert Elements(Sorted(Elements(e.sources))) == Elements(e.sources);
  }

  // ----- replay by text

  /** The compared fields, metadata compared as canonical text. */
  predicate SameMemoryText(d: MemoryDraft, e: MemoryDraft) {
    && d.memoryId == e.memoryId && d.scope == e.scope && d.content == e.content
    && Elements(d.sources) == Elements(e.sources) && d.kind == e.kind && d.trust == e.trust
    && d.createdAt == e.createdAt
    && Canonical(d.metadata) == Canonical(e.metadata)
  }

  predicate SameSourceText(a: Source, b: Source) {
    && a.sourceId == b.sourceId && a.sourceType == b.sourceType && a.occurredAt == b.occurredAt && a.trust == b.trust
    && Canonical(a.metadata) == Canonical(b.metadata)
  }

  predicate SameEventText(d: EventDraft, e: EventDraft) {
    && d.scope == e.scope && d.eventId == e.eventId && SameSourceText(d.source, e.source) && d.content == e.content
    && d.rawTtl == e.rawTtl && d.clearFor == e.clearFor && d.recallFor == e.recallFor
    && Canonical(d.metadata) == Canonical(e.metadata)
  }

  /** A second draft that may be ingested under the identifier of the first. */
  predicate Rival(d: EventDraft, e: EventDraft) {
    EventDraftOk(e) && EventKey(e) == EventKey(d) && e.source.occurredAt + e.rawTtl <= MAX_TIME
  }

  predicate PlainEvent(d: EventDraft) {
    Plain(d.metadata) && Plain(d.source.metadata)
  }

  lemma PlainDraftByText(d: EventDraft, e: EventDraft)
    requires PlainEvent(d)
    ensures SameDraft(d, e) <==> SameEventText(d, e)
  {
    hide Plain, PyEqual, Canonical;
    PlainByText(d.metadata, e.metadata);
    PlainByText(d.source.metadata, e.source.metadata);
  }

  /** The draft with its metadata flipped is equal to it. */
  function FlippedEvent(d: EventDraft): EventDraft {
    d.(metadata := Flip(d.metadata), source := d.source.(metadata := Flip(d.source.metadata)))
  }

  lemma FlippedIsRival(d: EventDraft)
    requires EventDraftOk(d) && d.source.occurredAt + d.rawTtl <= MAX_TIME
    ensures Rival(d, FlippedEvent(d)) && SameDraft(d, FlippedEvent(d))
    ensures !PlainEvent(d) ==> !SameEventText(d, FlippedEvent(d))
  {
    hide Plain, PyEqual, Canonical, IsMetadata, Flip;
    FlipIsEqual(d.metadata);
    FlipIsEqual(d.source.metadata);
  }

  /** After a first ingest, while the event is live: every later draft under its identifier is taken for a replay just
      when its compared fields have the first draft's text, if and only if the first draft's metadata is plain. */
  lemma IngestReplayedByTextExactly(t: Tables, d: EventDraft, now: int, ops: seq<Op>, again: int)
    requires Valid(t) && EventDraftOk(d) && IsTime(now) && IsTime(again) && OpsOk(ops)
    requires EventKey(d) !in t.events && IngestStep(t, d, now).reply.Received?
    requires EventKey(d) in Run(IngestStep(t, d, now).state, ops).events
    ensures var u := Run(IngestStep(t, d, now).state, ops);
            PlainEvent(d) <==>
              forall e | Rival(d, e) :: IngestStep(u, e, again).reply.Received? <==> SameEventText(d, e)
  {
    hide Valid, IngestStep, Run, SameDraft, SameEventText, PlainEvent, FlippedEvent;
    var u := Run(IngestStep(t, d, now).state, ops);
    IngestAccepted(t, d, now);
    forall e | Rival(d, e)
      ensures IngestStep(u, e, again).reply.Received? <==> SameDraft(d, e)
    {
      ConflictExactly(t, d, now, ops, e, again);
    }
    if PlainEvent(d) {
      forall e | Rival(d, e)
        ensures SameDraft(d, e) <==> SameEventText(d, e)
      {
        PlainDraftByText(d, e);
      }
    } else {
      FlippedIsRival(d);
      assert IngestStep(u, FlippedEvent(d), again).reply.Received?;
    }
  }

  /** The same for memory drafts, while no memory with the draft's fingerprint has been tombstoned. */
  lemma MaterializeReplayedByTextExactly(t: Tables, d: MemoryDraft, ops: seq<Op>)
    requires Valid(t) && MemoryDraftOk(d) && OpsOk(ops)
    requires MemoryKey(d) !in t.memories && MaterializeStep(t, d).reply.Recorded?
    requires MemoryKey(d) in Run(MaterializeStep(t, d).state, ops).memories
    requires !PrintTombstoned(Run(MaterializeStep(t, d).state, ops), d.scope, DraftPrint(d))
    ensures var u := Run(MaterializeStep(t, d).state, ops);
            Plain(d.metadata) <==>
              forall e | MemoryDraftOk(e) && MemoryKey(e) == MemoryKey(d) ::
                MaterializeStep(u, e).reply.Recorded? <==> SameMemoryText(d, e)
  {
    hide Valid, MaterializeStep, Run, SameMemoryDraft, SameMemoryText, PrintTombstoned, DraftPrint, Plain, Flip;
    var u := Run(MaterializeStep(t, d).state, ops);
    forall e | MemoryDraftOk(e) && MemoryKey(e) == MemoryKey(d)
      ensures MaterializeStep(u, e).reply.Recorded? <==> SameMemoryDraft(d, e)
    {
      MemoryConflictExactly(t, d, ops, e);
      SamePrint(d, e);
    }
    if Plain(d.metadata) {
      forall e
        ensures SameMemoryDraft(d, e) <==> SameMemoryText(d, e)
      {
        PlainMemoryByText(d, e);
      }
    } else {
      var e := d.(metadata := Flip(d.metadata));
      FlippedMemory(d);
      assert MaterializeStep(u, e).reply.Recorded?;
    }
  }

  lemma SamePrint(d: MemoryDraft, e: MemoryDraft)
    requires MemoryKey(e) == MemoryKey(d)
    ensures SameMemoryDraft(d, e) ==> DraftPrint(e) == DraftPrint(d)
  {
    hide PyEqual, FingerprintOf;
  }

  lemma PlainMemoryByText(d: MemoryDraft, e: MemoryDraft)
    requires Plain(d.metadata)
    ensures SameMemoryDraft(d, e) <==> SameMemoryText(d, e)
  {
    hide Plain, PyEqual, Canonical;
    PlainByText(d.metadata, e.metadata);
  }

  lemma FlippedMemory(d: MemoryDraft)
    requires MemoryDraftOk(d)
    ensures var e := d.(metadata := Flip(d.metadata));
            && MemoryDraftOk(e) && MemoryKey(e) == MemoryKey(d) && SameMemoryDraft(d, e)
            && (!Plain(d.metadata) ==> !SameMemoryText(d, e))
  {
    hide Plain, PyEqual, Canonical, IsMetadata, Flip;
    FlipIsEqual(d.metadata);
  }
}
