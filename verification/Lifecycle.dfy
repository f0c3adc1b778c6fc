/** Idempotent replay, the ceilings a derived memory lives under, and what one deletion removes. */
module Lifecycle {
  import opened Wrappers
  import opened TextOrder
  import opened CanonicalJson
  import opened Metadata
  import opened Fingerprint
  import opened Domain
  import opened Tables
  import opened Policy
  import opened Invariant
  import opened Runs
  import opened Recall
  import Plans

  // ----- replaying an ingest

  lemma IngestAccepted(t: Tables, d: EventDraft, now: int)
    requires Valid(t) && EventDraftOk(d) && IsTime(now) && IngestStep(t, d, now).reply.Received?
    ensures var v := IngestStep(t, d, now).state;
            && EventKey(d) in v.events && ReceiptAt(v, EventKey(d)) == Some(IngestStep(t, d, now).reply.receipt)
            && SameEvent(IngestStep(t, d, now).reply.receipt, d)
            && d.source.occurredAt + d.rawTtl <= MAX_TIME
            && (EventKey(d) in t.events ==> v == t)
  {
    hide ReadReceipt, NewEventRow, TombsReadable, Valid;
    var k := EventKey(d);
    if k !in t.events {
      FreshReceipt(d, now);
      FreshIsSame(d, now);
      assert IngestStep(t, d, now).state == Ingested'(t, d, now);
    }
  }

  lemma NormalizedEquals(v: Json, w: Json)
    requires IsMetadata(v)
    ensures PyEqual(Normalize(v), w) == PyEqual(v, w)
  {
    DecodedEqualsWritten(v, w);
    DecodeCanonical(v);
  }

  lemma FreshIsSame(d: EventDraft, now: int)
    requires EventDraftOk(d) && IsTime(now) && d.source.occurredAt + d.rawTtl <= MAX_TIME
    ensures ReadReceipt(EventKey(d), NewEventRow(d, now), true).Some?
    ensures SameEvent(ReadReceipt(EventKey(d), NewEventRow(d, now), true).value, d)
  {
    hide ReadReceipt, NewEventRow, PyEqual, Normalize;
    FreshReceipt(d, now);
    NormalizedEquals(d.metadata, d.metadata);
    NormalizedEquals(d.source.metadata, d.source.metadata);
    PyReflexive(d.metadata);
    PyReflexive(d.source.metadata);
  }

  lemma PyReflexive(v: Json)
    ensures PyEqual(v, v)
  {
  }

  /** A receipt that is kept reads back the same, but for the presence of its body. */
  lemma KeptReceipt(t: Tables, u: Tables, k: Key)
    requires k in t.events && EventKept(t, u, k) && ReceiptAt(t, k).Some? && ReceiptAt(u, k).Some?
    ensures ReceiptAt(u, k) == Some(ReceiptAt(t, k).value.(available := k in u.bodies))
  {
    hide Decode;
  }

  /** Re-ingesting an accepted draft while its event is live, after any operations whatever, changes nothing and gives
      the original receipt back, except that its body may have expired. */
  lemma ReplayIsStable(t: Tables, d: EventDraft, now: int, ops: seq<Op>, again: int)
    requires Valid(t) && EventDraftOk(d) && IsTime(now) && IsTime(again) && OpsOk(ops)
    requires IngestStep(t, d, now).reply.Received?
    requires EventKey(d) in Run(IngestStep(t, d, now).state, ops).events
    ensures var u := Run(IngestStep(t, d, now).state, ops);
            IngestStep(u, d, again)
            == Outcome(Received(IngestStep(t, d, now).reply.receipt.(available := EventKey(d) in u.bodies)), u)
  {
    hide IngestStep, ReadReceipt, SameEvent, MemoriesReadable, AuditReadable, KeysAgree, MemoriesKept, TombstonesKept,
      PrintsShrink, Ingested';
    var v, k := IngestStep(t, d, now).state, EventKey(d);
    IngestAccepted(t, d, now);
    IngestKeepsValid(t, d, now);
    RunIsLater(v, ops);
    var u := Run(v, ops);
    assert Live(u, TombKey(d.scope, RawEvent, d.eventId));
    KeptReceipt(v, u, k);
    SameButAvailable(ReceiptAt(v, k).value, d, k in u.bodies);
    Reingest(u, d, again);
  }

  lemma SameButAvailable(r: Receipt, d: EventDraft, available: bool)
    ensures SameEvent(r.(available := available), d) == SameEvent(r, d)
  {
    hide PyEqual;
  }

  /** What ingesting under a live identifier answers. */
  lemma Reingest(u: Tables, d: EventDraft, now: int)
    requires Valid(u) && EventKey(d) in u.events && ReceiptAt(u, EventKey(d)).Some?
    ensures IngestStep(u, d, now) ==
      if d.source.occurredAt + d.rawTtl > MAX_TIME then Refused(ValidationError(RawExpiresAt), u)
      else if SameEvent(ReceiptAt(u, EventKey(d)).value, d) then Outcome(Received(ReceiptAt(u, EventKey(d)).value), u)
      else Refused(IdempotencyConflict(d.eventId), u)
  {
    hide ReadReceipt, SameEvent, MemoriesReadable, AuditReadable, KeysAgree;
    assert Live(u, TombKey(d.scope, RawEvent, d.eventId));
  }

  /** The fields of a draft that idempotency compares. */
  predicate SameDraft(d: EventDraft, e: EventDraft) {
    && d.scope == e.scope && d.eventId == e.eventId && SourceEqual(d.source, e.source) && d.content == e.content
    && d.rawTtl == e.rawTtl && d.clearFor == e.clearFor && d.recallFor == e.recallFor && PyEqual(d.metadata, e.metadata)
  }

  /** After a first ingest, a draft under the same identifier conflicts exactly when a compared field differs: the body
      (through its digest) and the time to live (through the deadline) included. */
  lemma ConflictExactly(t: Tables, d: EventDraft, now: int, ops: seq<Op>, e: EventDraft, again: int)
    requires Valid(t) && EventDraftOk(d) && IsTime(now) && IsTime(again) && OpsOk(ops) && EventDraftOk(e)
    requires EventKey(d) !in t.events && IngestStep(t, d, now).reply.Received?
    requires EventKey(d) in Run(IngestStep(t, d, now).state, ops).events
    requires EventKey(e) == EventKey(d) && e.source.occurredAt + e.rawTtl <= MAX_TIME
    ensures var reply := IngestStep(Run(IngestStep(t, d, now).state, ops), e, again).reply;
            if SameDraft(d, e) then reply.Received? else reply == Failed(IdempotencyConflict(e.eventId))
  {
    hide IngestStep, ReadReceipt, SameEvent, MemoriesReadable, AuditReadable, KeysAgree, MemoriesKept, TombstonesKept,
      PrintsShrink, Ingested', SameDraft;
    var v, k := IngestStep(t, d, now).state, EventKey(d);
    IngestAccepted(t, d, now);
    IngestKeepsValid(t, d, now);
    RunIsLater(v, ops);
    var u := Run(v, ops);
    assert Live(u, TombKey(d.scope, RawEvent, d.eventId));
    KeptReceipt(v, u, k);
    FirstReceipt(t, d, now);
    SameButAvailable(ReceiptAt(v, k).value, e, k in u.bodies);
    ComparedFields(d, now, e);
    Reingest(u, e, again);
  }

  lemma FirstReceipt(t: Tables, d: EventDraft, now: int)
    requires Valid(t) && EventDraftOk(d) && IsTime(now)
    requires EventKey(d) !in t.events && IngestStep(t, d, now).reply.Received?
    ensures IngestStep(t, d, now).reply.receipt == ReadReceipt(EventKey(d), NewEventRow(d, now), true).value
  {
    hide ReadReceipt, NewEventRow, TombsReadable, Valid;
  }

  lemma ComparedFields(d: EventDraft, now: int, e: EventDraft)
    requires EventDraftOk(d) && IsTime(now) && d.source.occurredAt + d.rawTtl <= MAX_TIME && EventKey(e) == EventKey(d)
    ensures ReadReceipt(EventKey(d), NewEventRow(d, now), true).Some?
    ensures SameEvent(ReadReceipt(EventKey(d), NewEventRow(d, now), true).value, e) <==> SameDraft(d, e)
  {
    hide ReadReceipt, NewEventRow, PyEqual, Normalize;
    FreshReceipt(d, now);
    NormalizedEquals(d.metadata, e.metadata);
    NormalizedEquals(d.source.metadata, e.source.metadata);
  }

  // ----- replaying a materialization

  lemma MaterializeAccepted(t: Tables, d: MemoryDraft)
    requires Valid(t) && MemoryDraftOk(d) && MaterializeStep(t, d).reply.Recorded?
    ensures var v, k := MaterializeStep(t, d).state, MemoryKey(d);
            && k in v.memories && MemoryAt(v, k) == Some(MaterializeStep(t, d).reply.record)
            && SameMemory(MaterializeStep(t, d).reply.record, d)
            && (k in t.memories ==> v == t)
  {
    hide ReadMemory, SourceRows, SameMemory, TombsReadable, PrintTombsReadable, PrintTombstoned, SourcesError,
      DraftPrint, NewMemoryRow, DraftRows, MinOf, Materialized', MemoriesReadable, EventsReadable, AuditReadable,
      NoneResurrected;
    if MemoryKey(d) !in t.memories {
      NoOrphans(t, d.scope, d.memoryId);
      StoredRecord(t, d);
    }
  }

  lemma StoredRecord(t: Tables, d: MemoryDraft)
    requires MemoryDraftOk(d) && MemoryKey(d) !in t.memories && SourcesError(t, d.scope, d.sources).None?
    requires forall e :: e in t.edges ==> !(e.scope == d.scope && e.memory == d.memoryId)
    requires Elements(d.sources) != {}
    requires var rows := DraftRows(t, d.scope, Elements(d.sources));
             rows != [] && d.trust <= MinOf(Trusts(rows))
             && NewMemoryRow(d, rows).clearUntil <= MAX_TIME && NewMemoryRow(d, rows).recallUntil <= MAX_TIME
    ensures MemoryKey(d) in Materialized'(t, d).memories
    ensures var rows := DraftRows(t, d.scope, Elements(d.sources));
            var r := ReadMemory(MemoryKey(d), NewMemoryRow(d, rows), rows);
            r.Some? && MemoryAt(Materialized'(t, d), MemoryKey(d)) == r && SameMemory(r.value, d)
  {
    hide ReadMemory, SourceRows, PyEqual, Normalize, MinOf, DraftPrint, Canonical, ReadReceipt, SourcesError,
      NewMemoryRow, DraftRows, NewEdges;
    assert Derivable(t, d);
    FreshMemory(t, d);
    FreshRows(t, d);
    NormalizedEquals(d.metadata, d.metadata);
    PyReflexive(d.metadata);
  }

  /** A memory that is kept reads back the same, but for its status. */
  lemma KeptRecord(t: Tables, u: Tables, k: Key)
    requires KeysAgree(t) && KeysAgree(u) && k in t.memories && MemoryKept(t, u, k)
    requires MemoryAt(t, k).Some? && MemoryAt(u, k).Some?
    ensures MemoryAt(u, k) == Some(MemoryAt(t, k).value.(status := u.memories[k].status))
  {
    hide FingerprintOf, Decode, MinOf, SourceRows;
    SourceRowsFrame(t, u, k);
  }

  /** The record of a memory that a run has kept. */
  lemma RecordNow(t: Tables, d: MemoryDraft, ops: seq<Op>)
    requires Valid(t) && MemoryDraftOk(d) && OpsOk(ops) && MaterializeStep(t, d).reply.Recorded?
    requires MemoryKey(d) in Run(MaterializeStep(t, d).state, ops).memories
    ensures var u := Run(MaterializeStep(t, d).state, ops);
            && Valid(u)
            && MemoryAt(u, MemoryKey(d))
               == Some(MaterializeStep(t, d).reply.record.(status := u.memories[MemoryKey(d)].status))
  {
    hide MaterializeStep, ReadMemory, SourceRows, SameMemory, AuditReadable, EventsReadable, PrintTombstoned,
      DraftPrint, EventsKept, TombstonesKept, PrintsShrink, Run;
    var v, k := MaterializeStep(t, d).state, MemoryKey(d);
    MaterializeAccepted(t, d);
    MaterializeKeepsValid(t, d);
    RunIsLater(v, ops);
    var u := Run(v, ops);
    assert Live(u, TombKey(d.scope, Memory, d.memoryId));
    assert MemoryKept(v, u, k);
    assert MemoryAt(v, k).Some? && MemoryAt(u, k).Some?;
    KeptRecord(v, u, k);
  }

  /** Replaying an accepted memory draft while the memory is live: the original record with its current status and no
      change, unless some memory with the same fingerprint has been tombstoned meanwhile, when the draft is refused as
      deleted although its memory is live. */
  lemma MemoryReplayExactly(t: Tables, d: MemoryDraft, ops: seq<Op>)
    requires Valid(t) && MemoryDraftOk(d) && OpsOk(ops) && MaterializeStep(t, d).reply.Recorded?
    requires MemoryKey(d) in Run(MaterializeStep(t, d).state, ops).memories
    ensures var u := Run(MaterializeStep(t, d).state, ops);
            MaterializeStep(u, d) ==
              if PrintTombstoned(u, d.scope, DraftPrint(d)) then Refused(EntityDeleted(d.memoryId), u)
              else Outcome(Recorded(MaterializeStep(t, d).reply.record.(status := u.memories[MemoryKey(d)].status)), u)
  {
    hide Valid, MaterializeStep, ReadMemory, SourceRows, SameMemory, PrintTombstoned, DraftPrint, Run;
    var u, k := Run(MaterializeStep(t, d).state, ops), MemoryKey(d);
    MaterializeAccepted(t, d);
    RecordNow(t, d, ops);
    SameButStatus(MaterializeStep(t, d).reply.record, d, u.memories[k].status);
    Rematerialize(u, d);
  }

  lemma SameButStatus(r: MemoryRecord, d: MemoryDraft, status: MemoryStatus)
    ensures SameMemory(r.(status := status), d) == SameMemory(r, d)
  {
    hide PyEqual, DraftPrint;
  }

  /** What materializing under a live identifier answers. */
  lemma Rematerialize(u: Tables, d: MemoryDraft)
    requires Valid(u) && MemoryDraftOk(d) && MemoryKey(d) in u.memories && MemoryAt(u, MemoryKey(d)).Some?
    ensures MaterializeStep(u, d) ==
      if PrintTombstoned(u, d.scope, DraftPrint(d)) then Refused(EntityDeleted(d.memoryId), u)
      else if SameMemory(MemoryAt(u, MemoryKey(d)).value, d) then Outcome(Recorded(MemoryAt(u, MemoryKey(d)).value), u)
      else Refused(IdempotencyConflict(d.memoryId), u)
  {
    hide ReadMemory, SourceRows, SameMemory, AuditReadable, EventsReadable, PrintTombstoned, DraftPrint, TombsReadable,
      PrintTombsReadable, SourcesError, DraftRows, NewMemoryRow, MinOf, Materialized', KeysAgree;
    LookupsSucceed(u, d.scope, d.memoryId, DraftPrint(d));
    assert Live(u, TombKey(d.scope, Memory, d.memoryId));
  }

  /** A memory forgotten while a sibling carries the same fingerprint leaves that sibling live: a tombstoned fingerprint
      is still carried after a forget exactly when some other live memory of the scope carried it. */
  lemma SiblingSurvivesForget(t: Tables, c: Command)
    requires Valid(t) && c.entityType.Memory? && c.action.Forget? && Key(c.scope, c.entityId) in t.memories
    ensures var u := GovernStep(t, c).state;
            var fp := t.memories[Key(c.scope, c.entityId)].fingerprint;
            && PrintTombstoned(u, c.scope, fp)
            && ((exists k :: k in u.memories && k.scope == c.scope && u.memories[k].fingerprint == fp)
                <==> exists k :: k in t.memories && k.scope == c.scope && k.id != c.entityId
                                 && t.memories[k].fingerprint == fp)
  {
    hide AuditReadable, EventsReadable, MemoriesReadable, KeysAgree, LineageAgrees, Keys, Tombs;
    var k0 := Key(c.scope, c.entityId);
    var fp := t.memories[k0].fingerprint;
    KnownStatus(t, k0);
    assert Live(t, TombKey(c.scope, Memory, c.entityId));
    var u := GovernStep(t, c).state;
    assert u == Audited(WithoutMemories(t, c, {c.entityId}), c);
    TombsOf(t, c, {c.entityId}, TombKey(c.scope, Memory, c.entityId));
    assert TombKey(c.scope, Memory, c.entityId) in u.tombstones;
    forall k
      ensures k in u.memories <==> k in t.memories && k != k0
      ensures k in u.memories ==> u.memories[k] == t.memories[k]
    {
      KeysOf(c.scope, {c.entityId}, k);
    }
    assert forall k: Key :: k.scope == c.scope && k.id == c.entityId ==> k == k0;
  }

  // ----- ceilings

  /** In every valid state a memory's trust is at most that of each current source receipt, and its two deadlines are
      creation time plus the smallest period among those receipts; recall never ends before clarity does. */
  lemma Ceilings(t: Tables, k: Key)
    requires Valid(t) && k in t.memories
    ensures Capped(t, k, t.memories[k])
  {
    hide EventsReadable, AuditReadable, TombstonesReadable, NoneResurrected, ReadMemory, SourceRows, UnderRows, Capped;
    assert MemoryAt(t, k).Some?;
    ReadUnderRows(k, t.memories[k], SourceRows(t, k));
    RowsAre(t, k);
    UnderReceipts(t, k, t.memories[k], SourceRows(t, k));
  }

  /** A memory under its current source receipts. */
  ghost predicate Capped(t: Tables, k: Key, m: MemoryRow) {
    && SourceIds(t, k) != {} && m.clearUntil <= m.recallUntil
    && (forall x :: x in SourceIds(t, k) ==>
      && Key(k.scope, x) in t.events
      && Under(StoredTerms(m), Snapshot(t.events[Key(k.scope, x)])))
    && (exists x :: x in SourceIds(t, k) && m.clearUntil == m.createdAt + t.events[Key(k.scope, x)].clearFor)
    && (exists x :: x in SourceIds(t, k) && m.recallUntil == m.createdAt + t.events[Key(k.scope, x)].recallFor)
  }

  /** What a memory may not exceed its sources in. */
  datatype Terms = Terms(trust: int, createdAt: int, clearUntil: int, recallUntil: int)

  function StoredTerms(m: MemoryRow): Terms {
    Terms(m.trust, m.createdAt, m.clearUntil, m.recallUntil)
  }

  function TermsOf(m: MemoryRecord): Terms {
    Terms(m.trust, m.createdAt, m.clearUntil, m.recallUntil)
  }

  predicate Under(m: Terms, e: EdgeRow) {
    m.trust <= e.trust && m.clearUntil <= m.createdAt + e.clearFor && m.recallUntil <= m.createdAt + e.recallFor
  }

  ghost predicate UnderRows(m: MemoryRow, rows: seq<SourceRow>) {
    && rows != [] && m.clearUntil <= m.recallUntil
    && (forall i :: 0 <= i < |rows| ==> Under(StoredTerms(m), rows[i].edge))
    && (exists i :: 0 <= i < |rows| && m.clearUntil == m.createdAt + rows[i].edge.clearFor)
    && (exists i :: 0 <= i < |rows| && m.recallUntil == m.createdAt + rows[i].edge.recallFor)
  }

  lemma ReadUnderRows(k: Key, m: MemoryRow, rows: seq<SourceRow>)
    requires ReadMemory(k, m, rows).Some?
    ensures UnderRows(m, rows)
  {
    hide FingerprintOf, Decode, MinOf;
    PositiveMinima(rows);
    forall i | 0 <= i < |rows|
      ensures Under(StoredTerms(m), rows[i].edge)
    {
      assert Trusts(rows)[i] == rows[i].edge.trust && ClearPeriods(rows)[i] == rows[i].edge.clearFor
        && RecallPeriods(rows)[i] == rows[i].edge.recallFor;
    }
    var i :| 0 <= i < |rows| && ClearPeriods(rows)[i] == MinOf(ClearPeriods(rows));
    var j :| 0 <= j < |rows| && RecallPeriods(rows)[j] == MinOf(RecallPeriods(rows));
    assert m.clearUntil == m.createdAt + rows[i].edge.clearFor && m.recallUntil == m.createdAt + rows[j].edge.recallFor;
  }

  ghost predicate RowsMatch(t: Tables, k: Key, rows: seq<SourceRow>) {
    && (forall i :: 0 <= i < |rows| ==>
          && rows[i].event in SourceIds(t, k) && Key(k.scope, rows[i].event) in t.events
          && rows[i].edge == Snapshot(t.events[Key(k.scope, rows[i].event)]))
    && (forall x :: x in SourceIds(t, k) ==> exists i :: 0 <= i < |rows| && rows[i].event == x)
  }

  lemma UnderReceipts(t: Tables, k: Key, m: MemoryRow, rows: seq<SourceRow>)
    requires RowsMatch(t, k, rows) && UnderRows(m, rows)
    ensures Capped(t, k, m)
  {
    hide Under;
    forall x | x in SourceIds(t, k)
      ensures Key(k.scope, x) in t.events && Under(StoredTerms(m), Snapshot(t.events[Key(k.scope, x)]))
    {
      UnderReceipt(t, k, m, rows, x);
    }
    var i :| 0 <= i < |rows| && m.clearUntil == m.createdAt + rows[i].edge.clearFor;
    assert rows[i].event in SourceIds(t, k);
    var j :| 0 <= j < |rows| && m.recallUntil == m.createdAt + rows[j].edge.recallFor;
    assert rows[j].event in SourceIds(t, k);
  }

  lemma UnderReceipt(t: Tables, k: Key, m: MemoryRow, rows: seq<SourceRow>, x: string)
    requires RowsMatch(t, k, rows) && UnderRows(m, rows) && x in SourceIds(t, k)
    ensures Key(k.scope, x) in t.events && Under(StoredTerms(m), Snapshot(t.events[Key(k.scope, x)]))
  {
    var i :| 0 <= i < |rows| && rows[i].event == x;
  }

  lemma RowsAre(t: Tables, k: Key)
    requires KeysAgree(t)
    ensures RowsMatch(t, k, SourceRows(t, k))
  {
    var ids := Sorted(SourceIds(t, k));
    var rows := SourceRows(t, k);
    forall i | 0 <= i < |rows|
      ensures rows[i].event in SourceIds(t, k) && Key(k.scope, rows[i].event) in t.events
      ensures rows[i].edge == Snapshot(t.events[Key(k.scope, rows[i].event)])
    {
      assert ids[i] in Elements(ids);
      assert EdgeKey(k.scope, k.id, ids[i]) in t.edges;
    }
    forall x | x in SourceIds(t, k)
      ensures exists i :: 0 <= i < |rows| && rows[i].event == x
    {
      assert x in Elements(ids);
      var i :| 0 <= i < |ids| && ids[i] == x;
      assert rows[i].event == x;
    }
  }

  // ----- whatever the tables hold

  /** A record against the lineage snapshot it was read with. */
  ghost predicate MeetsTheRules(t: Tables, k: Key, m: MemoryRecord) {
    && m.memoryId == k.id && m.scope == k.scope && m.sources == Sorted(SourceIds(t, k)) && m.sources != []
    && m.fingerprint == FingerprintOf(m.scope, m.kind, SourceIds(t, k))
    && m.clearUntil <= m.recallUntil
    && (forall x :: x in SourceIds(t, k) ==>
      && Key(k.scope, x) in t.events
      && Under(TermsOf(m), t.edges[EdgeKey(k.scope, k.id, x)]))
    && (exists x :: x in SourceIds(t, k) && m.clearUntil == m.createdAt + t.edges[EdgeKey(k.scope, k.id, x)].clearFor)
    && (exists x :: x in SourceIds(t, k) && m.recallUntil == m.createdAt + t.edges[EdgeKey(k.scope, k.id, x)].recallFor)
  }

  /** On any table contents at all, a recall that does not fail returns only memories that meet the trust, deadline and
      fingerprint rules against their own snapshots, and that are active, timely and of a wanted kind. */
  lemma CandidatesMeetTheRules(t: Tables, q: Query, m: MemoryRecord)
    requires Recallable(t, q.scope) && m in Candidates(t, q)
    ensures MeetsTheRules(t, Key(q.scope, m.memoryId), m)
    ensures m.status.Active? && q.asOf < m.recallUntil && (q.kinds == [] || m.kind in q.kinds)
  {
    hide Recallable, Candidates, ReadMemory, SourceRows, UnderRows, MeetsTheRules;
    var k := Key(q.scope, m.memoryId);
    ReadUnderRows(k, t.memories[k], SourceRows(t, k));
    RecordIdentity(k, t.memories[k], SourceRows(t, k));
    EdgesAre(t, k);
    PrintIsRead(k, t.memories[k], SourceRows(t, k));
    RecordUnderRows(t, k, t.memories[k], SourceRows(t, k), m);
  }

  lemma PrintIsRead(k: Key, row: MemoryRow, rows: seq<SourceRow>)
    requires ReadMemory(k, row, rows).Some?
    ensures rows != [] && row.fingerprint == FingerprintOf(k.scope, row.kind, Elements(EventIds(rows)))
    ensures forall i :: 0 <= i < |rows| ==> rows[i].present
  {
    hide FingerprintOf, Decode, MinOf;
    assert forall i :: 0 <= i < |rows| ==> SourceRowOk(rows[i]);
  }

  /** The lineage rows of a memory are its edges. */
  ghost predicate RowsAreEdges(t: Tables, k: Key, rows: seq<SourceRow>) {
    && EventIds(rows) == Sorted(SourceIds(t, k)) && Elements(EventIds(rows)) == SourceIds(t, k)
    && (forall i :: 0 <= i < |rows| ==>
          && rows[i].event in SourceIds(t, k) && (rows[i].present <==> Key(k.scope, rows[i].event) in t.events)
          && rows[i].edge == t.edges[EdgeKey(k.scope, k.id, rows[i].event)])
    && (forall x :: x in SourceIds(t, k) ==> exists i :: 0 <= i < |rows| && rows[i].event == x)
  }

  lemma EdgesAre(t: Tables, k: Key)
    ensures RowsAreEdges(t, k, SourceRows(t, k))
  {
    var ids := Sorted(SourceIds(t, k));
    var rows := SourceRows(t, k);
    RowsOfSources(t, k);
    forall i | 0 <= i < |rows|
      ensures rows[i].event in SourceIds(t, k) && rows[i].edge == t.edges[EdgeKey(k.scope, k.id, rows[i].event)]
    {
      assert ids[i] in Elements(ids);
    }
    forall x | x in SourceIds(t, k)
      ensures exists i :: 0 <= i < |rows| && rows[i].event == x
    {
      assert x in Elements(ids);
      var i :| 0 <= i < |ids| && ids[i] == x;
      assert rows[i].event == x;
    }
  }

  lemma UnderEachEdge(t: Tables, k: Key, row: MemoryRow, rows: seq<SourceRow>, m: MemoryRecord, x: string)
    requires RowsAreEdges(t, k, rows) && UnderRows(row, rows) && forall i :: 0 <= i < |rows| ==> rows[i].present
    requires TermsOf(m) == StoredTerms(row) && x in SourceIds(t, k)
    ensures Key(k.scope, x) in t.events && Under(TermsOf(m), t.edges[EdgeKey(k.scope, k.id, x)])
  {
    hide Sorted;
    var i :| 0 <= i < |rows| && rows[i].event == x;
  }

  lemma DeadlinesAttained(t: Tables, k: Key, row: MemoryRow, rows: seq<SourceRow>, m: MemoryRecord)
    requires RowsAreEdges(t, k, rows) && UnderRows(row, rows) && TermsOf(m) == StoredTerms(row)
    ensures exists x ::
      && x in SourceIds(t, k)
      && m.clearUntil == m.createdAt + t.edges[EdgeKey(k.scope, k.id, x)].clearFor
    ensures exists x ::
      && x in SourceIds(t, k)
      && m.recallUntil == m.createdAt + t.edges[EdgeKey(k.scope, k.id, x)].recallFor
  {
    hide Sorted;
    var i :| 0 <= i < |rows| && row.clearUntil == row.createdAt + rows[i].edge.clearFor;
    assert rows[i].event in SourceIds(t, k);
    var j :| 0 <= j < |rows| && row.recallUntil == row.createdAt + rows[j].edge.recallFor;
    assert rows[j].event in SourceIds(t, k);
  }

  lemma RecordUnderRows(t: Tables, k: Key, row: MemoryRow, rows: seq<SourceRow>, m: MemoryRecord)
    requires RowsAreEdges(t, k, rows) && UnderRows(row, rows) && forall i :: 0 <= i < |rows| ==> rows[i].present
    requires m.memoryId == k.id && m.scope == k.scope && m.sources == EventIds(rows) && m.kind == row.kind
    requires TermsOf(m) == StoredTerms(row)
    requires m.fingerprint == row.fingerprint == FingerprintOf(k.scope, row.kind, Elements(EventIds(rows)))
    ensures MeetsTheRules(t, k, m)
  {
    hide FingerprintOf, Sorted, Under;
    DeadlinesAttained(t, k, row, rows, m);
    forall x | x in SourceIds(t, k)
      ensures Key(k.scope, x) in t.events && Under(TermsOf(m), t.edges[EdgeKey(k.scope, k.id, x)])
    {
      UnderEachEdge(t, k, row, rows, m, x);
    }
    assert |EventIds(rows)| == |rows|;
  }

  /** After any run every recall and every audit query of every scope succeeds. */
  lemma EveryRunCanBeRead(ops: seq<Op>, scope: Scope)
    requires OpsOk(ops)
    ensures Recallable(Run(EMPTY, ops), scope)
    ensures forall r :: r in Run(EMPTY, ops).audit ==> AuditRowOk(r)
  {
    hide Run, Recallable, KeysAgree, EventsReadable, MemoriesReadable, TombstonesReadable, NoneResurrected;
    EmptyIsValid();
    RunIsValid(EMPTY, ops);
    ValidIsRecallable(Run(EMPTY, ops), scope);
  }

  // ----- when a memory can be made

  /** Every source is live, none is less trusted than the draft, and some source's recall period is representable. */
  ghost predicate SourcesAllow(t: Tables, d: MemoryDraft) {
    && (forall x :: x in d.sources ==> Key(d.scope, x) in t.events && d.trust <= t.events[Key(d.scope, x)].trust)
    && (exists x :: x in d.sources && Key(d.scope, x) in t.events
                    && d.createdAt + t.events[Key(d.scope, x)].recallFor <= MAX_TIME)
  }

  ghost predicate RowsAllow(d: MemoryDraft, rows: seq<SourceRow>) {
    && (forall i :: 0 <= i < |rows| ==> d.trust <= rows[i].edge.trust)
    && (exists i :: 0 <= i < |rows| && d.createdAt + rows[i].edge.recallFor <= MAX_TIME)
  }

  lemma RowsDecide(d: MemoryDraft, rows: seq<SourceRow>)
    requires rows != [] && forall i :: 0 <= i < |rows| ==> SourceRowOk(rows[i])
    ensures RowsAllow(d, rows) <==> d.trust <= MinOf(Trusts(rows)) && NewMemoryRow(d, rows).clearUntil <= MAX_TIME
                                    && NewMemoryRow(d, rows).recallUntil <= MAX_TIME
  {
    hide MinOf, FingerprintOf, Canonical;
    PositiveMinima(rows);
    var i :| 0 <= i < |rows| && Trusts(rows)[i] == MinOf(Trusts(rows));
    var j :| 0 <= j < |rows| && RecallPeriods(rows)[j] == MinOf(RecallPeriods(rows));
    assert rows[i].edge.trust == MinOf(Trusts(rows)) && rows[j].edge.recallFor == MinOf(RecallPeriods(rows));
    forall l | 0 <= l < |rows|
      ensures MinOf(Trusts(rows)) <= rows[l].edge.trust && MinOf(RecallPeriods(rows)) <= rows[l].edge.recallFor
    {
      assert Trusts(rows)[l] == rows[l].edge.trust && RecallPeriods(rows)[l] == rows[l].edge.recallFor;
    }
  }

  ghost predicate DraftRowsMatch(t: Tables, d: MemoryDraft, rows: seq<SourceRow>) {
    && (forall i :: 0 <= i < |rows| ==>
          && rows[i].event in d.sources && Key(d.scope, rows[i].event) in t.events
          && rows[i].edge == Snapshot(t.events[Key(d.scope, rows[i].event)]))
    && (forall x :: x in d.sources ==> exists i :: 0 <= i < |rows| && rows[i].event == x)
  }

  lemma DraftRowsAre(t: Tables, d: MemoryDraft)
    requires forall x :: x in Elements(d.sources) ==> Key(d.scope, x) in t.events
    ensures DraftRowsMatch(t, d, DraftRows(t, d.scope, Elements(d.sources)))
  {
    hide Sorted;
    var s := Sorted(Elements(d.sources));
    var rows := DraftRows(t, d.scope, Elements(d.sources));
    forall i | 0 <= i < |rows|
      ensures rows[i].event in d.sources && rows[i].edge == Snapshot(t.events[Key(d.scope, rows[i].event)])
    {
      assert s[i] in Elements(s);
    }
    forall x | x in d.sources
      ensures exists i :: 0 <= i < |rows| && rows[i].event == x
    {
      assert x in Elements(s);
      var i :| 0 <= i < |s| && s[i] == x;
      assert rows[i].event == x;
    }
  }

  lemma RowsOfDraft(t: Tables, d: MemoryDraft, rows: seq<SourceRow>)
    requires DraftRowsMatch(t, d, rows)
    ensures SourcesAllow(t, d) <==> RowsAllow(d, rows)
  {
    if RowsAllow(d, rows) {
      var i :| 0 <= i < |rows| && d.createdAt + rows[i].edge.recallFor <= MAX_TIME;
      assert rows[i].event in d.sources;
    }
    if SourcesAllow(t, d) {
      var x :| x in d.sources && Key(d.scope, x) in t.events
        && d.createdAt + t.events[Key(d.scope, x)].recallFor <= MAX_TIME;
      var i :| 0 <= i < |rows| && rows[i].event == x;
    }
  }

  /** In a valid state a new draft is materialized if and only if neither its identifier nor its fingerprint is
      tombstoned and its sources allow it. */
  lemma MaterializesExactly(t: Tables, d: MemoryDraft)
    requires Valid(t) && MemoryDraftOk(d) && MemoryKey(d) !in t.memories
    ensures MaterializeStep(t, d).reply.Recorded? <==>
      && TombKey(d.scope, Memory, d.memoryId) !in t.tombstones && !PrintTombstoned(t, d.scope, DraftPrint(d))
      && SourcesAllow(t, d)
  {
    hide KeysAgree, MemoriesReadable, AuditReadable, NoneResurrected, TombsReadable, PrintTombsReadable,
      PrintTombstoned, SourcesError, DraftPrint, MaterializeStep, Derivable, SourcesAllow, ReadReceipt, TombstoneOk;
    LookupsSucceed(t, d.scope, d.memoryId, DraftPrint(d));
    MaterializeExits(t, d);
    if SourcesError(t, d.scope, d.sources).None? {
      NoOrphans(t, d.scope, d.memoryId);
      SourcesDecide(t, d);
      if Clear(t, d) {
        MaterializeNew(t, d);
      }
    } else {
      MissingSource(t, d);
    }
  }

  lemma SourcesDecide(t: Tables, d: MemoryDraft)
    requires MemoryDraftOk(d) && SourcesError(t, d.scope, d.sources).None?
    ensures Derivable(t, d) <==> SourcesAllow(t, d)
  {
    hide Usable, SourcesError, DraftRows, NewMemoryRow, MinOf, SourcesAllow, RowsAllow, DraftRowsMatch;
    var ids := Elements(d.sources);
    DraftHasRows(d);
    SourcesPresent(t, d);
    DraftRowsOk(t, d.scope, ids);
    DraftRowsAre(t, d);
    RowsOfDraft(t, d, DraftRows(t, d.scope, ids));
    RowsDecide(d, DraftRows(t, d.scope, ids));
  }

  lemma MissingSource(t: Tables, d: MemoryDraft)
    requires EventsReadable(t) && SourcesError(t, d.scope, d.sources).Some?
    ensures !SourcesAllow(t, d)
  {
    hide ReadReceipt, SourcesError;
    var x :| x in d.sources && !Usable(t, Key(d.scope, x));
    assert Key(d.scope, x) !in t.events;
  }

  /** The smallest story: an event is ingested, a memory made from it, and recalled. Whatever the two drafts and the
      query say, if the trust, the deadlines and the query time allow it, the memory is a candidate, fully clear until
      the event's clear period has passed since its creation. */
  lemma FirstMemoryIsRecalled(d: EventDraft, now: int, m: MemoryDraft, q: Query)
    requires EventDraftOk(d) && IsTime(now) && MemoryDraftOk(m) && m.scope == d.scope == q.scope
    requires m.sources == [d.eventId]
    requires d.source.occurredAt + d.rawTtl <= MAX_TIME && d.recallFor <= INT64_MAX
    requires m.trust <= d.source.trust && m.createdAt + d.recallFor <= MAX_TIME
    requires q.asOf < m.createdAt + d.recallFor && (q.kinds == [] || m.kind in q.kinds)
    ensures OpsOk([Ingest(d, now), Materialize(m)])
    ensures var t := Run(EMPTY, [Ingest(d, now), Materialize(m)]);
            && Recallable(t, d.scope)
            && exists r :: r in Candidates(t, q) && r.memoryId == m.memoryId && r.content == m.content
                           && r.recallUntil == m.createdAt + d.recallFor
                           && (q.asOf <= m.createdAt + d.clearFor ==> Clarity(r, q.asOf) == 1.0)
  {
    hide Valid, IngestStep, MaterializeStep, Recallable, Candidates, FingerprintOf, Ingested', Run, IsMetadata, Clarity;
    var u := Ingested'(EMPTY, d, now);
    FirstIngest(d, now);
    EmptyIsValid();
    assert Valid(u) by { IngestKeepsValid(EMPTY, d, now); }
    FirstMaterialize(d, now, m);
    var t := MaterializeStep(u, m).state;
    assert Valid(t) by { MaterializeKeepsValid(u, m); }
    TwoOps(Ingest(d, now), Materialize(m));
    ValidIsRecallable(t, d.scope);
    var r := MaterializeStep(u, m).reply.record;
    assert r in Candidates(t, q);
    if q.asOf <= r.clearUntil {
      FullClarity(r, q.asOf);
    }
  }

  lemma TwoOps(a: Op, b: Op)
    requires OpOk(a) && OpOk(b)
    ensures OpsOk([a, b]) && Run(EMPTY, [a, b]) == Step(Step(EMPTY, a).state, b).state
  {
    hide Step;
    assert [a, b] == [a] + [b] && [a] == [] + [a];
    RunSnoc(EMPTY, [], a);
    RunSnoc(EMPTY, [a], b);
  }

  lemma FirstIngest(d: EventDraft, now: int)
    requires EventDraftOk(d) && IsTime(now) && d.source.occurredAt + d.rawTtl <= MAX_TIME && d.recallFor <= INT64_MAX
    ensures IngestStep(EMPTY, d, now).state == Ingested'(EMPTY, d, now)
  {
    hide ReadReceipt, NewEventRow;
    FreshReceipt(d, now);
  }

  /** The record of a new memory. */
  lemma NewRecord(t: Tables, d: MemoryDraft)
    requires Valid(t) && MemoryDraftOk(d) && MemoryKey(d) !in t.memories && MaterializeStep(t, d).reply.Recorded?
    ensures forall x :: x in Elements(d.sources) ==> Key(d.scope, x) in t.events
    ensures var rows := DraftRows(t, d.scope, Elements(d.sources));
            rows != [] && MaterializeStep(t, d).reply.record == MemoryRecord(
              d.memoryId, d.scope, d.content, Sorted(Elements(d.sources)), DraftPrint(d), d.kind, d.trust, d.createdAt,
              d.createdAt + MinOf(ClearPeriods(rows)), d.createdAt + MinOf(RecallPeriods(rows)), Active,
              Normalize(d.metadata))
  {
    hide Valid, TombsReadable, PrintTombsReadable, PrintTombstoned, SourcesError, DraftPrint, MaterializeStep,
      Derivable, DraftRows, ReadMemory, MinOf, Normalize, Sorted, Elements, IsMetadata, Canonical, Orphaned,
      Materialized';
    DraftHasRows(d);
    Plans.RecordedMeansNew(t, d);
    SourcesPresent(t, d);
    MaterializeStores(t, d);
    CeilingsAllow(t, d);
    FreshMemory(t, d);
  }

  lemma CeilingsAllow(t: Tables, d: MemoryDraft)
    requires MemoryDraftOk(d) && SourcesError(t, d.scope, d.sources).None?
    requires var rows := DraftRows(t, d.scope, Elements(d.sources));
             rows != [] && d.trust <= MinOf(Trusts(rows)) && NewMemoryRow(d, rows).clearUntil <= MAX_TIME
             && NewMemoryRow(d, rows).recallUntil <= MAX_TIME
    ensures Derivable(t, d)
  {
    hide Usable, SourcesError, DraftRows, NewMemoryRow, MinOf;
  }

  lemma OneRow(t: Tables, scope: Scope, ids: seq<string>, x: string)
    requires ids == [x] && Key(scope, x) in t.events
    ensures Elements(ids) == {x}
    ensures DraftRows(t, scope, {x}) == [SourceRow(x, true, Snapshot(t.events[Key(scope, x)]))]
  {
    var s := Sorted({x});
    assert |{x}| == 1;
    assert s[0] in Elements(s);
  }

  lemma OnlyPeriods(rows: seq<SourceRow>)
    requires |rows| == 1
    ensures MinOf(ClearPeriods(rows)) == rows[0].edge.clearFor && MinOf(RecallPeriods(rows)) == rows[0].edge.recallFor
  {
  }

  lemma SingleSource(t: Tables, d: MemoryDraft, x: string)
    requires Valid(t) && MemoryDraftOk(d) && MemoryKey(d) !in t.memories && d.sources == [x]
    requires Key(d.scope, x) in t.events
    requires d.trust <= t.events[Key(d.scope, x)].trust && d.createdAt + t.events[Key(d.scope, x)].recallFor <= MAX_TIME
    requires TombKey(d.scope, Memory, d.memoryId) !in t.tombstones && !PrintTombstoned(t, d.scope, DraftPrint(d))
    ensures var o, k := MaterializeStep(t, d), MemoryKey(d);
            && o.reply.Recorded? && k in o.state.memories && MemoryAt(o.state, k) == Some(o.reply.record)
            && o.reply.record.memoryId == d.memoryId && o.reply.record.content == d.content
            && o.reply.record.kind == d.kind && o.reply.record.status.Active?
            && o.reply.record.clearUntil == d.createdAt + t.events[Key(d.scope, x)].clearFor
            && o.reply.record.recallUntil == d.createdAt + t.events[Key(d.scope, x)].recallFor
  {
    hide Valid, MaterializeStep, DraftPrint, PrintTombstoned, MemoryAt, SameMemory, DraftRows, MinOf, Sorted, Normalize;
    assert SourcesAllow(t, d) by { assert x in d.sources; }
    MaterializesExactly(t, d);
    MaterializeAccepted(t, d);
    NewRecord(t, d);
    OneRow(t, d.scope, d.sources, x);
    OnlyPeriods(DraftRows(t, d.scope, {x}));
  }

  lemma FirstMaterialize(d: EventDraft, now: int, m: MemoryDraft)
    requires EventDraftOk(d) && IsTime(now) && MemoryDraftOk(m) && m.scope == d.scope && m.sources == [d.eventId]
    requires m.trust <= d.source.trust && m.createdAt + d.recallFor <= MAX_TIME && Valid(Ingested'(EMPTY, d, now))
    ensures var o, k := MaterializeStep(Ingested'(EMPTY, d, now), m), MemoryKey(m);
            && o.reply.Recorded? && k in o.state.memories && MemoryAt(o.state, k) == Some(o.reply.record)
            && o.reply.record.memoryId == m.memoryId && o.reply.record.content == m.content
            && o.reply.record.kind == m.kind && o.reply.record.status.Active?
            && o.reply.record.clearUntil == m.createdAt + d.clearFor
            && o.reply.record.recallUntil == m.createdAt + d.recallFor
  {
    hide Valid, MaterializeStep, DraftPrint, MemoryAt, Canonical;
    SingleSource(Ingested'(EMPTY, d, now), m, d.eventId);
  }
}
