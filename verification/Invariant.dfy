/** The state invariant: every row passes its reader, keys agree across tables, nothing is both live and tombstoned.
    Every operation keeps it, so no run ends in a corruption error. */
module Invariant {
  import opened Wrappers
  import opened TextOrder
  import opened Metadata
  import opened Fingerprint
  import opened Domain
  import opened Tables
  import opened Policy

  ghost predicate EventsReadable(t: Tables) {
    forall k :: k in t.events ==> ReceiptAt(t, k).Some?
  }

  ghost predicate MemoriesReadable(t: Tables) {
    forall k :: k in t.memories ==> MemoryAt(t, k).Some?
  }

  /** Foreign keys, and every lineage snapshot equal to its receipt. */
  ghost predicate KeysAgree(t: Tables) {
    && (forall k :: k in t.bodies ==> k in t.events)
    && (forall e :: e in t.edges ==> Key(e.scope, e.memory) in t.memories)
    && (forall e :: e in t.edges ==> Key(e.scope, e.event) in t.events
                                     && t.edges[e] == Snapshot(t.events[Key(e.scope, e.event)]))
  }

  ghost predicate TombstonesReadable(t: Tables) {
    forall k :: k in t.tombstones ==> TombstoneOk(k, t.tombstones[k])
  }

  ghost predicate Live(t: Tables, k: TombKey) {
    if k.entity.RawEvent? then Key(k.scope, k.id) in t.events else Key(k.scope, k.id) in t.memories
  }

  ghost predicate NoneResurrected(t: Tables) {
    forall k :: k in t.tombstones ==> !Live(t, k)
  }

  ghost predicate AuditReadable(t: Tables) {
    forall r :: r in t.audit ==> AuditRowOk(r)
  }

  ghost predicate Valid(t: Tables) {
    && KeysAgree(t) && EventsReadable(t) && MemoriesReadable(t)
    && TombstonesReadable(t) && NoneResurrected(t) && AuditReadable(t)
  }

  // ----- frames

  /** A memory's lineage rows depend only on its own edges and on which of their receipts exist. */
  lemma SourceRowsFrame(t: Tables, u: Tables, k: Key)
    requires forall x :: EdgeKey(k.scope, k.id, x) in t.edges <==> EdgeKey(k.scope, k.id, x) in u.edges
    requires forall x :: EdgeKey(k.scope, k.id, x) in t.edges ==>
      && t.edges[EdgeKey(k.scope, k.id, x)] == u.edges[EdgeKey(k.scope, k.id, x)]
      && (Key(k.scope, x) in t.events <==> Key(k.scope, x) in u.events)
    ensures SourceRows(t, k) == SourceRows(u, k)
  {
    assert SourceIds(t, k) == SourceIds(u, k);
    var ids := Sorted(SourceIds(t, k));
    forall i | 0 <= i < |ids|
      ensures SourceRows(t, k)[i] == SourceRows(u, k)[i]
    {
      assert ids[i] in Elements(ids);
    }
  }

  /** Receipts that keep their row and the presence of their body stay readable. */
  lemma EventsFrame(t: Tables, u: Tables)
    requires EventsReadable(t)
    requires forall k :: k in u.events ==>
      && k in t.events && u.events[k] == t.events[k]
      && (k in u.bodies <==> k in t.bodies)
    ensures EventsReadable(u)
  {
    hide ReadReceipt;
    forall k | k in u.events
      ensures ReceiptAt(u, k).Some?
    {
      assert ReceiptAt(t, k).Some?;
    }
  }

  /** Memories that keep their row and their lineage stay readable. */
  lemma MemoriesFrame(t: Tables, u: Tables)
    requires MemoriesReadable(t)
    requires forall k :: k in u.memories ==> k in t.memories && u.memories[k] == t.memories[k]
    requires forall e: EdgeKey :: Key(e.scope, e.memory) in u.memories ==>
      && (e in t.edges <==> e in u.edges)
      && (e in t.edges ==>
        && t.edges[e] == u.edges[e]
        && (Key(e.scope, e.event) in t.events <==> Key(e.scope, e.event) in u.events))
    ensures MemoriesReadable(u)
  {
    hide ReadMemory, SourceRows;
    forall k | k in u.memories
      ensures MemoryAt(u, k).Some?
    {
      SourceRowsFrame(t, u, k);
      assert MemoryAt(t, k).Some?;
    }
  }

  lemma RowsOfSources(t: Tables, k: Key)
    ensures Elements(EventIds(SourceRows(t, k))) == SourceIds(t, k)
    ensures EventIds(SourceRows(t, k)) == Sorted(SourceIds(t, k))
  {
    assert EventIds(SourceRows(t, k)) == Sorted(SourceIds(t, k));
  }

  /** In a valid state the lineage recomputed from the edges is the stored fingerprint. */
  lemma ValidLineage(t: Tables, k: Key)
    requires KeysAgree(t) && EventsReadable(t)
    requires k in t.memories && MemoryAt(t, k).Some?
    ensures LineageAgrees(t, k)
  {
    var rows := SourceRows(t, k);
    RowsOfSources(t, k);
    var ids := Sorted(SourceIds(t, k));
    forall i | 0 <= i < |rows|
      ensures LineageRowOk(t, k.scope, rows[i])
    {
      assert ids[i] in Elements(ids);
      assert EdgeKey(k.scope, k.id, ids[i]) in t.edges;
    }
  }

  // ----- ingest

  /** What a fresh row reads back as. */
  lemma FreshReceipt(d: EventDraft, now: int)
    requires EventDraftOk(d) && IsTime(now) && d.source.occurredAt + d.rawTtl <= MAX_TIME
    ensures ReadReceipt(EventKey(d), NewEventRow(d, now), true) == Some(Receipt(
      d.eventId, d.scope, d.source.(metadata := Normalize(d.source.metadata)), ContentHash(d.content), now,
      d.source.occurredAt + d.rawTtl, d.clearFor, d.recallFor, true, Normalize(d.metadata)))
  {
    hide Decode, Canonical, Normalize, ContentHash;
    DecodeCanonical(d.source.metadata);
    DecodeCanonical(d.metadata);
  }

  lemma IngestKeepsValid(t: Tables, d: EventDraft, now: int)
    requires Valid(t) && EventDraftOk(d) && IsTime(now)
    ensures Valid(IngestStep(t, d, now).state)
    ensures IngestStep(t, d, now).reply != Failed(Corruption)
  {
    hide ReadReceipt, ReadMemory, MemoriesReadable, AuditReadable, NoneResurrected, SameEvent;
    var k := EventKey(d);
    if d.source.occurredAt + d.rawTtl <= MAX_TIME {
      FreshReceipt(d, now);
      if IngestStep(t, d, now).state != t {
        IngestedIsValid(t, d, now);
      }
    }
  }

  lemma IngestedEvents(t: Tables, d: EventDraft, now: int)
    requires EventsReadable(t) && EventDraftOk(d) && IsTime(now) && d.source.occurredAt + d.rawTtl <= MAX_TIME
    ensures EventsReadable(Ingested'(t, d, now))
  {
    hide ReadReceipt, NewEventRow;
    var u := Ingested'(t, d, now);
    FreshReceipt(d, now);
    forall k | k in u.events
      ensures ReceiptAt(u, k).Some?
    {
      if k != EventKey(d) {
        assert ReceiptAt(t, k).Some?;
      }
    }
  }

  lemma IngestedIsValid(t: Tables, d: EventDraft, now: int)
    requires Valid(t) && EventDraftOk(d) && IsTime(now) && d.source.occurredAt + d.rawTtl <= MAX_TIME
    requires EventKey(d) !in t.events && TombKey(d.scope, RawEvent, d.eventId) !in t.tombstones
    ensures Valid(Ingested'(t, d, now))
  {
    hide EventsReadable, MemoriesReadable, TombstoneOk, NewEventRow, ReadReceipt;
    IngestedEvents(t, d, now);
    MemoriesFrame(t, Ingested'(t, d, now));
  }

  // ----- materialize

  lemma ReceiptFacts(t: Tables, k: Key)
    requires k in t.events && ReceiptAt(t, k).Some?
    ensures IsTrust(t.events[k].trust) && 0 < t.events[k].clearFor <= t.events[k].recallFor
    ensures t.events[k].status == if k in t.bodies then EventActive else EventExpired
  {
  }

  lemma DraftRowsOk(t: Tables, scope: Scope, ids: set<string>)
    requires forall x :: x in ids ==> Key(scope, x) in t.events && Usable(t, Key(scope, x))
    ensures forall i :: 0 <= i < |ids| ==> SourceRowOk(DraftRows(t, scope, ids)[i])
    ensures EventIds(DraftRows(t, scope, ids)) == Sorted(ids)
  {
    hide ReadReceipt, Sorted, IsTrust;
    var s := Sorted(ids);
    forall i | 0 <= i < |ids|
      ensures SourceRowOk(DraftRows(t, scope, ids)[i])
    {
      assert s[i] in Elements(s);
      ReceiptFacts(t, Key(scope, s[i]));
    }
  }

  lemma PositiveMinima(rows: seq<SourceRow>)
    requires rows != [] && forall i :: 0 <= i < |rows| ==> SourceRowOk(rows[i])
    ensures 0 < MinOf(ClearPeriods(rows)) <= MinOf(RecallPeriods(rows))
  {
    var j :| 0 <= j < |rows| && RecallPeriods(rows)[j] == MinOf(RecallPeriods(rows));
    assert ClearPeriods(rows)[j] <= RecallPeriods(rows)[j];
    var i :| 0 <= i < |rows| && ClearPeriods(rows)[i] == MinOf(ClearPeriods(rows));
    assert SourceRowOk(rows[i]);
  }

  ghost predicate Derivable(t: Tables, d: MemoryDraft)
    requires MemoryDraftOk(d)
  {
    && (forall x :: x in Elements(d.sources) ==> Usable(t, Key(d.scope, x)))
    && var rows := DraftRows(t, d.scope, Elements(d.sources));
       rows != [] && d.trust <= MinOf(Trusts(rows))
       && NewMemoryRow(d, rows).clearUntil <= MAX_TIME && NewMemoryRow(d, rows).recallUntil <= MAX_TIME
  }

  lemma DraftHasRows(d: MemoryDraft)
    requires MemoryDraftOk(d)
    ensures Elements(d.sources) != {}
  {
    assert d.sources[0] in Elements(d.sources);
  }

  /** What a fresh memory reads back as. */
  lemma FreshMemory(t: Tables, d: MemoryDraft)
    requires MemoryDraftOk(d) && Derivable(t, d)
    ensures var rows := DraftRows(t, d.scope, Elements(d.sources));
            var row := NewMemoryRow(d, rows);
            ReadMemory(MemoryKey(d), row, rows) == Some(MemoryRecord(
              d.memoryId, d.scope, d.content, Sorted(Elements(d.sources)), DraftPrint(d), d.kind, d.trust,
              d.createdAt, row.clearUntil, row.recallUntil, Active, Normalize(d.metadata)))
  {
    hide Decode, Canonical, FingerprintOf, ReadReceipt, Sorted, DraftRows;
    var rows := DraftRows(t, d.scope, Elements(d.sources));
    DecodeCanonical(d.metadata);
    DraftRowsOk(t, d.scope, Elements(d.sources));
    PositiveMinima(rows);
    assert Elements(EventIds(rows)) == Elements(d.sources);
  }

  /** The fresh memory's lineage rows are the ones it was derived from. */
  lemma FreshRows(t: Tables, d: MemoryDraft)
    requires MemoryDraftOk(d)
    requires forall x :: x in Elements(d.sources) ==> Key(d.scope, x) in t.events
    requires forall e :: e in t.edges ==> !(e.scope == d.scope && e.memory == d.memoryId)
    ensures SourceRows(Materialized'(t, d), MemoryKey(d)) == DraftRows(t, d.scope, Elements(d.sources))
  {
    hide FingerprintOf, Canonical, MinOf, NewMemoryRow, Sorted;
    var u, k, ids := Materialized'(t, d), MemoryKey(d), Elements(d.sources);
    assert u.edges == t.edges + NewEdges(t, k, ids) && u.events == t.events;
    forall x
      ensures EdgeKey(k.scope, k.id, x) in u.edges <==> x in ids
    {
    }
    assert SourceIds(u, k) == ids;
    var s := Sorted(ids);
    forall i | 0 <= i < |s|
      ensures SourceRows(u, k)[i] == DraftRows(t, d.scope, ids)[i]
    {
      assert s[i] in Elements(s);
    }
  }

  lemma MaterializedMemories(t: Tables, d: MemoryDraft)
    requires KeysAgree(t) && EventsReadable(t) && MemoriesReadable(t) && MemoryDraftOk(d) && Derivable(t, d)
    requires MemoryKey(d) !in t.memories
    ensures MemoriesReadable(Materialized'(t, d))
  {
    hide FingerprintOf, Canonical, ReadReceipt, ReadMemory, SourceRows, Sorted, MinOf, NewMemoryRow, DraftRows;
    var u := Materialized'(t, d);
    FreshRows(t, d);
    FreshMemory(t, d);
    forall k | k in u.memories
      ensures MemoryAt(u, k).Some?
    {
      if k != MemoryKey(d) {
        SourceRowsFrame(t, u, k);
        assert MemoryAt(t, k).Some?;
      }
    }
  }

  lemma NewEdgesHas(t: Tables, k: Key, ids: set<string>, e: EdgeKey)
    requires forall x :: x in ids ==> Key(k.scope, x) in t.events
    ensures e in NewEdges(t, k, ids) <==> e.scope == k.scope && e.memory == k.id && e.event in ids
  {
    if e.scope == k.scope && e.memory == k.id && e.event in ids {
      assert EdgeKey(k.scope, k.id, e.event) in NewEdges(t, k, ids);
    }
  }

  lemma MaterializedKeys(t: Tables, d: MemoryDraft)
    requires KeysAgree(t) && MemoryDraftOk(d) && Derivable(t, d)
    ensures KeysAgree(Materialized'(t, d))
  {
    hide FingerprintOf, Canonical, NewMemoryRow, DraftRows;
    var u := Materialized'(t, d);
    forall e | e in u.edges
      ensures Key(e.scope, e.memory) in u.memories && Key(e.scope, e.event) in u.events
      ensures u.edges[e] == Snapshot(u.events[Key(e.scope, e.event)])
    {
      if e !in NewEdges(t, MemoryKey(d), Elements(d.sources)) {
        assert e in t.edges;
      }
    }
  }

  lemma MaterializedIsValid(t: Tables, d: MemoryDraft)
    requires Valid(t) && MemoryDraftOk(d) && Derivable(t, d)
    requires MemoryKey(d) !in t.memories && TombKey(d.scope, Memory, d.memoryId) !in t.tombstones
    ensures Valid(Materialized'(t, d))
  {
    hide FingerprintOf, Canonical, ReadReceipt, NewMemoryRow, DraftRows, TombstoneOk, KeysAgree, MemoriesReadable,
      NewEdges;
    MaterializedMemories(t, d);
    MaterializedKeys(t, d);
  }

  /** Where every tombstone is readable, no lookup fails. */
  lemma LookupsSucceed(t: Tables, scope: Scope, id: string, fp: Digest)
    requires TombstonesReadable(t)
    ensures TombsReadable(t, scope, id) && TombsReadableAnywhere(t, id) && PrintTombsReadable(t, scope, fp)
  {
    hide TombstoneOk;
  }

  lemma SourcesErrorCause(t: Tables, scope: Scope, ids: seq<string>)
    requires EventsReadable(t) && TombstonesReadable(t)
    ensures SourcesError(t, scope, ids) != Some(Corruption)
  {
    hide ReadReceipt, TombstoneOk;
  }

  lemma SourcesPresent(t: Tables, d: MemoryDraft)
    requires SourcesError(t, d.scope, d.sources).None?
    ensures forall x :: x in Elements(d.sources) ==> Key(d.scope, x) in t.events
  {
    hide ReadReceipt, SourcesError;
    forall x | x in Elements(d.sources)
      ensures Key(d.scope, x) in t.events
    {
      assert Usable(t, Key(d.scope, x));
    }
  }

  // ----- materialization, case by case

  /** Some edge names the draft's memory although no such memory exists. */
  ghost predicate Orphaned(t: Tables, d: MemoryDraft) {
    exists e :: e in t.edges && e.scope == d.scope && e.memory == d.memoryId
  }

  ghost predicate Clear(t: Tables, d: MemoryDraft) {
    && TombsReadable(t, d.scope, d.memoryId) && TombKey(d.scope, Memory, d.memoryId) !in t.tombstones
    && PrintTombsReadable(t, d.scope, DraftPrint(d)) && !PrintTombstoned(t, d.scope, DraftPrint(d))
  }

  lemma MaterializeExits(t: Tables, d: MemoryDraft)
    requires MemoryDraftOk(d)
    ensures !TombsReadable(t, d.scope, d.memoryId) ==> MaterializeStep(t, d) == Refused(Corruption, t)
    ensures TombsReadable(t, d.scope, d.memoryId) && TombKey(d.scope, Memory, d.memoryId) in t.tombstones
      ==> MaterializeStep(t, d) == Refused(EntityDeleted(d.memoryId), t)
    ensures TombsReadable(t, d.scope, d.memoryId) && TombKey(d.scope, Memory, d.memoryId) !in t.tombstones ==>
      && (!PrintTombsReadable(t, d.scope, DraftPrint(d)) ==> MaterializeStep(t, d) == Refused(Corruption, t))
      && (PrintTombsReadable(t, d.scope, DraftPrint(d)) && PrintTombstoned(t, d.scope, DraftPrint(d))
          ==> MaterializeStep(t, d) == Refused(EntityDeleted(d.memoryId), t))
    ensures Clear(t, d) && MemoryKey(d) in t.memories ==>
      MaterializeStep(t, d) == match MemoryAt(t, MemoryKey(d))
        case None => Refused(Corruption, t)
        case Some(r) => if SameMemory(r, d) then Outcome(Recorded(r), t)
          else Refused(IdempotencyConflict(d.memoryId), t)
    ensures Clear(t, d) && MemoryKey(d) !in t.memories && SourcesError(t, d.scope, d.sources).Some? ==>
      MaterializeStep(t, d) == Refused(SourcesError(t, d.scope, d.sources).value, t)
  {
    hide TombsReadable, PrintTombsReadable, PrintTombstoned, DraftPrint, MemoryAt, SameMemory, SourcesError, DraftRows,
      NewMemoryRow, ReadMemory, MinOf, Materialized';
  }

  /** What a usable draft becomes: refused by a ceiling, spoilt by an orphaned edge, or stored. */
  lemma MaterializeStores(t: Tables, d: MemoryDraft)
    requires MemoryDraftOk(d) && Clear(t, d) && MemoryKey(d) !in t.memories
    requires SourcesError(t, d.scope, d.sources).None?
    ensures var rows := DraftRows(t, d.scope, Elements(d.sources));
            rows != [] &&
            var row := NewMemoryRow(d, rows);
            if d.trust > MinOf(Trusts(rows)) then MaterializeStep(t, d) == Refused(TrustEscalation(d.memoryId), t)
            else if row.clearUntil > MAX_TIME || row.recallUntil > MAX_TIME
            then MaterializeStep(t, d) == Refused(ValidationError(CreatedAt), t)
            else if Orphaned(t, d)
            then MaterializeStep(t, d) == Refused(Corruption, t)
            else ReadMemory(MemoryKey(d), row, rows).Some? &&
                 MaterializeStep(t, d)
                   == Outcome(Recorded(ReadMemory(MemoryKey(d), row, rows).value), Materialized'(t, d))
  {
    hide TombsReadable, PrintTombsReadable, PrintTombstoned, DraftPrint, SameMemory, SourcesError, DraftRows,
      NewMemoryRow, ReadMemory, MinOf, Materialized', Usable, MemoryAt, ReadReceipt,
      IsMetadata, Sorted, Canonical;
    DraftHasRows(d);
    if Derivable(t, d) {
      FreshMemory(t, d);
    }
  }

  /** The outcome once no tombstone stands in the way and every source is usable: refused by policy, or stored. */
  lemma MaterializeNew(t: Tables, d: MemoryDraft)
    requires MemoryDraftOk(d)
    requires TombsReadable(t, d.scope, d.memoryId) && PrintTombsReadable(t, d.scope, DraftPrint(d))
    requires MemoryKey(d) !in t.memories && TombKey(d.scope, Memory, d.memoryId) !in t.tombstones
    requires SourcesError(t, d.scope, d.sources).None? && !PrintTombstoned(t, d.scope, DraftPrint(d))
    requires forall e :: e in t.edges ==> !(e.scope == d.scope && e.memory == d.memoryId)
    ensures !Derivable(t, d) ==> MaterializeStep(t, d).state == t && MaterializeStep(t, d).reply.Failed?
                                 && MaterializeStep(t, d).reply.error != Corruption
    ensures Derivable(t, d) ==>
      && MaterializeStep(t, d).state == Materialized'(t, d)
      && MaterializeStep(t, d).reply.Recorded?
  {
    hide MaterializeStep, Usable, ReadMemory, FingerprintOf, NewMemoryRow, DraftRows, MinOf, Materialized', DraftPrint,
      TombsReadable, PrintTombsReadable, PrintTombstoned, SourcesError;
    MaterializeStores(t, d);
  }

  lemma MaterializeKeepsValid(t: Tables, d: MemoryDraft)
    requires Valid(t) && MemoryDraftOk(d)
    ensures Valid(MaterializeStep(t, d).state)
    ensures MaterializeStep(t, d).reply != Failed(Corruption)
  {
    hide ReadReceipt, ReadMemory, SourceRows, FingerprintOf, AuditReadable, NoneResurrected, NewMemoryRow, DraftRows,
      SameMemory, Materialized', TombsReadable, PrintTombsReadable, PrintTombstoned, Derivable;
    LookupsSucceed(t, d.scope, d.memoryId, DraftPrint(d));
    SourcesErrorCause(t, d.scope, d.sources);
    if && MemoryKey(d) !in t.memories && TombKey(d.scope, Memory, d.memoryId) !in t.tombstones
       && SourcesError(t, d.scope, d.sources).None? && !PrintTombstoned(t, d.scope, DraftPrint(d)) {
      NoOrphans(t, d.scope, d.memoryId);
      MaterializeNew(t, d);
      if Derivable(t, d) {
        MaterializedIsValid(t, d);
      }
    } else {
      hide SourcesError, DraftPrint;
      assert MaterializeStep(t, d).state == t;
    }
  }

  lemma NoOrphans(t: Tables, scope: Scope, id: string)
    requires KeysAgree(t) && Key(scope, id) !in t.memories
    ensures forall e :: e in t.edges ==> !(e.scope == scope && e.memory == id)
  {
  }

  // ----- expire

  lemma ExpiredReceipts(t: Tables, due: set<Key>, asOf: int)
    requires EventsReadable(t)
    ensures EventsReadable(Expired'(t, due, asOf))
  {
    hide Decode, ExpireRows;
    var u := Expired'(t, due, asOf);
    forall k | k in u.events
      ensures ReceiptAt(u, k).Some?
    {
      assert ReceiptAt(t, k).Some?;
    }
  }

  lemma ExpiredMemories(t: Tables, due: set<Key>, asOf: int)
    requires MemoriesReadable(t)
    ensures MemoriesReadable(Expired'(t, due, asOf))
  {
    hide MemoriesReadable, ExpireRows;
    MemoriesFrame(t, Expired'(t, due, asOf));
  }

  lemma ExpiredIsValid(t: Tables, due: set<Key>, asOf: int)
    requires Valid(t) && IsTime(asOf)
    ensures Valid(Expired'(t, due, asOf))
  {
    hide ReadMemory, SourceRows, Decode, EventsReadable, MemoriesReadable, TombstoneOk;
    ExpiredReceipts(t, due, asOf);
    ExpiredMemories(t, due, asOf);
  }

  lemma ExpireKeepsValid(t: Tables, asOf: int)
    requires Valid(t) && IsTime(asOf)
    ensures Valid(ExpireStep(t, asOf).state)
    ensures ExpireStep(t, asOf).reply == Removed(|Due(t, asOf)|)
  {
    hide ReadReceipt, ReadMemory, SourceRows;
    ExpiredIsValid(t, Due(t, asOf), asOf);
  }

  // ----- govern

  lemma StatusReadable(t: Tables, k: Key, row: MemoryRow, status: MemoryStatus)
    requires !status.UnknownStatus? && ReadMemory(k, row, SourceRows(t, k)).Some?
    ensures ReadMemory(k, row.(status := status), SourceRows(t, k)).Some?
  {
    hide SourceRows, FingerprintOf, Decode, MinOf;
  }

  lemma StatusMemories(t: Tables, c: Command, status: MemoryStatus)
    requires MemoriesReadable(t) && !status.UnknownStatus?
    requires Key(c.scope, c.entityId) in t.memories
    ensures MemoriesReadable(WithStatus(t, c, status))
  {
    hide ReadMemory, SourceRows;
    var u := WithStatus(t, c, status);
    forall k | k in u.memories
      ensures MemoryAt(u, k).Some?
    {
      SourceRowsFrame(t, u, k);
      assert MemoryAt(t, k).Some?;
      StatusReadable(t, k, t.memories[k], status);
    }
  }

  lemma StatusKeepsValid(t: Tables, c: Command, status: MemoryStatus)
    requires Valid(t) && IsTime(c.occurredAt) && c.entityType.Memory? && !status.UnknownStatus?
    requires Key(c.scope, c.entityId) in t.memories
    ensures Valid(WithStatus(t, c, status))
  {
    hide TombstoneOk, MemoriesReadable, EventsReadable;
    StatusMemories(t, c, status);
    EventsFrame(t, WithStatus(t, c, status));
  }

  lemma WithoutMemoriesReadable(t: Tables, c: Command, ids: set<string>)
    requires MemoriesReadable(t)
    requires forall x :: x in ids ==> Key(c.scope, x) in t.memories
    ensures MemoriesReadable(WithoutMemories(t, c, ids))
  {
    hide MemoriesReadable, Tombs;
    var u := WithoutMemories(t, c, ids);
    forall k | k in u.memories
      ensures !(k.scope == c.scope && k.id in ids)
    {
      KeysOf(c.scope, ids, k);
    }
    MemoriesFrame(t, u);
  }

  lemma KeysOf(scope: Scope, ids: set<string>, k: Key)
    ensures k in Keys(scope, ids) <==> k.scope == scope && k.id in ids
  {
    if k.scope == scope && k.id in ids {
      assert Key(scope, k.id) in Keys(scope, ids);
    }
  }

  lemma TombsOf(t: Tables, c: Command, ids: set<string>, k: TombKey)
    requires forall x :: x in ids ==> Key(c.scope, x) in t.memories
    ensures k in Tombs(t, c, ids) <==> k.scope == c.scope && k.entity.Memory? && k.id in ids
    ensures k in Tombs(t, c, ids) ==> Tombs(t, c, ids)[k] == Tomb(t, c, k.id)
  {
    if k.scope == c.scope && k.entity.Memory? && k.id in ids {
      assert TombKey(c.scope, Memory, k.id) in Tombs(t, c, ids);
    }
  }

  lemma WithoutMemoriesIsValid(t: Tables, c: Command, ids: set<string>)
    requires Valid(t) && IsTime(c.occurredAt)
    requires forall x :: x in ids ==> Key(c.scope, x) in t.memories
    ensures Valid(WithoutMemories(t, c, ids))
  {
    hide EventsReadable, MemoriesReadable, AuditRowOk, Keys, Tombs;
    var u := WithoutMemories(t, c, ids);
    WithoutMemoriesReadable(t, c, ids);
    forall k | k in u.tombstones
      ensures TombstoneOk(k, u.tombstones[k]) && !Live(u, k)
    {
      TombsOf(t, c, ids, k);
      KeysOf(c.scope, ids, Key(k.scope, k.id));
    }
    forall e | e in u.edges
      ensures Key(e.scope, e.memory) in u.memories
    {
      KeysOf(c.scope, ids, Key(e.scope, e.memory));
    }
    EventsFrame(t, u);
  }

  lemma AuditedIsValid(t: Tables, c: Command)
    requires Valid(t) && IsTime(c.occurredAt) && (c.entityType.Memory? || c.action.Delete?)
    ensures Valid(Audited(t, c))
  {
    hide MemoriesReadable, EventsReadable, TombstoneOk;
    MemoriesFrame(t, Audited(t, c));
    EventsFrame(t, Audited(t, c));
  }

  function Unevented(t: Tables, c: Command): Tables {
    var k := Key(c.scope, c.entityId);
    t.(events := t.events - {k}, bodies := t.bodies - {k},
       tombstones :=
         t.tombstones[TombKey(c.scope, RawEvent, c.entityId) := Tombstone(c.occurredAt, GovernanceRequested, None)])
  }

  /** Once no memory depends on it, an event can go. */
  lemma UneventedIsValid(t: Tables, c: Command)
    requires Valid(t) && IsTime(c.occurredAt)
    requires Dependents(t, Key(c.scope, c.entityId)) == {}
    ensures Valid(Unevented(t, c))
  {
    hide MemoriesReadable, EventsReadable, AuditRowOk;
    var u, k0 := Unevented(t, c), Key(c.scope, c.entityId);
    forall e | e in t.edges
      ensures Key(e.scope, e.event) != k0
    {
      assert e.scope == k0.scope && e.event == k0.id ==> e == EdgeKey(k0.scope, e.memory, k0.id);
      assert e.memory !in Dependents(t, k0);
    }
    MemoriesFrame(t, u);
    EventsFrame(t, u);
  }

  lemma DependentsAreLive(t: Tables, k: Key)
    requires KeysAgree(t)
    ensures forall x :: x in Dependents(t, k) ==> Key(k.scope, x) in t.memories
  {
  }

  lemma WithoutEventIsValid(t: Tables, c: Command)
    requires Valid(t) && IsTime(c.occurredAt) && c.entityType.RawEvent? && c.action.Delete?
    requires forall x :: x in Dependents(t, Key(c.scope, c.entityId)) ==> Key(c.scope, x) in t.memories
    ensures Valid(WithoutEvent(t, c))
  {
    hide Valid, Tombs, Keys;
    var k := Key(c.scope, c.entityId);
    var u := WithoutMemories(t, c, Dependents(t, k));
    WithoutMemoriesIsValid(t, c, Dependents(t, k));
    assert Dependents(u, k) == {};
    UneventedIsValid(u, c);
    AuditedIsValid(Unevented(u, c), c);
    assert WithoutEvent(t, c) == Audited(Unevented(u, c), c);
  }

  lemma KnownStatus(t: Tables, k: Key)
    requires Valid(t) && k in t.memories
    ensures !t.memories[k].status.UnknownStatus? && LineageAgrees(t, k)
  {
    hide FingerprintOf, SourceRows, Decode, MinOf, LineageAgrees;
    assert MemoryAt(t, k).Some?;
    ValidLineage(t, k);
  }

  lemma GovernMemoryKeepsValid(t: Tables, c: Command)
    requires Valid(t) && IsTime(c.occurredAt) && c.entityType.Memory?
    ensures Valid(GovernMemoryStep(t, c).state)
    ensures GovernMemoryStep(t, c).reply != Failed(Corruption)
  {
    hide MemoriesReadable, EventsReadable, AuditReadable, LineageAgrees, WithStatus, WithoutMemories, Audited,
      TombsReadableAnywhere;
    var k := Key(c.scope, c.entityId);
    LookupsSucceed(t, c.scope, c.entityId, Sha256([]));
    if k in t.memories {
      KnownStatus(t, k);
      StatusKeepsValid(t, c, Sealed);
      StatusKeepsValid(t, c, Active);
      assert TombKey(c.scope, Memory, c.entityId) !in t.tombstones by {
        assert Live(t, TombKey(c.scope, Memory, c.entityId));
      }
      WithoutMemoriesIsValid(t, c, {c.entityId});
      AuditedIsValid(WithoutMemories(t, c, {c.entityId}), c);
    }
  }

  lemma DeleteEventKeepsValid(t: Tables, c: Command)
    requires Valid(t) && IsTime(c.occurredAt) && c.entityType.RawEvent? && c.action.Delete?
    ensures Valid(DeleteEventStep(t, c).state)
    ensures DeleteEventStep(t, c).reply != Failed(Corruption)
  {
    hide SourceRows, ReadReceipt, ReadMemory, AuditReadable, LineageAgrees, WithoutEvent, TombsReadableAnywhere;
    var k := Key(c.scope, c.entityId);
    LookupsSucceed(t, c.scope, c.entityId, Sha256([]));
    DependentsAreLive(t, k);
    if k in t.events {
      forall m | m in Dependents(t, k)
        ensures DependentOk(t, c.scope, m) && TombKey(c.scope, Memory, m) !in t.tombstones
      {
        ValidLineage(t, Key(c.scope, m));
        assert Live(t, TombKey(c.scope, Memory, m));
      }
      assert Live(t, TombKey(c.scope, RawEvent, c.entityId));
      WithoutEventIsValid(t, c);
    }
  }

  // ----- every run

  /** Every operation keeps the invariant, and none finds a corrupt row. */
  lemma StepKeepsValid(t: Tables, op: Op)
    requires Valid(t) && OpOk(op)
    ensures Valid(Step(t, op).state)
    ensures Step(t, op).reply != Failed(Corruption)
  {
    hide Valid, IngestStep, MaterializeStep, ExpireStep, GovernMemoryStep, DeleteEventStep;
    match op
    case Ingest(d, now) => IngestKeepsValid(t, d, now);
    case Materialize(d) => MaterializeKeepsValid(t, d);
    case Expire(asOf) => ExpireKeepsValid(t, asOf);
    case Govern(c) =>
      if c.entityType.Memory? {
        GovernMemoryKeepsValid(t, c);
      } else if c.action.Delete? {
        DeleteEventKeepsValid(t, c);
      }
  }

  lemma {:induction false} RunIsValid(t: Tables, ops: seq<Op>)
    requires Valid(t) && forall i :: 0 <= i < |ops| ==> OpOk(ops[i])
    ensures Valid(Run(t, ops))
  {
    hide Valid, Step;
    if ops != [] {
      RunIsValid(t, ops[..|ops| - 1]);
      StepKeepsValid(Run(t, ops[..|ops| - 1]), ops[|ops| - 1]);
    }
  }

  lemma EmptyIsValid()
    ensures Valid(EMPTY)
  {
  }

  /** No run of the library ends in a corruption error. */
  lemma NoRunFindsCorruption(ops: seq<Op>, op: Op)
    requires (forall i :: 0 <= i < |ops| ==> OpOk(ops[i])) && OpOk(op)
    ensures Step(Run(EMPTY, ops), op).reply != Failed(Corruption)
  {
    hide Valid, Step;
    EmptyIsValid();
    RunIsValid(EMPTY, ops);
    StepKeepsValid(Run(EMPTY, ops), op);
  }
}
