/** The readers that re-validate every row accept exactly the rows the operations write. */
module Readers {
  import opened Wrappers
  import opened TextOrder
  import opened CanonicalJson
  import opened Metadata
  import opened Fingerprint
  import opened Domain
  import opened Tables
  import opened Policy

  // ----- audit rows

  /** The operation, if it changes anything, can add this row to the log. */
  ghost predicate Logs(op: Op, r: AuditRow) {
    match op
    case Ingest(d, now) => r == AuditRow(d.scope, Ingested, RawEvent, d.eventId, now, EventIngested)
    case Materialize(d) => r == AuditRow(d.scope, Materialized, Memory, d.memoryId, d.createdAt, MemoryMaterialized)
    case Expire(asOf) => r == AuditRow(r.scope, Expired, RawEvent, r.id, asOf, RawContentExpired)
    case Govern(c) =>
      && (c.entityType.RawEvent? ==> c.action.Delete?)
      && r == AuditRow(c.scope, Governed(c.action), c.entityType, c.entityId, c.occurredAt, GovernanceRequested)
  }

  function AnyEvent(scope: Scope, id: string): EventDraft {
    EventDraft(scope, id, Source([], [], 0, 0, Obj([])), [], 1, 1, 1, Obj([]))
  }

  function AnyMemory(scope: Scope, id: string, at: int): MemoryDraft {
    MemoryDraft(id, scope, [], [[]], [], 0, at, Obj([]))
  }

  /** An audit row is accepted exactly when some operation can have written it. */
  lemma AuditAcceptsExactly(r: AuditRow)
    ensures AuditRowOk(r) <==> exists op :: OpOk(op) && Logs(op, r)
  {
    if AuditRowOk(r) {
      var op := match r.action
        case Ingested => Ingest(AnyEvent(r.scope, r.id), r.occurredAt)
        case Materialized => Materialize(AnyMemory(r.scope, r.id, r.occurredAt))
        case Expired => Expire(r.occurredAt)
        case Governed(a) => Govern(Command(r.scope, a, r.entity, r.id, r.occurredAt, []));
      assert OpOk(op) && Logs(op, r);
    }
  }

  // ----- tombstones

  /** What a command given at that time leaves for the entity. */
  ghost predicate Leaves(k: TombKey, row: Tombstone, at: int, fp: Digest) {
    0 <= at <= MAX_TIME && row == Tombstone(at, GovernanceRequested, if k.entity.RawEvent? then None else Some(fp))
  }

  /** A tombstone is accepted exactly when some command can have left it: an event's without a fingerprint, a memory's
      with one. */
  lemma TombstoneAcceptsExactly(k: TombKey, row: Tombstone)
    ensures TombstoneOk(k, row) <==> exists at, fp :: Leaves(k, row, at, fp)
  {
    if TombstoneOk(k, row) {
      assert Leaves(k, row, row.deletedAt, if row.fingerprint.Some? then row.fingerprint.value else Sha256([]));
    }
  }

  // ----- receipts

  /** What the constructors demand of an event draft, except that its body outlives the ingest. */
  predicate Receivable(d: EventDraft) {
    && 0 <= d.source.occurredAt <= MAX_TIME && 0 <= d.source.trust <= 2
    && IsMetadata(d.source.metadata) && IsMetadata(d.metadata) && 0 < d.clearFor <= d.recallFor
  }

  /** The row is what ingesting the draft writes, marked by whether the body is there. */
  ghost predicate WrittenFor(k: Key, row: EventRow, available: bool, d: EventDraft, now: int) {
    && Receivable(d) && 0 <= now <= MAX_TIME && 0 <= d.source.occurredAt + d.rawTtl <= MAX_TIME
    && d.scope == k.scope && d.eventId == k.id
    && row == EventRow(
      d.source.sourceId, d.source.sourceType, d.source.occurredAt, d.source.trust, Canonical(d.source.metadata),
      Sha256(d.content), now, d.source.occurredAt + d.rawTtl, d.clearFor, d.recallFor, Canonical(d.metadata),
      if available then EventActive else EventExpired)
  }

  /** The constructors let through exactly these, with a positive time to live. */
  lemma EventDraftIs(d: EventDraft)
    ensures EventDraftOk(d) <==> Receivable(d) && 0 < d.rawTtl
  {
    hide IsMetadata;
  }

  lemma Decoded(text: string)
    requires Decode(text).Some?
    ensures IsMetadata(Decode(text).value) && Canonical(Decode(text).value) == text
  {
    hide IsMetadata, Canonical;
  }

  /** What it is then read as: the draft's own values, metadata up to the order of keys. */
  lemma ReceiptReads(k: Key, row: EventRow, available: bool, d: EventDraft, now: int)
    requires WrittenFor(k, row, available, d, now)
    ensures ReadReceipt(k, row, available) == Some(Receipt(
      d.eventId, d.scope, d.source.(metadata := Normalize(d.source.metadata)), Sha256(d.content), now,
      d.source.occurredAt + d.rawTtl, d.clearFor, d.recallFor, available, Normalize(d.metadata)))
  {
    hide Decode, Canonical, IsMetadata, Normalize;
    DecodeCanonical(d.source.metadata);
    DecodeCanonical(d.metadata);
  }

  lemma WriterOf(k: Key, row: EventRow, available: bool) returns (d: EventDraft)
    requires ReadReceipt(k, row, available).Some?
    ensures WrittenFor(k, row, available, d, row.ingestedAt)
  {
    hide Decode, Canonical, IsMetadata;
    Decoded(row.sourceMetadata);
    Decoded(row.metadata);
    d := EventDraft(
      k.scope, k.id,
      Source(row.sourceId, row.sourceType, row.occurredAt, row.trust, Decode(row.sourceMetadata).value),
      row.contentHash.text, row.rawExpiresAt - row.occurredAt, row.clearFor, row.recallFor,
      Decode(row.metadata).value);
    assert row.contentHash == Sha256(d.content);
  }

  /** A receipt row is accepted exactly when some draft's ingest writes it (its time to live need not be positive). */
  lemma ReceiptAcceptsExactly(k: Key, row: EventRow, available: bool)
    ensures ReadReceipt(k, row, available).Some? <==> exists d, now :: WrittenFor(k, row, available, d, now)
  {
    hide ReadReceipt, WrittenFor;
    if ReadReceipt(k, row, available).Some? {
      var d := WriterOf(k, row, available);
    }
    if d, now :| WrittenFor(k, row, available, d, now) {
      ReceiptReads(k, row, available, d, now);
    }
  }

  // ----- memories

  /** Lineage rows that some sources' snapshots can have given, none with less trust than `trust`. */
  predicate Supports(rows: seq<SourceRow>, trust: int) {
    && rows != []
    && forall i :: 0 <= i < |rows| ==>
         && rows[i].present && 0 <= rows[i].edge.trust <= 2 && trust <= rows[i].edge.trust
         && 0 < rows[i].edge.clearFor <= rows[i].edge.recallFor
  }

  /** The deadline is the creation time plus the least of the periods, and can be represented. */
  predicate IsDeadline(at: int, createdAt: int, periods: seq<int>) {
    && 0 <= at <= MAX_TIME
    && (forall i :: 0 <= i < |periods| ==> at <= createdAt + periods[i])
    && (exists i :: 0 <= i < |periods| && at == createdAt + periods[i])
  }

  /** What the constructor demands of a memory draft. */
  predicate Draftable(d: MemoryDraft) {
    && d.sources != [] && (forall i, j :: 0 <= i < j < |d.sources| ==> d.sources[i] != d.sources[j])
    && 0 <= d.trust <= 2 && 0 <= d.createdAt <= MAX_TIME && IsMetadata(d.metadata)
  }

  lemma MemoryDraftIs(d: MemoryDraft)
    ensures MemoryDraftOk(d) <==> Draftable(d)
  {
    hide IsMetadata;
  }

  /** The row is what materializing the draft writes over these lineage rows, with any status a memory can have. */
  ghost predicate StoredFor(k: Key, row: MemoryRow, rows: seq<SourceRow>, d: MemoryDraft) {
    && Draftable(d) && d.scope == k.scope && d.memoryId == k.id && d.sources == EventIds(rows)
    && Supports(rows, d.trust)
    && IsDeadline(row.clearUntil, d.createdAt, ClearPeriods(rows))
    && IsDeadline(row.recallUntil, d.createdAt, RecallPeriods(rows))
    && row == MemoryRow(
      d.content, FingerprintOf(d.scope, d.kind, Elements(d.sources)), d.kind, d.trust, d.createdAt, row.clearUntil,
      row.recallUntil, if row.status.Active? then Active else Sealed, Canonical(d.metadata))
  }

  lemma DeadlineIs(at: int, createdAt: int, periods: seq<int>)
    requires periods != []
    ensures IsDeadline(at, createdAt, periods) <==> 0 <= at <= MAX_TIME && at == createdAt + MinOf(periods)
  {
    hide MinOf;
    var i :| 0 <= i < |periods| && periods[i] == MinOf(periods);
  }

  lemma SupportIs(rows: seq<SourceRow>, trust: int)
    ensures Supports(rows, trust) <==>
      rows != [] && (forall i :: 0 <= i < |rows| ==> SourceRowOk(rows[i])) && trust <= MinOf(Trusts(rows))
  {
    hide MinOf;
    if rows != [] {
      assert forall i :: 0 <= i < |rows| ==> Trusts(rows)[i] == rows[i].edge.trust;
      var i :| 0 <= i < |rows| && Trusts(rows)[i] == MinOf(Trusts(rows));
    }
  }

  /** A memory row is accepted over its lineage rows exactly when materializing some draft writes it over them. */
  lemma MemoryAcceptsExactly(k: Key, row: MemoryRow, rows: seq<SourceRow>)
    requires forall i, j :: 0 <= i < j < |rows| ==> rows[i].event != rows[j].event
    ensures ReadMemory(k, row, rows).Some? <==> exists d :: StoredFor(k, row, rows, d)
  {
    hide Decode, Canonical, IsMetadata, FingerprintOf, MinOf, Supports, IsDeadline, SourceRowOk;
    SupportIs(rows, row.trust);
    if rows != [] {
      DeadlineIs(row.clearUntil, row.createdAt, ClearPeriods(rows));
      DeadlineIs(row.recallUntil, row.createdAt, RecallPeriods(rows));
    }
    if ReadMemory(k, row, rows).Some? {
      Decoded(row.metadata);
      var d := MemoryDraft(
        k.id, k.scope, row.content, EventIds(rows), row.kind, row.trust, row.createdAt, Decode(row.metadata).value);
      assert StoredFor(k, row, rows, d);
    }
    if d :| StoredFor(k, row, rows, d) {
      assert rows != [] by { SupportIs(rows, d.trust); }
      DecodeCanonical(d.metadata);
    }
  }
}
