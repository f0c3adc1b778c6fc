/** The public contracts: drafts, commands, receipts, records and errors, with the validity the constructors enforce.
    Datetimes are integer microseconds since year 1; durations are microseconds. */
module Domain {
  import opened Binary64
  import opened CanonicalJson
  import opened Metadata
  import opened Fingerprint

  /** 9999-12-31T23:59:59.999999. */
  const MAX_TIME := 315537897599999999

  /** The largest value an INTEGER column takes. */
  const INT64_MAX := 0x7FFF_FFFF_FFFF_FFFF

  /** An INTEGER column is signed and has 64 bits. */
  lemma ColumnBound()
    ensures INT64_MAX == Power(2, 63) - 1
  {
    assert Power(2, 4) == 16;
    PowerAdds(2, 4, 4);
    PowerAdds(2, 8, 8);
    PowerAdds(2, 16, 16);
    PowerAdds(2, 32, 16);
    PowerAdds(2, 48, 8);
    PowerAdds(2, 56, 4);
    PowerStep(2, 60);
    PowerStep(2, 61);
    PowerStep(2, 62);
  }

  predicate IsTime(t: int) {
    0 <= t <= MAX_TIME
  }

  predicate IsTrust(t: int) {
    0 <= t <= 2
  }

  datatype EntityType = RawEvent | Memory
  datatype Action = Seal | Restore | Forget | Delete
  datatype MemoryStatus = Active | Sealed | UnknownStatus

  datatype Source = Source(sourceId: string, sourceType: string, occurredAt: int, trust: int, metadata: Json)

  datatype EventDraft = EventDraft(
    scope: Scope, eventId: string, source: Source, content: string,
    rawTtl: int, clearFor: int, recallFor: int, metadata: Json)

  datatype MemoryDraft = MemoryDraft(
    memoryId: string, scope: Scope, content: string, sources: seq<string>,
    kind: string, trust: int, createdAt: int, metadata: Json)

  datatype Command = Command(
    scope: Scope, action: Action, entityType: EntityType, entityId: string, occurredAt: int, reason: string)

  datatype Receipt = Receipt(
    eventId: string, scope: Scope, source: Source, contentHash: Digest, ingestedAt: int, rawExpiresAt: int,
    clearFor: int, recallFor: int, available: bool, metadata: Json)

  datatype MemoryRecord = MemoryRecord(
    memoryId: string, scope: Scope, content: string, sources: seq<string>, fingerprint: Digest, kind: string,
    trust: int, createdAt: int, clearUntil: int, recallUntil: int, status: MemoryStatus, metadata: Json)

  datatype Field = RawExpiresAt | CreatedAt | ActionField

  datatype Error =
    | EntityDeleted(id: string)
    | EntityNotFound(id: string)
    | IdempotencyConflict(id: string)
    | InvalidTransition(id: string)
    | ScopeMismatch(id: string)
    | TrustEscalation(id: string)
    | ValidationError(field: Field)
    | TooLargeForColumn
    | Corruption

  predicate EventDraftOk(d: EventDraft) {
    && IsTime(d.source.occurredAt) && IsTrust(d.source.trust)
    && IsMetadata(d.source.metadata) && IsMetadata(d.metadata)
    && 0 < d.rawTtl && 0 < d.clearFor <= d.recallFor
  }

  predicate MemoryDraftOk(d: MemoryDraft) {
    && d.sources != []
    && (forall i, j :: 0 <= i < j < |d.sources| ==> d.sources[i] != d.sources[j])
    && IsTrust(d.trust) && IsTime(d.createdAt) && IsMetadata(d.metadata)
  }
}
