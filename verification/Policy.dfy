/** What each operation answers and what it makes of the tables, stated once for any table contents whatever. */
module Policy {
  import opened Wrappers
  import opened TextOrder
  import opened StableSort
  import opened Metadata
  import opened Fingerprint
  import opened Domain
  import opened Tables

  datatype Reply =
    | Received(receipt: Receipt)
    | Recorded(record: MemoryRecord)
    | Removed(count: nat)
    | Affected(ids: seq<string>)
    | Failed(error: Error)

  datatype Op =
    | Ingest(event: EventDraft, now: int)
    | Materialize(memory: MemoryDraft)
    | Expire(asOf: int)
    | Govern(command: Command)

  /** The arguments the domain constructors and the clock normalization let through. */
  predicate OpOk(op: Op) {
    match op
    case Ingest(d, now) => EventDraftOk(d) && IsTime(now)
    case Materialize(d) => MemoryDraftOk(d)
    case Expire(asOf) => IsTime(asOf)
    case Govern(c) => IsTime(c.occurredAt)
  }

  datatype Outcome = Outcome(reply: Reply, state: Tables)

  function Refused(e: Error, t: Tables): Outcome {
    Outcome(Failed(e), t)
  }

  // ----- tombstone lookups: every matching row is validated

  predicate TombsReadable(t: Tables, scope: Scope, id: string) {
    forall ty :: TombKey(scope, ty, id) in t.tombstones ==>
      TombstoneOk(TombKey(scope, ty, id), t.tombstones[TombKey(scope, ty, id)])
  }

  predicate TombsReadableAnywhere(t: Tables, id: string) {
    forall k :: k in t.tombstones && k.id == id ==> TombstoneOk(k, t.tombstones[k])
  }

  predicate PrintTombsReadable(t: Tables, scope: Scope, fp: Digest) {
    forall k :: k in t.tombstones && k.scope == scope && t.tombstones[k].fingerprint == Some(fp) ==>
      TombstoneOk(k, t.tombstones[k])
  }

  /** Some memory carrying this fingerprint has been forgotten or deleted in the scope. */
  predicate PrintTombstoned(t: Tables, scope: Scope, fp: Digest) {
    exists k :: k in t.tombstones && k.scope == scope && k.entity.Memory? && t.tombstones[k].fingerprint == Some(fp)
  }

  // ----- ingest

  function NewEventRow(d: EventDraft, now: int): EventRow {
    EventRow(
      d.source.sourceId, d.source.sourceType, d.source.occurredAt, d.source.trust, Canonical(d.source.metadata),
      ContentHash(d.content), now, d.source.occurredAt + d.rawTtl, d.clearFor, d.recallFor, Canonical(d.metadata),
      EventActive)
  }

  function EventKey(d: EventDraft): Key {
    Key(d.scope, d.eventId)
  }

  predicate SourceEqual(a: Source, b: Source) {
    && a.sourceId == b.sourceId && a.sourceType == b.sourceType && a.occurredAt == b.occurredAt
    && a.trust == b.trust && PyEqual(a.metadata, b.metadata)
  }

  /** `_is_identical`. */
  predicate SameEvent(r: Receipt, d: EventDraft) {
    && r.scope == d.scope && SourceEqual(r.source, d.source) && r.contentHash == ContentHash(d.content)
    && r.rawExpiresAt == d.source.occurredAt + d.rawTtl && r.clearFor == d.clearFor && r.recallFor == d.recallFor
    && PyEqual(r.metadata, d.metadata)
  }

  function Ingested'(t: Tables, d: EventDraft, now: int): Tables {
    var k := EventKey(d);
    t.(events := t.events[k := NewEventRow(d, now)],
       bodies := t.bodies[k := d.content],
       audit := t.audit + multiset{AuditRow(d.scope, Ingested, RawEvent, d.eventId, now, EventIngested)})
  }

  function IngestStep(t: Tables, d: EventDraft, now: int): Outcome {
    var k := EventKey(d);
    if d.source.occurredAt + d.rawTtl > MAX_TIME then Refused(ValidationError(RawExpiresAt), t)
    else if !TombsReadable(t, d.scope, d.eventId) then Refused(Corruption, t)
    else if TombKey(d.scope, RawEvent, d.eventId) in t.tombstones then Refused(EntityDeleted(d.eventId), t)
    else if k in t.events then
      match ReceiptAt(t, k)
      case None => Refused(Corruption, t)
      case Some(r) => if SameEvent(r, d) then Outcome(Received(r), t) else Refused(IdempotencyConflict(d.eventId), t)
    else if d.clearFor > INT64_MAX || d.recallFor > INT64_MAX then Refused(TooLargeForColumn, t)
    else if k in t.bodies then Refused(Corruption, t)
    else
      match ReadReceipt(k, NewEventRow(d, now), true)
      case None => Refused(Corruption, t)
      case Some(r) => Outcome(Received(r), Ingested'(t, d, now))
  }

  // ----- materialize

  function MemoryKey(d: MemoryDraft): Key {
    Key(d.scope, d.memoryId)
  }

  function DraftPrint(d: MemoryDraft): Digest {
    FingerprintOf(d.scope, d.kind, Elements(d.sources))
  }

  /** `_is_identical_memory`. */
  predicate SameMemory(r: MemoryRecord, d: MemoryDraft) {
    && r.memoryId == d.memoryId && r.scope == d.scope && r.content == d.content
    && r.sources == Sorted(Elements(d.sources)) && r.fingerprint == DraftPrint(d) && r.kind == d.kind
    && r.trust == d.trust && r.createdAt == d.createdAt && PyEqual(r.metadata, d.metadata)
  }

  /** The receipt exists and reads back. */
  predicate Usable(t: Tables, k: Key) {
    k in t.events && ReceiptAt(t, k).Some?
  }

  /** Why one source cannot be used, if it cannot. */
  function SourceError(t: Tables, scope: Scope, id: string): (e: Option<Error>)
    ensures e.None? <==> Usable(t, Key(scope, id))
  {
    if Key(scope, id) in t.events then
      if ReceiptAt(t, Key(scope, id)).Some? then None else Some(Corruption)
    else if !TombsReadable(t, scope, id) then Some(Corruption)
    else if TombKey(scope, RawEvent, id) in t.tombstones then Some(EntityDeleted(id))
    else if exists k :: k in t.events && k.id == id then Some(ScopeMismatch(id))
    else Some(EntityNotFound(id))
  }

  /** The error of the first unusable source, in the draft's own order. */
  function SourcesError(t: Tables, scope: Scope, ids: seq<string>): (e: Option<Error>)
    ensures e.None? <==> forall x :: x in ids ==> Usable(t, Key(scope, x))
  {
    if ids == [] then None
    else if SourceError(t, scope, ids[0]).Some? then SourceError(t, scope, ids[0])
    else SourcesError(t, scope, ids[1..])
  }

  function Snapshot(row: EventRow): EdgeRow {
    EdgeRow(row.trust, row.clearFor, row.recallFor)
  }

  /** The lineage rows a draft will get: one per source, in sorted order, with the receipts' current values. */
  function DraftRows(t: Tables, scope: Scope, ids: set<string>): (r: seq<SourceRow>)
    requires forall x :: x in ids ==> Key(scope, x) in t.events
    ensures |r| == |ids|
  {
    var s := Sorted(ids);
    seq(|s|, i requires 0 <= i < |s| =>
      assert s[i] in Elements(s);
      SourceRow(s[i], true, Snapshot(t.events[Key(scope, s[i])])))
  }

  function NewEdges(t: Tables, k: Key, ids: set<string>): map<EdgeKey, EdgeRow>
    requires forall x :: x in ids ==> Key(k.scope, x) in t.events
  {
    map e | e in (set x | x in ids :: EdgeKey(k.scope, k.id, x)) :: Snapshot(t.events[Key(k.scope, e.event)])
  }

  function NewMemoryRow(d: MemoryDraft, rows: seq<SourceRow>): MemoryRow
    requires rows != []
  {
    MemoryRow(
      d.content, DraftPrint(d), d.kind, d.trust, d.createdAt, d.createdAt + MinOf(ClearPeriods(rows)),
      d.createdAt + MinOf(RecallPeriods(rows)), Active, Canonical(d.metadata))
  }

  function Materialized'(t: Tables, d: MemoryDraft): Tables
    requires d.sources != []
    requires forall x :: x in Elements(d.sources) ==> Key(d.scope, x) in t.events
  {
    var k := MemoryKey(d);
    var ids := Elements(d.sources);
    assert d.sources[0] in ids;
    t.(memories := t.memories[k := NewMemoryRow(d, DraftRows(t, d.scope, ids))],
       edges := t.edges + NewEdges(t, k, ids),
       audit := t.audit
         + multiset{AuditRow(d.scope, Materialized, Memory, d.memoryId, d.createdAt, MemoryMaterialized)})
  }

  function MaterializeStep(t: Tables, d: MemoryDraft): Outcome
    requires d.sources != []
  {
    var k := MemoryKey(d);
    var ids := Elements(d.sources);
    if !TombsReadable(t, d.scope, d.memoryId) then Refused(Corruption, t)
    else if TombKey(d.scope, Memory, d.memoryId) in t.tombstones then Refused(EntityDeleted(d.memoryId), t)
    else if !PrintTombsReadable(t, d.scope, DraftPrint(d)) then Refused(Corruption, t)
    else if PrintTombstoned(t, d.scope, DraftPrint(d)) then Refused(EntityDeleted(d.memoryId), t)
    else if k in t.memories then
      match MemoryAt(t, k)
      case None => Refused(Corruption, t)
      case Some(r) => if SameMemory(r, d) then Outcome(Recorded(r), t) else Refused(IdempotencyConflict(d.memoryId), t)
    else if SourcesError(t, d.scope, d.sources).Some? then Refused(SourcesError(t, d.scope, d.sources).value, t)
    else
      assert d.sources[0] in ids;
      var rows := DraftRows(t, d.scope, ids);
      var row := NewMemoryRow(d, rows);
      if d.trust > MinOf(Trusts(rows)) then Refused(TrustEscalation(d.memoryId), t)
      else if row.clearUntil > MAX_TIME || row.recallUntil > MAX_TIME then Refused(ValidationError(CreatedAt), t)
      else if exists e :: e in t.edges && e.scope == d.scope && e.memory == d.memoryId then Refused(Corruption, t)
      else
        match ReadMemory(k, row, rows)
        case None => Refused(Corruption, t)
        case Some(r) => Outcome(Recorded(r), Materialized'(t, d))
  }

  // ----- expire

  /** The events whose body is present and due. */
  function Due(t: Tables, asOf: int): set<Key> {
    set k | k in t.events && k in t.bodies && t.events[k].rawExpiresAt <= asOf
  }

  function ExpireRow(k: Key, asOf: int): AuditRow {
    AuditRow(k.scope, Expired, RawEvent, k.id, asOf, RawContentExpired)
  }

  function ExpireRows(due: set<Key>, asOf: int): set<AuditRow> {
    set k | k in due :: ExpireRow(k, asOf)
  }

  /** The tables once the bodies of `due` have been removed. */
  function Expired'(t: Tables, due: set<Key>, asOf: int): Tables {
    t.(events := map k | k in t.events :: if k in due then t.events[k].(status := EventExpired) else t.events[k],
       bodies := t.bodies - due,
       audit := t.audit + multiset(ExpireRows(due, asOf)))
  }

  function ExpireStep(t: Tables, asOf: int): Outcome {
    if exists k :: k in t.events && ReceiptAt(t, k).None? then Refused(Corruption, t)
    else Outcome(Removed(|Due(t, asOf)|), Expired'(t, Due(t, asOf), asOf))
  }

  // ----- govern

  predicate LineageRowOk(t: Tables, scope: Scope, r: SourceRow) {
    var k := Key(scope, r.event);
    && k in t.events && ReceiptAt(t, k).Some?
    && r.edge == Snapshot(t.events[k])
  }

  /** `_lineage_fingerprint`: recomputed from the edges, each checked against its receipt. */
  function LineagePrint(t: Tables, k: Key, kind: string): Option<Digest> {
    var rows := SourceRows(t, k);
    if rows != [] && forall i :: 0 <= i < |rows| ==> LineageRowOk(t, k.scope, rows[i])
    then Some(FingerprintOf(k.scope, kind, SourceIds(t, k))) else None
  }

  predicate LineageAgrees(t: Tables, k: Key)
    requires k in t.memories
  {
    LineagePrint(t, k, t.memories[k].kind) == Some(t.memories[k].fingerprint)
  }

  /** `_raise_missing_entity`. */
  function MissingError(t: Tables, c: Command): Error {
    if !TombsReadableAnywhere(t, c.entityId) then Corruption
    else if TombKey(c.scope, c.entityType, c.entityId) in t.tombstones then EntityDeleted(c.entityId)
    else if LiveSomewhere(t, c.entityType, c.entityId)
      || (exists k :: k in t.tombstones && k.id == c.entityId && k.entity == c.entityType && k.scope != c.scope)
    then ScopeMismatch(c.entityId)
    else EntityNotFound(c.entityId)
  }

  predicate LiveSomewhere(t: Tables, entity: EntityType, id: string) {
    if entity.RawEvent? then exists k :: k in t.events && k.id == id else exists k :: k in t.memories && k.id == id
  }

  function GovernRow(c: Command): AuditRow {
    AuditRow(c.scope, Governed(c.action), c.entityType, c.entityId, c.occurredAt, GovernanceRequested)
  }

  function Audited(t: Tables, c: Command): Tables {
    t.(audit := t.audit + multiset{GovernRow(c)})
  }

  function WithStatus(t: Tables, c: Command, status: MemoryStatus): Tables
    requires Key(c.scope, c.entityId) in t.memories
  {
    var k := Key(c.scope, c.entityId);
    Audited(t.(memories := t.memories[k := t.memories[k].(status := status)]), c)
  }

  function Tomb(t: Tables, c: Command, memory: string): Tombstone
    requires Key(c.scope, memory) in t.memories
  {
    Tombstone(c.occurredAt, GovernanceRequested, Some(t.memories[Key(c.scope, memory)].fingerprint))
  }

  function Keys(scope: Scope, ids: set<string>): set<Key> {
    set x | x in ids :: Key(scope, x)
  }

  /** The tombstones of a set of memories, each with its own fingerprint. */
  function Tombs(t: Tables, c: Command, ids: set<string>): map<TombKey, Tombstone>
    requires forall x :: x in ids ==> Key(c.scope, x) in t.memories
  {
    map k | k in (set x | x in ids :: TombKey(c.scope, Memory, x)) :: Tomb(t, c, k.id)
  }

  /** The tables once the memories `ids` are gone and tombstoned. */
  function WithoutMemories(t: Tables, c: Command, ids: set<string>): Tables
    requires forall x :: x in ids ==> Key(c.scope, x) in t.memories
  {
    t.(memories := t.memories - Keys(c.scope, ids),
       edges := WithoutEdgesOf(t.edges, c.scope, ids),
       tombstones := t.tombstones + Tombs(t, c, ids))
  }

  /** The tables once an event, its body and its dependents are gone and tombstoned. */
  function WithoutEvent(t: Tables, c: Command): Tables
    requires forall x :: x in Dependents(t, Key(c.scope, c.entityId)) ==> Key(c.scope, x) in t.memories
  {
    var k := Key(c.scope, c.entityId);
    var u := WithoutMemories(t, c, Dependents(t, k));
    Audited(u.(events := u.events - {k}, bodies := u.bodies - {k},
               tombstones := u.tombstones[TombKey(c.scope, RawEvent, c.entityId) :=
                                            Tombstone(c.occurredAt, GovernanceRequested, None)]), c)
  }

  function GovernMemoryStep(t: Tables, c: Command): Outcome {
    var k := Key(c.scope, c.entityId);
    if k !in t.memories then Refused(MissingError(t, c), t)
    else if t.memories[k].status.UnknownStatus? || !LineageAgrees(t, k) then Refused(Corruption, t)
    else
      match c.action
      case Seal =>
        if t.memories[k].status.Active? then Outcome(Affected([c.entityId]), WithStatus(t, c, Sealed))
        else Refused(InvalidTransition(c.entityId), t)
      case Restore =>
        if t.memories[k].status.Sealed? then Outcome(Affected([c.entityId]), WithStatus(t, c, Active))
        else Refused(InvalidTransition(c.entityId), t)
      case _ =>
        if TombKey(c.scope, Memory, c.entityId) in t.tombstones then Refused(Corruption, t)
        else Outcome(Affected([c.entityId]), Audited(WithoutMemories(t, c, {c.entityId}), c))
  }

  predicate DependentOk(t: Tables, scope: Scope, memory: string) {
    Key(scope, memory) in t.memories && LineageAgrees(t, Key(scope, memory))
  }

  function DeleteEventStep(t: Tables, c: Command): Outcome {
    var k := Key(c.scope, c.entityId);
    if k !in t.events then Refused(MissingError(t, c), t)
    else if ReceiptAt(t, k).None? then Refused(Corruption, t)
    else if !forall m :: m in Dependents(t, k) ==> DependentOk(t, c.scope, m) then Refused(Corruption, t)
    else if TombKey(c.scope, RawEvent, c.entityId) in t.tombstones
      || (exists m :: m in Dependents(t, k) && TombKey(c.scope, Memory, m) in t.tombstones)
    then Refused(Corruption, t)
    else Outcome(Affected(Sort([c.entityId] + Sorted(Dependents(t, k)), Less)), WithoutEvent(t, c))
  }

  function GovernStep(t: Tables, c: Command): Outcome {
    if c.entityType.RawEvent? then
      if !c.action.Delete? then Refused(ValidationError(ActionField), t) else DeleteEventStep(t, c)
    else GovernMemoryStep(t, c)
  }

  function Step(t: Tables, op: Op): Outcome
    requires OpOk(op)
  {
    match op
    case Ingest(d, now) => IngestStep(t, d, now)
    case Materialize(d) => MaterializeStep(t, d)
    case Expire(asOf) => ExpireStep(t, asOf)
    case Govern(c) => GovernStep(t, c)
  }

  /** A run: the operations one after the other. */
  function Run(t: Tables, ops: seq<Op>): Tables
    requires forall i :: 0 <= i < |ops| ==> OpOk(ops[i])
  {
    if ops == [] then t else Step(Run(t, ops[..|ops| - 1]), ops[|ops| - 1]).state
  }
}
