/** The six tables, the statements that change them under their constraints, and the decoders that re-validate
    every row read back. Columns may hold anything: only the decoders decide what is well formed. */
module Tables {
  import opened Wrappers
  import opened TextOrder
  import opened CanonicalJson
  import opened Metadata
  import opened Fingerprint
  import opened Domain

  datatype Key = Key(scope: Scope, id: string)
  datatype EdgeKey = EdgeKey(scope: Scope, memory: string, event: string)
  datatype TombKey = TombKey(scope: Scope, entity: EntityType, id: string)

  datatype EventStatus = EventActive | EventExpired | UnknownEventStatus

  datatype EventRow = EventRow(
    sourceId: string, sourceType: string, occurredAt: int, trust: int, sourceMetadata: string, contentHash: Digest,
    ingestedAt: int, rawExpiresAt: int, clearFor: int, recallFor: int, metadata: string, status: EventStatus)

  datatype MemoryRow = MemoryRow(
    content: string, fingerprint: Digest, kind: string, trust: int, createdAt: int, clearUntil: int,
    recallUntil: int, status: MemoryStatus, metadata: string)

  datatype EdgeRow = EdgeRow(trust: int, clearFor: int, recallFor: int)

  datatype Reason =
    EventIngested | MemoryMaterialized | RawContentExpired | GovernanceRequested | OtherReason(text: string)

  datatype Tombstone = Tombstone(deletedAt: int, reason: Reason, fingerprint: Option<Digest>)

  datatype AuditAction = Ingested | Materialized | Expired | Governed(action: Action)

  datatype AuditRow = AuditRow(
    scope: Scope, action: AuditAction, entity: EntityType, id: string, occurredAt: int, reason: Reason)

  /** `audit_log` is an unordered table, so it is a multiset; the random identifiers are given when rows are read. */
  datatype Tables = Tables(
    events: map<Key, EventRow>,
    bodies: map<Key, string>,
    memories: map<Key, MemoryRow>,
    edges: map<EdgeKey, EdgeRow>,
    tombstones: map<TombKey, Tombstone>,
    audit: multiset<AuditRow>)

  const EMPTY := Tables(map[], map[], map[], map[], map[], multiset{})

  // ----- statements

  datatype Statement =
    | InsertAudit(row: AuditRow)
    | InsertEvent(key: Key, event: EventRow)
    | InsertBody(key: Key, content: string)
    | InsertMemory(key: Key, memory: MemoryRow)
    | InsertEdge(edgeKey: EdgeKey, edge: EdgeRow)
    | InsertTombstone(tombKey: TombKey, tombstone: Tombstone)
    | SetEventStatus(key: Key, eventStatus: EventStatus)
    | SetMemoryStatus(key: Key, memoryStatus: MemoryStatus)
    | DeleteBody(key: Key)
    | DeleteEvent(key: Key)
    | DeleteEdges(key: Key)
    | DeleteMemory(key: Key)

  datatype Executed = Done(state: Tables) | Violated | TooLarge

  predicate JsonValid(text: string) {
    var p := ParseValue(text);
    p.Ok? && p.rest == []
  }

  function WithoutEdgesOf(edges: map<EdgeKey, EdgeRow>, scope: Scope, memories: set<string>): map<EdgeKey, EdgeRow> {
    map e | e in edges && !(e.scope == scope && e.memory in memories) :: edges[e]
  }

  /** One SQL statement: primary keys, foreign keys, CHECK constraints and the cascades are enforced immediately. */
  function Exec(s: Statement, t: Tables): Executed {
    match s
    case InsertAudit(row) => Done(t.(audit := t.audit + multiset{row}))
    case InsertEvent(k, row) =>
      if !(row.clearFor <= INT64_MAX && row.recallFor <= INT64_MAX) then TooLarge
      else if k in t.events || !IsTrust(row.trust) || row.clearFor <= 0 || row.recallFor <= 0
        || !JsonValid(row.sourceMetadata) || !JsonValid(row.metadata) then Violated
      else Done(t.(events := t.events[k := row]))
    case InsertBody(k, content) =>
      if k in t.bodies || k !in t.events then Violated else Done(t.(bodies := t.bodies[k := content]))
    case InsertMemory(k, row) =>
      if k in t.memories || !IsTrust(row.trust) || row.status.UnknownStatus? || !JsonValid(row.metadata) then Violated
      else Done(t.(memories := t.memories[k := row]))
    case InsertEdge(e, row) =>
      if e in t.edges || Key(e.scope, e.memory) !in t.memories || Key(e.scope, e.event) !in t.events
        || !IsTrust(row.trust) || row.clearFor <= 0 || row.recallFor < row.clearFor then Violated
      else Done(t.(edges := t.edges[e := row]))
    case InsertTombstone(k, row) =>
      if k in t.tombstones then Violated else Done(t.(tombstones := t.tombstones[k := row]))
    case SetEventStatus(k, status) =>
      Done(if k in t.events then t.(events := t.events[k := t.events[k].(status := status)]) else t)
    case SetMemoryStatus(k, status) =>
      if k !in t.memories then Done(t)
      else if status.UnknownStatus? then Violated
      else Done(t.(memories := t.memories[k := t.memories[k].(status := status)]))
    case DeleteBody(k) => Done(t.(bodies := t.bodies - {k}))
    case DeleteEvent(k) =>
      if exists e :: e in t.edges && e.scope == k.scope && e.event == k.id then Violated
      else Done(t.(events := t.events - {k}, bodies := t.bodies - {k}))
    case DeleteEdges(k) => Done(t.(edges := WithoutEdgesOf(t.edges, k.scope, {k.id})))
    case DeleteMemory(k) =>
      Done(t.(memories := t.memories - {k}, edges := WithoutEdgesOf(t.edges, k.scope, {k.id})))
  }

  /** A list of statements, stopping at the first that fails. */
  function ExecAll(ss: seq<Statement>, t: Tables): Executed {
    if ss == [] then Done(t) else
      var before := ExecAll(ss[..|ss| - 1], t);
      if before.Done? then Exec(ss[|ss| - 1], before.state) else before
  }

  // ----- queries and decoders

  /** `_receipt`. */
  function ReadReceipt(k: Key, row: EventRow, available: bool): Option<Receipt> {
    match Decode(row.sourceMetadata)
    case None => None
    case Some(sourceMetadata) =>
      match Decode(row.metadata)
      case None => None
      case Some(metadata) =>
        if && IsTime(row.occurredAt) && IsTime(row.ingestedAt) && IsTime(row.rawExpiresAt)
           && row.status == (if available then EventActive else EventExpired)
           && IsTrust(row.trust) && 0 < row.clearFor <= row.recallFor
        then Some(Receipt(
                    k.id, k.scope, Source(row.sourceId, row.sourceType, row.occurredAt, row.trust, sourceMetadata),
                    row.contentHash, row.ingestedAt, row.rawExpiresAt, row.clearFor, row.recallFor, available,
                    metadata))
        else None
  }

  function ReceiptAt(t: Tables, k: Key): Option<Receipt>
    requires k in t.events
  {
    ReadReceipt(k, t.events[k], k in t.bodies)
  }

  /** The events a memory has edges to. */
  function SourceIds(t: Tables, k: Key): (r: set<string>)
    ensures forall x :: x in r <==> EdgeKey(k.scope, k.id, x) in t.edges
  {
    var r := set e | e in t.edges && e.scope == k.scope && e.memory == k.id :: e.event;
    assert forall x :: EdgeKey(k.scope, k.id, x) in t.edges ==> EdgeKey(k.scope, k.id, x).event in r;
    r
  }

  /** The memories with an edge to an event. */
  function Dependents(t: Tables, k: Key): (r: set<string>)
    ensures forall m :: m in r <==> EdgeKey(k.scope, m, k.id) in t.edges
  {
    var r := set e | e in t.edges && e.scope == k.scope && e.event == k.id :: e.memory;
    assert forall m :: EdgeKey(k.scope, m, k.id) in t.edges ==> EdgeKey(k.scope, m, k.id).memory in r;
    r
  }

  /** One row of the lineage join: an edge, and whether its receipt exists. */
  datatype SourceRow = SourceRow(event: string, present: bool, edge: EdgeRow)

  /** The lineage rows of a memory, `ORDER BY event_id`. */
  function SourceRows(t: Tables, k: Key): (r: seq<SourceRow>)
    ensures |r| == |SourceIds(t, k)|
  {
    var ids := Sorted(SourceIds(t, k));
    seq(|ids|, i requires 0 <= i < |ids| =>
      assert ids[i] in Elements(ids);
      SourceRow(ids[i], Key(k.scope, ids[i]) in t.events, t.edges[EdgeKey(k.scope, k.id, ids[i])]))
  }

  function EventIds(rows: seq<SourceRow>): seq<string> {
    seq(|rows|, i requires 0 <= i < |rows| => rows[i].event)
  }

  function Trusts(rows: seq<SourceRow>): seq<int> {
    seq(|rows|, i requires 0 <= i < |rows| => rows[i].edge.trust)
  }

  function ClearPeriods(rows: seq<SourceRow>): seq<int> {
    seq(|rows|, i requires 0 <= i < |rows| => rows[i].edge.clearFor)
  }

  function RecallPeriods(rows: seq<SourceRow>): seq<int> {
    seq(|rows|, i requires 0 <= i < |rows| => rows[i].edge.recallFor)
  }

  function MinOf(s: seq<int>): (m: int)
    requires s != []
    ensures m in s
    ensures forall i :: 0 <= i < |s| ==> m <= s[i]
  {
    if |s| == 1 then s[0] else
      var m := MinOf(s[..|s| - 1]);
      if s[|s| - 1] < m then s[|s| - 1] else m
  }

  predicate SourceRowOk(r: SourceRow) {
    r.present && IsTrust(r.edge.trust) && 0 < r.edge.clearFor <= r.edge.recallFor
  }

  /** `_memory_record`: everything a stored memory must satisfy against its own lineage snapshot. */
  function ReadMemory(k: Key, row: MemoryRow, rows: seq<SourceRow>): Option<MemoryRecord> {
    match Decode(row.metadata)
    case None => None
    case Some(metadata) =>
      if && rows != [] && (forall i :: 0 <= i < |rows| ==> SourceRowOk(rows[i]))
         && row.fingerprint == FingerprintOf(k.scope, row.kind, Elements(EventIds(rows)))
         && IsTrust(row.trust) && row.trust <= MinOf(Trusts(rows))
         && IsTime(row.createdAt) && IsTime(row.clearUntil) && IsTime(row.recallUntil)
         && row.clearUntil == row.createdAt + MinOf(ClearPeriods(rows))
         && row.recallUntil == row.createdAt + MinOf(RecallPeriods(rows))
         && !row.status.UnknownStatus?
      then Some(MemoryRecord(
                  k.id, k.scope, row.content, EventIds(rows), row.fingerprint, row.kind, row.trust, row.createdAt,
                  row.clearUntil, row.recallUntil, row.status, metadata))
      else None
  }

  function MemoryAt(t: Tables, k: Key): Option<MemoryRecord>
    requires k in t.memories
  {
    ReadMemory(k, t.memories[k], SourceRows(t, k))
  }

  /** `_tombstone_identity`. */
  predicate TombstoneOk(k: TombKey, row: Tombstone) {
    IsTime(row.deletedAt) && row.reason.GovernanceRequested? && (k.entity.RawEvent? <==> row.fingerprint.None?)
  }

  /** `_audit_record`. */
  predicate AuditRowOk(r: AuditRow) {
    && IsTime(r.occurredAt)
    && match r.action
       case Ingested => r.entity.RawEvent? && r.reason.EventIngested?
       case Materialized => r.entity.Memory? && r.reason.MemoryMaterialized?
       case Expired => r.entity.RawEvent? && r.reason.RawContentExpired?
       case Governed(a) => (r.entity.Memory? || a.Delete?) && r.reason.GovernanceRequested?
  }
}
