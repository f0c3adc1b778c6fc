/** Tombstones and audit rows contain no bodies and no caller's reasons: rewriting every event and memory body that ever
    enters, by any rewriting that keeps different bodies different, and every reason, by any rewriting at all, leaves
    tombstones, audit rows, lineage and every decision the same. */
module BodyFree {
  import opened Wrappers
  import opened TextOrder
  import opened StableSort
  import opened Metadata
  import opened Fingerprint
  import opened Domain
  import opened Tables
  import opened Policy
  import opened Invariant
  import opened Runs

  /** Different bodies stay different. */
  ghost predicate Injective(f: string -> string) {
    forall a, b :: f(a) == f(b) ==> a == b
  }

  function EventAs(f: string -> string, d: EventDraft): EventDraft {
    d.(content := f(d.content))
  }

  function MemoryAs(f: string -> string, d: MemoryDraft): MemoryDraft {
    d.(content := f(d.content))
  }

  /** The command with its reason rewritten. */
  function CommandAs(g: string -> string, c: Command): Command {
    c.(reason := g(c.reason))
  }

  /** An operation with its body rewritten by `f` and its reason by `g`. */
  function OpAs(f: string -> string, g: string -> string, op: Op): Op {
    match op
    case Ingest(d, now) => Ingest(EventAs(f, d), now)
    case Materialize(d) => Materialize(MemoryAs(f, d))
    case Govern(c) => Govern(CommandAs(g, c))
    case Expire(_) => op
  }

  function HashAs(f: string -> string, h: Digest): Digest {
    Sha256(f(h.text))
  }

  function EventRowAs(f: string -> string, row: EventRow): EventRow {
    row.(contentHash := HashAs(f, row.contentHash))
  }

  function MemoryRowAs(f: string -> string, row: MemoryRow): MemoryRow {
    row.(content := f(row.content))
  }

  /** The tables with every body rewritten. */
  function TablesAs(f: string -> string, t: Tables): Tables {
    t.(events := map k | k in t.events :: EventRowAs(f, t.events[k]),
       bodies := map k | k in t.bodies :: f(t.bodies[k]),
       memories := map k | k in t.memories :: MemoryRowAs(f, t.memories[k]))
  }

  function ReceiptAs(f: string -> string, r: Receipt): Receipt {
    r.(contentHash := HashAs(f, r.contentHash))
  }

  function RecordAs(f: string -> string, r: MemoryRecord): MemoryRecord {
    r.(content := f(r.content))
  }

  function ReplyAs(f: string -> string, r: Reply): Reply {
    match r
    case Received(receipt) => Received(ReceiptAs(f, receipt))
    case Recorded(record) => Recorded(RecordAs(f, record))
    case _ => r
  }

  function OutcomeAs(f: string -> string, o: Outcome): Outcome {
    Outcome(ReplyAs(f, o.reply), TablesAs(f, o.state))
  }

  // ----- reading

  function Mapped<A, B>(g: A -> B, o: Option<A>): Option<B> {
    match o
    case None => None
    case Some(x) => Some(g(x))
  }

  lemma ReceiptRewritten(f: string -> string, t: Tables, k: Key)
    requires k in t.events
    ensures ReceiptAt(TablesAs(f, t), k) == Mapped((r: Receipt) => ReceiptAs(f, r), ReceiptAt(t, k))
  {
    hide Decode;
  }

  lemma RowsKept(f: string -> string, t: Tables, k: Key)
    ensures SourceRows(TablesAs(f, t), k) == SourceRows(t, k)
  {
    SourceRowsFrame(t, TablesAs(f, t), k);
  }

  lemma RecordRewritten(f: string -> string, t: Tables, k: Key)
    requires k in t.memories
    ensures MemoryAt(TablesAs(f, t), k) == Mapped((r: MemoryRecord) => RecordAs(f, r), MemoryAt(t, k))
  {
    hide Decode, SourceRows, FingerprintOf, MinOf;
    RowsKept(f, t, k);
  }

  // ----- ingest

  lemma SameEventKept(f: string -> string, r: Receipt, d: EventDraft)
    requires Injective(f)
    ensures SameEvent(ReceiptAs(f, r), EventAs(f, d)) == SameEvent(r, d)
  {
    hide PyEqual;
    assert HashAs(f, r.contentHash) == ContentHash(f(d.content)) <==> r.contentHash == ContentHash(d.content);
  }

  lemma IngestedRewritten(f: string -> string, t: Tables, d: EventDraft, now: int)
    ensures Ingested'(TablesAs(f, t), EventAs(f, d), now) == TablesAs(f, Ingested'(t, d, now))
  {
    hide Canonical;
    var u, v := Ingested'(TablesAs(f, t), EventAs(f, d), now), TablesAs(f, Ingested'(t, d, now));
    assert NewEventRow(EventAs(f, d), now) == EventRowAs(f, NewEventRow(d, now));
    assert u.events == v.events && u.bodies == v.bodies && u.memories == v.memories;
  }

  lemma FreshRewritten(f: string -> string, d: EventDraft, now: int)
    ensures ReadReceipt(EventKey(d), NewEventRow(EventAs(f, d), now), true)
      == Mapped((r: Receipt) => ReceiptAs(f, r), ReadReceipt(EventKey(d), NewEventRow(d, now), true))
  {
    hide Decode, Canonical;
  }

  lemma IngestRewritten(f: string -> string, t: Tables, d: EventDraft, now: int)
    requires Injective(f)
    ensures IngestStep(TablesAs(f, t), EventAs(f, d), now) == OutcomeAs(f, IngestStep(t, d, now))
  {
    hide Injective, ReadReceipt, ReceiptAt, NewEventRow, TombsReadable, SameEvent, Ingested';
    var u := TablesAs(f, t);
    assert TombsReadable(u, d.scope, d.eventId) == TombsReadable(t, d.scope, d.eventId)
      by { LookupsKept(f, t, d.scope, d.eventId); }
    IngestedRewritten(f, t, d, now);
    FreshRewritten(f, d, now);
    if EventKey(d) in t.events {
      ReceiptRewritten(f, t, EventKey(d));
      if ReceiptAt(t, EventKey(d)).Some? {
        SameEventKept(f, ReceiptAt(t, EventKey(d)).value, d);
      }
    }
  }

  lemma LookupsKept(f: string -> string, t: Tables, scope: Scope, id: string)
    ensures TombsReadable(TablesAs(f, t), scope, id) == TombsReadable(t, scope, id)
    ensures TombsReadableAnywhere(TablesAs(f, t), id) == TombsReadableAnywhere(t, id)
    ensures forall p :: PrintTombsReadable(TablesAs(f, t), scope, p) == PrintTombsReadable(t, scope, p)
    ensures forall p :: PrintTombstoned(TablesAs(f, t), scope, p) == PrintTombstoned(t, scope, p)
  {
    hide TombstoneOk;
  }

  // ----- materialize

  lemma SameMemoryKept(f: string -> string, r: MemoryRecord, d: MemoryDraft)
    requires Injective(f)
    ensures SameMemory(RecordAs(f, r), MemoryAs(f, d)) == SameMemory(r, d)
  {
    hide PyEqual, FingerprintOf;
  }

  lemma SourceErrorKept(f: string -> string, t: Tables, scope: Scope, id: string)
    ensures SourceError(TablesAs(f, t), scope, id) == SourceError(t, scope, id)
  {
    hide ReceiptAt, TombsReadable;
    LookupsKept(f, t, scope, id);
    if Key(scope, id) in t.events {
      ReceiptRewritten(f, t, Key(scope, id));
    }
  }

  lemma {:induction false} SourcesErrorKept(f: string -> string, t: Tables, scope: Scope, ids: seq<string>)
    ensures SourcesError(TablesAs(f, t), scope, ids) == SourcesError(t, scope, ids)
  {
    hide SourceError, Usable, TablesAs;
    if ids != [] {
      SourceErrorKept(f, t, scope, ids[0]);
      SourcesErrorKept(f, t, scope, ids[1..]);
    }
  }

  lemma DraftRowsKept(f: string -> string, t: Tables, scope: Scope, ids: set<string>)
    requires forall x :: x in ids ==> Key(scope, x) in t.events
    ensures DraftRows(TablesAs(f, t), scope, ids) == DraftRows(t, scope, ids)
  {
    var s := Sorted(ids);
    forall i | 0 <= i < |s|
      ensures DraftRows(TablesAs(f, t), scope, ids)[i] == DraftRows(t, scope, ids)[i]
    {
      assert s[i] in Elements(s);
    }
  }

  lemma NewEdgesKept(f: string -> string, t: Tables, k: Key, ids: set<string>)
    requires forall x :: x in ids ==> Key(k.scope, x) in t.events
    ensures NewEdges(TablesAs(f, t), k, ids) == NewEdges(t, k, ids)
  {
  }

  lemma MaterializedRewritten(f: string -> string, t: Tables, d: MemoryDraft)
    requires MemoryDraftOk(d) && forall x :: x in Elements(d.sources) ==> Key(d.scope, x) in t.events
    ensures Materialized'(TablesAs(f, t), MemoryAs(f, d)) == TablesAs(f, Materialized'(t, d))
  {
    hide Canonical, DraftRows, NewEdges, MinOf, FingerprintOf, Elements;
    var ids := Elements(d.sources);
    DraftHasRows(d);
    DraftRowsKept(f, t, d.scope, ids);
    NewEdgesKept(f, t, MemoryKey(d), ids);
    NewRowRewritten(f, d, DraftRows(t, d.scope, ids));
    var u, v := Materialized'(TablesAs(f, t), MemoryAs(f, d)), TablesAs(f, Materialized'(t, d));
    assert u.memories == v.memories;
    assert u.events == v.events && u.bodies == v.bodies;
  }

  lemma NewRowRewritten(f: string -> string, d: MemoryDraft, rows: seq<SourceRow>)
    requires rows != []
    ensures NewMemoryRow(MemoryAs(f, d), rows) == MemoryRowAs(f, NewMemoryRow(d, rows))
  {
    hide Canonical, MinOf, FingerprintOf;
  }

  lemma StoredRewritten(f: string -> string, k: Key, row: MemoryRow, rows: seq<SourceRow>)
    ensures ReadMemory(k, MemoryRowAs(f, row), rows)
      == Mapped((r: MemoryRecord) => RecordAs(f, r), ReadMemory(k, row, rows))
  {
    hide Decode, FingerprintOf, MinOf;
  }

  lemma MaterializeRewritten(f: string -> string, t: Tables, d: MemoryDraft)
    requires Injective(f) && MemoryDraftOk(d)
    ensures MaterializeStep(TablesAs(f, t), MemoryAs(f, d)) == OutcomeAs(f, MaterializeStep(t, d))
  {
    hide Injective, MaterializeStep, TombsReadable, PrintTombsReadable, PrintTombstoned, SourcesError, MemoryAt,
      SameMemory, NewMemoryRow, DraftRows, ReadMemory, MinOf, Materialized', Orphaned, FingerprintOf;
    var u, e := TablesAs(f, t), MemoryAs(f, d);
    MaterializeExits(t, d);
    MaterializeExits(u, e);
    LookupsKept(f, t, d.scope, d.memoryId);
    SourcesErrorKept(f, t, d.scope, d.sources);
    if Clear(t, d) {
      if MemoryKey(d) in t.memories {
        RecordRewritten(f, t, MemoryKey(d));
        if MemoryAt(t, MemoryKey(d)).Some? {
          SameMemoryKept(f, MemoryAt(t, MemoryKey(d)).value, d);
        }
      } else if SourcesError(t, d.scope, d.sources).None? {
        MaterializeNewRewritten(f, t, d);
      }
    }
  }

  lemma MaterializeNewRewritten(f: string -> string, t: Tables, d: MemoryDraft)
    requires MemoryDraftOk(d) && Clear(t, d) && Clear(TablesAs(f, t), MemoryAs(f, d))
    requires MemoryKey(d) !in t.memories && SourcesError(t, d.scope, d.sources).None?
    requires SourcesError(TablesAs(f, t), d.scope, d.sources).None?
    ensures MaterializeStep(TablesAs(f, t), MemoryAs(f, d)) == OutcomeAs(f, MaterializeStep(t, d))
  {
    hide MaterializeStep, Clear, SourcesError, NewMemoryRow, DraftRows, ReadMemory, MinOf, Materialized', Usable,
      FingerprintOf;
    var u, e, ids := TablesAs(f, t), MemoryAs(f, d), Elements(d.sources);
    SourcesPresent(t, d);
    MaterializeStores(t, d);
    MaterializeStores(u, e);
    DraftRowsKept(f, t, d.scope, ids);
    var rows := DraftRows(t, d.scope, ids);
    NewRowRewritten(f, d, rows);
    StoredRewritten(f, MemoryKey(d), NewMemoryRow(d, rows), rows);
    MaterializedRewritten(f, t, d);
    assert Orphaned(u, e) == Orphaned(t, d);
  }

  // ----- expire

  lemma ExpireRewritten(f: string -> string, t: Tables, asOf: int)
    ensures ExpireStep(TablesAs(f, t), asOf) == OutcomeAs(f, ExpireStep(t, asOf))
  {
    hide ReceiptAt, Expired';
    var u := TablesAs(f, t);
    forall k | k in t.events
      ensures ReceiptAt(u, k).None? <==> ReceiptAt(t, k).None?
    {
      ReceiptRewritten(f, t, k);
    }
    assert Due(u, asOf) == Due(t, asOf);
    ExpiredRewritten(f, t, Due(t, asOf), asOf);
  }

  lemma ExpiredRewritten(f: string -> string, t: Tables, due: set<Key>, asOf: int)
    ensures Expired'(TablesAs(f, t), due, asOf) == TablesAs(f, Expired'(t, due, asOf))
  {
    hide ExpireRows;
    var u, v := Expired'(TablesAs(f, t), due, asOf), TablesAs(f, Expired'(t, due, asOf));
    assert u.events == v.events && u.bodies == v.bodies && u.memories == v.memories;
  }

  // ----- govern

  lemma LineageKept(f: string -> string, t: Tables, k: Key, kind: string)
    ensures LineagePrint(TablesAs(f, t), k, kind) == LineagePrint(t, k, kind)
  {
    hide SourceRows, FingerprintOf, LineageRowOk;
    var rows := SourceRows(t, k);
    RowsKept(f, t, k);
    assert SourceIds(TablesAs(f, t), k) == SourceIds(t, k);
    forall r
      ensures LineageRowOk(TablesAs(f, t), k.scope, r) == LineageRowOk(t, k.scope, r)
    {
      LineageRowKept(f, t, k.scope, r);
    }
  }

  lemma LineageRowKept(f: string -> string, t: Tables, scope: Scope, r: SourceRow)
    ensures LineageRowOk(TablesAs(f, t), scope, r) == LineageRowOk(t, scope, r)
  {
    hide ReceiptAt;
    if Key(scope, r.event) in t.events {
      ReceiptRewritten(f, t, Key(scope, r.event));
    }
  }

  lemma AgreementKept(f: string -> string, t: Tables, k: Key)
    requires k in t.memories
    ensures LineageAgrees(TablesAs(f, t), k) == LineageAgrees(t, k)
  {
    hide LineagePrint;
    LineageKept(f, t, k, t.memories[k].kind);
  }

  lemma MissingKept(f: string -> string, t: Tables, c: Command)
    ensures MissingError(TablesAs(f, t), c) == MissingError(t, c)
  {
    hide TombsReadableAnywhere;
    LookupsKept(f, t, c.scope, c.entityId);
    assert forall k :: k in TablesAs(f, t).events <==> k in t.events;
    assert forall k :: k in TablesAs(f, t).memories <==> k in t.memories;
  }

  lemma StatusRewritten(f: string -> string, t: Tables, c: Command, status: MemoryStatus)
    requires Key(c.scope, c.entityId) in t.memories
    ensures WithStatus(TablesAs(f, t), c, status) == TablesAs(f, WithStatus(t, c, status))
  {
    var u, v := WithStatus(TablesAs(f, t), c, status), TablesAs(f, WithStatus(t, c, status));
    assert u.events == v.events && u.bodies == v.bodies && u.memories == v.memories;
  }

  lemma RemovalRewritten(f: string -> string, t: Tables, c: Command, ids: set<string>)
    requires forall x :: x in ids ==> Key(c.scope, x) in t.memories
    ensures WithoutMemories(TablesAs(f, t), c, ids) == TablesAs(f, WithoutMemories(t, c, ids))
  {
    hide Keys, WithoutEdgesOf, Tombs;
    TombsKept(f, t, c, ids);
    var u, v := WithoutMemories(TablesAs(f, t), c, ids), TablesAs(f, WithoutMemories(t, c, ids));
    assert u.events == v.events && u.bodies == v.bodies && u.memories == v.memories;
  }

  lemma TombsKept(f: string -> string, t: Tables, c: Command, ids: set<string>)
    requires forall x :: x in ids ==> Key(c.scope, x) in t.memories
    ensures Tombs(TablesAs(f, t), c, ids) == Tombs(t, c, ids)
  {
  }

  lemma AuditedRewritten(f: string -> string, t: Tables, c: Command)
    ensures Audited(TablesAs(f, t), c) == TablesAs(f, Audited(t, c))
  {
  }

  lemma UneventedRewritten(f: string -> string, t: Tables, c: Command)
    ensures Unevented(TablesAs(f, t), c) == TablesAs(f, Unevented(t, c))
  {
    var u, v := Unevented(TablesAs(f, t), c), TablesAs(f, Unevented(t, c));
    assert u.events == v.events && u.bodies == v.bodies && u.memories == v.memories;
  }

  lemma StatusKept(f: string -> string, t: Tables, k: Key)
    ensures var u := TablesAs(f, t);
            && u.tombstones == t.tombstones && (k in u.memories <==> k in t.memories)
            && (k in t.memories ==> u.memories[k].status == t.memories[k].status)
  {
  }

  lemma GovernMemoryRewritten(f: string -> string, t: Tables, c: Command)
    ensures GovernMemoryStep(TablesAs(f, t), c) == OutcomeAs(f, GovernMemoryStep(t, c))
  {
    hide LineageAgrees, MissingError, WithStatus, WithoutMemories, Audited, TablesAs;
    var k := Key(c.scope, c.entityId);
    MissingKept(f, t, c);
    StatusKept(f, t, k);
    if k in t.memories {
      AgreementKept(f, t, k);
      StatusRewritten(f, t, c, Sealed);
      StatusRewritten(f, t, c, Active);
      RemovalRewritten(f, t, c, {c.entityId});
      AuditedRewritten(f, WithoutMemories(t, c, {c.entityId}), c);
    }
  }

  lemma DeleteEventRewritten(f: string -> string, t: Tables, c: Command)
    ensures DeleteEventStep(TablesAs(f, t), c) == OutcomeAs(f, DeleteEventStep(t, c))
  {
    hide LineageAgrees, MissingError, WithoutEvent, Audited, Dependents, DependentOk, ReceiptAt, Sort;
    var k, u := Key(c.scope, c.entityId), TablesAs(f, t);
    MissingKept(f, t, c);
    assert Dependents(u, k) == Dependents(t, k);
    if k in t.events {
      ReceiptRewritten(f, t, k);
      forall m
        ensures DependentOk(u, c.scope, m) == DependentOk(t, c.scope, m)
      {
        DependentKept(f, t, c.scope, m);
      }
      if forall m :: m in Dependents(t, k) ==> DependentOk(t, c.scope, m) {
        DependentsThere(t, c);
        DeletionRewritten(f, t, c);
      }
    }
  }

  lemma DependentKept(f: string -> string, t: Tables, scope: Scope, m: string)
    ensures DependentOk(TablesAs(f, t), scope, m) == DependentOk(t, scope, m)
  {
    hide LineageAgrees;
    if Key(scope, m) in t.memories {
      AgreementKept(f, t, Key(scope, m));
    }
  }

  lemma DependentsThere(t: Tables, c: Command)
    requires forall m :: m in Dependents(t, Key(c.scope, c.entityId)) ==> DependentOk(t, c.scope, m)
    ensures forall m :: m in Dependents(t, Key(c.scope, c.entityId)) ==> Key(c.scope, m) in t.memories
  {
    hide LineageAgrees;
  }

  lemma DeletionRewritten(f: string -> string, t: Tables, c: Command)
    requires forall m :: m in Dependents(t, Key(c.scope, c.entityId)) ==> Key(c.scope, m) in t.memories
    ensures Dependents(TablesAs(f, t), Key(c.scope, c.entityId)) == Dependents(t, Key(c.scope, c.entityId))
    ensures WithoutEvent(TablesAs(f, t), c) == TablesAs(f, WithoutEvent(t, c))
  {
    hide Audited, WithoutMemories, TablesAs;
    var k, u := Key(c.scope, c.entityId), TablesAs(f, t);
    var ds := Dependents(t, k);
    EdgesKept(f, t);
    assert Dependents(u, k) == ds;
    var v := WithoutMemories(t, c, ds);
    RemovalRewritten(f, t, c, ds);
    UneventedRewritten(f, v, c);
    AuditedRewritten(f, Unevented(v, c), c);
    assert WithoutEvent(t, c) == Audited(Unevented(v, c), c);
    assert WithoutEvent(u, c) == Audited(Unevented(TablesAs(f, v), c), c);
  }

  lemma EdgesKept(f: string -> string, t: Tables)
    ensures TablesAs(f, t).edges == t.edges && forall k :: k in TablesAs(f, t).memories <==> k in t.memories
  {
  }

  // ----- the caller's reason

  /** No policy looks at the reason: not what it answers, not what it stores. */
  lemma ReasonIgnored(g: string -> string, t: Tables, c: Command)
    ensures GovernMemoryStep(t, CommandAs(g, c)) == GovernMemoryStep(t, c)
    ensures DeleteEventStep(t, CommandAs(g, c)) == DeleteEventStep(t, c)
  {
    hide LineageAgrees, MissingError, WithoutMemories, WithoutEvent, DependentOk, ReceiptAt, Sort, Dependents;
    var e, k := CommandAs(g, c), Key(c.scope, c.entityId);
    MissingIgnores(g, t, c);
    if k in t.memories {
      RemovalIgnores(g, t, c, {c.entityId});
    }
    if forall m :: m in Dependents(t, k) ==> DependentOk(t, c.scope, m) {
      DependentsThere(t, c);
      DeletionIgnores(g, t, c);
    }
  }

  lemma MissingIgnores(g: string -> string, t: Tables, c: Command)
    ensures MissingError(t, CommandAs(g, c)) == MissingError(t, c)
  {
    hide TombsReadableAnywhere;
  }

  lemma RemovalIgnores(g: string -> string, t: Tables, c: Command, ids: set<string>)
    requires forall x :: x in ids ==> Key(c.scope, x) in t.memories
    ensures WithoutMemories(t, CommandAs(g, c), ids) == WithoutMemories(t, c, ids)
  {
    hide Keys, WithoutEdgesOf;
    assert Tombs(t, CommandAs(g, c), ids) == Tombs(t, c, ids);
  }

  lemma DeletionIgnores(g: string -> string, t: Tables, c: Command)
    requires forall m :: m in Dependents(t, Key(c.scope, c.entityId)) ==> Key(c.scope, m) in t.memories
    ensures WithoutEvent(t, CommandAs(g, c)) == WithoutEvent(t, c)
  {
    hide WithoutMemories, Dependents;
    RemovalIgnores(g, t, c, Dependents(t, Key(c.scope, c.entityId)));
  }

  // ----- every run

  lemma StepRewritten(f: string -> string, g: string -> string, t: Tables, op: Op)
    requires Injective(f) && OpOk(op)
    ensures OpOk(OpAs(f, g, op)) && Step(TablesAs(f, t), OpAs(f, g, op)) == OutcomeAs(f, Step(t, op))
  {
    hide Injective, IngestStep, MaterializeStep, ExpireStep, GovernMemoryStep, DeleteEventStep, TablesAs;
    match op
    case Ingest(d, now) => IngestRewritten(f, t, d, now);
    case Materialize(d) => MaterializeRewritten(f, t, d);
    case Expire(asOf) => ExpireRewritten(f, t, asOf);
    case Govern(c) =>
      GovernMemoryRewritten(f, t, c);
      DeleteEventRewritten(f, t, c);
      ReasonIgnored(g, TablesAs(f, t), c);
  }

  function OpsAs(f: string -> string, g: string -> string, ops: seq<Op>): seq<Op> {
    if ops == [] then [] else OpsAs(f, g, ops[..|ops| - 1]) + [OpAs(f, g, ops[|ops| - 1])]
  }

  /** Running operations with rewritten bodies and reasons is rewriting the bodies of the run. */
  lemma {:induction false} RunRewritten(f: string -> string, g: string -> string, t: Tables, ops: seq<Op>)
    requires Injective(f) && OpsOk(ops)
    ensures OpsOk(OpsAs(f, g, ops)) && Run(TablesAs(f, t), OpsAs(f, g, ops)) == TablesAs(f, Run(t, ops))
  {
    hide Injective, Step, TablesAs;
    if ops != [] {
      var init, op := ops[..|ops| - 1], ops[|ops| - 1];
      RunRewritten(f, g, t, init);
      StepRewritten(f, g, Run(t, init), op);
      RunSnoc(TablesAs(f, t), OpsAs(f, g, init), OpAs(f, g, op));
    }
  }

  /** After any run, the tombstones, the audit rows and the lineage are the same for any bodies and any reasons
      whatever, and so is every refusal, count and list of affected identifiers. */
  lemma NoBodiesInTombstonesOrAudit(f: string -> string, g: string -> string, ops: seq<Op>, op: Op)
    requires Injective(f) && OpsOk(ops) && OpOk(op)
    ensures OpsOk(OpsAs(f, g, ops)) && OpOk(OpAs(f, g, op))
    ensures var t, u := Run(EMPTY, ops), Run(EMPTY, OpsAs(f, g, ops));
            && u.tombstones == t.tombstones && u.audit == t.audit && u.edges == t.edges
            && u.memories.Keys == t.memories.Keys && u.events.Keys == t.events.Keys && u.bodies.Keys == t.bodies.Keys
    ensures var x, y := Step(Run(EMPTY, ops), op).reply, Step(Run(EMPTY, OpsAs(f, g, ops)), OpAs(f, g, op)).reply;
            && (x.Failed? || x.Removed? || x.Affected? ==> y == x) && (x.Received? <==> y.Received?)
            && (x.Recorded? <==> y.Recorded?)
  {
    hide Injective, Step, Run;
    EmptyRewritten(f);
    RunRewritten(f, g, EMPTY, ops);
    StepRewritten(f, g, Run(EMPTY, ops), op);
    var t := Run(EMPTY, ops);
    assert TablesAs(f, t).memories.Keys == t.memories.Keys;
    assert TablesAs(f, t).events.Keys == t.events.Keys;
    assert TablesAs(f, t).bodies.Keys == t.bodies.Keys;
  }

  lemma EmptyRewritten(f: string -> string)
    ensures TablesAs(f, EMPTY) == EMPTY
  {
    var u := TablesAs(f, EMPTY);
    assert u.events == EMPTY.events && u.bodies == EMPTY.bodies && u.memories == EMPTY.memories;
  }
}
