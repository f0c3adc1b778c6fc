/** Expiry of raw bodies: what it removes, how two expiries compose, and that nothing else can tell when it ran. */
module Expiry {
  import opened TextOrder
  import opened Binary64
  import opened Metadata
  import opened Fingerprint
  import opened Domain
  import opened Tables
  import opened Policy
  import opened Invariant
  import opened Runs
  import opened Recall
  import opened Cascade
  import Isolation
  import Lifecycle

  ghost predicate BodiesHaveEvents(t: Tables) {
    forall k :: k in t.bodies ==> k in t.events
  }

  lemma BodiesAreOfEvents(t: Tables)
    requires Valid(t)
    ensures BodiesHaveEvents(t)
  {
    hide EventsReadable, MemoriesReadable, AuditReadable, TombstonesReadable, NoneResurrected;
  }

  /** Which bodies an expiry leaves, and what it makes of the receipts. */
  ghost predicate LeftBy(t: Tables, asOf: int, u: Tables) {
    && BodiesHaveEvents(t)
    && (forall k :: k in u.bodies <==> k in t.bodies && t.events[k].rawExpiresAt > asOf)
    && (forall k :: k in u.bodies ==> u.bodies[k] == t.bodies[k])
    && u.events.Keys == t.events.Keys
    && (forall k :: k in t.events ==>
          u.events[k] == t.events[k].(status := if k in u.bodies then EventActive else EventExpired))
  }

  /** Expiry removes exactly the bodies due, answers their number, and marks their receipts; no other row changes but
      the log's. */
  lemma ExpireExactly(t: Tables, asOf: int)
    requires Valid(t) && IsTime(asOf)
    ensures var o := Step(t, Expire(asOf));
            && o.reply == Removed(|t.bodies| - |o.state.bodies|)
            && LeftBy(t, asOf, o.state)
            && o.state.memories == t.memories && o.state.edges == t.edges && o.state.tombstones == t.tombstones
  {
    hide Valid, ExpireStep, LeftBy, Due;
    Isolation.ExpireState(t, asOf);
    BodiesAreOfEvents(t);
    StatusesAgree(t);
    DueLeaves(t, asOf);
    DueCounted(t, asOf);
  }

  /** A receipt's status says whether its body is there. */
  ghost predicate StatusesTell(t: Tables) {
    forall k :: k in t.events ==> t.events[k].status == if k in t.bodies then EventActive else EventExpired
  }

  lemma StatusesAgree(t: Tables)
    requires Valid(t)
    ensures StatusesTell(t)
  {
    hide KeysAgree, MemoriesReadable, AuditReadable, TombstonesReadable, NoneResurrected, ReadReceipt;
    forall k | k in t.events
      ensures t.events[k].status == if k in t.bodies then EventActive else EventExpired
    {
      ReceiptFacts(t, k);
    }
  }

  lemma DueLeaves(t: Tables, asOf: int)
    requires BodiesHaveEvents(t) && StatusesTell(t)
    ensures LeftBy(t, asOf, Expired'(t, Due(t, asOf), asOf))
  {
    hide ExpireRows;
    var u := Expired'(t, Due(t, asOf), asOf);
    assert forall k :: k in u.events <==> k in t.events;
  }

  lemma DueCounted(t: Tables, asOf: int)
    ensures |Due(t, asOf)| == |t.bodies| - |Expired'(t, Due(t, asOf), asOf).bodies|
  {
    hide ExpireRows;
    var due := Due(t, asOf);
    var u := Expired'(t, due, asOf);
    assert u.bodies.Keys == t.bodies.Keys - due && due <= t.bodies.Keys;
    assert |u.bodies| == |u.bodies.Keys| && |t.bodies| == |t.bodies.Keys|;
    assert |t.bodies.Keys - due| == |t.bodies.Keys| - |due|;
  }

  lemma LeftTwice(t: Tables, a: int, v: Tables, b: int, w: Tables, x: Tables)
    requires a <= b && LeftBy(t, a, v) && LeftBy(v, b, w) && LeftBy(t, b, x)
    ensures w.bodies == x.bodies && w.events == x.events
  {
    hide LeftBy;
    forall k
      ensures k in w.bodies <==> k in x.bodies
      ensures k in w.bodies ==> w.bodies[k] == x.bodies[k]
      ensures k in w.events <==> k in x.events
      ensures k in w.events ==> w.events[k] == x.events[k]
    {
      LeftTwiceAt(t, a, v, b, w, x, k);
    }
  }

  lemma LeftTwiceAt(t: Tables, a: int, v: Tables, b: int, w: Tables, x: Tables, k: Key)
    requires a <= b && LeftBy(t, a, v) && LeftBy(v, b, w) && LeftBy(t, b, x)
    ensures k in w.bodies <==> k in x.bodies
    ensures k in w.bodies ==> w.bodies[k] == x.bodies[k]
    ensures k in w.events <==> k in x.events
    ensures k in w.events ==> w.events[k] == x.events[k]
  {
    hide LeftBy;
    LeftAt(t, a, v, k);
    LeftAt(v, b, w, k);
    LeftAt(t, b, x, k);
  }

  lemma LeftAt(t: Tables, asOf: int, u: Tables, k: Key)
    requires LeftBy(t, asOf, u)
    ensures k in t.bodies ==> k in t.events
    ensures k in u.bodies <==> k in t.bodies && t.events[k].rawExpiresAt > asOf
    ensures k in u.bodies ==> u.bodies[k] == t.bodies[k]
    ensures k in u.events <==> k in t.events
    ensures k in t.events ==> u.events[k] == t.events[k].(status := if k in u.bodies then EventActive else EventExpired)
  {
    assert k in u.events.Keys <==> k in t.events.Keys;
  }

  /** Expiring up to `a` and then up to a later `b` leaves the events and bodies of expiring up to `b` alone, and the
      two counts add up. */
  lemma ExpiriesCompose(t: Tables, a: int, b: int)
    requires Valid(t) && IsTime(a) && IsTime(b) && a <= b
    ensures var first := Step(t, Expire(a));
            var second := Step(first.state, Expire(b));
            var once := Step(t, Expire(b));
            && second.state.(audit := multiset{}) == once.state.(audit := multiset{})
            && first.reply.Removed? && second.reply.Removed? && once.reply.Removed?
            && first.reply.count + second.reply.count == once.reply.count
  {
    hide Valid, Step, LeftBy;
    ExpireExactly(t, a);
    ExpireExactly(t, b);
    StepKeepsValid(t, Expire(a));
    var v := Step(t, Expire(a)).state;
    ExpireExactly(v, b);
    LeftTwice(t, a, v, b, Step(v, Expire(b)).state, Step(t, Expire(b)).state);
  }

  /** A body that is gone is gone for good, whatever runs later and whatever became of its event. */
  lemma BodiesNeverReturn(t: Tables, ops: seq<Op>, k: Key)
    requires Valid(t) && OpsOk(ops) && k in t.events && k !in t.bodies
    ensures k !in Run(t, ops).bodies
  {
    hide Run, MemoriesReadable, EventsReadable, AuditReadable, TombstonesReadable, MemoriesKept, TombstonesKept,
      PrintsShrink;
    RunIsLater(t, ops);
    var u := Run(t, ops);
    assert k in u.bodies ==> Live(u, TombKey(k.scope, RawEvent, k.id));
    assert EventKept(t, u, k) || TombKey(k.scope, RawEvent, k.id) in u.tombstones;
  }

  // ----- two states that differ in what has expired

  ghost predicate SameReceipts(t: Tables, u: Tables) {
    && (forall k :: k in t.events <==> k in u.events)
    && (forall k :: k in t.events ==> t.events[k] == u.events[k].(status := t.events[k].status))
  }

  ghost predicate SameHistory(t: Tables, u: Tables) {
    forall r: AuditRow :: !r.action.Expired? ==> t.audit[r] == u.audit[r]
  }

  ghost predicate Alike(t: Tables, u: Tables) {
    && t.memories == u.memories && t.edges == u.edges && t.tombstones == u.tombstones
    && SameReceipts(t, u) && SameHistory(t, u)
  }

  /** The same answer, except for whether a receipt's body is still there. */
  predicate SameButBody(x: Reply, y: Reply) {
    if x.Received? && y.Received? then x.receipt == y.receipt.(available := x.receipt.available) else x == y
  }

  lemma ExpireIsAlike(t: Tables, asOf: int)
    requires Valid(t) && IsTime(asOf)
    ensures Alike(t, Step(t, Expire(asOf)).state)
  {
    hide Valid, ExpireStep, ExpireRows;
    Isolation.ExpireState(t, asOf);
    var due := Due(t, asOf);
    forall r: AuditRow | !r.action.Expired?
      ensures r !in ExpireRows(due, asOf)
    {
      OnlyExpiries(due, asOf, r);
    }
  }

  lemma OnlyExpiries(due: set<Key>, asOf: int, r: AuditRow)
    requires !r.action.Expired?
    ensures r !in ExpireRows(due, asOf)
  {
  }

  lemma ReceiptsAlike(t: Tables, u: Tables, k: Key)
    requires SameReceipts(t, u) && k in t.events && k in u.events && ReceiptAt(t, k).Some? && ReceiptAt(u, k).Some?
    ensures ReceiptAt(t, k).value == ReceiptAt(u, k).value.(available := ReceiptAt(t, k).value.available)
  {
    hide Decode;
  }

  lemma IngestedAlike(t: Tables, u: Tables, d: EventDraft, now: int)
    requires Alike(t, u)
    ensures Alike(Ingested'(t, d, now), Ingested'(u, d, now))
  {
    hide NewEventRow;
  }

  /** What a valid state answers to an ingest. */
  lemma IngestOutcome(t: Tables, d: EventDraft, now: int)
    requires Valid(t) && EventDraftOk(d) && IsTime(now)
    ensures EventKey(d) in t.events ==> ReceiptAt(t, EventKey(d)).Some?
    ensures IngestStep(t, d, now) ==
      if d.source.occurredAt + d.rawTtl > MAX_TIME then Refused(ValidationError(RawExpiresAt), t)
      else if TombKey(d.scope, RawEvent, d.eventId) in t.tombstones then Refused(EntityDeleted(d.eventId), t)
      else if EventKey(d) in t.events then
        if SameEvent(ReceiptAt(t, EventKey(d)).value, d) then Outcome(Received(ReceiptAt(t, EventKey(d)).value), t)
        else Refused(IdempotencyConflict(d.eventId), t)
      else if d.clearFor >= Power(2, 63) || d.recallFor >= Power(2, 63) then Refused(TooLargeForColumn, t)
      else Outcome(Received(FreshRow(d, now)), Ingested'(t, d, now))
  {
    hide MemoriesReadable, AuditReadable, NoneResurrected, TombstonesReadable, ReadReceipt, SameEvent, NewEventRow,
      Ingested', TombsReadable, Power, IsMetadata;
    LookupsSucceed(t, d.scope, d.eventId, Sha256([]));
    ColumnBound();
    if d.source.occurredAt + d.rawTtl <= MAX_TIME {
      FreshReceipt(d, now);
    }
  }

  /** The receipt of a first ingest. */
  function FreshRow(d: EventDraft, now: int): Receipt {
    Receipt(d.eventId, d.scope, d.source.(metadata := Normalize(d.source.metadata)), ContentHash(d.content), now,
            d.source.occurredAt + d.rawTtl, d.clearFor, d.recallFor, true, Normalize(d.metadata))
  }

  lemma IngestAlike(t: Tables, u: Tables, d: EventDraft, now: int)
    requires Valid(t) && Valid(u) && Alike(t, u) && EventDraftOk(d) && IsTime(now)
    ensures SameButBody(IngestStep(t, d, now).reply, IngestStep(u, d, now).reply)
    ensures Alike(IngestStep(t, d, now).state, IngestStep(u, d, now).state)
  {
    hide Valid, IngestStep, ReadReceipt, SameEvent, SameHistory, Ingested';
    IngestOutcome(t, d, now);
    IngestOutcome(u, d, now);
    IngestedAlike(t, u, d, now);
    var k := EventKey(d);
    if k in t.events {
      ReceiptsAlike(t, u, k);
      Lifecycle.SameButAvailable(ReceiptAt(u, k).value, d, ReceiptAt(t, k).value.available);
    }
  }

  lemma SourcesErrorAlike(t: Tables, u: Tables, scope: Scope, ids: seq<string>)
    requires EventsReadable(t) && EventsReadable(u) && SameReceipts(t, u) && t.tombstones == u.tombstones
    ensures SourcesError(t, scope, ids) == SourcesError(u, scope, ids)
  {
    hide ReadReceipt, TombstoneOk, SameReceipts;
    if ids != [] {
      SourceErrorAlike(t, u, scope, ids[0]);
      SourcesErrorAlike(t, u, scope, ids[1..]);
    }
  }

  lemma SourceErrorAlike(t: Tables, u: Tables, scope: Scope, id: string)
    requires EventsReadable(t) && EventsReadable(u) && SameReceipts(t, u) && t.tombstones == u.tombstones
    ensures SourceError(t, scope, id) == SourceError(u, scope, id)
  {
    hide ReadReceipt, TombstoneOk;
  }

  lemma DraftRowsAlike(t: Tables, u: Tables, scope: Scope, ids: set<string>)
    requires SameReceipts(t, u) && forall x :: x in ids ==> Key(scope, x) in t.events
    ensures forall x :: x in ids ==> Key(scope, x) in u.events
    ensures DraftRows(t, scope, ids) == DraftRows(u, scope, ids)
  {
    var s := Sorted(ids);
    forall i | 0 <= i < |s|
      ensures DraftRows(t, scope, ids)[i] == DraftRows(u, scope, ids)[i]
    {
      assert s[i] in Elements(s);
    }
  }

  lemma MaterializedAlike(t: Tables, u: Tables, d: MemoryDraft)
    requires Alike(t, u) && MemoryDraftOk(d)
    requires forall x :: x in Elements(d.sources) ==> Key(d.scope, x) in t.events && Key(d.scope, x) in u.events
    ensures Alike(Materialized'(t, d), Materialized'(u, d))
  {
    hide NewMemoryRow, DraftRows, NewEdges;
    var ids := Elements(d.sources);
    DraftHasRows(d);
    DraftRowsAlike(t, u, d.scope, ids);
    NewEdgesAlike(t, u, MemoryKey(d), ids);
  }

  lemma NewEdgesAlike(t: Tables, u: Tables, k: Key, ids: set<string>)
    requires SameReceipts(t, u) && forall x :: x in ids ==> Key(k.scope, x) in t.events && Key(k.scope, x) in u.events
    ensures NewEdges(t, k, ids) == NewEdges(u, k, ids)
  {
  }

  lemma MemoryAlike(t: Tables, u: Tables, k: Key)
    requires t.memories == u.memories && t.edges == u.edges && SameReceipts(t, u) && k in t.memories
    ensures MemoryAt(t, k) == MemoryAt(u, k)
  {
    hide ReadMemory, SourceRows;
    SourceRowsFrame(t, u, k);
  }

  lemma MaterializeAlike(t: Tables, u: Tables, d: MemoryDraft)
    requires Valid(t) && Valid(u) && Alike(t, u) && MemoryDraftOk(d)
    ensures MaterializeStep(t, d).reply == MaterializeStep(u, d).reply
    ensures Alike(MaterializeStep(t, d).state, MaterializeStep(u, d).state)
  {
    hide KeysAgree, MemoriesReadable, EventsReadable, AuditReadable, TombstonesReadable, NoneResurrected,
      MaterializeStep, DraftPrint, SourcesError, MemoryAt, SameMemory, TombstoneOk, SameReceipts, SameHistory,
      NewMemoryRow, DraftRows, ReadMemory, MinOf, Materialized', Orphaned;
    MaterializeExits(t, d);
    MaterializeExits(u, d);
    SourcesErrorAlike(t, u, d.scope, d.sources);
    if Clear(t, d) {
      if MemoryKey(d) in t.memories {
        MemoryAlike(t, u, MemoryKey(d));
      } else if SourcesError(t, d.scope, d.sources).None? {
        MaterializeNewAlike(t, u, d);
      }
    }
  }

  lemma MaterializeNewAlike(t: Tables, u: Tables, d: MemoryDraft)
    requires Alike(t, u) && MemoryDraftOk(d) && Clear(t, d) && Clear(u, d)
    requires MemoryKey(d) !in t.memories && MemoryKey(d) !in u.memories
    requires SourcesError(t, d.scope, d.sources).None? && SourcesError(u, d.scope, d.sources).None?
    ensures MaterializeStep(t, d).reply == MaterializeStep(u, d).reply
    ensures Alike(MaterializeStep(t, d).state, MaterializeStep(u, d).state)
  {
    hide MaterializeStep, Clear, DraftPrint, SourcesError, NewMemoryRow, DraftRows, ReadMemory, MinOf, Materialized',
      SameReceipts, SameHistory, Usable;
    SourcesPresent(t, d);
    SourcesPresent(u, d);
    MaterializeStores(t, d);
    MaterializeStores(u, d);
    DraftRowsAlike(t, u, d.scope, Elements(d.sources));
    MaterializedAlike(t, u, d);
  }

  lemma MissingAlike(t: Tables, u: Tables, c: Command)
    requires SameReceipts(t, u) && t.memories == u.memories && t.tombstones == u.tombstones
    ensures MissingError(t, c) == MissingError(u, c)
  {
    hide TombstoneOk;
  }

  lemma AuditedAlike(t: Tables, u: Tables, c: Command)
    requires Alike(t, u)
    ensures Alike(Audited(t, c), Audited(u, c))
  {
  }

  lemma RemovalAlike(t: Tables, u: Tables, c: Command, ids: set<string>)
    requires Alike(t, u)
    requires forall x :: x in ids ==> Key(c.scope, x) in t.memories && Key(c.scope, x) in u.memories
    ensures Alike(WithoutMemories(t, c, ids), WithoutMemories(u, c, ids))
  {
    hide Keys, Tombs, WithoutEdgesOf;
    TombsAlike(t, u, c, ids);
  }

  lemma TombsAlike(t: Tables, u: Tables, c: Command, ids: set<string>)
    requires t.memories == u.memories && forall x :: x in ids ==> Key(c.scope, x) in t.memories
    ensures Tombs(t, c, ids) == Tombs(u, c, ids)
  {
  }

  lemma UneventedAlike(t: Tables, u: Tables, c: Command)
    requires Alike(t, u)
    ensures Alike(Unevented(t, c), Unevented(u, c))
  {
  }

  lemma StatusAlike(t: Tables, u: Tables, c: Command, status: MemoryStatus)
    requires Alike(t, u) && Key(c.scope, c.entityId) in t.memories
    ensures Alike(WithStatus(t, c, status), WithStatus(u, c, status))
  {
  }

  lemma GovernMemoryAlike(t: Tables, u: Tables, c: Command)
    requires Valid(t) && Valid(u) && Alike(t, u) && c.entityType.Memory?
    ensures GovernMemoryStep(t, c).reply == GovernMemoryStep(u, c).reply
    ensures Alike(GovernMemoryStep(t, c).state, GovernMemoryStep(u, c).state)
  {
    hide KeysAgree, EventsReadable, MemoriesReadable, AuditReadable, TombstonesReadable, LineageAgrees, MissingError,
      WithStatus, WithoutMemories, Audited, SameReceipts, SameHistory;
    var k := Key(c.scope, c.entityId);
    MissingAlike(t, u, c);
    if k in t.memories {
      KnownStatus(t, k);
      KnownStatus(u, k);
      StatusAlike(t, u, c, Sealed);
      StatusAlike(t, u, c, Active);
      RemovalAlike(t, u, c, {c.entityId});
      AuditedAlike(WithoutMemories(t, c, {c.entityId}), WithoutMemories(u, c, {c.entityId}), c);
    }
  }

  lemma DeleteEventAlike(t: Tables, u: Tables, c: Command)
    requires Valid(t) && Valid(u) && Alike(t, u) && c.entityType.RawEvent? && c.action.Delete? && IsTime(c.occurredAt)
    ensures GovernStep(t, c).reply == GovernStep(u, c).reply
    ensures Alike(GovernStep(t, c).state, GovernStep(u, c).state)
  {
    hide Valid, MissingError, SameHistory, ReadReceipt, DependentOk, Audited, WithoutMemories;
    var k := Key(c.scope, c.entityId);
    MissingAlike(t, u, c);
    assert Dependents(t, k) == Dependents(u, k);
    if k in t.events {
      DeletionSucceeds(t, c);
      DeletionSucceeds(u, c);
      var ds := Dependents(t, k);
      var v, w := WithoutMemories(t, c, ds), WithoutMemories(u, c, ds);
      RemovalAlike(t, u, c, ds);
      UneventedAlike(v, w, c);
      AuditedAlike(Unevented(v, c), Unevented(w, c), c);
      assert WithoutEvent(t, c) == Audited(Unevented(v, c), c) && WithoutEvent(u, c) == Audited(Unevented(w, c), c);
    }
  }

  lemma StepAlike(t: Tables, u: Tables, op: Op)
    requires Valid(t) && Valid(u) && Alike(t, u) && OpOk(op) && !op.Expire?
    ensures SameButBody(Step(t, op).reply, Step(u, op).reply)
    ensures Alike(Step(t, op).state, Step(u, op).state)
  {
    hide Valid, Alike, IngestStep, MaterializeStep, GovernMemoryStep, DeleteEventStep;
    match op
    case Ingest(d, now) => IngestAlike(t, u, d, now);
    case Materialize(d) => MaterializeAlike(t, u, d);
    case Expire(_) => assert false;
    case Govern(c) =>
      if c.entityType.Memory? {
        GovernMemoryAlike(t, u, c);
      } else if c.action.Delete? {
        DeleteEventAlike(t, u, c);
      }
  }

  // ----- whole runs

  function WithoutExpiry(ops: seq<Op>): (r: seq<Op>)
    ensures forall op :: multiset(r)[op] == if op.Expire? then 0 else multiset(ops)[op]
  {
    assert ops != [] ==> ops == ops[..|ops| - 1] + [ops[|ops| - 1]];
    if ops == [] then [] else
      var last := ops[|ops| - 1];
      WithoutExpiry(ops[..|ops| - 1]) + if last.Expire? then [] else [last]
  }

  lemma AlikeReflexive(t: Tables)
    ensures Alike(t, t)
  {
  }

  lemma AlikeFromExpired(t: Tables, u: Tables, v: Tables)
    requires Alike(t, u) && Alike(t, v)
    ensures Alike(u, v)
  {
  }

  lemma NothingRun(t: Tables)
    ensures WithoutExpiry([]) == [] && Run(t, []) == t
  {
  }

  lemma WithoutExpirySnoc(ops: seq<Op>, op: Op)
    ensures WithoutExpiry(ops + [op]) == if op.Expire? then WithoutExpiry(ops) else WithoutExpiry(ops) + [op]
  {
    assert (ops + [op])[..|ops|] == ops;
  }

  /** Taking every expiry out of a run changes only bodies, receipt statuses and expire rows. */
  lemma {:induction false} RunAlike(t: Tables, ops: seq<Op>)
    requires Valid(t) && OpsOk(ops)
    ensures OpsOk(WithoutExpiry(ops)) && Valid(Run(t, ops)) && Valid(Run(t, WithoutExpiry(ops)))
    ensures Alike(Run(t, ops), Run(t, WithoutExpiry(ops)))
  {
    hide Valid, Alike, Step, Run, WithoutExpiry;
    RunIsValid(t, ops);
    if ops == [] {
      AlikeReflexive(t);
      NothingRun(t);
    } else {
      var init, op := ops[..|ops| - 1], ops[|ops| - 1];
      RunAlike(t, init);
      var v, w := Run(t, init), Run(t, WithoutExpiry(init));
      assert ops == init + [op];
      WithoutExpirySnoc(init, op);
      RunSnoc(t, init, op);
      if op.Expire? {
        ExpireIsAlike(v, op.asOf);
        AlikeFromExpired(v, Step(v, op).state, w);
      } else {
        RunSnoc(t, WithoutExpiry(init), op);
        StepAlike(v, w, op);
        StepKeepsValid(w, op);
      }
    }
  }

  /** Where expiry runs, and whether it runs at all, no materialization, governance command or recall can tell; a
      replayed ingest can, by the availability of its body alone. */
  lemma ExpiryIsTransparent(t: Tables, ops: seq<Op>, op: Op, q: Query, answer: seq<Item>)
    requires Valid(t) && OpsOk(ops) && OpOk(op) && !op.Expire?
    ensures OpsOk(WithoutExpiry(ops))
    ensures SameButBody(Step(Run(t, ops), op).reply, Step(Run(t, WithoutExpiry(ops)), op).reply)
    ensures Recallable(Run(t, ops), q.scope) && Recallable(Run(t, WithoutExpiry(ops)), q.scope)
    ensures IsRecall(Run(t, ops), q, answer) <==> IsRecall(Run(t, WithoutExpiry(ops)), q, answer)
  {
    hide Valid, Step, Run, IsRecall, Recallable, SameHistory;
    RunAlike(t, ops);
    var u, v := Run(t, ops), Run(t, WithoutExpiry(ops));
    StepAlike(u, v, op);
    ValidIsRecallable(u, q.scope);
    ValidIsRecallable(v, q.scope);
    CandidatesAlike(u, v, q);
    SameCandidatesSameRecall(u, v, q, answer);
  }

  lemma CandidatesAlike(t: Tables, u: Tables, q: Query)
    requires Alike(t, u) && Recallable(t, q.scope) && Recallable(u, q.scope)
    ensures Candidates(t, q) == Candidates(u, q)
  {
    hide ReadMemory, SourceRows, Eligible, Recallable, Candidates, MemoryAt, SameReceipts, SameHistory;
    forall m
      ensures m in Candidates(t, q) <==> m in Candidates(u, q)
    {
      var k := Key(q.scope, m.memoryId);
      if k in t.memories {
        MemoryAlike(t, u, k);
      }
    }
  }
}
