/** What every run keeps: tombstones are permanent, nothing comes back, and a row that stays stays what it was. */
module Runs {
  import opened Wrappers
  import opened TextOrder
  import opened Metadata
  import opened Fingerprint
  import opened Domain
  import opened Tables
  import opened Policy
  import opened Invariant

  // ----- the shape of one step

  ghost predicate IngestShape(t: Tables, d: EventDraft, now: int, u: Tables) {
    u == t || (EventKey(d) !in t.events && TombKey(d.scope, RawEvent, d.eventId) !in t.tombstones
      && u == Ingested'(t, d, now))
  }

  ghost predicate MaterializeShape(t: Tables, d: MemoryDraft, u: Tables)
    requires MemoryDraftOk(d)
  {
    u == t ||
    (&& MemoryKey(d) !in t.memories && TombKey(d.scope, Memory, d.memoryId) !in t.tombstones
     && !PrintTombstoned(t, d.scope, DraftPrint(d)) && Derivable(t, d)
     && (forall e :: e in t.edges ==> !(e.scope == d.scope && e.memory == d.memoryId))
     && u == Materialized'(t, d))
  }

  ghost predicate GovernShape(t: Tables, c: Command, u: Tables) {
    u == t ||
    if c.entityType.RawEvent? then
      && c.action.Delete? && Key(c.scope, c.entityId) in t.events
      && (forall x :: x in Dependents(t, Key(c.scope, c.entityId)) ==> Key(c.scope, x) in t.memories)
      && u == WithoutEvent(t, c)
    else
      && Key(c.scope, c.entityId) in t.memories
      && u == match c.action
         case Seal => WithStatus(t, c, Sealed)
         case Restore => WithStatus(t, c, Active)
         case _ => Audited(WithoutMemories(t, c, {c.entityId}), c)
  }

  ghost predicate Shape(t: Tables, op: Op, u: Tables)
    requires OpOk(op)
  {
    match op
    case Ingest(d, now) => IngestShape(t, d, now, u)
    case Materialize(d) => MaterializeShape(t, d, u)
    case Expire(asOf) => u == t || u == Expired'(t, Due(t, asOf), asOf)
    case Govern(c) => GovernShape(t, c, u)
  }

  lemma StepHasShape(t: Tables, op: Op)
    requires Valid(t) && OpOk(op)
    ensures Shape(t, op, Step(t, op).state)
  {
    hide Valid, IngestStep, ExpireStep, GovernStep, MaterializeStep, IngestShape, MaterializeShape, GovernShape,
      Expired';
    match op
    case Ingest(d, now) => IngestHasShape(t, d, now);
    case Materialize(d) => MaterializeHasShape(t, d);
    case Expire(asOf) => ExpireHasShape(t, asOf);
    case Govern(c) => GovernHasShape(t, c) by { KeysOfValid(t); }
  }

  lemma KeysOfValid(t: Tables)
    requires Valid(t)
    ensures KeysAgree(t)
  {
    hide KeysAgree, MemoriesReadable, EventsReadable, TombstonesReadable, AuditReadable, NoneResurrected;
  }

  lemma IngestHasShape(t: Tables, d: EventDraft, now: int)
    ensures IngestShape(t, d, now, IngestStep(t, d, now).state)
  {
    hide ReadReceipt, ReceiptAt, Ingested', SameEvent, TombsReadable, NewEventRow;
  }

  lemma ExpireHasShape(t: Tables, asOf: int)
    ensures ExpireStep(t, asOf).state == t || ExpireStep(t, asOf).state == Expired'(t, Due(t, asOf), asOf)
  {
    hide ReadReceipt, Expired';
  }

  lemma GovernHasShape(t: Tables, c: Command)
    requires KeysAgree(t)
    ensures GovernShape(t, c, GovernStep(t, c).state)
  {
    hide ReadReceipt, LineageAgrees, MissingError, WithStatus, WithoutMemories, WithoutEvent, Audited;
  }

  lemma MaterializeHasShape(t: Tables, d: MemoryDraft)
    requires Valid(t) && MemoryDraftOk(d)
    ensures MaterializeShape(t, d, MaterializeStep(t, d).state)
  {
    hide EventsReadable, MemoriesReadable, AuditReadable, NoneResurrected, TombsReadable, PrintTombsReadable,
      PrintTombstoned, SourcesError, Derivable, Materialized', DraftPrint, MaterializeStep;
    LookupsSucceed(t, d.scope, d.memoryId, DraftPrint(d));
    if && MemoryKey(d) !in t.memories && TombKey(d.scope, Memory, d.memoryId) !in t.tombstones
       && !PrintTombstoned(t, d.scope, DraftPrint(d)) && SourcesError(t, d.scope, d.sources).None? {
      NoOrphans(t, d.scope, d.memoryId);
      MaterializeNew(t, d);
    } else {
      MaterializeEarly(t, d);
    }
  }

  lemma MaterializeEarly(t: Tables, d: MemoryDraft)
    requires MemoryDraftOk(d)
    requires MemoryKey(d) in t.memories || TombKey(d.scope, Memory, d.memoryId) in t.tombstones
      || PrintTombstoned(t, d.scope, DraftPrint(d)) || SourcesError(t, d.scope, d.sources).Some?
    ensures MaterializeStep(t, d).state == t
  {
    hide Materialized', TombsReadable, PrintTombsReadable, PrintTombstoned, SourcesError, DraftRows, NewMemoryRow,
      DraftPrint, ReadMemory, MemoryAt, SameMemory, MinOf;
  }

  // ----- what a later state still has

  ghost predicate TombstonesKept(t: Tables, u: Tables) {
    forall k :: k in t.tombstones ==> k in u.tombstones && u.tombstones[k] == t.tombstones[k]
  }

  /** A receipt keeps every column but its status; a body, once gone, stays gone. */
  ghost predicate EventKept(t: Tables, u: Tables, k: Key)
    requires k in t.events
  {
    && k in u.events && u.events[k] == t.events[k].(status := u.events[k].status)
    && (k in u.bodies ==> k in t.bodies && u.bodies[k] == t.bodies[k])
  }

  ghost predicate EventsKept(t: Tables, u: Tables) {
    forall k :: k in t.events ==> EventKept(t, u, k) || TombKey(k.scope, RawEvent, k.id) in u.tombstones
  }

  ghost predicate SameEdges(t: Tables, u: Tables, k: Key) {
    forall x :: (EdgeKey(k.scope, k.id, x) in t.edges <==> EdgeKey(k.scope, k.id, x) in u.edges)
                && (EdgeKey(k.scope, k.id, x) in t.edges ==>
                      t.edges[EdgeKey(k.scope, k.id, x)] == u.edges[EdgeKey(k.scope, k.id, x)])
  }

  /** A memory keeps every column but its status, and its lineage. */
  ghost predicate MemoryKept(t: Tables, u: Tables, k: Key)
    requires k in t.memories
  {
    k in u.memories && u.memories[k] == t.memories[k].(status := u.memories[k].status) && SameEdges(t, u, k)
  }

  ghost predicate MemoriesKept(t: Tables, u: Tables) {
    forall k :: k in t.memories ==> MemoryKept(t, u, k) || TombKey(k.scope, Memory, k.id) in u.tombstones
  }

  /** No memory carrying a tombstoned fingerprint has been added. */
  ghost predicate PrintsShrink(t: Tables, u: Tables) {
    forall k :: k in u.memories && PrintTombstoned(t, k.scope, u.memories[k].fingerprint) ==> k in t.memories
  }

  ghost predicate Later(t: Tables, u: Tables) {
    TombstonesKept(t, u) && EventsKept(t, u) && MemoriesKept(t, u) && PrintsShrink(t, u)
  }

  lemma IngestedLater(t: Tables, d: EventDraft, now: int)
    requires EventKey(d) !in t.events && KeysAgree(t)
    ensures Later(t, Ingested'(t, d, now))
  {
    hide NewEventRow;
  }

  lemma MaterializedLater(t: Tables, d: MemoryDraft)
    requires MemoryDraftOk(d) && Derivable(t, d)
    requires MemoryKey(d) !in t.memories && !PrintTombstoned(t, d.scope, DraftPrint(d))
    ensures Later(t, Materialized'(t, d))
  {
    hide NewEdges, DraftRows, DraftPrint, MinOf, ReadReceipt, PrintTombstoned, Canonical;
    var u := Materialized'(t, d);
    forall k, x | k in t.memories
      ensures EdgeKey(k.scope, k.id, x) !in NewEdges(t, MemoryKey(d), Elements(d.sources))
    {
      NewEdgesHas(t, MemoryKey(d), Elements(d.sources), EdgeKey(k.scope, k.id, x));
    }
    assert u.memories[MemoryKey(d)].fingerprint == DraftPrint(d);
  }

  lemma ExpiredLater(t: Tables, due: set<Key>, asOf: int)
    ensures Later(t, Expired'(t, due, asOf))
  {
    hide ExpireRows;
  }

  lemma StatusLater(t: Tables, c: Command, status: MemoryStatus)
    requires Key(c.scope, c.entityId) in t.memories
    ensures Later(t, WithStatus(t, c, status))
  {
    hide PrintTombstoned;
  }

  lemma WithoutMemoriesLater(t: Tables, c: Command, ids: set<string>)
    requires NoneResurrected(t)
    requires forall x :: x in ids ==> Key(c.scope, x) in t.memories
    ensures Later(t, WithoutMemories(t, c, ids))
  {
    hide Keys, Tombs, PrintTombstoned;
    var u := WithoutMemories(t, c, ids);
    forall k | k in t.memories
      ensures MemoryKept(t, u, k) || TombKey(k.scope, Memory, k.id) in u.tombstones
    {
      KeysOf(c.scope, ids, k);
      TombsOf(t, c, ids, TombKey(k.scope, Memory, k.id));
    }
    forall k | k in t.tombstones
      ensures k in u.tombstones && u.tombstones[k] == t.tombstones[k]
    {
      TombsOf(t, c, ids, k);
      assert !Live(t, k);
    }
  }

  lemma UneventedLater(t: Tables, c: Command)
    requires NoneResurrected(t) && Key(c.scope, c.entityId) in t.events
    ensures Later(t, Unevented(t, c))
  {
    hide PrintTombstoned;
    assert Live(t, TombKey(c.scope, RawEvent, c.entityId));
  }

  lemma AuditedLater(t: Tables, c: Command)
    ensures Later(t, Audited(t, c))
  {
    hide PrintTombstoned;
  }

  lemma LaterTransitive(t: Tables, u: Tables, v: Tables)
    requires Later(t, u) && Later(u, v) && NoneResurrected(v)
    ensures Later(t, v)
  {
    hide PrintTombstoned;
    forall k | k in t.events
      ensures EventKept(t, v, k) || TombKey(k.scope, RawEvent, k.id) in v.tombstones
    {
      if TombKey(k.scope, RawEvent, k.id) !in v.tombstones {
        assert EventKept(t, u, k) && EventKept(u, v, k);
      }
    }
    forall k | k in t.memories
      ensures MemoryKept(t, v, k) || TombKey(k.scope, Memory, k.id) in v.tombstones
    {
      if TombKey(k.scope, Memory, k.id) !in v.tombstones {
        assert MemoryKept(t, u, k) && MemoryKept(u, v, k);
      }
    }
    forall k | k in v.memories && PrintTombstoned(t, k.scope, v.memories[k].fingerprint)
      ensures k in t.memories
    {
      PrintStaysTombstoned(t, u, k.scope, v.memories[k].fingerprint);
      assert k in u.memories;
      assert Live(v, TombKey(k.scope, Memory, k.id));
      assert MemoryKept(u, v, k);
    }
  }

  lemma PrintStaysTombstoned(t: Tables, u: Tables, scope: Scope, fp: Digest)
    requires TombstonesKept(t, u) && PrintTombstoned(t, scope, fp)
    ensures PrintTombstoned(u, scope, fp)
  {
    var k :| k in t.tombstones && k.scope == scope && k.entity.Memory? && t.tombstones[k].fingerprint == Some(fp);
    assert k in u.tombstones;
  }

  lemma StepIsLater(t: Tables, op: Op)
    requires Valid(t) && OpOk(op)
    ensures Later(t, Step(t, op).state)
  {
    hide Step, Later, MemoriesReadable, EventsReadable, AuditReadable, TombstonesReadable, Ingested', Materialized',
      Expired', WithStatus, WithoutMemories, WithoutEvent, Audited, PrintTombstoned, DraftPrint, Derivable;
    var u := Step(t, op).state;
    StepHasShape(t, op);
    if u == t {
      LaterReflexive(t);
    } else {
      match op
      case Ingest(d, now) => IngestedLater(t, d, now);
      case Materialize(d) => MaterializedLater(t, d);
      case Expire(asOf) => ExpiredLater(t, Due(t, asOf), asOf);
      case Govern(c) => GovernLater(t, c, u);
    }
  }

  lemma LaterReflexive(t: Tables)
    ensures Later(t, t)
  {
    hide PrintTombstoned;
  }

  lemma GovernLater(t: Tables, c: Command, u: Tables)
    requires Valid(t) && IsTime(c.occurredAt) && GovernShape(t, c, u) && u != t
    ensures Later(t, u)
  {
    hide Later, Valid, WithStatus, WithoutMemories, Audited;
    if c.entityType.RawEvent? {
      WithoutEventLater(t, c);
    } else {
      match c.action
      case Seal => StatusLater(t, c, Sealed);
      case Restore => StatusLater(t, c, Active);
      case _ =>
        var v := WithoutMemories(t, c, {c.entityId});
        WithoutMemoriesIsValid(t, c, {c.entityId});
        AuditedIsValid(v, c);
        NothingResurrected(t);
        NothingResurrected(v);
        NothingResurrected(Audited(v, c));
        WithoutMemoriesLater(t, c, {c.entityId});
        AuditedLater(v, c);
        LaterTransitive(t, v, Audited(v, c));
    }
  }

  lemma NothingResurrected(t: Tables)
    requires Valid(t)
    ensures NoneResurrected(t)
  {
    hide KeysAgree, MemoriesReadable, EventsReadable, AuditReadable, TombstonesReadable, NoneResurrected;
  }

  lemma WithoutEventLater(t: Tables, c: Command)
    requires Valid(t) && IsTime(c.occurredAt) && c.entityType.RawEvent? && c.action.Delete?
    requires Key(c.scope, c.entityId) in t.events
    requires forall x :: x in Dependents(t, Key(c.scope, c.entityId)) ==> Key(c.scope, x) in t.memories
    ensures Later(t, WithoutEvent(t, c))
  {
    hide Later, Valid, Audited, Keys, Tombs;
    var k := Key(c.scope, c.entityId);
    var v := WithoutMemories(t, c, Dependents(t, k));
    var w := Unevented(v, c);
    WithoutMemoriesIsValid(t, c, Dependents(t, k));
    assert Dependents(v, k) == {};
    UneventedIsValid(v, c);
    AuditedIsValid(w, c);
    assert WithoutEvent(t, c) == Audited(w, c);
    NothingResurrected(t);
    NothingResurrected(v);
    NothingResurrected(w);
    NothingResurrected(Audited(w, c));
    WithoutMemoriesLater(t, c, Dependents(t, k));
    UneventedLater(v, c);
    AuditedLater(w, c);
    LaterTransitive(t, v, w);
    LaterTransitive(t, w, Audited(w, c));
  }

  // ----- over whole runs

  ghost predicate OpsOk(ops: seq<Op>) {
    forall i :: 0 <= i < |ops| ==> OpOk(ops[i])
  }

  lemma RunSnoc(t: Tables, ops: seq<Op>, op: Op)
    requires OpsOk(ops) && OpOk(op)
    ensures OpsOk(ops + [op]) && Run(t, ops + [op]) == Step(Run(t, ops), op).state
  {
    hide Step;
    assert (ops + [op])[..|ops|] == ops;
  }

  /** Every state is Later than every state a run reaches it from. */
  lemma {:induction false} RunIsLater(t: Tables, ops: seq<Op>)
    requires Valid(t) && OpsOk(ops)
    ensures Valid(Run(t, ops)) && Later(t, Run(t, ops))
  {
    hide Valid, Step, Later;
    if ops == [] {
      LaterReflexive(t);
    } else {
      var init, op := ops[..|ops| - 1], ops[|ops| - 1];
      RunIsLater(t, init);
      StepKeepsValid(Run(t, init), op);
      StepIsLater(Run(t, init), op);
      NothingResurrected(Run(t, ops));
      LaterTransitive(t, Run(t, init), Run(t, ops));
    }
  }

  /** Nothing forgotten or deleted ever comes back, under any later operations: not the entity, not a memory with a
      tombstoned fingerprint that was not already there, not a memory derived from a deleted event. */
  lemma NothingComesBack(t: Tables, ops: seq<Op>)
    requires Valid(t) && OpsOk(ops)
    ensures var u := Run(t, ops);
            && (forall k :: k in t.tombstones ==>
              && k in u.tombstones && u.tombstones[k] == t.tombstones[k]
              && !Live(u, k))
            && (forall k :: k in u.memories && PrintTombstoned(t, k.scope, u.memories[k].fingerprint) ==>
                  k in t.memories && t.memories[k].fingerprint == u.memories[k].fingerprint)
            && (forall e :: e in u.edges ==> TombKey(e.scope, RawEvent, e.event) !in t.tombstones)
  {
    hide Step, PrintTombstoned, MemoriesReadable, EventsReadable, AuditReadable, TombstonesReadable;
    var u := Run(t, ops);
    RunIsLater(t, ops);
    forall k | k in u.memories && PrintTombstoned(t, k.scope, u.memories[k].fingerprint)
      ensures k in t.memories && t.memories[k].fingerprint == u.memories[k].fingerprint
    {
      assert Live(u, TombKey(k.scope, Memory, k.id));
      assert MemoryKept(t, u, k);
    }
    forall e | e in u.edges
      ensures TombKey(e.scope, RawEvent, e.event) !in t.tombstones
    {
      assert Live(u, TombKey(e.scope, RawEvent, e.event));
    }
  }
}
