/** The audit log as a history: what the tables hold now can be read off the rows the log has gathered. */
module History {
  import opened Wrappers
  import opened Metadata
  import opened Fingerprint
  import opened Domain
  import opened Tables
  import opened Policy
  import opened Invariant
  import opened Plans
  import opened Runs

  predicate Names(r: AuditRow, k: TombKey, a: AuditAction) {
    r.scope == k.scope && r.entity == k.entity && r.id == k.id && r.action == a
  }

  /** How many rows tell of action `a` on entity `k`, at whatever times. */
  ghost function Logged(log: multiset<AuditRow>, k: TombKey, a: AuditAction): nat {
    if log == multiset{} then 0 else
      var r :| r in log;
      Logged(log - multiset{r}, k, a) + if Names(r, k, a) then 1 else 0
  }

  lemma {:induction false} LoggedPlus(log: multiset<AuditRow>, r: AuditRow, k: TombKey, a: AuditAction)
    ensures Logged(log + multiset{r}, k, a) == Logged(log, k, a) + if Names(r, k, a) then 1 else 0
    decreases |log|
  {
    var more := log + multiset{r};
    var x :| x in more && Logged(more, k, a) == Logged(more - multiset{x}, k, a) + if Names(x, k, a) then 1 else 0;
    if x == r {
      assert more - multiset{x} == log;
    } else {
      var less := log - multiset{x};
      assert more - multiset{x} == less + multiset{r};
      assert less + multiset{x} == log;
      LoggedPlus(less, r, k, a);
      LoggedPlus(less, x, k, a);
    }
  }

  lemma {:induction false} LoggedExpiries(log: multiset<AuditRow>, due: set<Key>, asOf: int, k: TombKey, a: AuditAction)
    ensures Logged(log + multiset(ExpireRows(due, asOf)), k, a)
      == Logged(log, k, a) + if a.Expired? && k.entity.RawEvent? && Key(k.scope, k.id) in due then 1 else 0
    decreases |due|
  {
    hide ExpireRows, Logged;
    if due == {} {
      assert ExpireRows(due, asOf) == {} by { NoExpireRows(asOf); }
      assert log + multiset({}) == log;
    } else {
      var x :| x in due;
      var rest := due - {x};
      assert due == rest + {x};
      ExpireRowsSnoc(rest, x, asOf);
      LoggedExpiries(log, rest, asOf, k, a);
      assert log + multiset(ExpireRows(due, asOf)) == (log + multiset(ExpireRows(rest, asOf)))
        + multiset{ExpireRow(x, asOf)};
      LoggedPlus(log + multiset(ExpireRows(rest, asOf)), ExpireRow(x, asOf), k, a);
    }
  }

  lemma NoExpireRows(asOf: int)
    ensures ExpireRows({}, asOf) == {}
  {
  }

  // ----- the story of one entity

  /** An event was ingested once if it is live or tombstoned, deleted once if tombstoned, expired once if it lives
      without its body. */
  ghost predicate EventTold(t: Tables, k: TombKey) {
    var live, buried := Key(k.scope, k.id) in t.events, k in t.tombstones;
    && Logged(t.audit, k, Ingested) == (if live || buried then 1 else 0)
    && Logged(t.audit, k, Governed(Delete)) == (if buried then 1 else 0)
    && Logged(t.audit, k, Expired) <= Logged(t.audit, k, Ingested)
    && (live ==> Logged(t.audit, k, Expired) == if Key(k.scope, k.id) in t.bodies then 0 else 1)
  }

  ghost function Ended(log: multiset<AuditRow>, k: TombKey): nat {
    Logged(log, k, Governed(Forget)) + Logged(log, k, Governed(Delete))
  }

  ghost predicate SourceDeleted(log: multiset<AuditRow>, scope: Scope, sources: set<string>) {
    exists x :: x in sources && Logged(log, TombKey(scope, RawEvent, x), Governed(Delete)) > 0
  }

  /** The sources a tombstone's fingerprint was computed from, and a row that explains the tombstone. */
  ghost predicate Explained(log: multiset<AuditRow>, k: TombKey, row: Tombstone) {
    exists kind, sources: set<string> ::
      && sources != {} && row.fingerprint == Some(FingerprintOf(k.scope, kind, sources))
      && (Ended(log, k) > 0 || SourceDeleted(log, k.scope, sources))
  }

  /** A memory was materialized once if it is live or tombstoned, ended at most once and only if tombstoned, and it is
      sealed when it has one seal more than it has restores. */
  ghost predicate MemoryTold(t: Tables, k: TombKey) {
    var live, buried := Key(k.scope, k.id) in t.memories, k in t.tombstones;
    var seals, restores := Logged(t.audit, k, Governed(Seal)), Logged(t.audit, k, Governed(Restore));
    && Logged(t.audit, k, Materialized) == (if live || buried then 1 else 0)
    && restores <= seals <= restores + 1 && (!live && !buried ==> seals == 0)
    && (live ==> (t.memories[Key(k.scope, k.id)].status.Sealed? <==> seals == restores + 1))
    && Ended(t.audit, k) <= (if buried then 1 else 0)
    && (buried ==> Explained(t.audit, k, t.tombstones[k]))
  }

  ghost predicate Told(t: Tables, k: TombKey) {
    if k.entity.RawEvent? then EventTold(t, k) else MemoryTold(t, k)
  }

  ghost predicate Faithful(t: Tables) {
    forall k :: Told(t, k)
  }

  // ----- rows added to the log

  lemma GrewBy(log: multiset<AuditRow>, r: AuditRow, k: TombKey)
    ensures forall a :: Logged(log + multiset{r}, k, a) == Logged(log, k, a) + if Names(r, k, a) then 1 else 0
  {
    forall a {
      LoggedPlus(log, r, k, a);
    }
  }

  ghost predicate Covers(log: multiset<AuditRow>, more: multiset<AuditRow>) {
    forall k, a :: Logged(log, k, a) <= Logged(more, k, a)
  }

  lemma CoversPlus(log: multiset<AuditRow>, r: AuditRow)
    ensures Covers(log, log + multiset{r})
  {
    hide Logged;
    forall k, a
      ensures Logged(log, k, a) <= Logged(log + multiset{r}, k, a)
    {
      LoggedPlus(log, r, k, a);
    }
  }

  lemma CoversExpiries(log: multiset<AuditRow>, due: set<Key>, asOf: int)
    ensures Covers(log, log + multiset(ExpireRows(due, asOf)))
  {
    hide Logged, ExpireRows;
    forall k, a
      ensures Logged(log, k, a) <= Logged(log + multiset(ExpireRows(due, asOf)), k, a)
    {
      LoggedExpiries(log, due, asOf, k, a);
    }
  }

  /** What explains a tombstone goes on explaining it. */
  lemma StillExplained(log: multiset<AuditRow>, more: multiset<AuditRow>, k: TombKey, row: Tombstone)
    requires Covers(log, more) && Explained(log, k, row)
    ensures Explained(more, k, row)
  {
    hide Logged, FingerprintOf;
    var kind, sources: set<string> :|
      && sources != {} && row.fingerprint == Some(FingerprintOf(k.scope, kind, sources))
      && (Ended(log, k) > 0 || SourceDeleted(log, k.scope, sources));
    if SourceDeleted(log, k.scope, sources) {
      var x :| x in sources && Logged(log, TombKey(k.scope, RawEvent, x), Governed(Delete)) > 0;
      assert Logged(more, TombKey(k.scope, RawEvent, x), Governed(Delete)) > 0;
      assert SourceDeleted(more, k.scope, sources);
    }
  }

  /** A row about another entity changes nothing for this one. */
  lemma OtherRow(log: multiset<AuditRow>, r: AuditRow, k: TombKey)
    requires r.scope != k.scope || r.entity != k.entity || r.id != k.id
    ensures forall a :: Logged(log + multiset{r}, k, a) == Logged(log, k, a)
  {
    GrewBy(log, r, k);
  }

  // ----- every operation keeps the history faithful

  lemma IngestTold(t: Tables, d: EventDraft, now: int, k: TombKey)
    requires Valid(t) && Told(t, k)
    requires EventKey(d) !in t.events && TombKey(d.scope, RawEvent, d.eventId) !in t.tombstones
    ensures Told(Ingested'(t, d, now), k)
  {
    hide Logged, Explained, Covers, NewEventRow, EventsReadable, MemoriesReadable, AuditReadable, TombstonesReadable;
    var r := AuditRow(d.scope, Ingested, RawEvent, d.eventId, now, EventIngested);
    var u := Ingested'(t, d, now);
    CoversPlus(t.audit, r);
    GrewBy(t.audit, r, k);
    if k != TombKey(d.scope, RawEvent, d.eventId) {
      OtherRow(t.audit, r, k);
      if k.entity.Memory? && k in t.tombstones {
        StillExplained(t.audit, u.audit, k, t.tombstones[k]);
      }
    }
  }

  lemma MaterializeTold(t: Tables, d: MemoryDraft, k: TombKey)
    requires Valid(t) && Told(t, k) && MemoryDraftOk(d) && Derivable(t, d)
    requires MemoryKey(d) !in t.memories && TombKey(d.scope, Memory, d.memoryId) !in t.tombstones
    ensures Told(Materialized'(t, d), k)
  {
    hide Logged, Explained, Covers, DraftRows, NewEdges, DraftPrint, Canonical, MinOf, EventsReadable, MemoriesReadable,
      AuditReadable, TombstonesReadable, ReadReceipt;
    var r := AuditRow(d.scope, Materialized, Memory, d.memoryId, d.createdAt, MemoryMaterialized);
    var u := Materialized'(t, d);
    CoversPlus(t.audit, r);
    GrewBy(t.audit, r, k);
    if k.entity.Memory? && k in t.tombstones {
      StillExplained(t.audit, u.audit, k, t.tombstones[k]);
    }
  }

  lemma ExpireTold(t: Tables, due: set<Key>, asOf: int, k: TombKey)
    requires Told(t, k) && forall x :: x in due ==> x in t.events && x in t.bodies
    requires k.entity.RawEvent? && k in t.tombstones ==> Key(k.scope, k.id) !in t.events
    ensures Told(Expired'(t, due, asOf), k)
  {
    hide Logged, Explained, Covers, ExpireRows;
    var u := Expired'(t, due, asOf);
    CoversExpiries(t.audit, due, asOf);
    forall a
      ensures Logged(u.audit, k, a)
        == Logged(t.audit, k, a) + if a.Expired? && k.entity.RawEvent? && Key(k.scope, k.id) in due then 1 else 0
    {
      LoggedExpiries(t.audit, due, asOf, k, a);
    }
    if k.entity.Memory? && k in t.tombstones {
      StillExplained(t.audit, u.audit, k, t.tombstones[k]);
    }
  }

  lemma StatusTold(t: Tables, c: Command, k: TombKey)
    requires Told(t, k) && NoneResurrected(t) && c.entityType.Memory? && Key(c.scope, c.entityId) in t.memories
    requires (c.action.Seal? && t.memories[Key(c.scope, c.entityId)].status.Active?)
      || (c.action.Restore? && t.memories[Key(c.scope, c.entityId)].status.Sealed?)
    ensures Told(WithStatus(t, c, if c.action.Seal? then Sealed else Active), k)
  {
    hide Logged, Explained, Covers;
    var u := WithStatus(t, c, if c.action.Seal? then Sealed else Active);
    CoversPlus(t.audit, GovernRow(c));
    GrewBy(t.audit, GovernRow(c), k);
    assert Live(t, TombKey(c.scope, Memory, c.entityId));
    if k.entity.Memory? && k in t.tombstones {
      StillExplained(t.audit, u.audit, k, t.tombstones[k]);
    }
  }

  /** A memory row's fingerprint names its lineage. */
  lemma PrintOf(t: Tables, k: Key)
    requires Valid(t) && k in t.memories
    ensures SourceIds(t, k) != {}
    ensures t.memories[k].fingerprint == FingerprintOf(k.scope, t.memories[k].kind, SourceIds(t, k))
  {
    hide FingerprintOf, Decode, MinOf, EventsReadable, AuditReadable, KeysAgree, SourceRows;
    assert MemoryAt(t, k).Some?;
    RowsOfSources(t, k);
    var rows := SourceRows(t, k);
    assert rows[0].event == EventIds(rows)[0];
    assert rows[0].event in SourceIds(t, k);
  }

  lemma ForgetTold(t: Tables, c: Command, k: TombKey)
    requires Valid(t) && Told(t, k) && c.entityType.Memory? && (c.action.Forget? || c.action.Delete?)
    requires Key(c.scope, c.entityId) in t.memories
    ensures Told(Audited(WithoutMemories(t, c, {c.entityId}), c), k)
  {
    hide Logged, Explained, Covers, Keys, Tombs, WithoutEdgesOf, EventsReadable, MemoriesReadable, AuditReadable,
      TombstonesReadable, KeysAgree, FingerprintOf;
    var u := Audited(WithoutMemories(t, c, {c.entityId}), c);
    CoversPlus(t.audit, GovernRow(c));
    GrewBy(t.audit, GovernRow(c), k);
    KeysOf(c.scope, {c.entityId}, Key(k.scope, k.id));
    TombsOf(t, c, {c.entityId}, k);
    assert Live(t, TombKey(c.scope, Memory, c.entityId));
    if k == TombKey(c.scope, Memory, c.entityId) {
      PrintOf(t, Key(c.scope, c.entityId));
      ExplainedByOwnRow(u.audit, k, u.tombstones[k], t.memories[Key(c.scope, c.entityId)].kind,
                        SourceIds(t, Key(c.scope, c.entityId)));
    } else if k.entity.Memory? && k in t.tombstones {
      StillExplained(t.audit, u.audit, k, t.tombstones[k]);
    }
  }

  lemma ExplainedByOwnRow(log: multiset<AuditRow>, k: TombKey, row: Tombstone, kind: string, sources: set<string>)
    requires sources != {} && row.fingerprint == Some(FingerprintOf(k.scope, kind, sources)) && Ended(log, k) > 0
    ensures Explained(log, k, row)
  {
    hide Logged, FingerprintOf;
  }

  lemma ExplainedBySource(log: multiset<AuditRow>, k: TombKey, row: Tombstone, kind: string, sources: set<string>,
                          x: string)
    requires row.fingerprint == Some(FingerprintOf(k.scope, kind, sources)) && x in sources
    requires Logged(log, TombKey(k.scope, RawEvent, x), Governed(Delete)) > 0
    ensures Explained(log, k, row)
  {
    hide Logged, FingerprintOf;
    assert SourceDeleted(log, k.scope, sources);
  }

  lemma DeleteTold(t: Tables, c: Command, k: TombKey)
    requires Valid(t) && Told(t, k) && c.entityType.RawEvent? && c.action.Delete?
    requires Key(c.scope, c.entityId) in t.events
    requires forall x :: x in Dependents(t, Key(c.scope, c.entityId)) ==> Key(c.scope, x) in t.memories
    ensures Told(WithoutEvent(t, c), k)
  {
    hide Logged, Explained, Covers, Keys, Tombs, WithoutEdgesOf, EventsReadable, MemoriesReadable, AuditReadable,
      TombstonesReadable, KeysAgree, FingerprintOf;
    var ds := Dependents(t, Key(c.scope, c.entityId));
    var u := WithoutEvent(t, c);
    CoversPlus(t.audit, GovernRow(c));
    GrewBy(t.audit, GovernRow(c), k);
    KeysOf(c.scope, ds, Key(k.scope, k.id));
    TombsOf(t, c, ds, k);
    assert Live(t, TombKey(c.scope, RawEvent, c.entityId));
    if k.entity.Memory? {
      if k.scope == c.scope && k.id in ds {
        var i := Key(c.scope, k.id);
        assert Live(t, k);
        PrintOf(t, i);
        LoggedPlus(t.audit, GovernRow(c), TombKey(c.scope, RawEvent, c.entityId), Governed(Delete));
        ExplainedBySource(u.audit, k, u.tombstones[k], t.memories[i].kind, SourceIds(t, i), c.entityId);
      } else if k in t.tombstones {
        StillExplained(t.audit, u.audit, k, t.tombstones[k]);
      }
    }
  }

  lemma TransitionTaken(t: Tables, c: Command)
    requires Valid(t) && c.entityType.Memory? && (c.action.Seal? || c.action.Restore?)
    requires GovernStep(t, c).state != t
    ensures Key(c.scope, c.entityId) in t.memories
    ensures (c.action.Seal? && t.memories[Key(c.scope, c.entityId)].status.Active?)
      || (c.action.Restore? && t.memories[Key(c.scope, c.entityId)].status.Sealed?)
    ensures GovernStep(t, c).state == WithStatus(t, c, if c.action.Seal? then Sealed else Active)
  {
    hide Valid, LineageAgrees, MissingError, WithStatus;
  }

  lemma GovernIsTold(t: Tables, c: Command, k: TombKey)
    requires Valid(t) && Told(t, k) && IsTime(c.occurredAt)
    ensures Told(GovernStep(t, c).state, k)
  {
    hide Told, Valid, GovernStep, WithStatus, WithoutMemories, WithoutEvent, Audited;
    var u := GovernStep(t, c).state;
    StepHasShape(t, Govern(c));
    if u != t {
      if c.entityType.RawEvent? {
        DeleteTold(t, c, k);
      } else if c.action.Seal? || c.action.Restore? {
        TransitionTaken(t, c);
        NothingResurrected(t);
        StatusTold(t, c, k);
      } else {
        ForgetTold(t, c, k);
      }
    }
  }

  lemma StepKeepsFaithful(t: Tables, op: Op)
    requires Valid(t) && Faithful(t) && OpOk(op)
    ensures Faithful(Step(t, op).state)
  {
    hide Told, EventsReadable, MemoriesReadable, AuditReadable, TombstonesReadable, KeysAgree, IngestStep,
      MaterializeStep, ExpireStep, GovernStep, Ingested', Materialized', Expired', Derivable, PrintTombstoned,
      GovernShape;
    var u := Step(t, op).state;
    StepHasShape(t, op);
    forall k
      ensures Told(u, k)
    {
      assert Told(t, k);
      if u != t {
        match op
        case Ingest(d, now) => IngestTold(t, d, now, k);
        case Materialize(d) => MaterializeTold(t, d, k);
        case Expire(asOf) =>
          assert k in t.tombstones ==> !Live(t, k);
          ExpireTold(t, Due(t, asOf), asOf, k);
        case Govern(c) => GovernIsTold(t, c, k);
      }
    }
  }

  lemma EmptyIsFaithful()
    ensures Faithful(EMPTY)
  {
  }

  /** After any run from nothing the log tells each entity's story. */
  lemma {:induction false} RunIsFaithful(ops: seq<Op>)
    requires OpsOk(ops)
    ensures Valid(Run(EMPTY, ops)) && Faithful(Run(EMPTY, ops))
  {
    hide Valid, Faithful, Step;
    if ops == [] {
      EmptyIsFaithful();
      EmptyIsValid();
    } else {
      var init, op := ops[..|ops| - 1], ops[|ops| - 1];
      RunIsFaithful(init);
      StepKeepsValid(Run(EMPTY, init), op);
      StepKeepsFaithful(Run(EMPTY, init), op);
    }
  }

  // ----- what can be read off

  /** The fingerprint of a memory that is live, or was. */
  function PrintNow(t: Tables, k: TombKey): Option<Digest> {
    if k in t.tombstones then t.tombstones[k].fingerprint
    else if Key(k.scope, k.id) in t.memories then Some(t.memories[Key(k.scope, k.id)].fingerprint)
    else None
  }

  /** After any run: a memory is tombstoned exactly when it has a forget or delete row, or one of its original sources
      has a delete row. The sources are those its fingerprint was computed from. */
  lemma TombstonedExactly(ops: seq<Op>, k: TombKey, kind: string, sources: set<string>)
    requires OpsOk(ops) && k.entity.Memory?
    requires PrintNow(Run(EMPTY, ops), k) == Some(FingerprintOf(k.scope, kind, sources))
    ensures var t := Run(EMPTY, ops);
            k in t.tombstones <==> Ended(t.audit, k) > 0 || SourceDeleted(t.audit, k.scope, sources)
  {
    hide Run, Logged, FingerprintOf, EventsReadable, MemoriesReadable, AuditReadable, TombstonesReadable, Explained;
    var t := Run(EMPTY, ops);
    RunIsFaithful(ops);
    assert Told(t, k);
    if k in t.tombstones {
      WhichSources(t.audit, k, t.tombstones[k], kind, sources);
    } else {
      var i := Key(k.scope, k.id);
      PrintOf(t, i);
      FingerprintInjective(k.scope, kind, sources, k.scope, t.memories[i].kind, SourceIds(t, i));
      forall x | x in sources
        ensures Logged(t.audit, TombKey(k.scope, RawEvent, x), Governed(Delete)) == 0
      {
        assert EdgeKey(k.scope, k.id, x) in t.edges;
        assert Live(t, TombKey(k.scope, RawEvent, x));
        assert Told(t, TombKey(k.scope, RawEvent, x));
      }
    }
  }

  lemma WhichSources(log: multiset<AuditRow>, k: TombKey, row: Tombstone, kind: string, sources: set<string>)
    requires Explained(log, k, row) && row.fingerprint == Some(FingerprintOf(k.scope, kind, sources))
    ensures Ended(log, k) > 0 || SourceDeleted(log, k.scope, sources)
  {
    hide Logged, FingerprintOf;
    var kind', sources': set<string> :|
      && sources' != {} && row.fingerprint == Some(FingerprintOf(k.scope, kind', sources'))
      && (Ended(log, k) > 0 || SourceDeleted(log, k.scope, sources'));
    FingerprintInjective(k.scope, kind, sources, k.scope, kind', sources');
  }

  /** After any run: which events and memories exist or existed, which are sealed, which bodies have expired. */
  lemma LogTellsState(ops: seq<Op>, scope: Scope, id: string)
    requires OpsOk(ops)
    ensures var t := Run(EMPTY, ops);
            var k, e, m := Key(scope, id), TombKey(scope, RawEvent, id), TombKey(scope, Memory, id);
            && (k in t.events <==> Logged(t.audit, e, Ingested) == 1 && Logged(t.audit, e, Governed(Delete)) == 0)
            && (k in t.bodies <==> k in t.events && Logged(t.audit, e, Expired) == 0)
            && (e in t.tombstones <==> Logged(t.audit, e, Governed(Delete)) == 1)
            && (k in t.memories || m in t.tombstones <==> Logged(t.audit, m, Materialized) == 1)
            && (k in t.memories ==>
                  (t.memories[k].status.Sealed?
                   <==> Logged(t.audit, m, Governed(Seal)) == Logged(t.audit, m, Governed(Restore)) + 1))
  {
    hide Run, Logged, Explained, EventsReadable, MemoriesReadable, AuditReadable, TombstonesReadable;
    var t := Run(EMPTY, ops);
    RunIsFaithful(ops);
    var e, m := TombKey(scope, RawEvent, id), TombKey(scope, Memory, id);
    assert Told(t, e) && Told(t, m);
    assert e in t.tombstones ==> !Live(t, e);
  }

  /** The rows one operation adds: none when it is refused or a replay; else one, naming the entity, the action and the
      time, or one for every body that expired. */
  lemma RowsAdded(t: Tables, op: Op)
    requires Valid(t) && OpOk(op)
    ensures var o := Step(t, op);
            o.state.audit == t.audit +
              if o.reply.Failed? then multiset{}
              else match op
                   case Ingest(d, now) =>
                     if EventKey(d) in t.events then multiset{}
                     else multiset{AuditRow(d.scope, Ingested, RawEvent, d.eventId, now, EventIngested)}
                   case Materialize(d) =>
                     if MemoryKey(d) in t.memories then multiset{}
                     else multiset{AuditRow(d.scope, Materialized, Memory, d.memoryId, d.createdAt, MemoryMaterialized)}
                   case Expire(asOf) =>
                     multiset(set k | k in t.bodies && k !in o.state.bodies ::
                                AuditRow(k.scope, Expired, RawEvent, k.id, asOf, RawContentExpired))
                   case Govern(c) =>
                     multiset{AuditRow(c.scope, Governed(c.action), c.entityType, c.entityId, c.occurredAt,
                       GovernanceRequested)}
  {
    hide Valid, IngestStep, MaterializeStep, ExpireStep, GovernStep;
    if Step(t, op).reply.Failed? {
      RefusedKeepsState(t, op);
    } else {
      match op
      case Ingest(d, now) => IngestAdds(t, d, now);
      case Materialize(d) => MaterializeAdds(t, d);
      case Expire(asOf) => ExpireAdds(t, asOf);
      case Govern(c) => GovernAdds(t, c);
    }
  }

  lemma IngestAdds(t: Tables, d: EventDraft, now: int)
    requires !IngestStep(t, d, now).reply.Failed?
    ensures IngestStep(t, d, now).state.audit == t.audit +
      if EventKey(d) in t.events then multiset{}
      else multiset{AuditRow(d.scope, Ingested, RawEvent, d.eventId, now, EventIngested)}
  {
    hide ReadReceipt, ReceiptAt, SameEvent, TombsReadable, NewEventRow;
  }

  lemma MaterializeAdds(t: Tables, d: MemoryDraft)
    requires MemoryDraftOk(d) && !MaterializeStep(t, d).reply.Failed?
    ensures MaterializeStep(t, d).state.audit == t.audit +
      if MemoryKey(d) in t.memories then multiset{}
      else multiset{AuditRow(d.scope, Materialized, Memory, d.memoryId, d.createdAt, MemoryMaterialized)}
  {
    hide TombsReadable, PrintTombsReadable, PrintTombstoned, DraftPrint, MemoryAt, SameMemory, SourcesError, DraftRows,
      NewMemoryRow, ReadMemory, MinOf, NewEdges;
  }

  lemma ExpireAdds(t: Tables, asOf: int)
    requires Valid(t) && !ExpireStep(t, asOf).reply.Failed?
    ensures var u := ExpireStep(t, asOf).state;
            u.audit == t.audit + multiset(set k | k in t.bodies && k !in u.bodies ::
                                            AuditRow(k.scope, Expired, RawEvent, k.id, asOf, RawContentExpired))
  {
    hide ReadReceipt, EventsReadable, MemoriesReadable, AuditReadable, TombstonesReadable, NoneResurrected;
    var u := ExpireStep(t, asOf).state;
    assert forall k :: k in Due(t, asOf) <==> k in t.bodies && k !in u.bodies;
    assert ExpireRows(Due(t, asOf), asOf)
      == set k | k in t.bodies && k !in u.bodies :: AuditRow(k.scope, Expired, RawEvent, k.id, asOf, RawContentExpired);
  }

  lemma GovernAdds(t: Tables, c: Command)
    requires !GovernStep(t, c).reply.Failed?
    ensures GovernStep(t, c).state.audit == t.audit + multiset{GovernRow(c)}
  {
    hide LineageAgrees, ReadReceipt, MissingError;
  }
}
