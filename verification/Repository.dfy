/** The SQLite repository as it runs: one transaction at a time over a private copy of the tables, committed whole or
    not at all. Any attempt to begin, to execute or to commit may be interrupted (busy database, I/O error, signal):
    which ones are is an input. The rest is as the policy says, for any table contents. */
module Repository {
  import opened Wrappers
  import opened TextOrder
  import opened StableSort
  import opened Metadata
  import opened Fingerprint
  import opened Domain
  import opened Tables
  import opened Policy
  import opened Invariant
  import opened Plans
  import opened Recall
  import opened Grouping
  import opened AuditTrail
  import opened Interruptions

  datatype Sent = Accepted | Rejected | Overflowed | Interrupted

  function Abort(s: Sent): Reply {
    Failed(if s.Overflowed? then TooLargeForColumn else Corruption)
  }

  class SQLiteRepository {
    var committed: Tables
    var work: Tables
    ghost var sent: seq<Statement>

    /** Whether the n-th attempt of this repository's life is interrupted. */
    const fails: nat -> bool
    var attempts: nat

    /** No attempt since number `from` was interrupted. */
    ghost predicate Undisturbed(from: nat)
      reads `attempts
    {
      Faults(fails, attempts) == Faults(fails, from)
    }

    /** The open transaction sees the committed tables with its own statements applied. */
    ghost predicate Open()
      reads `committed, `work, `sent
    {
      ExecAll(sent, committed) == Done(work)
    }

    constructor (fails: nat -> bool)
      ensures committed == EMPTY && this.fails == fails && attempts == 0
    {
      committed, work, sent, attempts, this.fails := EMPTY, EMPTY, [], 0, fails;
    }

    /** A statement that changes nothing: what a reader sends. */
    method Attempt() returns (ok: bool)
      modifies `attempts
      ensures attempts == old(attempts) + 1
      ensures Faults(fails, attempts) == Faults(fails, old(attempts)) + if ok then 0 else 1
    {
      ok := !fails(attempts);
      attempts := attempts + 1;
    }

    /** `BEGIN IMMEDIATE`. */
    method Begin() returns (ok: bool)
      modifies `work, `sent, `attempts
      ensures attempts == old(attempts) + 1
      ensures Faults(fails, attempts) == Faults(fails, old(attempts)) + if ok then 0 else 1
      ensures Open() && work == committed && sent == []
    {
      ok := Attempt();
      work, sent := committed, [];
      ExecNone(committed);
    }

    method Execute(s: Statement) returns (r: Sent)
      requires Open()
      modifies `work, `sent, `attempts
      ensures attempts == old(attempts) + 1
      ensures Faults(fails, attempts) == Faults(fails, old(attempts)) + if r.Interrupted? then 1 else 0
      ensures r.Accepted? ==> Open() && sent == old(sent) + [s] && Exec(s, old(work)) == Done(work)
      ensures !r.Accepted? ==> work == old(work) && sent == old(sent)
      ensures r.Rejected? ==> Exec(s, work).Violated?
      ensures r.Overflowed? ==> Exec(s, work).TooLarge?
    {
      hide Exec, ExecAll, Faults;
      var ok := Attempt();
      if !ok {
        return Interrupted;
      }
      match Exec(s, work)
      case Done(next) =>
        ExecSnoc(sent, s, committed);
        work, sent := next, sent + [s];
        return Accepted;
      case Violated => return Rejected;
      case TooLarge => return Overflowed;
    }

    method Commit() returns (ok: bool)
      requires Open()
      modifies `committed, `attempts
      ensures attempts == old(attempts) + 1
      ensures Faults(fails, attempts) == Faults(fails, old(attempts)) + if ok then 0 else 1
      ensures committed == if ok then work else old(committed)
    {
      ok := Attempt();
      if ok {
        committed := work;
      }
    }

    method Rollback()
      modifies `work, `sent
      ensures work == committed && sent == []
    {
      work, sent := committed, [];
    }

    /** An operation is answered unless one of its attempts was interrupted. Answered, it did exactly what the policy
        says, in one transaction of the planned statements; interrupted, it changed nothing. */
    ghost predicate Answered(before: Tables, from: nat, op: Op, done: bool, reply: Reply)
      requires OpOk(op)
      reads this
    {
      && from <= attempts
      && (done <==> Undisturbed(from))
      && if done then
           && Outcome(reply, committed) == Step(before, op)
           && (!reply.Failed? ==> IsPlan(before, op, sent) && attempts == from + |sent| + 2)
         else committed == before
    }

    method IngestEvent(d: EventDraft, now: int) returns (done: bool, reply: Reply)
      requires EventDraftOk(d) && IsTime(now)
      modifies this
      ensures Answered(old(committed), old(attempts), Ingest(d, now), done, reply)
    {
      hide Faults, ReadReceipt, Ingested', SameEvent, NewEventRow, TombsReadable, ExecAll, JsonValid;
      ghost var t := committed;
      var k := EventKey(d);
      reply := Failed(Corruption);
      if d.source.occurredAt + d.rawTtl > MAX_TIME {
        return true, Failed(ValidationError(RawExpiresAt));
      }
      done := Begin();
      if !done {
        return;
      }
      if !TombsReadable(work, d.scope, d.eventId) {
        Rollback();
        return true, Failed(Corruption);
      }
      if TombKey(d.scope, RawEvent, d.eventId) in work.tombstones {
        Rollback();
        return true, Failed(EntityDeleted(d.eventId));
      }
      if k in work.events {
        match ReceiptAt(work, k)
        case None =>
          Rollback();
          return true, Failed(Corruption);
        case Some(r) =>
          if !SameEvent(r, d) {
            Rollback();
            return true, Failed(IdempotencyConflict(d.eventId));
          }
          done := Commit();
          return done, Received(r);
      }
      done, reply := StoreEvent(d, now);
    }

    /** The insertions of a new event: audit row, receipt, body; then the receipt is read back. */
    method StoreEvent(d: EventDraft, now: int) returns (done: bool, reply: Reply)
      requires EventDraftOk(d) && IsTime(now) && Open() && work == committed && sent == []
      requires EventKey(d) !in work.events
      requires d.source.occurredAt + d.rawTtl <= MAX_TIME && TombsReadable(work, d.scope, d.eventId)
      requires TombKey(d.scope, RawEvent, d.eventId) !in work.tombstones
      modifies this
      ensures old(attempts) <= attempts && (done <==> Undisturbed(old(attempts)))
      ensures done ==> Outcome(reply, committed) == IngestStep(old(committed), d, now)
      ensures done && !reply.Failed? ==> sent == IngestWrites(d, now) && attempts == old(attempts) + |sent| + 1
      ensures !done ==> committed == old(committed)
    {
      hide Faults, ReadReceipt, Ingested', SameEvent, NewEventRow, TombsReadable, ExecAll, JsonValid, IngestStep;
      ghost var t := committed;
      var k := EventKey(d);
      reply := Failed(Corruption);
      IngestStores(t, d, now);
      var s := Execute(InsertAudit(AuditRow(d.scope, Ingested, RawEvent, d.eventId, now, EventIngested)));
      if !s.Accepted? {
        Rollback();
        return !s.Interrupted?, Abort(s);
      }
      FreshChecks(d, now);
      s := Execute(InsertEvent(k, NewEventRow(d, now)));
      if !s.Accepted? {
        Rollback();
        return !s.Interrupted?, Abort(s);
      }
      s := Execute(InsertBody(k, d.content));
      if !s.Accepted? {
        Rollback();
        return !s.Interrupted?, Abort(s);
      }
      IngestExecutes(t, d, now);
      assert sent == IngestWrites(d, now);
      assert ReceiptAt(work, k) == ReadReceipt(k, NewEventRow(d, now), true) by { AfterIngest(t, d, now); }
      match ReceiptAt(work, k)
      case None => assert false;
      case Some(r) =>
        done := Commit();
        return done, Received(r);
    }

    /** The receipts of a draft's sources, read in the draft's order, or the error of the first unusable one. */
    method LoadSources(scope: Scope, ids: seq<string>) returns (error: Option<Error>, receipts: seq<Receipt>)
      ensures error == SourcesError(work, scope, ids)
      ensures error.None? ==> |receipts| == |ids|
      ensures error.None? ==> forall i :: 0 <= i < |ids| ==> IsReceipt(work, Key(scope, ids[i]), receipts[i])
    {
      hide Faults, ReadReceipt, SourceError, SourcesError, Usable;
      receipts := [];
      var i := 0;
      while i < |ids|
        invariant 0 <= i <= |ids| && |receipts| == i
        invariant SourcesError(work, scope, ids) == SourcesError(work, scope, ids[i..])
        invariant forall j :: 0 <= j < i ==> IsReceipt(work, Key(scope, ids[j]), receipts[j])
      {
        SourcesErrorHead(work, scope, ids[i..]);
        assert ids[i..][1..] == ids[i + 1..];
        var e := SourceError(work, scope, ids[i]);
        if e.Some? {
          return e, [];
        }
        UsableReceipt(work, Key(scope, ids[i]));
        receipts := receipts + [ReceiptAt(work, Key(scope, ids[i])).value];
        i := i + 1;
      }
      SourcesErrorHead(work, scope, ids[i..]);
      return None, receipts;
    }

    method MaterializeOnce(d: MemoryDraft) returns (done: bool, reply: Reply)
      requires MemoryDraftOk(d)
      modifies this
      ensures Answered(old(committed), old(attempts), Materialize(d), done, reply)
    {
      hide Faults, ExecAll, ReadReceipt, ReadMemory, TombsReadable, PrintTombsReadable, PrintTombstoned, DraftPrint,
        SourcesError, SameMemory, SourceRows, Derivable, MaterializeStep, MaterializeWrites, MinOf, DraftRows,
        IngestStep, ExpireStep, GovernStep, IsExpirePlan, IsGovernPlan, IngestWrites;
      ghost var t := committed;
      var k := MemoryKey(d);
      MaterializeExits(t, d);
      reply := Failed(Corruption);
      done := Begin();
      if !done {
        return;
      }
      if !TombsReadable(work, d.scope, d.memoryId) {
        Rollback();
        return true, Failed(Corruption);
      }
      if TombKey(d.scope, Memory, d.memoryId) in work.tombstones {
        Rollback();
        return true, Failed(EntityDeleted(d.memoryId));
      }
      if !PrintTombsReadable(work, d.scope, DraftPrint(d)) {
        Rollback();
        return true, Failed(Corruption);
      }
      if PrintTombstoned(work, d.scope, DraftPrint(d)) {
        Rollback();
        return true, Failed(EntityDeleted(d.memoryId));
      }
      if k in work.memories {
        match MemoryAt(work, k)
        case None =>
          Rollback();
          return true, Failed(Corruption);
        case Some(r) =>
          if !SameMemory(r, d) {
            Rollback();
            return true, Failed(IdempotencyConflict(d.memoryId));
          }
          done := Commit();
          return done, Recorded(r);
      }
      var error, receipts := LoadSources(d.scope, d.sources);
      if error.Some? {
        Rollback();
        return true, Failed(error.value);
      }
      LoadedMinima(t, d, receipts);
      MaterializeStores(t, d);
      if d.trust > MinOf(ReceiptTrusts(receipts)) {
        Rollback();
        return true, Failed(TrustEscalation(d.memoryId));
      }
      var row := DerivedRow(d, receipts);
      if row.clearUntil > MAX_TIME || row.recallUntil > MAX_TIME {
        Rollback();
        return true, Failed(ValidationError(CreatedAt));
      }
      DerivableFrom(t, d);
      done, reply := StoreMemory(d, row);
    }

    /** The lineage edges of a new memory, one per source in sorted order. */
    method InsertEdges(ghost t: Tables, k: Key, order: seq<string>) returns (s: Sent)
      requires Open() && k in work.memories && work == t.(memories := t.memories[k := work.memories[k]])
      requires forall i, j :: 0 <= i < j < |order| ==> order[i] != order[j]
      requires forall x :: x in order ==> Key(k.scope, x) in t.events && ReceiptAt(t, Key(k.scope, x)).Some?
      modifies `work, `sent, `attempts
      ensures old(attempts) <= attempts && (s.Interrupted? <==> !Undisturbed(old(attempts)))
      ensures s.Accepted? ==> attempts == old(attempts) + |sent| - |old(sent)|
      ensures s.Accepted? ==> Open() && sent == old(sent) + EdgeInserts(t, k, order)
      ensures s.Accepted? ==> work == WithEdges(t, k, old(work).memories[k], Elements(order))
      ensures s.Accepted? ==> forall x :: x in order ==> EdgeKey(k.scope, k.id, x) !in t.edges
      ensures s.Rejected? ==> exists e :: e in t.edges && e.scope == k.scope && e.memory == k.id
      ensures !s.Overflowed?
    {
      hide Faults, ExecAll, ReadReceipt, EdgeInserts, NewEdges, Exec;
      ghost var row := work.memories[k];
      NoEdgesYet(t, k, row);
      assert order[..0] == [];
      var i := 0;
      while i < |order|
        invariant 0 <= i <= |order|
        invariant Open() && sent == old(sent) + EdgeInserts(t, k, order[..i])
        invariant attempts == old(attempts) + |sent| - |old(sent)| && Undisturbed(old(attempts))
        invariant work == WithEdges(t, k, row, Elements(order[..i]))
        invariant forall j :: 0 <= j < i ==> EdgeKey(k.scope, k.id, order[j]) !in t.edges
      {
        NextEdge(t, k, row, order, i);
        assert EdgeInsert(work, k, order[i]) == EdgeInsert(t, k, order[i]);
        s := Execute(EdgeInsert(work, k, order[i]));
        assert s.Rejected? ==> EdgeKey(k.scope, k.id, order[i]).memory == k.id;
        if !s.Accepted? {
          return;
        }
        i := i + 1;
      }
      assert order[..i] == order;
      return Accepted;
    }

    /** The insertions of a new memory: its row, one edge per source in sorted order, the audit row. */
    method InsertRows(d: MemoryDraft, row: MemoryRow) returns (s: Sent)
      requires MemoryDraftOk(d) && Open() && work == committed && sent == []
      requires MemoryKey(d) !in work.memories && Derivable(work, d)
      requires row == NewMemoryRow(d, DraftRows(work, d.scope, Elements(d.sources)))
      modifies `work, `sent, `attempts
      ensures old(attempts) <= attempts && (s.Interrupted? <==> !Undisturbed(old(attempts)))
      ensures s.Accepted? ==> Open() && work == Materialized'(committed, d) && sent == MaterializeWrites(committed, d)
      ensures s.Accepted? ==> attempts == old(attempts) + |sent|
      ensures s.Accepted? ==>
        forall x :: x in Elements(d.sources) ==> EdgeKey(d.scope, d.memoryId, x) !in committed.edges
      ensures s.Rejected? ==> Orphaned(committed, d)
      ensures !s.Overflowed?
    {
      hide Faults, ExecAll, Derivable, NewEdges, DraftRows, NewMemoryRow, EdgeInserts, MaterializeWrites,
        Materialized', WithEdges, Exec, Orphaned, ReadReceipt;
      ghost var t := committed;
      var k := MemoryKey(d);
      DraftHasRows(d);
      DerivableSources(t, d);
      RowFits(t, d);
      JustInserted(t, k, row);
      s := Execute(InsertMemory(k, row));
      if !s.Accepted? {
        return;
      }
      var order := SortedIn(Elements(d.sources));
      IncreasingIsDistinct(order);
      s := InsertEdges(t, k, order);
      if !s.Accepted? {
        OrphanFound(t, d, s.Rejected?);
        return;
      }
      assert Elements(order) == Elements(d.sources);
      AuditDone(MaterializeRow(d), work);
      s := Execute(InsertAudit(MaterializeRow(d)));
      if s.Accepted? {
        StoredState(t, d, row);
        StoredWrites(t, d, row, EdgeInserts(t, k, order));
      }
    }

    /** A new memory is inserted and read back. */
    method StoreMemory(d: MemoryDraft, row: MemoryRow) returns (done: bool, reply: Reply)
      requires MemoryDraftOk(d) && Open() && work == committed && sent == []
      requires Clear(work, d) && MemoryKey(d) !in work.memories
      requires SourcesError(work, d.scope, d.sources).None? && Derivable(work, d)
      requires row == NewMemoryRow(d, DraftRows(work, d.scope, Elements(d.sources)))
      modifies this
      ensures old(attempts) <= attempts && (done <==> Undisturbed(old(attempts)))
      ensures done ==> Outcome(reply, committed) == MaterializeStep(old(committed), d)
      ensures done && !reply.Failed? ==>
        IsMaterializePlan(old(committed), d, sent) && attempts == old(attempts) + |sent| + 1
      ensures !done ==> committed == old(committed)
    {
      hide Faults, ExecAll, ReadMemory, Clear, SourcesError, SourceRows, Derivable, MaterializeStep, NewEdges,
        DraftRows, NewMemoryRow, MinOf, MaterializeWrites, Materialized', Exec, Orphaned, ReadReceipt;
      ghost var t := committed;
      WhatIsStored(t, d, row);
      var s := InsertRows(d, row);
      if !s.Accepted? {
        Rollback();
        return !s.Interrupted?, Abort(s);
      }
      ReadBack(t, d, work);
      match MemoryAt(work, MemoryKey(d))
      case None =>
        Rollback();
        return true, Failed(Corruption);
      case Some(r) =>
        done := Commit();
        return done, Recorded(r);
    }

    /** The rows of a query without ORDER BY: every key once, in whatever order. */
    method SelectAll(s: set<Key>) returns (order: seq<Key>)
      ensures Enumerates(order, s)
    {
      order := [];
      var rest := s;
      while rest != {}
        invariant rest <= s
        invariant forall k :: k in order <==> k in s && k !in rest
        invariant forall i, j :: 0 <= i < j < |order| ==> order[i] != order[j]
        decreases |rest|
      {
        var k :| k in rest;
        order, rest := order + [k], rest - {k};
      }
    }

    /** The receipts whose body is present and due, or nothing when some receipt does not read back. */
    method SelectDue(asOf: int) returns (due: Option<seq<Key>>)
      ensures due.None? <==> exists k :: k in work.events && ReceiptAt(work, k).None?
      ensures due.Some? ==> Enumerates(due.value, Due(work, asOf))
    {
      hide Faults, ReadReceipt;
      var rows := SelectAll(work.events.Keys);
      var eligible: seq<Key> := [];
      var i := 0;
      while i < |rows|
        invariant 0 <= i <= |rows|
        invariant forall j :: 0 <= j < i ==> ReceiptAt(work, rows[j]).Some?
        invariant forall k :: k in eligible <==> k in rows[..i] && k in Due(work, asOf)
        invariant forall a, b :: 0 <= a < b < |eligible| ==> eligible[a] != eligible[b]
      {
        assert rows[i] in rows;
        assert rows[..i + 1] == rows[..i] + [rows[i]];
        assert rows[i] !in rows[..i];
        match ReceiptAt(work, rows[i])
        case None => return None;
        case Some(r) =>
          AvailableIs(work, rows[i]);
          if r.available && r.rawExpiresAt <= asOf {
            eligible := eligible + [rows[i]];
          }
          i := i + 1;
      }
      assert rows[..i] == rows;
      return Some(eligible);
    }

    method ExpireRawContent(asOf: int) returns (done: bool, reply: Reply)
      requires IsTime(asOf)
      modifies this
      ensures Answered(old(committed), old(attempts), Expire(asOf), done, reply)
    {
      hide Faults, ReadReceipt, ExecAll, Expired', ExpireWrites, Exec;
      ghost var t := committed;
      reply := Failed(Corruption);
      done := Begin();
      if !done {
        return;
      }
      var due := SelectDue(asOf);
      if due.None? {
        Rollback();
        return true, Failed(Corruption);
      }
      var eligible := due.value;
      var i := 0;
      NoExpireWrites(asOf);
      assert eligible[..0] == [];
      while i < |eligible|
        invariant 0 <= i <= |eligible|
        invariant Open() && committed == t
        invariant sent == ExpireWrites(eligible[..i], asOf)
        invariant attempts == old(attempts) + |sent| + 1 && Undisturbed(old(attempts))
      {
        NextExpired(eligible, i, asOf);
        AlwaysDone(eligible[i], asOf, work);
        var s := Execute(DeleteBody(eligible[i]));
        if !s.Accepted? {
          Rollback();
          return false, reply;
        }
        AlwaysDone(eligible[i], asOf, work);
        s := Execute(SetEventStatus(eligible[i], EventExpired));
        if !s.Accepted? {
          Rollback();
          return false, reply;
        }
        AlwaysDone(eligible[i], asOf, work);
        s := Execute(InsertAudit(ExpireRow(eligible[i], asOf)));
        if !s.Accepted? {
          Rollback();
          return false, reply;
        }
        i := i + 1;
      }
      assert eligible[..i] == eligible;
      ExpireExecutes(t, eligible, asOf);
      assert KeySet(eligible) == Due(t, asOf);
      SizeOfKeys(eligible);
      done := Commit();
      return done, Removed(|eligible|);
    }

    /** `govern`, behind the service's gate on actions. */
    method GovernEntity(c: Command) returns (done: bool, reply: Reply)
      requires IsTime(c.occurredAt)
      modifies this
      ensures Answered(old(committed), old(attempts), Govern(c), done, reply)
    {
      hide Faults, GovernMemoryStep, DeleteEventStep, IsGovernPlan;
      if c.entityType.RawEvent? {
        if !c.action.Delete? {
          return true, Failed(ValidationError(ActionField));
        }
        done, reply := DeleteRawEvent(c);
      } else {
        done, reply := GovernMemory(c);
      }
    }

    method GovernMemory(c: Command) returns (done: bool, reply: Reply)
      requires c.entityType.Memory?
      modifies this
      ensures old(attempts) <= attempts && (done <==> Undisturbed(old(attempts)))
      ensures done ==> Outcome(reply, committed) == GovernMemoryStep(old(committed), c)
      ensures done && !reply.Failed? ==>
        IsGovernPlan(old(committed), c, sent) && attempts == old(attempts) + |sent| + 2
      ensures !done ==> committed == old(committed)
    {
      hide Faults, ExecAll, LineageAgrees, LineagePrint, MissingError, ForgetWrites, WithoutMemories;
      ghost var t := committed;
      var k := Key(c.scope, c.entityId);
      reply := Failed(Corruption);
      done := Begin();
      if !done {
        return;
      }
      if k !in work.memories {
        Rollback();
        return true, Failed(MissingError(committed, c));
      }
      if work.memories[k].status.UnknownStatus? {
        Rollback();
        return true, Failed(Corruption);
      }
      var found := LineageFingerprint(k, work.memories[k].kind);
      LineageAgreesIs(work, k, found);
      if found != Some(work.memories[k].fingerprint) {
        Rollback();
        return true, Failed(Corruption);
      }
      if (c.action.Seal? && !work.memories[k].status.Active?)
        || (c.action.Restore? && !work.memories[k].status.Sealed?) {
        Rollback();
        return true, Failed(InvalidTransition(c.entityId));
      }
      if c.action.Seal? || c.action.Restore? {
        done, reply := ChangeStatus(c);
      } else {
        done, reply := ForgetMemory(c);
      }
    }

    /** A seal or a restore: the status changes and the audit row is added. */
    method ChangeStatus(c: Command) returns (done: bool, reply: Reply)
      requires Open() && work == committed && sent == [] && c.entityType.Memory?
      requires Key(c.scope, c.entityId) in work.memories && LineageAgrees(work, Key(c.scope, c.entityId))
      requires var status := work.memories[Key(c.scope, c.entityId)].status;
               (c.action.Seal? && status.Active?) || (c.action.Restore? && status.Sealed?)
      modifies this
      ensures old(attempts) <= attempts && (done <==> Undisturbed(old(attempts)))
      ensures done ==> Outcome(reply, committed) == GovernMemoryStep(old(committed), c)
      ensures done && !reply.Failed? ==>
        IsGovernPlan(old(committed), c, sent) && attempts == old(attempts) + |sent| + 1
      ensures !done ==> committed == old(committed)
    {
      hide Faults, ExecAll, LineageAgrees, MissingError, ForgetWrites, WithoutMemories;
      reply := Failed(Corruption);
      var s := Execute(SetMemoryStatus(Key(c.scope, c.entityId), if c.action.Seal? then Sealed else Active));
      if !s.Accepted? {
        Rollback();
        return false, reply;
      }
      s := Execute(InsertAudit(GovernRow(c)));
      if !s.Accepted? {
        Rollback();
        return false, reply;
      }
      done := Commit();
      return done, Affected([c.entityId]);
    }

    method ForgetMemory(c: Command) returns (done: bool, reply: Reply)
      requires Open() && work == committed && sent == [] && c.entityType.Memory?
        && (c.action.Forget? || c.action.Delete?)
      requires Key(c.scope, c.entityId) in work.memories && LineageAgrees(work, Key(c.scope, c.entityId))
      requires !work.memories[Key(c.scope, c.entityId)].status.UnknownStatus?
      modifies this
      ensures old(attempts) <= attempts && (done <==> Undisturbed(old(attempts)))
      ensures done ==> Outcome(reply, committed) == GovernMemoryStep(old(committed), c)
      ensures done && !reply.Failed? ==>
        IsGovernPlan(old(committed), c, sent) && attempts == old(attempts) + |sent| + 1
      ensures !done ==> committed == old(committed)
    {
      hide Faults, ExecAll, Exec, LineageAgrees, ForgetWrites, WithoutMemories;
      ghost var t := committed;
      var k := Key(c.scope, c.entityId);
      var fingerprint := work.memories[k].fingerprint;
      DeletionsKeepTombstones(k, work);
      var s := Execute(DeleteEdges(k));
      if !s.Accepted? {
        Rollback();
        return false, Failed(Corruption);
      }
      DeletionsKeepTombstones(k, work);
      s := Execute(DeleteMemory(k));
      if !s.Accepted? {
        Rollback();
        return false, Failed(Corruption);
      }
      TombstoneTaken(TombKey(c.scope, Memory, c.entityId),
        Tombstone(c.occurredAt, GovernanceRequested, Some(fingerprint)), work);
      s := Execute(InsertTombstone(TombKey(c.scope, Memory, c.entityId),
                                   Tombstone(c.occurredAt, GovernanceRequested, Some(fingerprint))));
      if !s.Accepted? {
        Rollback();
        return !s.Interrupted?, Abort(s);
      }
      AuditDone(GovernRow(c), work);
      s := Execute(InsertAudit(GovernRow(c)));
      if !s.Accepted? {
        Rollback();
        return false, Failed(Corruption);
      }
      ForgetSent(t, c, sent);
      ForgetExecutes(t, c);
      done := Commit();
      return done, Affected([c.entityId]);
    }

    /** `_lineage_fingerprint`: a memory's edges one by one, each against its receipt; then their fingerprint. */
    method LineageFingerprint(k: Key, kind: string) returns (found: Option<Digest>)
      ensures found == LineagePrint(work, k, kind)
    {
      hide FingerprintOf, SourceRows, SourceIds, ReadReceipt, LineageRowOk, Elements;
      var rows := SourceRows(work, k);
      RowsOfSources(work, k);
      var ids: seq<string> := [];
      var i := 0;
      while i < |rows|
        invariant 0 <= i <= |rows| && ids == EventIds(rows[..i])
        invariant forall j :: 0 <= j < i ==> LineageRowOk(work, k.scope, rows[j])
      {
        var event, edge := Key(k.scope, rows[i].event), rows[i].edge;
        LineageRowIs(work, k.scope, rows[i]);
        if event !in work.events {
          return None;
        }
        var receipt := ReceiptAt(work, event);
        if receipt.None? {
          return None;
        }
        if edge.clearFor <= 0 || edge.recallFor < edge.clearFor || edge.trust != receipt.value.source.trust
          || edge.clearFor != receipt.value.clearFor || edge.recallFor != receipt.value.recallFor
        {
          return None;
        }
        ids := ids + [rows[i].event];
        i := i + 1;
      }
      assert rows[..i] == rows;
      if ids == [] || |Elements(ids)| != |ids| {
        return None;
      }
      return Some(FingerprintOf(k.scope, kind, Elements(ids)));
    }

    /** The memories depending on an event, each checked against its own lineage, in identifier order. */
    method LoadDependents(k: Key) returns (dependents: Option<seq<string>>)
      ensures dependents.None? <==> exists m :: m in Dependents(work, k) && !DependentOk(work, k.scope, m)
      ensures dependents.Some? ==> dependents.value == SortedIn(Dependents(work, k))
    {
      hide DependentOk, Dependents, SortedIn, Sorted, LineagePrint;
      var rows := SortedIn(Dependents(work, k));
      var i := 0;
      while i < |rows|
        invariant 0 <= i <= |rows|
        invariant forall j :: 0 <= j < i ==> DependentOk(work, k.scope, rows[j])
      {
        var m := Key(k.scope, rows[i]);
        assert rows[i] in Dependents(work, k);
        if m !in work.memories {
          DependentIs(work, m, None);
          return None;
        }
        var found := LineageFingerprint(m, work.memories[m].kind);
        DependentIs(work, m, found);
        if found != Some(work.memories[m].fingerprint) {
          return None;
        }
        i := i + 1;
      }
      return Some(rows);
    }

    method DeleteDependents(ghost t: Tables, scope: Scope, memories: seq<string>) returns (s: Sent)
      requires Open() && work == t == committed && sent == []
      modifies `work, `sent, `attempts
      ensures old(attempts) <= attempts && (s.Interrupted? <==> !Undisturbed(old(attempts)))
      ensures s.Accepted? ==> attempts == old(attempts) + |sent| - |old(sent)|
      ensures s.Accepted? || s.Interrupted?
      ensures s.Accepted? ==>
        && Open() && sent == CascadeWrites(scope, memories)
        && work == Cleared(t, scope, Elements(memories))
    {
      hide Faults, ExecAll, CascadeWrites, Cleared, WithoutEdgesOf;
      var i := 0;
      CascadeNothing(scope);
      assert memories[..0] == [];
      while i < |memories|
        invariant 0 <= i <= |memories|
        invariant Open() && sent == CascadeWrites(scope, memories[..i])
        invariant attempts == old(attempts) + |sent| && Undisturbed(old(attempts))
      {
        var k := Key(scope, memories[i]);
        s := Execute(DeleteEdges(k));
        if !s.Accepted? {
          return;
        }
        s := Execute(DeleteMemory(k));
        if !s.Accepted? {
          return;
        }
        NextCascade(scope, memories, i);
        i := i + 1;
      }
      assert memories[..i] == memories;
      CascadeExecutes(t, scope, memories);
      return Accepted;
    }

    method InsertTombstones(ghost t: Tables, c: Command, memories: seq<(string, Digest)>) returns (s: Sent)
      requires Open()
      requires forall i, j :: 0 <= i < j < |memories| ==> memories[i].0 != memories[j].0
      requires forall i :: 0 <= i < |memories| ==>
        Key(c.scope, memories[i].0) in t.memories
          && t.memories[Key(c.scope, memories[i].0)].fingerprint == memories[i].1
      modifies `work, `sent, `attempts
      ensures old(attempts) <= attempts && (s.Interrupted? <==> !Undisturbed(old(attempts)))
      ensures s.Accepted? ==> attempts == old(attempts) + |sent| - |old(sent)|
      ensures s.Accepted? ==> Open() && sent == old(sent) + TombWrites(t, c, Names(memories))
      ensures s.Accepted? ==> forall m :: m in Names(memories) ==> TombKey(c.scope, Memory, m) !in old(work).tombstones
      ensures s.Rejected? ==> exists m :: m in Names(memories) && TombKey(c.scope, Memory, m) in old(work).tombstones
      ensures !s.Overflowed?
    {
      hide Faults, ExecAll, TombWrites;
      var i := 0;
      TombNothing(t, c);
      assert Names(memories)[..0] == [];
      while i < |memories|
        invariant 0 <= i <= |memories|
        invariant Open() && sent == old(sent) + TombWrites(t, c, Names(memories)[..i])
        invariant attempts == old(attempts) + |sent| - |old(sent)| && Undisturbed(old(attempts))
        invariant forall k :: k in work.tombstones <==>
          k in old(work).tombstones || (k.scope == c.scope && k.entity.Memory? && k.id in Names(memories)[..i])
        invariant forall j :: 0 <= j < i ==> TombKey(c.scope, Memory, memories[j].0) !in old(work).tombstones
      {
        var key := TombKey(c.scope, Memory, memories[i].0);
        NextTomb(t, c, Names(memories), i);
        assert memories[i].0 == Names(memories)[i] && memories[i].0 !in Names(memories)[..i];
        assert Names(memories)[..i + 1] == Names(memories)[..i] + [memories[i].0];
        s := Execute(InsertTombstone(key, Tombstone(c.occurredAt, GovernanceRequested, Some(memories[i].1))));
        if !s.Accepted? {
          assert s.Rejected? ==> memories[i].0 in Names(memories);
          return;
        }
        i := i + 1;
      }
      assert Names(memories)[..i] == Names(memories);
      return Accepted;
    }

    method DeleteRawEvent(c: Command) returns (done: bool, reply: Reply)
      requires c.entityType.RawEvent? && c.action.Delete?
      modifies this
      ensures old(attempts) <= attempts && (done <==> Undisturbed(old(attempts)))
      ensures done ==> Outcome(reply, committed) == DeleteEventStep(old(committed), c)
      ensures done && !reply.Failed? ==>
        IsGovernPlan(old(committed), c, sent) && attempts == old(attempts) + |sent| + 2
      ensures !done ==> committed == old(committed)
    {
      hide Faults, ExecAll, ReadReceipt, MissingError, DependentOk, WithoutEvent, Dependents, Sort, IsGovernPlan;
      ghost var t := committed;
      var k := Key(c.scope, c.entityId);
      reply := Failed(Corruption);
      done := Begin();
      if !done {
        return;
      }
      if k !in work.events {
        Rollback();
        return true, Failed(MissingError(committed, c));
      }
      if ReceiptAt(work, k).None? {
        Rollback();
        return true, Failed(Corruption);
      }
      var loaded := LoadDependents(k);
      if loaded.None? {
        Rollback();
        return true, Failed(Corruption);
      }
      DependentsPresent(t, k);
      done, reply := RemoveEvent(c, loaded.value);
    }

    /** The rows of a raw deletion go: dependents with their edges, body, receipt; and the event is tombstoned. */
    method RemoveRows(c: Command, memories: seq<string>) returns (s: Sent)
      requires Open() && work == committed && sent == []
      requires memories == SortedIn(Dependents(work, Key(c.scope, c.entityId)))
      modifies `work, `sent, `attempts
      ensures old(attempts) <= attempts && (s.Interrupted? <==> !Undisturbed(old(attempts)))
      ensures s.Accepted? ==> attempts == old(attempts) + |sent| - |old(sent)|
      ensures s.Accepted? ==> Open() && sent == CascadeWrites(c.scope, memories) + EventWrites(c)
      ensures s.Accepted? ==>
        work.tombstones == committed.tombstones[TombKey(c.scope, RawEvent, c.entityId) :=
                                                  Tombstone(c.occurredAt, GovernanceRequested, None)]
      ensures s.Accepted? ==> TombKey(c.scope, RawEvent, c.entityId) !in committed.tombstones
      ensures s.Rejected? ==> TombKey(c.scope, RawEvent, c.entityId) in committed.tombstones
      ensures !s.Overflowed?
    {
      hide Faults, ExecAll, Exec, CascadeWrites, Cleared, Dependents;
      var k := Key(c.scope, c.entityId);
      s := DeleteDependents(committed, c.scope, memories);
      if !s.Accepted? {
        return;
      }
      assert Elements(memories) == Dependents(committed, k);
      EventStatements(committed, c);
      s := Execute(DeleteBody(k));
      if !s.Accepted? {
        return;
      }
      s := Execute(DeleteEvent(k));
      if !s.Accepted? {
        return;
      }
      s := Execute(InsertTombstone(TombKey(c.scope, RawEvent, c.entityId),
        Tombstone(c.occurredAt, GovernanceRequested, None)));
    }

    /** A raw deletion: the rows, then a tombstone for every dependent and the audit row. */
    method RemoveEvent(c: Command, memories: seq<string>) returns (done: bool, reply: Reply)
      requires Open() && work == committed && sent == [] && c.entityType.RawEvent? && c.action.Delete?
      requires Key(c.scope, c.entityId) in work.events && ReceiptAt(work, Key(c.scope, c.entityId)).Some?
      requires memories == SortedIn(Dependents(work, Key(c.scope, c.entityId)))
      requires forall m :: m in Dependents(work, Key(c.scope, c.entityId)) ==>
        DependentOk(work, c.scope, m) && Key(c.scope, m) in work.memories
      modifies this
      ensures old(attempts) <= attempts && (done <==> Undisturbed(old(attempts)))
      ensures done ==> Outcome(reply, committed) == DeleteEventStep(old(committed), c)
      ensures done && !reply.Failed? ==>
        IsGovernPlan(old(committed), c, sent) && attempts == old(attempts) + |sent| + 1
      ensures !done ==> committed == old(committed)
    {
      hide Faults, ExecAll, Exec, ReadReceipt, DependentOk, WithoutEvent, CascadeWrites, TombWrites, Dependents, Sort,
        EventWrites, IsGovernPlan, DeleteEventStep, DeleteEventWrites, SortedIn, Increasing, LineageAgrees, Elements;
      ghost var t := committed;
      reply := Failed(Corruption);
      RemovalOutcome(t, c);
      var tombs := WithPrints(work, c.scope, memories);
      IncreasingIsDistinct(memories);
      var s := RemoveRows(c, memories);
      if !s.Accepted? {
        Rollback();
        return !s.Interrupted?, Abort(s);
      }
      s := InsertTombstones(t, c, tombs);
      if !s.Accepted? {
        Rollback();
        return !s.Interrupted?, Abort(s);
      }
      AuditDone(GovernRow(c), work);
      s := Execute(InsertAudit(GovernRow(c)));
      if !s.Accepted? {
        Rollback();
        return false, reply;
      }
      DeleteEventSent(t, c, sent);
      DeleteEventExecutes(t, c);
      done := Commit();
      return done, Affected(Sort([c.entityId] + memories, Less));
    }

    /** `_memory_record`: the lineage rows one by one, then the row against their minima. */
    static method MemoryRecordOf(k: Key, row: MemoryRow, rows: seq<SourceRow>) returns (record: Option<MemoryRecord>)
      ensures record == ReadMemory(k, row, rows)
    {
      hide FingerprintOf, MinOf, Decode;
      var ids: seq<string> := [];
      var trusts: seq<int> := [];
      var clears: seq<int> := [];
      var recalls: seq<int> := [];
      var i := 0;
      while i < |rows|
        invariant 0 <= i <= |rows|
        invariant ids == EventIds(rows[..i]) && trusts == Trusts(rows[..i])
        invariant clears == ClearPeriods(rows[..i]) && recalls == RecallPeriods(rows[..i])
        invariant forall j :: 0 <= j < i ==> SourceRowOk(rows[j])
      {
        if !SourceRowOk(rows[i]) {
          return None;
        }
        ids := ids + [rows[i].event];
        trusts := trusts + [rows[i].edge.trust];
        clears := clears + [rows[i].edge.clearFor];
        recalls := recalls + [rows[i].edge.recallFor];
        i := i + 1;
      }
      assert rows[..i] == rows;
      if rows == [] || row.fingerprint != FingerprintOf(k.scope, row.kind, Elements(ids)) {
        return None;
      }
      if !IsTrust(row.trust) || row.trust > MinOf(trusts) {
        return None;
      }
      if !IsTime(row.createdAt) || !IsTime(row.clearUntil) || !IsTime(row.recallUntil) {
        return None;
      }
      if row.clearUntil != row.createdAt + MinOf(clears) || row.recallUntil != row.createdAt + MinOf(recalls) {
        return None;
      }
      match Decode(row.metadata)
      case None => return None;
      case Some(metadata) =>
        if row.status.UnknownStatus? {
          return None;
        }
        return Some(MemoryRecord(
                      k.id, k.scope, row.content, ids, row.fingerprint, row.kind, row.trust, row.createdAt,
                      row.clearUntil, row.recallUntil, row.status, metadata));
    }

    /** The batched lineage rows, grouped by memory. */
    static method GroupRows(rows: seq<Tagged>) returns (groups: map<string, seq<SourceRow>>)
      ensures forall m :: m in groups <==> GroupOf(rows, m) != []
      ensures forall m :: m in groups ==> groups[m] == GroupOf(rows, m)
    {
      groups := map[];
      var i := 0;
      while i < |rows|
        invariant 0 <= i <= |rows|
        invariant forall m :: m in groups <==> GroupOf(rows[..i], m) != []
        invariant forall m :: m in groups ==> groups[m] == GroupOf(rows[..i], m)
      {
        var m := rows[i].memory;
        assert rows[..i + 1][..i] == rows[..i];
        groups := groups[m := (if m in groups then groups[m] else []) + [rows[i].row]];
        i := i + 1;
      }
      assert rows[..i] == rows;
    }

    /** Every memory of a scope decoded against its own group, in the order the rows came; nothing if one fails. */
    method DecodeAll(scope: Scope, order: seq<Key>, groups: map<string, seq<SourceRow>>)
      returns (records: Option<seq<MemoryRecord>>)
      requires forall k :: k in order ==> k.scope == scope && k in committed.memories
      requires forall m :: GroupFor(groups, m) == SourceRows(committed, Key(scope, m))
      ensures records.None? <==> exists k :: k in order && MemoryAt(committed, k).None?
      ensures records.Some? ==>
        && |records.value| == |order|
        && forall i :: 0 <= i < |order| ==> MemoryAt(committed, order[i]) == Some(records.value[i])
    {
      hide Faults, ReadMemory, SourceRows;
      var rs: seq<MemoryRecord> := [];
      var i := 0;
      while i < |order|
        invariant 0 <= i <= |order| && |rs| == i
        invariant forall j :: 0 <= j < i ==> MemoryAt(committed, order[j]) == Some(rs[j])
      {
        var k := order[i];
        assert k == Key(scope, k.id);
        var r := MemoryRecordOf(k, committed.memories[k], GroupFor(groups, k.id));
        if r.None? {
          return None;
        }
        rs := rs + [r.value];
        i := i + 1;
      }
      return Some(rs);
    }

    static method KeepEligible(records: seq<MemoryRecord>, q: Query) returns (eligible: seq<MemoryRecord>)
      requires forall i, j :: 0 <= i < j < |records| ==> records[i].memoryId != records[j].memoryId
      ensures forall m :: m in eligible <==> m in records && Eligible(m, q.asOf, q.kinds)
      ensures forall i, j :: 0 <= i < j < |eligible| ==> eligible[i].memoryId != eligible[j].memoryId
    {
      hide Eligible;
      eligible := [];
      var i := 0;
      while i < |records|
        invariant 0 <= i <= |records|
        invariant forall m :: m in eligible <==> m in records[..i] && Eligible(m, q.asOf, q.kinds)
        invariant forall a, b :: 0 <= a < b < |eligible| ==> eligible[a].memoryId != eligible[b].memoryId
      {
        assert records[..i + 1] == records[..i] + [records[i]];
        assert forall m :: m in records[..i] ==> m.memoryId != records[i].memoryId;
        assert forall a :: 0 <= a < |eligible| ==> eligible[a] in records[..i];
        if Eligible(records[i], q.asOf, q.kinds) {
          eligible := eligible + [records[i]];
        }
        i := i + 1;
      }
      assert records[..i] == records;
    }

    /** `recall_candidates`, on any tables: it changes nothing and, undisturbed, answers exactly when the whole scope
        decodes, whatever the time and the kinds asked for. */
    method RecallCandidates(q: Query) returns (done: bool, found: Option<seq<MemoryRecord>>)
      modifies `attempts
      ensures old(attempts) <= attempts && (done <==> Undisturbed(old(attempts)))
      ensures done ==> attempts == old(attempts) + if found.Some? then 4 else 3
      ensures done ==> (found.Some? <==> Recallable(committed, q.scope))
      ensures done && found.Some? ==>
        && (forall m :: m in found.value <==> m in Candidates(committed, q))
        && (forall i, j :: 0 <= i < j < |found.value| ==> found.value[i].memoryId != found.value[j].memoryId)
    {
      hide Faults, Recallable, Candidates;
      found := None;
      done := Attempt();
      if !done {
        return;
      }
      done := Attempt();
      if !done {
        return;
      }
      done := Attempt();
      if !done {
        return;
      }
      var eligible := SelectCandidates(q);
      if eligible.None? {
        return true, None;
      }
      done := Attempt();
      if !done {
        return;
      }
      return true, eligible;
    }

    /** Both queries: the scope's memories, and its lineage rows in one batch. */
    method SelectCandidates(q: Query) returns (found: Option<seq<MemoryRecord>>)
      ensures found.Some? <==> Recallable(committed, q.scope)
      ensures found.Some? ==>
        && (forall m :: m in found.value <==> m in Candidates(committed, q))
        && (forall i, j :: 0 <= i < j < |found.value| ==> found.value[i].memoryId != found.value[j].memoryId)
    {
      hide ReadMemory, SourceRows, ScopeRows, Eligible, Recallable, GroupOf, GroupFor, Candidates;
      var order := SelectAll(set k | k in committed.memories && k.scope == q.scope);
      var groups := GroupRows(ScopeRows(committed, q.scope));
      GroupsAre(committed, q.scope, groups);
      var decoded := DecodeAll(q.scope, order, groups);
      RecallableIs(committed, q.scope, order);
      if decoded.None? || groups.Keys != MemoryIds(committed, q.scope) {
        return None;
      }
      DecodedIds(committed, order, decoded.value);
      var eligible := KeepEligible(decoded.value, q);
      EligibleAreCandidates(committed, q, order, decoded.value, eligible);
      return Some(eligible);
    }

    /** `audit`: a scope's rows, all validated, newest first, cut to the limit. */
    method Audit(scope: Scope, limit: nat, log: seq<Labelled>) returns (done: bool, answer: Option<seq<Labelled>>)
      requires IsLog(committed, log)
      modifies `attempts
      ensures old(attempts) <= attempts && (done <==> Undisturbed(old(attempts)))
      ensures done ==> attempts == old(attempts) + if answer.Some? then 3 else 2
      ensures done ==> (answer.None? <==> exists r :: r in committed.audit && r.scope == scope && !AuditRowOk(r))
      ensures done && answer.Some? ==> IsListing(log, scope, limit, answer.value)
    {
      hide Faults, InScope, IsLog, Sort, AuditRowOk;
      answer := None;
      done := Attempt();
      if !done {
        return;
      }
      done := Attempt();
      if !done {
        return;
      }
      var rows := InScope(log, scope);
      LogRows(committed, log);
      SliceIsListing(log, scope, limit) by { LogIsDistinct(committed, log); }
      var i := 0;
      while i < |rows|
        invariant 0 <= i <= |rows|
        invariant forall j :: 0 <= j < i ==> AuditRowOk(rows[j].row)
      {
        if !AuditRowOk(rows[i].row) {
          assert rows[i] in log;
          return true, None;
        }
        i := i + 1;
      }
      var records := Sort(rows, IdAfter);
      records := Sort(records, MoreRecent);
      assert records == NewestFirst(rows);
      done := Attempt();
      if !done {
        return;
      }
      return true, Some(records[..if |rows| <= limit then |rows| else limit]);
    }
  }

  function GroupFor(groups: map<string, seq<SourceRow>>, m: string): seq<SourceRow> {
    if m in groups then groups[m] else []
  }

  lemma GroupsAre(t: Tables, scope: Scope, groups: map<string, seq<SourceRow>>)
    requires forall m :: m in groups <==> GroupOf(ScopeRows(t, scope), m) != []
    requires forall m :: m in groups ==> groups[m] == GroupOf(ScopeRows(t, scope), m)
    ensures forall m :: GroupFor(groups, m) == SourceRows(t, Key(scope, m))
    ensures groups.Keys == EdgeOwners(t, scope)
  {
    hide SourceRows, ScopeRows;
    forall m
      ensures GroupFor(groups, m) == SourceRows(t, Key(scope, m))
      ensures m in groups <==> m in EdgeOwners(t, scope)
    {
      GroupsAreLineages(t, scope, m);
      OwnersHaveRows(t, scope, m);
    }
  }

  lemma OwnersHaveRows(t: Tables, scope: Scope, m: string)
    ensures m in EdgeOwners(t, scope) <==> SourceRows(t, Key(scope, m)) != []
  {
    if m in EdgeOwners(t, scope) {
      var e :| e in t.edges && e.scope == scope && e.memory == m;
      assert e == EdgeKey(scope, m, e.event);
      assert e.event in SourceIds(t, Key(scope, m));
    } else {
      NoRows(t, scope, m);
    }
  }

  lemma RecallableIs(t: Tables, scope: Scope, order: seq<Key>)
    requires forall k :: k in order <==> k in t.memories && k.scope == scope
    ensures Recallable(t, scope) <==>
      !(exists k :: k in order && MemoryAt(t, k).None?) && EdgeOwners(t, scope) == MemoryIds(t, scope)
  {
    hide ReadMemory, SourceRows;
    if k :| k in order && MemoryAt(t, k).None? {
      assert k == Key(scope, k.id);
      assert k.id in MemoryIds(t, scope);
    }
  }

  lemma DecodedIds(t: Tables, order: seq<Key>, records: seq<MemoryRecord>)
    requires |records| == |order| && forall k :: k in order ==> k in t.memories
    requires forall i, j :: 0 <= i < j < |order| ==> order[i] != order[j]
    requires forall i, j :: 0 <= i < j < |order| ==> order[i].scope == order[j].scope
    requires forall i :: 0 <= i < |order| ==> MemoryAt(t, order[i]) == Some(records[i])
    ensures forall i :: 0 <= i < |order| ==> records[i].memoryId == order[i].id
    ensures forall i, j :: 0 <= i < j < |records| ==> records[i].memoryId != records[j].memoryId
  {
    hide ReadMemory, SourceRows;
    forall i | 0 <= i < |order|
      ensures records[i].memoryId == order[i].id
    {
      RecordIdentity(order[i], t.memories[order[i]], SourceRows(t, order[i]));
    }
  }

  lemma EligibleAreCandidates(t: Tables, q: Query, order: seq<Key>, records: seq<MemoryRecord>,
                              eligible: seq<MemoryRecord>)
    requires Recallable(t, q.scope) && |records| == |order|
    requires forall k :: k in order <==> k in t.memories && k.scope == q.scope
    requires forall i :: 0 <= i < |order| ==>
      && MemoryAt(t, order[i]) == Some(records[i])
      && records[i].memoryId == order[i].id
    requires forall m :: m in eligible <==> m in records && Eligible(m, q.asOf, q.kinds)
    ensures forall m :: m in eligible <==> m in Candidates(t, q)
  {
    hide ReadMemory, SourceRows, Recallable, Eligible;
    forall m
      ensures m in eligible <==> m in Candidates(t, q)
    {
      if m in eligible {
        var i :| 0 <= i < |records| && records[i] == m;
        assert order[i] in order;
        assert order[i] == Key(q.scope, m.memoryId);
      }
      if m in Candidates(t, q) {
        var k := Key(q.scope, m.memoryId);
        assert k in order;
        var i :| 0 <= i < |order| && order[i] == k;
        assert records[i] == m;
      }
    }
  }

  lemma LogIsDistinct(t: Tables, log: seq<Labelled>)
    requires IsLog(t, log)
    ensures Chain(log, LabelsDiffer)
  {
  }

  lemma LogRows(t: Tables, log: seq<Labelled>)
    requires IsLog(t, log)
    ensures forall r :: r in t.audit <==> exists x :: x in log && x.row == r
  {
    forall r
      ensures r in t.audit <==> exists x :: x in log && x.row == r
    {
      if r in t.audit {
        assert r in multiset(Rows(log));
        var i :| 0 <= i < |log| && Rows(log)[i] == r;
        assert log[i] in log;
      }
      if x :| x in log && x.row == r {
        var i :| 0 <= i < |log| && log[i] == x;
        assert Rows(log)[i] == r;
        assert r in multiset(Rows(log));
      }
    }
  }

  function Names(memories: seq<(string, Digest)>): (r: seq<string>)
    ensures |r| == |memories| && forall i :: 0 <= i < |r| ==> r[i] == memories[i].0
  {
    seq(|memories|, i requires 0 <= i < |memories| => memories[i].0)
  }

  function WithPrints(t: Tables, scope: Scope, memories: seq<string>): (r: seq<(string, Digest)>)
    requires forall m :: m in memories ==> Key(scope, m) in t.memories
    ensures Names(r) == memories
    ensures forall i :: 0 <= i < |r| ==> r[i].1 == t.memories[Key(scope, r[i].0)].fingerprint
  {
    var r := seq(|memories|,
      i requires 0 <= i < |memories| => (memories[i], t.memories[Key(scope, memories[i])].fingerprint));
    assert Names(r) == memories;
    r
  }

  lemma DeletionsKeepTombstones(k: Key, t: Tables)
    ensures Exec(DeleteEdges(k), t).Done? && Exec(DeleteEdges(k), t).state.tombstones == t.tombstones
    ensures Exec(DeleteMemory(k), t).Done? && Exec(DeleteMemory(k), t).state.tombstones == t.tombstones
  {
  }

  /** A tombstone is refused exactly when its identity has one. */
  lemma TombstoneTaken(k: TombKey, row: Tombstone, t: Tables)
    ensures Exec(InsertTombstone(k, row), t) ==
      if k in t.tombstones then Violated else Done(t.(tombstones := t.tombstones[k := row]))
  {
  }

  lemma ForgetSent(t: Tables, c: Command, sent: seq<Statement>)
    requires Key(c.scope, c.entityId) in t.memories
    requires sent == [] + [DeleteEdges(Key(c.scope, c.entityId))] + [DeleteMemory(Key(c.scope, c.entityId))]
      + [InsertTombstone(TombKey(c.scope, Memory, c.entityId), Tomb(t, c, c.entityId))] + [InsertAudit(GovernRow(c))]
    ensures sent == ForgetWrites(t, c)
  {
    var ms := [c.entityId];
    assert ms[..0] == [] && ms[..1] == ms;
    CascadeNothing(c.scope);
    NextCascade(c.scope, ms, 0);
    TombNothing(t, c);
    NextTomb(t, c, ms, 0);
  }

  lemma CascadeNothing(scope: Scope)
    ensures CascadeWrites(scope, []) == []
  {
  }

  lemma NextCascade(scope: Scope, memories: seq<string>, i: nat)
    requires i < |memories|
    ensures CascadeWrites(scope, memories[..i + 1])
      == CascadeWrites(scope, memories[..i]) + [DeleteEdges(Key(scope, memories[i]))]
        + [DeleteMemory(Key(scope, memories[i]))]
  {
    assert memories[..i + 1][..i] == memories[..i];
  }

  lemma TombNothing(t: Tables, c: Command)
    ensures TombWrites(t, c, []) == []
  {
  }

  lemma NextTomb(t: Tables, c: Command, memories: seq<string>, i: nat)
    requires i < |memories| && forall x :: x in memories ==> Key(c.scope, x) in t.memories
    ensures TombWrites(t, c, memories[..i + 1]) == TombWrites(t, c, memories[..i])
      + [InsertTombstone(TombKey(c.scope, Memory, memories[i]), Tomb(t, c, memories[i]))]
  {
    assert memories[..i + 1][..i] == memories[..i];
  }

  lemma RemovalOutcome(t: Tables, c: Command)
    requires Key(c.scope, c.entityId) in t.events && ReceiptAt(t, Key(c.scope, c.entityId)).Some?
    requires forall m :: m in Dependents(t, Key(c.scope, c.entityId)) ==>
      DependentOk(t, c.scope, m) && Key(c.scope, m) in t.memories
    ensures var ms := SortedIn(Dependents(t, Key(c.scope, c.entityId)));
            DeleteEventStep(t, c) ==
              if TombKey(c.scope, RawEvent, c.entityId) in t.tombstones
                 || exists m :: m in ms && TombKey(c.scope, Memory, m) in t.tombstones
              then Refused(Corruption, t)
              else Outcome(Affected(Sort([c.entityId] + ms, Less)), WithoutEvent(t, c))
  {
    hide ReadReceipt, DependentOk, WithoutEvent, Sort;
    var ds := Dependents(t, Key(c.scope, c.entityId));
    var ms := SortedIn(ds);
    assert forall m :: m in ms <==> m in ds;
  }

  lemma DependentsPresent(t: Tables, k: Key)
    requires forall m :: m in Dependents(t, k) ==> DependentOk(t, k.scope, m)
    ensures forall m :: m in Dependents(t, k) ==> Key(k.scope, m) in t.memories
  {
    hide LineageAgrees;
  }

  /** Once its dependents are gone an event is deleted without a foreign-key violation. */
  lemma EventStatements(t: Tables, c: Command)
    ensures var k := Key(c.scope, c.entityId);
            var u := Cleared(t, c.scope, Dependents(t, k));
            var v := u.(bodies := u.bodies - {k});
            var w := v.(events := v.events - {k});
            && Exec(DeleteBody(k), u) == Done(v)
            && Exec(DeleteEvent(k), v) == Done(w)
            && Exec(InsertTombstone(TombKey(c.scope, RawEvent, c.entityId),
              Tombstone(c.occurredAt, GovernanceRequested, None)), w)
               == (if TombKey(c.scope, RawEvent, c.entityId) in t.tombstones then Violated else Done(Unevented(u, c)))
            && u.tombstones == t.tombstones
  {
    var k := Key(c.scope, c.entityId);
    var u := Cleared(t, c.scope, Dependents(t, k));
    assert u.bodies - {k} - {k} == u.bodies - {k};
    forall e | e in u.edges
      ensures !(e.scope == k.scope && e.event == k.id)
    {
      assert e.scope == k.scope && e.event == k.id ==> e == EdgeKey(k.scope, e.memory, k.id);
    }
  }

  lemma DeleteEventSent(t: Tables, c: Command, sent: seq<Statement>)
    requires forall x :: x in Dependents(t, Key(c.scope, c.entityId)) ==> Key(c.scope, x) in t.memories
    requires c.entityType.RawEvent?
    requires var k := Key(c.scope, c.entityId);
             var ms := SortedIn(Dependents(t, k));
             sent == CascadeWrites(c.scope, ms) + EventWrites(c) + TombWrites(t, c, ms) + [InsertAudit(GovernRow(c))]
    ensures sent == DeleteEventWrites(t, c) && IsGovernPlan(t, c, sent)
  {
    hide CascadeWrites, TombWrites;
  }

  lemma AvailableIs(t: Tables, k: Key)
    requires k in t.events && ReceiptAt(t, k).Some?
    ensures ReceiptAt(t, k).value.available == (k in t.bodies)
    ensures ReceiptAt(t, k).value.rawExpiresAt == t.events[k].rawExpiresAt
  {
    hide Decode;
  }

  lemma AlwaysDone(k: Key, asOf: int, t: Tables)
    ensures Exec(DeleteBody(k), t).Done? && Exec(SetEventStatus(k, EventExpired), t).Done?
    ensures Exec(InsertAudit(ExpireRow(k, asOf)), t).Done?
  {
  }

  lemma NoExpireWrites(asOf: int)
    ensures ExpireWrites([], asOf) == []
  {
  }

  lemma NextExpired(order: seq<Key>, i: nat, asOf: int)
    requires i < |order|
    ensures ExpireWrites(order[..i + 1], asOf) == ExpireWrites(order[..i], asOf) + [DeleteBody(order[i])]
      + [SetEventStatus(order[i], EventExpired)] + [InsertAudit(ExpireRow(order[i], asOf))]
  {
    assert order[..i + 1][..i] == order[..i];
  }

  lemma {:induction false} SizeOfKeys(order: seq<Key>)
    requires forall i, j :: 0 <= i < j < |order| ==> order[i] != order[j]
    ensures |KeySet(order)| == |order|
  {
    if order != [] {
      var init, k := order[..|order| - 1], order[|order| - 1];
      SizeOfKeys(init);
      assert order == init + [k];
      assert KeySet(order) == KeySet(init) + {k};
      assert k !in KeySet(init);
    }
  }

  /** Everything the insertions of a new memory rely on. */
  lemma WhatIsStored(t: Tables, d: MemoryDraft, row: MemoryRow)
    requires MemoryDraftOk(d) && Clear(t, d) && MemoryKey(d) !in t.memories
    requires SourcesError(t, d.scope, d.sources).None? && Derivable(t, d)
    requires row == NewMemoryRow(d, DraftRows(t, d.scope, Elements(d.sources)))
    ensures Exec(InsertMemory(MemoryKey(d), row), t) == Done(t.(memories := t.memories[MemoryKey(d) := row]))
    ensures forall x :: x in Elements(d.sources) ==> Key(d.scope, x) in t.events && ReceiptAt(t, Key(d.scope, x)).Some?
    ensures if Orphaned(t, d)
            then MaterializeStep(t, d) == Refused(Corruption, t)
            else var rows := DraftRows(t, d.scope, Elements(d.sources));
                 ReadMemory(MemoryKey(d), row, rows).Some? &&
                 MaterializeStep(t, d)
                   == Outcome(Recorded(ReadMemory(MemoryKey(d), row, rows).value), Materialized'(t, d))
  {
    hide ReadMemory, Clear, SourcesError, Derivable, MaterializeStep, Exec, NewMemoryRow, Materialized', MinOf,
      ReadReceipt;
    MaterializeStores(t, d);
    RowFits(t, d);
    DerivableSources(t, d);
    DerivableCeilings(t, d);
  }

  lemma OrphanFound(t: Tables, d: MemoryDraft, found: bool)
    requires found ==> exists e :: e in t.edges && e.scope == d.scope && e.memory == d.memoryId
    ensures found ==> Orphaned(t, d)
  {
  }

  /** A lineage row is accepted when its receipt reads back and has the columns the row remembers. */
  lemma LineageRowIs(t: Tables, scope: Scope, r: SourceRow)
    ensures var k := Key(scope, r.event);
            LineageRowOk(t, scope, r) <==>
              && k in t.events && ReceiptAt(t, k).Some?
              && 0 < r.edge.clearFor <= r.edge.recallFor && r.edge == EdgeOf(ReceiptAt(t, k).value)
  {
    hide ReadReceipt;
    var k := Key(scope, r.event);
    if k in t.events && ReceiptAt(t, k).Some? {
      ReceiptFacts(t, k);
      ReceiptColumns(t, k, ReceiptAt(t, k).value);
    }
  }

  lemma LineageAgreesIs(t: Tables, k: Key, found: Option<Digest>)
    requires k in t.memories && found == LineagePrint(t, k, t.memories[k].kind)
    ensures LineageAgrees(t, k) <==> found == Some(t.memories[k].fingerprint)
  {
  }

  lemma DependentIs(t: Tables, k: Key, found: Option<Digest>)
    requires k in t.memories ==> found == LineagePrint(t, k, t.memories[k].kind)
    ensures DependentOk(t, k.scope, k.id) <==> k in t.memories && found == Some(t.memories[k].fingerprint)
  {
    hide LineagePrint;
  }

  lemma AuditDone(row: AuditRow, t: Tables)
    ensures Exec(InsertAudit(row), t) == Done(t.(audit := t.audit + multiset{row}))
  {
  }

  lemma JustInserted(t: Tables, k: Key, row: MemoryRow)
    ensures var u := t.(memories := t.memories[k := row]);
            k in u.memories && u == t.(memories := t.memories[k := u.memories[k]]) && u.memories[k] == row
  {
  }

  lemma StoredState(t: Tables, d: MemoryDraft, row: MemoryRow)
    requires MemoryDraftOk(d) && Elements(d.sources) != {}
    requires forall x :: x in Elements(d.sources) ==> Key(d.scope, x) in t.events
    requires row == NewMemoryRow(d, DraftRows(t, d.scope, Elements(d.sources)))
    ensures var u := WithEdges(t, MemoryKey(d), row, Elements(d.sources));
            u.(audit := u.audit + multiset{MaterializeRow(d)}) == Materialized'(t, d)
  {
    hide NewMemoryRow, DraftRows, NewEdges;
  }

  lemma DerivableCeilings(t: Tables, d: MemoryDraft)
    requires MemoryDraftOk(d) && Derivable(t, d)
    ensures var rows := DraftRows(t, d.scope, Elements(d.sources));
            rows != [] && d.trust <= MinOf(Trusts(rows))
            && NewMemoryRow(d, rows).clearUntil <= MAX_TIME && NewMemoryRow(d, rows).recallUntil <= MAX_TIME
  {
    hide Usable, NewMemoryRow, MinOf;
  }

  /** The statements sent are the ones `Plans` lists. */
  lemma StoredWrites(t: Tables, d: MemoryDraft, row: MemoryRow, edges: seq<Statement>)
    requires MemoryDraftOk(d) && Elements(d.sources) != {}
    requires forall x :: x in Elements(d.sources) ==> Key(d.scope, x) in t.events
    requires row == NewMemoryRow(d, DraftRows(t, d.scope, Elements(d.sources)))
    requires edges == EdgeInserts(t, MemoryKey(d), SortedIn(Elements(d.sources)))
    ensures [] + [InsertMemory(MemoryKey(d), row)] + edges + [InsertAudit(MaterializeRow(d))] == MaterializeWrites(t, d)
  {
    hide NewMemoryRow, DraftRows, EdgeInserts, SortedIn, Elements;
    var first := [InsertMemory(MemoryKey(d), row)];
    assert [] + first == first;
  }

  ghost predicate IsReceipt(t: Tables, k: Key, r: Receipt) {
    k in t.events && ReceiptAt(t, k) == Some(r)
  }

  function ReceiptTrusts(rs: seq<Receipt>): seq<int> {
    seq(|rs|, i requires 0 <= i < |rs| => rs[i].source.trust)
  }

  function ReceiptClears(rs: seq<Receipt>): seq<int> {
    seq(|rs|, i requires 0 <= i < |rs| => rs[i].clearFor)
  }

  function ReceiptRecalls(rs: seq<Receipt>): seq<int> {
    seq(|rs|, i requires 0 <= i < |rs| => rs[i].recallFor)
  }

  /** The new memory's row, with the deadlines the loaded receipts allow. */
  function DerivedRow(d: MemoryDraft, rs: seq<Receipt>): MemoryRow
    requires rs != []
  {
    MemoryRow(
      d.content, DraftPrint(d), d.kind, d.trust, d.createdAt, d.createdAt + MinOf(ReceiptClears(rs)),
      d.createdAt + MinOf(ReceiptRecalls(rs)), Active, Canonical(d.metadata))
  }

  lemma SourcesErrorHead(t: Tables, scope: Scope, ids: seq<string>)
    ensures SourcesError(t, scope, ids) ==
      if ids == [] then None
      else if SourceError(t, scope, ids[0]).Some? then SourceError(t, scope, ids[0])
      else SourcesError(t, scope, ids[1..])
  {
    hide SourceError, Usable;
  }

  lemma UsableReceipt(t: Tables, k: Key)
    requires Usable(t, k)
    ensures k in t.events && ReceiptAt(t, k).Some?
  {
  }

  lemma DerivableFrom(t: Tables, d: MemoryDraft)
    requires MemoryDraftOk(d) && SourcesError(t, d.scope, d.sources).None?
    requires var rows := DraftRows(t, d.scope, Elements(d.sources));
             rows != [] && d.trust <= MinOf(Trusts(rows))
             && NewMemoryRow(d, rows).clearUntil <= MAX_TIME && NewMemoryRow(d, rows).recallUntil <= MAX_TIME
    ensures Derivable(t, d)
  {
    hide SourcesError, Usable, NewMemoryRow, DraftRows, MinOf;
  }

  lemma DerivableSources(t: Tables, d: MemoryDraft)
    requires MemoryDraftOk(d) && Derivable(t, d)
    ensures forall x :: x in Elements(d.sources) ==> Key(d.scope, x) in t.events && ReceiptAt(t, Key(d.scope, x)).Some?
  {
    hide ReadReceipt, NewMemoryRow, DraftRows;
    forall x | x in Elements(d.sources)
      ensures Key(d.scope, x) in t.events && ReceiptAt(t, Key(d.scope, x)).Some?
    {
      assert Usable(t, Key(d.scope, x));
    }
  }

  lemma IncreasingIsDistinct(s: seq<string>)
    requires Increasing(s)
    ensures forall i, j :: 0 <= i < j < |s| ==> s[i] != s[j]
  {
    forall i, j | 0 <= i < j < |s|
      ensures s[i] != s[j]
    {
      LessIrreflexive(s[i]);
    }
  }

  lemma NoEdgesYet(t: Tables, k: Key, row: MemoryRow)
    ensures Elements([]) == {}
    ensures WithEdges(t, k, row, {}) == t.(memories := t.memories[k := row])
    ensures EdgeInserts(t, k, []) == []
  {
    NoNewEdges(t, k);
    assert t.edges + map[] == t.edges;
  }

  function MaterializeRow(d: MemoryDraft): AuditRow {
    AuditRow(d.scope, Materialized, Memory, d.memoryId, d.createdAt, MemoryMaterialized)
  }

  lemma RowFits(t: Tables, d: MemoryDraft)
    requires MemoryDraftOk(d) && Derivable(t, d) && MemoryKey(d) !in t.memories
    ensures var row := NewMemoryRow(d, DraftRows(t, d.scope, Elements(d.sources)));
            Exec(InsertMemory(MemoryKey(d), row), t) == Done(t.(memories := t.memories[MemoryKey(d) := row]))
  {
    hide Canonical, JsonValid, DraftRows, DraftPrint, Usable;
    CanonicalIsJson(d.metadata);
  }

  /** The tables after the memory row and the edges to `ids`. */
  function WithEdges(t: Tables, k: Key, row: MemoryRow, ids: set<string>): Tables
    requires forall x :: x in ids ==> Key(k.scope, x) in t.events
  {
    t.(memories := t.memories[k := row], edges := t.edges + NewEdges(t, k, ids))
  }

  /** The next edge is refused exactly when an orphaned edge already holds its key. */
  lemma NextEdge(t: Tables, k: Key, row: MemoryRow, order: seq<string>, i: nat)
    requires i < |order| && forall a, b :: 0 <= a < b < |order| ==> order[a] != order[b]
    requires forall x :: x in order ==> Key(k.scope, x) in t.events && ReceiptAt(t, Key(k.scope, x)).Some?
    ensures var s := EdgeInsert(t, k, order[i]);
            && EdgeInserts(t, k, order[..i + 1]) == EdgeInserts(t, k, order[..i]) + [s]
            && Exec(s, WithEdges(t, k, row, Elements(order[..i])))
               == if EdgeKey(k.scope, k.id, order[i]) in t.edges then Violated
                  else Done(WithEdges(t, k, row, Elements(order[..i + 1])))
  {
    hide ReadReceipt, NewEdges;
    var x := order[i];
    assert order[..i + 1] == order[..i] + [x];
    assert Elements(order[..i + 1]) == Elements(order[..i]) + {x};
    assert x !in Elements(order[..i]);
    NewEdgesHas(t, k, Elements(order[..i]), EdgeKey(k.scope, k.id, x));
    ReceiptFacts(t, Key(k.scope, x));
    if EdgeKey(k.scope, k.id, x) !in t.edges {
      var u := t.(memories := t.memories[k := row]);
      OneEdge(t, u, k, Elements(order[..i]), x);
    }
  }

  /** The read-back succeeds exactly when no orphaned edge belongs to the new memory's key. */
  lemma ReadBack(t: Tables, d: MemoryDraft, u: Tables)
    requires MemoryDraftOk(d) && Derivable(t, d) && MemoryKey(d) !in t.memories && u == Materialized'(t, d)
    requires forall x :: x in Elements(d.sources) ==> EdgeKey(d.scope, d.memoryId, x) !in t.edges
    ensures MemoryKey(d) in u.memories
    ensures if Orphaned(t, d)
            then MemoryAt(u, MemoryKey(d)).None?
            else var rows := DraftRows(t, d.scope, Elements(d.sources));
                 MemoryAt(u, MemoryKey(d)) == ReadMemory(MemoryKey(d), NewMemoryRow(d, rows), rows)
  {
    hide ReadMemory, SourceRows, DraftRows, NewMemoryRow, NewEdges, Usable, Derivable, DraftPrint;
    if Orphaned(t, d) {
      var e :| e in t.edges && e.scope == d.scope && e.memory == d.memoryId;
      OrphanSpoils(t, d, u, e);
    } else {
      DerivableSources(t, d);
      FreshRows(t, d);
    }
  }

  lemma OrphanSpoils(t: Tables, d: MemoryDraft, u: Tables, e: EdgeKey)
    requires MemoryDraftOk(d) && Derivable(t, d) && u == Materialized'(t, d)
    requires e in t.edges && e.scope == d.scope && e.memory == d.memoryId && e.event !in Elements(d.sources)
    ensures MemoryAt(u, MemoryKey(d)).None?
  {
    hide ReadMemory, SourceRows, DraftRows, NewEdges, Usable, Derivable, FingerprintOf, MinOf;
    var k := MemoryKey(d);
    assert e == EdgeKey(k.scope, k.id, e.event);
    assert e in u.edges;
    assert e.event in SourceIds(u, k);
    RowsOfSources(u, k);
    WrongPrint(k, u.memories[k], SourceRows(u, k), d);
  }

  lemma WrongPrint(k: Key, row: MemoryRow, rows: seq<SourceRow>, d: MemoryDraft)
    requires row.fingerprint == DraftPrint(d) && k.scope == d.scope && Elements(EventIds(rows)) != Elements(d.sources)
    ensures ReadMemory(k, row, rows).None?
  {
    hide FingerprintOf, Decode, MinOf;
    FingerprintInjective(k.scope, row.kind, Elements(EventIds(rows)), d.scope, d.kind, Elements(d.sources));
  }

  function IndexOf(s: seq<string>, x: string): (i: nat)
    requires x in s
    ensures i < |s| && s[i] == x
  {
    if s[|s| - 1] == x then |s| - 1 else IndexOf(s[..|s| - 1], x)
  }

  /** Every value of each list is somewhere in the other. */
  lemma SameMinimum(a: seq<int>, b: seq<int>, f: seq<nat>, g: seq<nat>)
    requires a != [] && b != [] && |f| == |a| && |g| == |b|
    requires forall i {:trigger f[i]} :: 0 <= i < |a| ==> f[i] < |b| && b[f[i]] == a[i]
    requires forall j {:trigger g[j]} :: 0 <= j < |b| ==> g[j] < |a| && a[g[j]] == b[j]
    ensures MinOf(a) == MinOf(b)
  {
    hide MinOf;
    var i :| 0 <= i < |a| && a[i] == MinOf(a);
    var j :| 0 <= j < |b| && b[j] == MinOf(b);
    assert b[f[i]] == a[i] && a[g[j]] == b[j];
  }

  /** The receipts in the draft's order and the snapshots in sorted order have the same minima. */
  lemma LoadedMinima(t: Tables, d: MemoryDraft, rs: seq<Receipt>)
    requires MemoryDraftOk(d) && |rs| == |d.sources| && SourcesError(t, d.scope, d.sources).None?
    requires forall i :: 0 <= i < |rs| ==> IsReceipt(t, Key(d.scope, d.sources[i]), rs[i])
    ensures var rows := DraftRows(t, d.scope, Elements(d.sources));
            rows != [] && MinOf(ReceiptTrusts(rs)) == MinOf(Trusts(rows))
            && DerivedRow(d, rs) == NewMemoryRow(d, rows)
  {
    hide Usable, SourcesError, MinOf, DraftPrint, Canonical, DraftRows, IsReceipt, EdgeOf;
    DraftHasRows(d);
    SourcesPresent(t, d);
    MinimaAgree(t, d, rs);
  }

  lemma MinimaAgree(t: Tables, d: MemoryDraft, rs: seq<Receipt>)
    requires MemoryDraftOk(d) && |rs| == |d.sources|
    requires forall x :: x in Elements(d.sources) ==> Key(d.scope, x) in t.events
    requires forall i :: 0 <= i < |rs| ==> IsReceipt(t, Key(d.scope, d.sources[i]), rs[i])
    ensures var rows := DraftRows(t, d.scope, Elements(d.sources));
            rows != [] && MinOf(ReceiptTrusts(rs)) == MinOf(Trusts(rows))
            && MinOf(ReceiptClears(rs)) == MinOf(ClearPeriods(rows))
            && MinOf(ReceiptRecalls(rs)) == MinOf(RecallPeriods(rows))
  {
    hide MinOf, DraftRows, IsReceipt, EdgeOf;
    DraftHasRows(d);
    var f := RowOfReceipt(t, d, rs);
    var g := ReceiptOfRow(t, d, rs);
    EqualMinima(DraftRows(t, d.scope, Elements(d.sources)), rs, f, g);
  }

  lemma RowOfReceipt(t: Tables, d: MemoryDraft, rs: seq<Receipt>) returns (f: seq<nat>)
    requires MemoryDraftOk(d) && |rs| == |d.sources|
    requires forall x :: x in Elements(d.sources) ==> Key(d.scope, x) in t.events
    requires forall i :: 0 <= i < |rs| ==> IsReceipt(t, Key(d.scope, d.sources[i]), rs[i])
    ensures var rows := DraftRows(t, d.scope, Elements(d.sources));
            |f| == |rs| && forall i {:trigger f[i]} :: 0 <= i < |rs| ==>
              && f[i] < |rows|
              && rows[f[i]].edge == EdgeOf(rs[i])
  {
    hide ReadReceipt, DraftRows, IsReceipt, EdgeOf;
    var ids := Elements(d.sources);
    var rows, s := DraftRows(t, d.scope, ids), SortedIn(ids);
    assert forall i :: 0 <= i < |rs| ==> d.sources[i] in ids;
    f := seq(|rs|, i requires 0 <= i < |rs| => IndexOf(s, d.sources[i]));
    forall i | 0 <= i < |rs|
      ensures f[i] < |rows| && rows[f[i]].edge == EdgeOf(rs[i])
    {
      DraftRowAt(t, d.scope, ids, f[i]);
      ReceiptColumns(t, Key(d.scope, d.sources[i]), rs[i]);
    }
  }

  lemma ReceiptOfRow(t: Tables, d: MemoryDraft, rs: seq<Receipt>) returns (g: seq<nat>)
    requires MemoryDraftOk(d) && |rs| == |d.sources|
    requires forall x :: x in Elements(d.sources) ==> Key(d.scope, x) in t.events
    requires forall i :: 0 <= i < |rs| ==> IsReceipt(t, Key(d.scope, d.sources[i]), rs[i])
    ensures var rows := DraftRows(t, d.scope, Elements(d.sources));
            |g| == |rows| && forall j {:trigger g[j]} :: 0 <= j < |rows| ==>
              && g[j] < |rs|
              && EdgeOf(rs[g[j]]) == rows[j].edge
  {
    hide ReadReceipt, DraftRows, IsReceipt, EdgeOf;
    var ids := Elements(d.sources);
    var rows, s := DraftRows(t, d.scope, ids), SortedIn(ids);
    assert forall j :: 0 <= j < |s| ==> s[j] in ids;
    g := seq(|rows|, j requires 0 <= j < |rows| => IndexOf(d.sources, s[j]));
    forall j | 0 <= j < |rows|
      ensures g[j] < |rs| && EdgeOf(rs[g[j]]) == rows[j].edge
    {
      DraftRowAt(t, d.scope, ids, j);
      ReceiptColumns(t, Key(d.scope, d.sources[g[j]]), rs[g[j]]);
    }
  }

  function EdgeOf(r: Receipt): EdgeRow {
    EdgeRow(r.source.trust, r.clearFor, r.recallFor)
  }

  lemma EqualMinima(rows: seq<SourceRow>, rs: seq<Receipt>, f: seq<nat>, g: seq<nat>)
    requires rows != [] && rs != [] && |f| == |rs| && |g| == |rows|
    requires forall i {:trigger f[i]} :: 0 <= i < |rs| ==> f[i] < |rows| && rows[f[i]].edge == EdgeOf(rs[i])
    requires forall j {:trigger g[j]} :: 0 <= j < |rows| ==> g[j] < |rs| && EdgeOf(rs[g[j]]) == rows[j].edge
    ensures MinOf(ReceiptTrusts(rs)) == MinOf(Trusts(rows))
    ensures MinOf(ReceiptClears(rs)) == MinOf(ClearPeriods(rows))
    ensures MinOf(ReceiptRecalls(rs)) == MinOf(RecallPeriods(rows))
  {
    hide MinOf;
    SameMinimum(ReceiptTrusts(rs), Trusts(rows), f, g);
    SameMinimum(ReceiptClears(rs), ClearPeriods(rows), f, g);
    SameMinimum(ReceiptRecalls(rs), RecallPeriods(rows), f, g);
  }

  lemma ReceiptColumns(t: Tables, k: Key, r: Receipt)
    requires IsReceipt(t, k, r)
    ensures k in t.events && Snapshot(t.events[k]) == EdgeOf(r)
  {
    hide Decode;
  }

  lemma DraftRowAt(t: Tables, scope: Scope, ids: set<string>, i: nat)
    requires i < |ids| && forall x :: x in ids ==> Key(scope, x) in t.events
    ensures Key(scope, SortedIn(ids)[i]) in t.events
    ensures DraftRows(t, scope, ids)[i].edge == Snapshot(t.events[Key(scope, SortedIn(ids)[i])])
  {
    assert SortedIn(ids)[i] in Elements(SortedIn(ids));
  }

  /** What becomes of a new event. */
  lemma IngestStores(t: Tables, d: EventDraft, now: int)
    requires EventDraftOk(d) && IsTime(now) && EventKey(d) !in t.events
    requires d.source.occurredAt + d.rawTtl <= MAX_TIME && TombsReadable(t, d.scope, d.eventId)
    requires TombKey(d.scope, RawEvent, d.eventId) !in t.tombstones
    ensures ReadReceipt(EventKey(d), NewEventRow(d, now), true).Some?
    ensures IngestStep(t, d, now) ==
      if d.clearFor > INT64_MAX || d.recallFor > INT64_MAX then Refused(TooLargeForColumn, t)
      else if EventKey(d) in t.bodies then Refused(Corruption, t)
      else Outcome(Received(ReadReceipt(EventKey(d), NewEventRow(d, now), true).value), Ingested'(t, d, now))
  {
    hide ReadReceipt, Ingested', TombsReadable, NewEventRow;
    FreshReceipt(d, now);
  }

  lemma AfterIngest(t: Tables, d: EventDraft, now: int)
    ensures EventKey(d) in Ingested'(t, d, now).events
    ensures ReceiptAt(Ingested'(t, d, now), EventKey(d)) == ReadReceipt(EventKey(d), NewEventRow(d, now), true)
  {
    hide ReadReceipt, NewEventRow;
  }

  /** A fresh row meets every CHECK; only its size can be refused. */
  lemma FreshChecks(d: EventDraft, now: int)
    requires EventDraftOk(d)
    ensures var row := NewEventRow(d, now);
            && IsTrust(row.trust) && row.clearFor == d.clearFor && row.recallFor == d.recallFor
            && JsonValid(row.sourceMetadata) && JsonValid(row.metadata)
  {
    hide Canonical, JsonValid;
    CanonicalIsJson(d.source.metadata);
    CanonicalIsJson(d.metadata);
  }
}
