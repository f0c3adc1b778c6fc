/** Scopes do not see each other: what other scopes do changes neither a scope's rows nor its answers. */
module Isolation {
  import opened Wrappers
  import opened TextOrder
  import opened Fingerprint
  import opened Domain
  import opened Tables
  import opened Policy
  import opened Invariant
  import opened Runs
  import opened Recall
  import opened Cascade

  // ----- two states that agree on one scope's rows

  ghost predicate SameEvents(a: Scope, t: Tables, u: Tables) {
    && (forall k: Key :: k.scope == a ==> (k in t.events <==> k in u.events))
    && (forall k: Key :: k.scope == a && k in t.events ==> t.events[k] == u.events[k])
    && (forall k: Key :: k.scope == a ==> (k in t.bodies <==> k in u.bodies))
    && (forall k: Key :: k.scope == a && k in t.bodies ==> t.bodies[k] == u.bodies[k])
  }

  ghost predicate SameMemories(a: Scope, t: Tables, u: Tables) {
    && (forall k: Key :: k.scope == a ==> (k in t.memories <==> k in u.memories))
    && (forall k: Key :: k.scope == a && k in t.memories ==> t.memories[k] == u.memories[k])
  }

  ghost predicate SameLineage(a: Scope, t: Tables, u: Tables) {
    && (forall e: EdgeKey :: e.scope == a ==> (e in t.edges <==> e in u.edges))
    && (forall e: EdgeKey :: e.scope == a && e in t.edges ==> t.edges[e] == u.edges[e])
  }

  ghost predicate SameTombstones(a: Scope, t: Tables, u: Tables) {
    && (forall k: TombKey :: k.scope == a ==> (k in t.tombstones <==> k in u.tombstones))
    && (forall k: TombKey :: k.scope == a && k in t.tombstones ==> t.tombstones[k] == u.tombstones[k])
  }

  /** The log has each of the scope's rows as often in the one as in the other. */
  ghost predicate SameLog(a: Scope, t: Tables, u: Tables) {
    forall r: AuditRow :: r.scope == a ==> t.audit[r] == u.audit[r]
  }

  ghost predicate Agree(a: Scope, t: Tables, u: Tables) {
    SameEvents(a, t, u) && SameMemories(a, t, u) && SameLineage(a, t, u) && SameTombstones(a, t, u) && SameLog(a, t, u)
  }

  lemma AgreeReflexive(a: Scope, t: Tables)
    ensures Agree(a, t, t)
  {
  }

  lemma AgreeTransitive(a: Scope, t: Tables, u: Tables, v: Tables)
    requires Agree(a, t, u) && Agree(a, u, v)
    ensures Agree(a, t, v)
  {
  }

  /** The same answer, except that an identifier of another scope may be reported as unknown or as foreign. */
  predicate SameAnswer(x: Reply, y: Reply) {
    x == y || (x.Failed? && y.Failed? && SameRefusal(x.error, y.error))
  }

  predicate SameRefusal(x: Error, y: Error) {
    x == y || (Elsewhere(x) && Elsewhere(y) && x.id == y.id)
  }

  predicate Elsewhere(e: Error) {
    e.ScopeMismatch? || e.EntityNotFound?
  }

  /** The scope an operation works in; expiry works in all. */
  function ScopeOf(op: Op): Option<Scope> {
    match op
    case Ingest(d, _) => Some(d.scope)
    case Materialize(d) => Some(d.scope)
    case Expire(_) => None
    case Govern(c) => Some(c.scope)
  }

  // ----- an operation of another scope

  lemma ForeignIngest(a: Scope, t: Tables, d: EventDraft, now: int)
    requires d.scope != a
    ensures Agree(a, t, Ingested'(t, d, now))
  {
    hide NewEventRow;
  }

  lemma ForeignMaterialize(a: Scope, t: Tables, d: MemoryDraft)
    requires d.scope != a && MemoryDraftOk(d)
    requires forall x :: x in Elements(d.sources) ==> Key(d.scope, x) in t.events
    ensures Agree(a, t, Materialized'(t, d))
  {
    hide NewMemoryRow, DraftRows, NewEdges;
    forall e: EdgeKey | e.scope == a
      ensures e !in NewEdges(t, MemoryKey(d), Elements(d.sources))
    {
      NewEdgesHas(t, MemoryKey(d), Elements(d.sources), e);
    }
  }

  lemma ForeignRemoval(a: Scope, t: Tables, c: Command, ids: set<string>)
    requires c.scope != a && forall x :: x in ids ==> Key(c.scope, x) in t.memories
    ensures Agree(a, t, WithoutMemories(t, c, ids))
  {
    hide Keys, Tombs;
    var u := WithoutMemories(t, c, ids);
    forall k: Key | k.scope == a
      ensures k in t.memories <==> k in u.memories
    {
      KeysOf(c.scope, ids, k);
    }
    forall k: TombKey | k.scope == a
      ensures k !in Tombs(t, c, ids)
    {
      TombsOf(t, c, ids, k);
    }
  }

  lemma ForeignStatus(a: Scope, t: Tables, c: Command, status: MemoryStatus)
    requires c.scope != a && Key(c.scope, c.entityId) in t.memories
    ensures Agree(a, t, WithStatus(t, c, status))
  {
  }

  lemma ForeignAudited(a: Scope, t: Tables, c: Command)
    requires c.scope != a
    ensures Agree(a, t, Audited(t, c))
  {
  }

  lemma ForeignUnevented(a: Scope, t: Tables, c: Command)
    requires c.scope != a
    ensures Agree(a, t, Unevented(t, c))
  {
  }

  lemma ForeignGovern(a: Scope, t: Tables, c: Command, u: Tables)
    requires c.scope != a && GovernShape(t, c, u)
    ensures Agree(a, t, u)
  {
    hide Agree, Keys, Tombs, WithoutMemories, WithStatus, Audited;
    AgreeReflexive(a, t);
    if u != t {
      if c.entityType.RawEvent? {
        var v := WithoutMemories(t, c, Dependents(t, Key(c.scope, c.entityId)));
        var w := Unevented(v, c);
        ForeignRemoval(a, t, c, Dependents(t, Key(c.scope, c.entityId)));
        ForeignUnevented(a, v, c);
        ForeignAudited(a, w, c);
        assert u == Audited(w, c);
        AgreeTransitive(a, t, v, w);
        AgreeTransitive(a, t, w, u);
      } else if c.action.Forget? || c.action.Delete? {
        var v := WithoutMemories(t, c, {c.entityId});
        ForeignRemoval(a, t, c, {c.entityId});
        ForeignAudited(a, v, c);
        AgreeTransitive(a, t, v, u);
      } else {
        ForeignStatus(a, t, c, if c.action.Seal? then Sealed else Active);
      }
    }
  }

  /** An operation of another scope leaves this scope's rows alone. */
  lemma ForeignStep(a: Scope, t: Tables, op: Op)
    requires Valid(t) && OpOk(op) && ScopeOf(op).Some? && ScopeOf(op) != Some(a)
    ensures Agree(a, t, Step(t, op).state)
  {
    hide Valid, Step, Agree, Ingested', Materialized', GovernShape, PrintTombstoned;
    StepHasShape(t, op);
    AgreeReflexive(a, t);
    match op
    case Ingest(d, now) => ForeignIngest(a, t, d, now);
    case Materialize(d) =>
      if Step(t, op).state != t {
        DerivablePresent(t, d);
        ForeignMaterialize(a, t, d);
      }
    case Expire(_) => assert false;
    case Govern(c) => ForeignGovern(a, t, c, Step(t, op).state);
  }

  lemma DerivablePresent(t: Tables, d: MemoryDraft)
    requires MemoryDraftOk(d) && Derivable(t, d)
    ensures forall x :: x in Elements(d.sources) ==> Key(d.scope, x) in t.events
  {
    hide ReadReceipt, DraftRows, NewMemoryRow;
  }

  // ----- expiry, in both states

  lemma ExpireAgrees(a: Scope, t: Tables, u: Tables, asOf: int)
    requires Valid(t) && Valid(u) && Agree(a, t, u) && IsTime(asOf)
    ensures Agree(a, Step(t, Expire(asOf)).state, Step(u, Expire(asOf)).state)
  {
    hide Valid, Expired', Agree, ReadReceipt;
    ExpireState(t, asOf);
    ExpireState(u, asOf);
    ExpiredAgree(a, t, u, asOf);
  }

  lemma ExpireState(t: Tables, asOf: int)
    requires Valid(t) && IsTime(asOf)
    ensures ExpireStep(t, asOf) == Outcome(Removed(|Due(t, asOf)|), Expired'(t, Due(t, asOf), asOf))
  {
    hide ReadReceipt, MemoriesReadable, AuditReadable, TombstonesReadable, KeysAgree, Expired';
  }

  lemma ExpiredAgree(a: Scope, t: Tables, u: Tables, asOf: int)
    requires Agree(a, t, u)
    ensures Agree(a, Expired'(t, Due(t, asOf), asOf), Expired'(u, Due(u, asOf), asOf))
  {
    hide ExpireRows, SameLog, SameEvents;
    ExpiredEventsAgree(a, t, u, asOf);
    ExpiredLogsAgree(a, t, u, asOf);
  }

  lemma ExpiredEventsAgree(a: Scope, t: Tables, u: Tables, asOf: int)
    requires SameEvents(a, t, u)
    ensures SameEvents(a, Expired'(t, Due(t, asOf), asOf), Expired'(u, Due(u, asOf), asOf))
  {
    hide ExpireRows;
  }

  lemma ExpiredLogsAgree(a: Scope, t: Tables, u: Tables, asOf: int)
    requires SameEvents(a, t, u) && SameLog(a, t, u)
    ensures SameLog(a, Expired'(t, Due(t, asOf), asOf), Expired'(u, Due(u, asOf), asOf))
  {
    hide ExpireRows;
    forall r: AuditRow | r.scope == a
      ensures r in ExpireRows(Due(t, asOf), asOf) <==> r in ExpireRows(Due(u, asOf), asOf)
    {
      ExpireRowsHave(t, asOf, r);
      ExpireRowsHave(u, asOf, r);
      assert Key(a, r.id) in Due(t, asOf) <==> Key(a, r.id) in Due(u, asOf);
    }
  }

  lemma ExpireRowsHave(t: Tables, asOf: int, r: AuditRow)
    ensures r in ExpireRows(Due(t, asOf), asOf)
      <==> Key(r.scope, r.id) in Due(t, asOf) && r == ExpireRow(Key(r.scope, r.id), asOf)
  {
  }

  // ----- an operation of this scope, in both states

  lemma ReceiptsAgree(a: Scope, t: Tables, u: Tables, k: Key)
    requires SameEvents(a, t, u) && k.scope == a && k in t.events
    ensures k in u.events && ReceiptAt(t, k) == ReceiptAt(u, k)
  {
    hide ReadReceipt;
  }

  lemma RecordsAgree(a: Scope, t: Tables, u: Tables, k: Key)
    requires Agree(a, t, u) && k.scope == a && k in t.memories
    ensures k in u.memories && MemoryAt(t, k) == MemoryAt(u, k)
  {
    hide ReadMemory, SourceRows;
    SourceRowsFrame(t, u, k);
  }

  lemma IngestedAgree(a: Scope, t: Tables, u: Tables, d: EventDraft, now: int)
    requires Agree(a, t, u)
    ensures Agree(a, Ingested'(t, d, now), Ingested'(u, d, now))
  {
    hide NewEventRow, SameEvents;
    NewEventsAgree(a, t, u, d, now);
  }

  lemma NewEventsAgree(a: Scope, t: Tables, u: Tables, d: EventDraft, now: int)
    requires SameEvents(a, t, u)
    ensures SameEvents(a, Ingested'(t, d, now), Ingested'(u, d, now))
  {
    hide NewEventRow;
  }

  lemma SameKeys(a: Scope, t: Tables, u: Tables, id: string)
    requires Agree(a, t, u)
    ensures Key(a, id) in t.events <==> Key(a, id) in u.events
    ensures Key(a, id) in t.bodies <==> Key(a, id) in u.bodies
    ensures Key(a, id) in t.memories <==> Key(a, id) in u.memories
    ensures forall ty :: TombKey(a, ty, id) in t.tombstones <==> TombKey(a, ty, id) in u.tombstones
  {
  }

  lemma IngestAgrees(a: Scope, t: Tables, u: Tables, d: EventDraft, now: int)
    requires Agree(a, t, u) && d.scope == a
    ensures IngestStep(t, d, now).reply == IngestStep(u, d, now).reply
    ensures Agree(a, IngestStep(t, d, now).state, IngestStep(u, d, now).state)
  {
    hide ReadReceipt, ReceiptAt, NewEventRow, TombsReadable, SameEvent, Agree, Ingested';
    AgreeParts(a, t, u);
    LookupsAgree(a, t, u, d.eventId);
    SameKeys(a, t, u, d.eventId);
    IngestedAgree(a, t, u, d, now);
    if EventKey(d) in t.events {
      ReceiptsAgree(a, t, u, EventKey(d));
    }
  }

  lemma LookupsAgree(a: Scope, t: Tables, u: Tables, id: string)
    requires SameTombstones(a, t, u)
    ensures TombsReadable(t, a, id) == TombsReadable(u, a, id)
  {
    hide TombstoneOk;
  }

  lemma PrintsAgree(a: Scope, t: Tables, u: Tables, fp: Digest)
    requires SameTombstones(a, t, u)
    ensures PrintTombsReadable(t, a, fp) == PrintTombsReadable(u, a, fp)
    ensures PrintTombstoned(t, a, fp) == PrintTombstoned(u, a, fp)
  {
    hide TombstoneOk;
  }

  lemma SourceErrorAgrees(a: Scope, t: Tables, u: Tables, id: string)
    requires SameEvents(a, t, u) && SameTombstones(a, t, u)
    ensures SourceError(t, a, id).Some? <==> SourceError(u, a, id).Some?
    ensures SourceError(t, a, id).Some? ==> SameRefusal(SourceError(t, a, id).value, SourceError(u, a, id).value)
  {
    hide ReadReceipt, TombsReadable;
    LookupsAgree(a, t, u, id);
    if Key(a, id) in t.events {
      ReceiptsAgree(a, t, u, Key(a, id));
    }
  }

  lemma {:induction false} SourcesErrorAgrees(a: Scope, t: Tables, u: Tables, ids: seq<string>)
    requires SameEvents(a, t, u) && SameTombstones(a, t, u)
    ensures SourcesError(t, a, ids).Some? <==> SourcesError(u, a, ids).Some?
    ensures SourcesError(t, a, ids).Some? ==> SameRefusal(SourcesError(t, a, ids).value, SourcesError(u, a, ids).value)
  {
    hide SourceError, Usable, SameRefusal;
    if ids != [] {
      SourceErrorAgrees(a, t, u, ids[0]);
      SourcesErrorAgrees(a, t, u, ids[1..]);
    }
  }

  lemma DraftRowsAgree(a: Scope, t: Tables, u: Tables, ids: set<string>)
    requires SameEvents(a, t, u) && forall x :: x in ids ==> Key(a, x) in t.events
    ensures forall x :: x in ids ==> Key(a, x) in u.events
    ensures DraftRows(t, a, ids) == DraftRows(u, a, ids)
  {
    var s := Sorted(ids);
    forall i | 0 <= i < |s|
      ensures DraftRows(t, a, ids)[i] == DraftRows(u, a, ids)[i]
    {
      assert s[i] in Elements(s);
    }
  }

  lemma MaterializedAgree(a: Scope, t: Tables, u: Tables, d: MemoryDraft)
    requires Agree(a, t, u) && d.scope == a && MemoryDraftOk(d)
    requires forall x :: x in Elements(d.sources) ==> Key(a, x) in t.events && Key(a, x) in u.events
    ensures Agree(a, Materialized'(t, d), Materialized'(u, d))
  {
    hide Materialized', SameLineage, SameMemories, SameLog, SameEvents, SameTombstones;
    NewMemoriesAgree(a, t, u, d);
    NewLineageAgrees(a, t, u, d);
    OtherTablesAgree(a, t, u, Materialized'(t, d), Materialized'(u, d))
      by { MaterializedKeeps(t, d); MaterializedKeeps(u, d); }
  }

  lemma MaterializedKeeps(t: Tables, d: MemoryDraft)
    requires MemoryDraftOk(d) && forall x :: x in Elements(d.sources) ==> Key(d.scope, x) in t.events
    ensures var u := Materialized'(t, d);
            u.events == t.events && u.bodies == t.bodies && u.tombstones == t.tombstones
  {
    hide NewMemoryRow, DraftRows, NewEdges;
  }

  lemma OtherTablesAgree(a: Scope, t: Tables, u: Tables, v: Tables, w: Tables)
    requires SameEvents(a, t, u) && SameTombstones(a, t, u)
    requires v.events == t.events && v.bodies == t.bodies && v.tombstones == t.tombstones
    requires w.events == u.events && w.bodies == u.bodies && w.tombstones == u.tombstones
    ensures SameEvents(a, v, w) && SameTombstones(a, v, w)
  {
  }

  lemma NewMemoriesAgree(a: Scope, t: Tables, u: Tables, d: MemoryDraft)
    requires SameEvents(a, t, u) && SameMemories(a, t, u) && SameLog(a, t, u) && d.scope == a && MemoryDraftOk(d)
    requires forall x :: x in Elements(d.sources) ==> Key(a, x) in t.events && Key(a, x) in u.events
    ensures SameMemories(a, Materialized'(t, d), Materialized'(u, d))
    ensures SameLog(a, Materialized'(t, d), Materialized'(u, d))
  {
    hide NewMemoryRow, DraftRows, NewEdges, SameEvents;
    DraftHasRows(d);
    DraftRowsAgree(a, t, u, Elements(d.sources));
  }

  lemma NewLineageAgrees(a: Scope, t: Tables, u: Tables, d: MemoryDraft)
    requires SameEvents(a, t, u) && SameLineage(a, t, u) && d.scope == a && MemoryDraftOk(d)
    requires forall x :: x in Elements(d.sources) ==> Key(a, x) in t.events && Key(a, x) in u.events
    ensures SameLineage(a, Materialized'(t, d), Materialized'(u, d))
  {
    hide NewMemoryRow, DraftRows, NewEdges, SameEvents;
    var ids := Elements(d.sources);
    forall e: EdgeKey | e.scope == a
      ensures e in NewEdges(t, MemoryKey(d), ids) <==> e in NewEdges(u, MemoryKey(d), ids)
      ensures e in NewEdges(t, MemoryKey(d), ids) ==>
        NewEdges(t, MemoryKey(d), ids)[e] == NewEdges(u, MemoryKey(d), ids)[e]
    {
      NewEdgeAgrees(a, t, u, MemoryKey(d), ids, e);
    }
  }

  lemma NewEdgeAgrees(a: Scope, t: Tables, u: Tables, k: Key, ids: set<string>, e: EdgeKey)
    requires SameEvents(a, t, u) && k.scope == a
    requires forall x :: x in ids ==> Key(a, x) in t.events && Key(a, x) in u.events
    ensures e in NewEdges(t, k, ids) <==> e in NewEdges(u, k, ids)
    ensures e in NewEdges(t, k, ids) ==> NewEdges(t, k, ids)[e] == NewEdges(u, k, ids)[e]
  {
    NewEdgesHas(t, k, ids, e);
    NewEdgesHas(u, k, ids, e);
  }

  lemma OrphanedAgrees(a: Scope, t: Tables, u: Tables, d: MemoryDraft)
    requires SameLineage(a, t, u) && d.scope == a
    ensures Orphaned(t, d) == Orphaned(u, d)
  {
  }

  lemma MaterializeAgrees(a: Scope, t: Tables, u: Tables, d: MemoryDraft)
    requires Agree(a, t, u) && d.scope == a && MemoryDraftOk(d)
    ensures SameAnswer(MaterializeStep(t, d).reply, MaterializeStep(u, d).reply)
    ensures Agree(a, MaterializeStep(t, d).state, MaterializeStep(u, d).state)
  {
    hide MaterializeStep, TombsReadable, PrintTombsReadable, PrintTombstoned, DraftPrint, SourcesError, MemoryAt,
      SameMemory, NewMemoryRow, DraftRows, ReadMemory, MinOf, Materialized', Orphaned, SameEvents, SameLineage,
      SameRefusal;
    MaterializeExits(t, d);
    MaterializeExits(u, d);
    LookupsAgree(a, t, u, d.memoryId);
    PrintsAgree(a, t, u, DraftPrint(d));
    SourcesErrorAgrees(a, t, u, d.sources);
    if Clear(t, d) {
      if MemoryKey(d) in t.memories {
        RecordsAgree(a, t, u, MemoryKey(d));
      } else if SourcesError(t, a, d.sources).None? {
        MaterializeNewAgrees(a, t, u, d);
      }
    }
  }

  lemma MaterializeNewAgrees(a: Scope, t: Tables, u: Tables, d: MemoryDraft)
    requires Agree(a, t, u) && d.scope == a && MemoryDraftOk(d)
    requires Clear(t, d) && Clear(u, d) && MemoryKey(d) !in t.memories && MemoryKey(d) !in u.memories
    requires SourcesError(t, a, d.sources).None? && SourcesError(u, a, d.sources).None?
    ensures MaterializeStep(t, d).reply == MaterializeStep(u, d).reply
    ensures Agree(a, MaterializeStep(t, d).state, MaterializeStep(u, d).state)
  {
    hide MaterializeStep, Clear, DraftPrint, SourcesError, NewMemoryRow, DraftRows, ReadMemory, MinOf, Materialized',
      Orphaned, Agree, Usable;
    assert SameEvents(a, t, u) && SameLineage(a, t, u) by { AgreeParts(a, t, u); }
    SourcesPresent(t, d);
    SourcesPresent(u, d);
    MaterializeStores(t, d);
    MaterializeStores(u, d);
    OrphanedAgrees(a, t, u, d);
    DraftRowsAgree(a, t, u, Elements(d.sources));
    MaterializedAgree(a, t, u, d);
  }

  lemma AgreeParts(a: Scope, t: Tables, u: Tables)
    requires Agree(a, t, u)
    ensures SameEvents(a, t, u) && SameMemories(a, t, u) && SameLineage(a, t, u) && SameTombstones(a, t, u)
    ensures SameLog(a, t, u)
  {
  }

  lemma MissingAgrees(a: Scope, t: Tables, u: Tables, c: Command)
    requires Valid(t) && Valid(u) && SameTombstones(a, t, u) && c.scope == a
    ensures SameRefusal(MissingError(t, c), MissingError(u, c))
  {
    hide KeysAgree, EventsReadable, MemoriesReadable, AuditReadable, NoneResurrected, TombsReadableAnywhere,
      LiveSomewhere;
    LookupsSucceed(t, a, c.entityId, Sha256([]));
    LookupsSucceed(u, a, c.entityId, Sha256([]));
  }

  lemma StatusAgrees(a: Scope, t: Tables, u: Tables, c: Command, status: MemoryStatus)
    requires Agree(a, t, u) && c.scope == a && Key(a, c.entityId) in t.memories && Key(a, c.entityId) in u.memories
    ensures Agree(a, WithStatus(t, c, status), WithStatus(u, c, status))
  {
  }

  lemma RemovalAgrees(a: Scope, t: Tables, u: Tables, c: Command, ids: set<string>)
    requires Agree(a, t, u) && c.scope == a
    requires forall x :: x in ids ==> Key(a, x) in t.memories && Key(a, x) in u.memories
    ensures Agree(a, WithoutMemories(t, c, ids), WithoutMemories(u, c, ids))
  {
    hide Keys, Tombs, WithoutEdgesOf, SameTombstones, SameLineage;
    BurialAgrees(a, t, u, c, ids);
    EdgesGoneAgree(a, t, u, c, ids);
  }

  lemma EdgesGoneAgree(a: Scope, t: Tables, u: Tables, c: Command, ids: set<string>)
    requires SameLineage(a, t, u)
    requires forall x :: x in ids ==> Key(c.scope, x) in t.memories && Key(c.scope, x) in u.memories
    ensures SameLineage(a, WithoutMemories(t, c, ids), WithoutMemories(u, c, ids))
  {
    hide Keys, Tombs;
  }

  lemma BurialAgrees(a: Scope, t: Tables, u: Tables, c: Command, ids: set<string>)
    requires SameTombstones(a, t, u) && SameMemories(a, t, u) && c.scope == a
    requires forall x :: x in ids ==> Key(a, x) in t.memories && Key(a, x) in u.memories
    ensures SameTombstones(a, WithoutMemories(t, c, ids), WithoutMemories(u, c, ids))
  {
    hide Keys, Tombs, WithoutEdgesOf;
    forall k: TombKey | k.scope == a
      ensures k in Tombs(t, c, ids) <==> k in Tombs(u, c, ids)
      ensures k in Tombs(t, c, ids) ==> Tombs(t, c, ids)[k] == Tombs(u, c, ids)[k]
    {
      TombsOf(t, c, ids, k);
      TombsOf(u, c, ids, k);
    }
  }

  lemma AuditedAgrees(a: Scope, t: Tables, u: Tables, c: Command)
    requires Agree(a, t, u)
    ensures Agree(a, Audited(t, c), Audited(u, c))
  {
  }

  lemma UneventedAgrees(a: Scope, t: Tables, u: Tables, c: Command)
    requires Agree(a, t, u) && c.scope == a
    ensures Agree(a, Unevented(t, c), Unevented(u, c))
  {
  }

  lemma WithoutEventAgrees(a: Scope, t: Tables, u: Tables, c: Command)
    requires Agree(a, t, u) && c.scope == a
    requires var ds := Dependents(t, Key(a, c.entityId)) + Dependents(u, Key(a, c.entityId));
             forall x :: x in ds ==> Key(a, x) in t.memories && Key(a, x) in u.memories
    ensures Dependents(t, Key(a, c.entityId)) == Dependents(u, Key(a, c.entityId))
    ensures Agree(a, WithoutEvent(t, c), WithoutEvent(u, c))
  {
    hide Agree, Audited, Tombs, Keys, WithoutMemories;
    DependentsAgree(a, t, u, c.entityId);
    var ds := Dependents(t, Key(a, c.entityId));
    var v, w := WithoutMemories(t, c, ds), WithoutMemories(u, c, ds);
    RemovalAgrees(a, t, u, c, ds);
    UneventedAgrees(a, v, w, c);
    AuditedAgrees(a, Unevented(v, c), Unevented(w, c), c);
    assert WithoutEvent(t, c) == Audited(Unevented(v, c), c) && WithoutEvent(u, c) == Audited(Unevented(w, c), c);
  }

  lemma DependentsAgree(a: Scope, t: Tables, u: Tables, id: string)
    requires Agree(a, t, u)
    ensures Dependents(t, Key(a, id)) == Dependents(u, Key(a, id))
  {
  }

  lemma GovernMemoryAgrees(a: Scope, t: Tables, u: Tables, c: Command)
    requires Valid(t) && Valid(u) && Agree(a, t, u) && c.scope == a && c.entityType.Memory?
    ensures SameAnswer(GovernMemoryStep(t, c).reply, GovernMemoryStep(u, c).reply)
    ensures Agree(a, GovernMemoryStep(t, c).state, GovernMemoryStep(u, c).state)
  {
    hide KeysAgree, EventsReadable, MemoriesReadable, AuditReadable, TombstonesReadable, LineageAgrees, MissingError,
      WithStatus, WithoutMemories, Audited, SameEvents, SameLineage, SameTombstones, SameLog;
    var k := Key(a, c.entityId);
    MissingAgrees(a, t, u, c);
    if k in t.memories {
      KnownStatus(t, k);
      KnownStatus(u, k);
      assert Live(t, TombKey(a, Memory, c.entityId)) && Live(u, TombKey(a, Memory, c.entityId));
      StatusAgrees(a, t, u, c, Sealed);
      StatusAgrees(a, t, u, c, Active);
      RemovalAgrees(a, t, u, c, {c.entityId});
      AuditedAgrees(a, WithoutMemories(t, c, {c.entityId}), WithoutMemories(u, c, {c.entityId}), c);
    }
  }

  lemma DeleteEventAgrees(a: Scope, t: Tables, u: Tables, c: Command)
    requires Valid(t) && Valid(u) && Agree(a, t, u) && c.scope == a && c.entityType.RawEvent? && c.action.Delete?
    requires IsTime(c.occurredAt)
    ensures SameAnswer(GovernStep(t, c).reply, GovernStep(u, c).reply)
    ensures Agree(a, GovernStep(t, c).state, GovernStep(u, c).state)
  {
    hide Valid, WithoutEvent, MissingError, SameLineage, SameTombstones, SameLog, ReadReceipt, DependentOk, SameRefusal;
    var k := Key(a, c.entityId);
    MissingAgrees(a, t, u, c);
    DependentsAgree(a, t, u, c.entityId);
    if k in t.events {
      DeletionSucceeds(t, c);
      DeletionSucceeds(u, c);
      WithoutEventAgrees(a, t, u, c);
    }
  }

  /** An operation of the scope, or an expiry, run in two states that agree on the scope. */
  lemma StepAgrees(a: Scope, t: Tables, u: Tables, op: Op)
    requires Valid(t) && Valid(u) && Agree(a, t, u) && OpOk(op) && (op.Expire? || ScopeOf(op) == Some(a))
    ensures Agree(a, Step(t, op).state, Step(u, op).state)
    ensures !op.Expire? ==> SameAnswer(Step(t, op).reply, Step(u, op).reply)
  {
    hide Valid, Agree, IngestStep, MaterializeStep, ExpireStep, GovernMemoryStep, DeleteEventStep;
    match op
    case Ingest(d, now) => IngestAgrees(a, t, u, d, now);
    case Materialize(d) => MaterializeAgrees(a, t, u, d);
    case Expire(asOf) => ExpireAgrees(a, t, u, asOf);
    case Govern(c) =>
      if c.entityType.Memory? {
        GovernMemoryAgrees(a, t, u, c);
      } else if c.action.Delete? {
        DeleteEventAgrees(a, t, u, c);
      }
  }

  // ----- whole runs

  /** The operations of one scope, and every expiry. */
  function Only(a: Scope, ops: seq<Op>): (r: seq<Op>)
    ensures forall op :: multiset(r)[op] == if op.Expire? || ScopeOf(op) == Some(a) then multiset(ops)[op] else 0
  {
    assert ops != [] ==> ops == ops[..|ops| - 1] + [ops[|ops| - 1]];
    if ops == [] then [] else
      var last := ops[|ops| - 1];
      Only(a, ops[..|ops| - 1]) + if last.Expire? || ScopeOf(last) == Some(a) then [last] else []
  }

  lemma {:induction false} OnlyOk(a: Scope, ops: seq<Op>)
    requires OpsOk(ops)
    ensures OpsOk(Only(a, ops))
  {
    if ops != [] {
      OnlyOk(a, ops[..|ops| - 1]);
    }
  }

  /** Taking every other scope's operations out of a run leaves this scope's rows, in all six tables, as they were. */
  lemma {:induction false} RunAgrees(a: Scope, t: Tables, ops: seq<Op>)
    requires Valid(t) && OpsOk(ops)
    ensures OpsOk(Only(a, ops))
    ensures Valid(Run(t, ops)) && Valid(Run(t, Only(a, ops)))
    ensures Agree(a, Run(t, ops), Run(t, Only(a, ops)))
  {
    hide Valid, Agree, Step;
    OnlyOk(a, ops);
    RunIsValid(t, ops);
    RunIsValid(t, Only(a, ops));
    if ops == [] {
      AgreeReflexive(a, t);
    } else {
      var init, op := ops[..|ops| - 1], ops[|ops| - 1];
      RunAgrees(a, t, init);
      var v, w := Run(t, init), Run(t, Only(a, init));
      if op.Expire? || ScopeOf(op) == Some(a) {
        assert Only(a, ops)[..|Only(a, ops)| - 1] == Only(a, init);
        StepAgrees(a, v, w, op);
      } else {
        assert Only(a, ops) == Only(a, init);
        ForeignStep(a, v, op);
        AgreeSymmetric(a, v, Step(v, op).state);
        AgreeTransitive(a, Step(v, op).state, v, w);
      }
    }
  }

  lemma AgreeSymmetric(a: Scope, t: Tables, u: Tables)
    requires Agree(a, t, u)
    ensures Agree(a, u, t)
  {
  }

  /** A scope gets the same answers with and without the other scopes' operations: to its own operations, to every
      recall, and, row for row, to its audit query. Only a foreign identifier may be called unknown instead. */
  lemma ScopesAreIsolated(a: Scope, t: Tables, ops: seq<Op>, op: Op, q: Query, answer: seq<Item>)
    requires Valid(t) && OpsOk(ops) && OpOk(op) && ScopeOf(op) == Some(a) && q.scope == a
    ensures OpsOk(Only(a, ops))
    ensures SameAnswer(Step(Run(t, ops), op).reply, Step(Run(t, Only(a, ops)), op).reply)
    ensures Recallable(Run(t, ops), a) && Recallable(Run(t, Only(a, ops)), a)
    ensures IsRecall(Run(t, ops), q, answer) <==> IsRecall(Run(t, Only(a, ops)), q, answer)
    ensures SameLog(a, Run(t, ops), Run(t, Only(a, ops)))
  {
    hide Valid, SameEvents, SameMemories, SameLineage, SameTombstones, SameLog, Step, Run, IsRecall, Recallable;
    RunAgrees(a, t, ops);
    var u, v := Run(t, ops), Run(t, Only(a, ops));
    StepAgrees(a, u, v, op);
    ValidIsRecallable(u, a);
    ValidIsRecallable(v, a);
    CandidatesAgree(a, u, v, q);
    SameCandidatesSameRecall(u, v, q, answer);
  }

  // ----- the one thing that shows

  predicate LiveElsewhere(t: Tables, entity: EntityType, scope: Scope, id: string) {
    if entity.RawEvent? then exists k :: k in t.events && k.id == id && k.scope != scope
    else exists k :: k in t.memories && k.id == id && k.scope != scope
  }

  predicate BuriedElsewhere(t: Tables, entity: EntityType, scope: Scope, id: string) {
    exists k :: k in t.tombstones && k.entity == entity && k.id == id && k.scope != scope
  }

  /** Another scope holds the identifier: live, or for governance also tombstoned. */
  predicate KnownElsewhere(t: Tables, op: Op, id: string) {
    match op
    case Materialize(d) => LiveElsewhere(t, RawEvent, d.scope, id)
    case Govern(c) => LiveElsewhere(t, c.entityType, c.scope, id) || BuriedElsewhere(t, c.entityType, c.scope, id)
    case _ => false
  }

  lemma {:induction false} SourcesForeignExactly(t: Tables, d: MemoryDraft, ids: seq<string>)
    ensures var e := SourcesError(t, d.scope, ids);
            e.Some? && Elsewhere(e.value) ==>
              (e.value.ScopeMismatch? <==> KnownElsewhere(t, Materialize(d), e.value.id))
  {
    hide TombsReadable, ReadReceipt;
    if ids != [] {
      SourcesForeignExactly(t, d, ids[1..]);
    }
  }

  lemma MaterializeForeignExactly(t: Tables, d: MemoryDraft)
    requires MemoryDraftOk(d)
    ensures var r := MaterializeStep(t, d).reply;
            r.Failed? && Elsewhere(r.error) ==>
              (r.error.ScopeMismatch? <==> KnownElsewhere(t, Materialize(d), r.error.id))
  {
    hide MaterializeStep, TombsReadable, PrintTombsReadable, PrintTombstoned, DraftPrint, SourcesError, MemoryAt,
      SameMemory, NewMemoryRow, DraftRows, ReadMemory, MinOf, Materialized', Orphaned, KnownElsewhere;
    MaterializeExits(t, d);
    SourcesForeignExactly(t, d, d.sources);
    if Clear(t, d) && MemoryKey(d) !in t.memories && SourcesError(t, d.scope, d.sources).None? {
      MaterializeStores(t, d);
    }
  }

  lemma MissingForeignExactly(t: Tables, c: Command)
    requires if c.entityType.RawEvent? then Key(c.scope, c.entityId) !in t.events
             else Key(c.scope, c.entityId) !in t.memories
    ensures var e := MissingError(t, c);
            Elsewhere(e) ==> e.id == c.entityId && (e.ScopeMismatch? <==> KnownElsewhere(t, Govern(c), e.id))
  {
    hide TombsReadableAnywhere;
  }

  /** An identifier is refused as foreign, rather than as unknown, exactly when another scope holds it. */
  lemma ForeignExactly(t: Tables, op: Op)
    requires OpOk(op)
    ensures var r := Step(t, op).reply;
            r.Failed? && Elsewhere(r.error) ==> (r.error.ScopeMismatch? <==> KnownElsewhere(t, op, r.error.id))
  {
    hide MaterializeStep, MissingError, KnownElsewhere, ReadReceipt, TombsReadable, SameEvent, Ingested', LineageAgrees,
      DependentOk, WithStatus, WithoutMemories, WithoutEvent, Audited, Expired';
    match op
    case Materialize(d) => MaterializeForeignExactly(t, d);
    case Govern(c) =>
      if if c.entityType.RawEvent? then Key(c.scope, c.entityId) !in t.events
         else Key(c.scope, c.entityId) !in t.memories
      {
        MissingForeignExactly(t, c);
      }
    case _ =>
  }

  /** No other scope has a row an identifier could be found in. */
  ghost predicate Alone(a: Scope, t: Tables) {
    && (forall k :: k in t.events ==> k.scope == a)
    && (forall k :: k in t.memories ==> k.scope == a)
    && (forall k :: k in t.tombstones ==> k.scope == a)
  }

  lemma AloneKnowsNoOther(a: Scope, t: Tables, op: Op, id: string)
    requires Alone(a, t) && ScopeOf(op) == Some(a)
    ensures !KnownElsewhere(t, op, id)
  {
  }

  lemma AgreeKeepsAlone(a: Scope, t: Tables, u: Tables)
    requires Alone(a, t) && forall b :: b != a ==> Agree(b, t, u)
    ensures Alone(a, u)
  {
    forall k: Key | k in u.events || k in u.memories
      ensures k.scope == a
    {
      assert k.scope == a || Agree(k.scope, t, u);
    }
    forall k | k in u.tombstones
      ensures k.scope == a
    {
      assert k.scope == a || Agree(k.scope, t, u);
    }
  }

  lemma StepKeepsAlone(a: Scope, t: Tables, op: Op)
    requires Valid(t) && Alone(a, t) && OpOk(op) && (op.Expire? || ScopeOf(op) == Some(a))
    ensures Alone(a, Step(t, op).state)
  {
    hide Valid, Agree, IngestStep, MaterializeStep, GovernStep, ExpireStep, Alone;
    if op.Expire? {
      ExpireState(t, op.asOf);
      assert Alone(a, Expired'(t, Due(t, op.asOf), op.asOf)) by { ExpiredAlone(a, t, op.asOf); }
    } else {
      forall b | b != a
        ensures Agree(b, t, Step(t, op).state)
      {
        ForeignStep(b, t, op);
      }
      AgreeKeepsAlone(a, t, Step(t, op).state);
    }
  }

  lemma ExpiredAlone(a: Scope, t: Tables, asOf: int)
    requires Alone(a, t)
    ensures Alone(a, Expired'(t, Due(t, asOf), asOf))
  {
    hide ExpireRows;
  }

  lemma {:induction false} OnlyIsAlone(a: Scope, ops: seq<Op>)
    requires OpsOk(ops)
    ensures OpsOk(Only(a, ops)) && Alone(a, Run(EMPTY, Only(a, ops)))
  {
    hide Valid, Agree, Step, Alone;
    OnlyOk(a, ops);
    if ops == [] {
      assert Alone(a, EMPTY) by { NothingIsAlone(a); }
    } else {
      var init, op := ops[..|ops| - 1], ops[|ops| - 1];
      OnlyIsAlone(a, init);
      if op.Expire? || ScopeOf(op) == Some(a) {
        assert Only(a, ops)[..|Only(a, ops)| - 1] == Only(a, init);
        EmptyIsValid();
        RunIsValid(EMPTY, Only(a, init));
        StepKeepsAlone(a, Run(EMPTY, Only(a, init)), op);
      } else {
        assert Only(a, ops) == Only(a, init);
      }
    }
  }

  lemma NothingIsAlone(a: Scope)
    ensures Alone(a, EMPTY)
  {
  }

  /** What a scope's operation is answered after a run among other scopes follows from what it is answered without
      them: alone, no identifier is ever called foreign; among others, one that alone is unknown is called foreign
      exactly when another scope holds it; and every other answer is the same. */
  lemma OthersShowOnlyAsForeign(a: Scope, ops: seq<Op>, op: Op)
    requires OpsOk(ops) && OpOk(op) && ScopeOf(op) == Some(a)
    ensures OpsOk(Only(a, ops))
    ensures var t := Run(EMPTY, ops);
            var among, alone := Step(t, op).reply, Step(Run(EMPTY, Only(a, ops)), op).reply;
            && !(alone.Failed? && alone.error.ScopeMismatch?)
            && among == if alone.Failed? && alone.error.EntityNotFound? && KnownElsewhere(t, op, alone.error.id)
                        then Failed(ScopeMismatch(alone.error.id)) else alone
  {
    hide Valid, Agree, Step, Run, Alone, KnownElsewhere;
    EmptyIsValid();
    RunAgrees(a, EMPTY, ops);
    OnlyIsAlone(a, ops);
    var t, u := Run(EMPTY, ops), Run(EMPTY, Only(a, ops));
    StepAgrees(a, t, u, op);
    ForeignExactly(t, op);
    ForeignExactly(u, op);
    if Step(u, op).reply.Failed? && Elsewhere(Step(u, op).reply.error) {
      AloneKnowsNoOther(a, u, op, Step(u, op).reply.error.id);
    }
  }

  lemma CandidatesAgree(a: Scope, t: Tables, u: Tables, q: Query)
    requires Agree(a, t, u) && q.scope == a && Recallable(t, a) && Recallable(u, a)
    ensures Candidates(t, q) == Candidates(u, q)
  {
    hide ReadMemory, SourceRows, Eligible, Recallable, Candidates, MemoryAt;
    forall m
      ensures m in Candidates(t, q) <==> m in Candidates(u, q)
    {
      var k := Key(a, m.memoryId);
      if k in t.memories {
        RecordsAgree(a, t, u, k);
      }
    }
  }
}
