/** What the schema demands of the rows, said once about the tables, and that a statement is turned away exactly when it
    would leave tables that do not meet it. */
module Constraints {
  import opened Binary64
  import opened Numerals
  import opened Metadata
  import opened CanonicalJson
  import opened Domain
  import opened Tables
  import opened Invariant

  /** A value's text passes the JSON check, and with anything after it does not. */
  lemma OnlyWholeTextIsJson(v: Json, k: string)
    requires Delimits(k)
    ensures JsonValid(PrintTo(v, k)) <==> k == []
  {
    hide PrintTo, ParseValue;
    ParsePrint(v, k);
  }

  ghost predicate EventsMeet(t: Tables) {
    forall k :: k in t.events ==>
      && 0 <= t.events[k].trust <= 2 && 0 < t.events[k].clearFor && 0 < t.events[k].recallFor
      && JsonValid(t.events[k].sourceMetadata) && JsonValid(t.events[k].metadata)
  }

  ghost predicate MemoriesMeet(t: Tables) {
    forall k :: k in t.memories ==>
      && 0 <= t.memories[k].trust <= 2 && (t.memories[k].status.Active? || t.memories[k].status.Sealed?)
      && JsonValid(t.memories[k].metadata)
  }

  ghost predicate EdgesMeet(t: Tables) {
    forall e :: e in t.edges ==>
      && Key(e.scope, e.memory) in t.memories && Key(e.scope, e.event) in t.events
      && 0 <= t.edges[e].trust <= 2 && 0 < t.edges[e].clearFor <= t.edges[e].recallFor
  }

  ghost predicate BodiesMeet(t: Tables) {
    forall k :: k in t.bodies ==> k in t.events
  }

  /** The CHECK and FOREIGN KEY clauses of the schema. */
  ghost predicate MeetsSchema(t: Tables) {
    EventsMeet(t) && MemoriesMeet(t) && EdgesMeet(t) && BodiesMeet(t)
  }

  /** What a statement would do if nothing were checked; deletions cascade as the schema says. */
  function Effect(s: Statement, t: Tables): Tables {
    match s
    case InsertAudit(row) => t.(audit := t.audit + multiset{row})
    case InsertEvent(k, row) => t.(events := t.events[k := row])
    case InsertBody(k, content) => t.(bodies := t.bodies[k := content])
    case InsertMemory(k, row) => t.(memories := t.memories[k := row])
    case InsertEdge(e, row) => t.(edges := t.edges[e := row])
    case InsertTombstone(k, row) => t.(tombstones := t.tombstones[k := row])
    case SetEventStatus(k, status) =>
      if k in t.events then t.(events := t.events[k := t.events[k].(status := status)]) else t
    case SetMemoryStatus(k, status) =>
      if k in t.memories then t.(memories := t.memories[k := t.memories[k].(status := status)]) else t
    case DeleteBody(k) => t.(bodies := t.bodies - {k})
    case DeleteEvent(k) => t.(events := t.events - {k}, bodies := t.bodies - {k})
    case DeleteEdges(k) =>
      t.(edges := map e | e in t.edges && !(e.scope == k.scope && e.memory == k.id) :: t.edges[e])
    case DeleteMemory(k) =>
      t.(memories := t.memories - {k},
         edges := map e | e in t.edges && !(e.scope == k.scope && e.memory == k.id) :: t.edges[e])
  }

  /** The row's primary key is taken. */
  predicate Collides(s: Statement, t: Tables) {
    match s
    case InsertEvent(k, _) => k in t.events
    case InsertBody(k, _) => k in t.bodies
    case InsertMemory(k, _) => k in t.memories
    case InsertEdge(e, _) => e in t.edges
    case InsertTombstone(k, _) => k in t.tombstones
    case _ => false
  }

  /** The periods of a new event do not fit a signed 64-bit column. */
  predicate Overflows(s: Statement) {
    s.InsertEvent? && (s.event.clearFor >= Power(2, 63) || s.event.recallFor >= Power(2, 63))
  }

  lemma InsertionAccepted(s: Statement, t: Tables)
    requires MeetsSchema(t) && !Overflows(s)
    requires s.InsertAudit? || s.InsertEvent? || s.InsertBody? || s.InsertMemory? || s.InsertTombstone?
    ensures Exec(s, t) == if Collides(s, t) || !MeetsSchema(Effect(s, t)) then Violated else Done(Effect(s, t))
  {
    hide JsonValid, Power;
    ColumnBound();
    var u := Effect(s, t);
    match s
    case InsertEvent(k, row) => assert k in u.events && u.events[k] == row;
    case InsertBody(k, content) => assert k in u.bodies;
    case InsertMemory(k, row) => assert k in u.memories && u.memories[k] == row;
    case _ =>
  }

  lemma EdgeAccepted(s: Statement, t: Tables)
    requires MeetsSchema(t) && s.InsertEdge?
    ensures Exec(s, t) == if Collides(s, t) || !MeetsSchema(Effect(s, t)) then Violated else Done(Effect(s, t))
  {
    hide JsonValid;
    assert s.edgeKey in Effect(s, t).edges && Effect(s, t).edges[s.edgeKey] == s.edge;
  }

  lemma UpdateAccepted(s: Statement, t: Tables)
    requires MeetsSchema(t) && (s.SetEventStatus? || s.SetMemoryStatus?)
    ensures Exec(s, t) == if !MeetsSchema(Effect(s, t)) then Violated else Done(Effect(s, t))
  {
    hide JsonValid;
    var u := Effect(s, t);
    match s
    case SetMemoryStatus(k, status) =>
      assert k in t.memories ==> k in u.memories && u.memories[k].status == status;
    case _ =>
  }

  lemma EventDeletion(t: Tables, k: Key)
    requires MeetsSchema(t)
    ensures var s := DeleteEvent(k);
            Exec(s, t) == if !MeetsSchema(Effect(s, t)) then Violated else Done(Effect(s, t))
  {
    hide JsonValid;
    var u := Effect(DeleteEvent(k), t);
    assert EventsMeet(u) && MemoriesMeet(u) && BodiesMeet(u);
    if e :| e in t.edges && e.scope == k.scope && e.event == k.id {
      assert e in u.edges && Key(e.scope, e.event) !in u.events;
    } else {
      assert forall e :: e in t.edges ==> Key(e.scope, e.event) != k;
    }
  }

  lemma EdgesDeletion(t: Tables, k: Key)
    requires MeetsSchema(t)
    ensures MeetsSchema(Effect(DeleteEdges(k), t)) && Exec(DeleteEdges(k), t) == Done(Effect(DeleteEdges(k), t))
    ensures forall e :: e in Effect(DeleteEdges(k), t).edges ==> Key(e.scope, e.memory) != k
  {
    hide JsonValid;
    assert WithoutEdgesOf(t.edges, k.scope, {k.id}) == Effect(DeleteEdges(k), t).edges;
    forall e | e in Effect(DeleteEdges(k), t).edges
      ensures Key(e.scope, e.memory) != k
    {
    }
  }

  lemma MemoryDeletion(t: Tables, k: Key)
    requires MeetsSchema(t)
    ensures MeetsSchema(Effect(DeleteMemory(k), t)) && Exec(DeleteMemory(k), t) == Done(Effect(DeleteMemory(k), t))
  {
    hide JsonValid, WithoutEdgesOf;
    EdgesDeletion(t, k);
    var u := Effect(DeleteEdges(k), t);
    assert Effect(DeleteMemory(k), t) == u.(memories := u.memories - {k});
  }

  lemma BodyDeletion(t: Tables, k: Key)
    requires MeetsSchema(t)
    ensures MeetsSchema(Effect(DeleteBody(k), t)) && Exec(DeleteBody(k), t) == Done(Effect(DeleteBody(k), t))
  {
    hide JsonValid;
  }

  /** On tables that meet the schema, a statement is accepted exactly when its key is free, its numbers fit, and what it
      would leave meets the schema; then that is what it leaves. */
  lemma AcceptedExactly(s: Statement, t: Tables)
    requires MeetsSchema(t)
    ensures Exec(s, t) ==
      if Overflows(s) then TooLarge
      else if Collides(s, t) || !MeetsSchema(Effect(s, t)) then Violated
      else Done(Effect(s, t))
  {
    hide MeetsSchema, Exec, Effect, Power;
    assert !Collides(s, t) || s.InsertEvent? || s.InsertBody? || s.InsertMemory? || s.InsertEdge? || s.InsertTombstone?;
    if Overflows(s) {
      ColumnBound();
      TooLargeStatement(s, t);
    } else if s.InsertEdge? {
      EdgeAccepted(s, t);
    } else if s.SetEventStatus? || s.SetMemoryStatus? {
      UpdateAccepted(s, t);
    } else if s.DeleteEvent? {
      EventDeletion(t, s.key);
    } else if s.DeleteBody? {
      BodyDeletion(t, s.key);
    } else if s.DeleteEdges? {
      EdgesDeletion(t, s.key);
    } else if s.DeleteMemory? {
      MemoryDeletion(t, s.key);
    } else {
      InsertionAccepted(s, t);
    }
  }

  lemma TooLargeStatement(s: Statement, t: Tables)
    requires s.InsertEvent? && (s.event.clearFor > INT64_MAX || s.event.recallFor > INT64_MAX)
    ensures Exec(s, t) == TooLarge
  {
    hide JsonValid;
  }

  // ----- the schema along every run

  lemma ReceiptMeets(k: Key, row: EventRow, available: bool)
    requires ReadReceipt(k, row, available).Some?
    ensures 0 <= row.trust <= 2 && 0 < row.clearFor && 0 < row.recallFor
    ensures JsonValid(row.sourceMetadata) && JsonValid(row.metadata)
  {
    hide Decode, JsonValid;
    DecodedIsJson(row.sourceMetadata);
    DecodedIsJson(row.metadata);
  }

  lemma DecodedIsJson(text: string)
    requires Decode(text).Some?
    ensures JsonValid(text)
  {
    hide IsMetadata, Canonical;
  }

  lemma RecordMeets(k: Key, row: MemoryRow, rows: seq<SourceRow>)
    requires ReadMemory(k, row, rows).Some?
    ensures 0 <= row.trust <= 2 && (row.status.Active? || row.status.Sealed?) && JsonValid(row.metadata)
  {
    hide Decode, JsonValid, MinOf;
    DecodedIsJson(row.metadata);
  }

  /** Every valid state meets the schema, so every reachable one does. */
  lemma ValidMeetsSchema(t: Tables)
    requires Valid(t)
    ensures MeetsSchema(t)
  {
    hide JsonValid, ReadReceipt, ReadMemory, SourceRows, AuditReadable, TombstonesReadable, NoneResurrected;
    forall k | k in t.events
      ensures 0 <= t.events[k].trust <= 2 && 0 < t.events[k].clearFor && 0 < t.events[k].recallFor
      ensures JsonValid(t.events[k].sourceMetadata) && JsonValid(t.events[k].metadata)
    {
      ReceiptMeets(k, t.events[k], k in t.bodies);
    }
    forall k | k in t.memories
      ensures 0 <= t.memories[k].trust <= 2 && (t.memories[k].status.Active? || t.memories[k].status.Sealed?)
      ensures JsonValid(t.memories[k].metadata)
    {
      RecordMeets(k, t.memories[k], SourceRows(t, k));
    }
    forall e | e in t.edges
      ensures 0 <= t.edges[e].trust <= 2 && 0 < t.edges[e].clearFor <= t.edges[e].recallFor
    {
      ReceiptFacts(t, Key(e.scope, e.event));
    }
  }
}
