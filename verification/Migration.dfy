/** Migration of lineage edges from the schema without snapshots: every old edge is joined with its receipt, and the
    migration is committed only when as many rows came out as went in. Any attempt to begin, to execute or to commit
    may be interrupted: which ones are is an input. */
module Migration {
  import opened Wrappers
  import opened TextOrder
  import opened Domain
  import opened Tables
  import opened Policy
  import opened Invariant
  import opened Plans
  import opened Interruptions

  /** One row of the join of old edges with receipts. */
  datatype JoinRow = JoinRow(edge: EdgeKey, receipt: Key)

  predicate Matches(e: EdgeKey, k: Key) {
    k.scope == e.scope && k.id == e.event
  }

  function Join(t: Tables, legacy: set<EdgeKey>): (rows: set<JoinRow>)
    ensures forall r :: r in rows ==> r.receipt in t.events
  {
    set e, k | e in legacy && k in t.events && Matches(e, k) :: JoinRow(e, k)
  }

  /** The receipt key leaves at most one join row per old edge. */
  lemma OneRowPerEdge(t: Tables, legacy: set<EdgeKey>, r: JoinRow, s: JoinRow)
    requires r in Join(t, legacy) && s in Join(t, legacy) && r.edge == s.edge
    ensures r == s
  {
  }

  predicate RowFits(t: Tables, r: JoinRow)
    requires r.receipt in t.events
  {
    var s := Snapshot(t.events[r.receipt]);
    && IsTrust(s.trust) && 0 < s.clearFor <= s.recallFor
    && Key(r.edge.scope, r.edge.memory) in t.memories
  }

  /** The row's key is free and its columns fit. */
  predicate Insertable(t: Tables, r: JoinRow)
    requires r.receipt in t.events
  {
    r.edge !in t.edges && RowFits(t, r)
  }

  /** A row fits exactly when the statement that inserts one edge would be accepted were its key free. */
  lemma RowFitsExactly(t: Tables, legacy: set<EdgeKey>, r: JoinRow)
    requires r in Join(t, legacy)
    ensures RowFits(t, r) <==>
      Exec(InsertEdge(r.edge, Snapshot(t.events[r.receipt])), t.(edges := t.edges - {r.edge})).Done?
  {
    JoinRowOf(t, legacy, r);
  }

  // ----- the schema and its statements

  /** The layout of `memory_sources`; with the current layout its rows are the tables' edges. */
  datatype Layout = Current | Legacy(lineage: set<EdgeKey>) | Absent | Unsupported

  /** The database while it is migrated: `renamed` is the old table once it has made way for the new one. */
  datatype Schema = Schema(tables: Tables, layout: Layout, renamed: Option<set<EdgeKey>>, indexed: bool)

  datatype SchemaStatement = DropIndex | Rename | CreateTable | InsertJoined | DropRenamed | CreateIndex

  /** The rows `INSERT … SELECT` puts in: one for each row of the join. */
  function Inserted(t: Tables, legacy: set<EdgeKey>): map<EdgeKey, EdgeRow> {
    assert forall r, s | r in Join(t, legacy) && s in Join(t, legacy) && r.edge == s.edge :: r == s by {
      forall r, s | r in Join(t, legacy) && s in Join(t, legacy) && r.edge == s.edge
        ensures r == s
      {
        OneRowPerEdge(t, legacy, r, s);
      }
    }
    map r | r in Join(t, legacy) :: r.edge := Snapshot(t.events[r.receipt])
  }

  // ----- one row at a time

  predicate AreJoined(t: Tables, rows: seq<JoinRow>) {
    && (forall r :: r in rows ==> r.receipt in t.events && Matches(r.edge, r.receipt))
    && (forall i, j :: 0 <= i < j < |rows| ==> rows[i].edge != rows[j].edge)
  }

  function InsertsOf(t: Tables, rows: seq<JoinRow>): seq<Statement>
    requires forall r :: r in rows ==> r.receipt in t.events
  {
    if rows == [] then [] else
      var last := rows[|rows| - 1];
      InsertsOf(t, rows[..|rows| - 1]) + [InsertEdge(last.edge, Snapshot(t.events[last.receipt]))]
  }

  function EdgesOf(t: Tables, rows: seq<JoinRow>): (m: map<EdgeKey, EdgeRow>)
    requires forall r :: r in rows ==> r.receipt in t.events
    ensures forall e :: e in m <==> exists r :: r in rows && r.edge == e
  {
    if rows == [] then map[] else
      var init, last := rows[..|rows| - 1], rows[|rows| - 1];
      assert rows == init + [last];
      EdgesOf(t, init)[last.edge := Snapshot(t.events[last.receipt])]
  }

  /** Inserting the rows one after the other goes through exactly when each is insertable to begin with. */
  lemma {:induction false} RowByRow(t: Tables, rows: seq<JoinRow>)
    requires AreJoined(t, rows)
    ensures ExecAll(InsertsOf(t, rows), t) ==
      if forall r :: r in rows ==> Insertable(t, r) then Done(t.(edges := t.edges + EdgesOf(t, rows))) else Violated
  {
    hide ExecAll, Insertable, Exec;
    if rows == [] {
      ExecNone(t);
      assert t.edges + map[] == t.edges;
    } else {
      var init, last := rows[..|rows| - 1], rows[|rows| - 1];
      assert forall r :: r in rows <==> r in init || r == last by { assert rows == init + [last]; }
      RowByRow(t, init);
      var s := InsertEdge(last.edge, Snapshot(t.events[last.receipt]));
      ExecSnoc(InsertsOf(t, init), s, t);
      NotYet(t, init, last, rows);
      OneRow(t, EdgesOf(t, init), last);
      AddsLast(t.edges, EdgesOf(t, init), last.edge, s.edge);
    }
  }

  lemma NotYet(t: Tables, init: seq<JoinRow>, last: JoinRow, rows: seq<JoinRow>)
    requires AreJoined(t, rows) && rows == init + [last]
    ensures AreJoined(t, init) && last.edge !in EdgesOf(t, init)
  {
    forall i, j | 0 <= i < j < |init|
      ensures init[i].edge != init[j].edge
    {
      assert rows[i].edge != rows[j].edge;
    }
    forall r | r in init
      ensures r.edge != last.edge
    {
      var i :| 0 <= i < |init| && init[i] == r;
      assert rows[i].edge != rows[|rows| - 1].edge;
    }
  }

  lemma AddsLast(a: map<EdgeKey, EdgeRow>, b: map<EdgeKey, EdgeRow>, k: EdgeKey, v: EdgeRow)
    ensures a + b[k := v] == (a + b)[k := v]
  {
  }

  lemma OneRow(t: Tables, more: map<EdgeKey, EdgeRow>, r: JoinRow)
    requires r.receipt in t.events && Matches(r.edge, r.receipt) && r.edge !in more
    ensures var s := Snapshot(t.events[r.receipt]);
            Exec(InsertEdge(r.edge, s), t.(edges := t.edges + more))
              == if Insertable(t, r) then Done(t.(edges := (t.edges + more)[r.edge := s])) else Violated
  {
  }

  /** `INSERT … SELECT` is inserting the joined rows one by one, in whatever order they come: it goes through exactly
      when that does, and leaves the same. */
  lemma InsertJoinedIsRowByRow(d: Schema, rows: seq<JoinRow>)
    requires d.layout.Current? && d.renamed.Some?
    requires forall r :: r in rows <==> r in Join(d.tables, d.renamed.value)
    requires forall i, j :: 0 <= i < j < |rows| ==> rows[i] != rows[j]
    ensures ExecSchema(InsertJoined, d) ==
      var e := ExecAll(InsertsOf(d.tables, rows), d.tables);
      if e.Done? then Some(d.(tables := e.state)) else None
  {
    hide ExecAll, RowFits, Join, Insertable;
    var t, legacy := d.tables, d.renamed.value;
    forall r | r in rows
      ensures r.receipt in t.events && Matches(r.edge, r.receipt)
    {
      JoinRowOf(t, legacy, r);
    }
    forall i, j | 0 <= i < j < |rows|
      ensures rows[i].edge != rows[j].edge
    {
      if rows[i].edge == rows[j].edge {
        OneRowPerEdge(t, legacy, rows[i], rows[j]);
      }
    }
    RowByRow(t, rows);
    EdgesAreInserted(t, legacy, rows);
  }

  lemma {:induction false} EdgeAt(t: Tables, rows: seq<JoinRow>, r: JoinRow)
    requires AreJoined(t, rows) && r in rows
    ensures r.edge in EdgesOf(t, rows) && EdgesOf(t, rows)[r.edge] == Snapshot(t.events[r.receipt])
  {
    var init, last := rows[..|rows| - 1], rows[|rows| - 1];
    assert rows == init + [last];
    if r in init {
      var i :| 0 <= i < |init| && init[i] == r;
      assert rows[i].edge != rows[|rows| - 1].edge;
      EdgeAt(t, init, r);
    }
  }

  lemma EdgesAreInserted(t: Tables, legacy: set<EdgeKey>, rows: seq<JoinRow>)
    requires AreJoined(t, rows) && forall r :: r in rows <==> r in Join(t, legacy)
    ensures EdgesOf(t, rows) == Inserted(t, legacy)
  {
    hide Join;
    forall e
      ensures e in EdgesOf(t, rows) <==> e in Inserted(t, legacy)
      ensures e in EdgesOf(t, rows) ==> EdgesOf(t, rows)[e] == Inserted(t, legacy)[e]
    {
      if r :| r in rows && r.edge == e {
        EdgeAt(t, rows, r);
        assert Inserted(t, legacy)[r.edge] == Snapshot(t.events[r.receipt]);
      }
    }
  }

  function ExecSchema(s: SchemaStatement, d: Schema): Option<Schema> {
    match s
    case DropIndex => Some(d.(indexed := false))
    case Rename =>
      if d.layout.Legacy? && d.renamed.None?
      then Some(d.(layout := Absent, renamed := Some(d.layout.lineage))) else None
    case CreateTable =>
      Some(if d.layout.Absent? then d.(layout := Current, tables := d.tables.(edges := map[])) else d)
    case InsertJoined =>
      if d.layout.Current? && d.renamed.Some?
         && forall r :: r in Join(d.tables, d.renamed.value) ==> Insertable(d.tables, r)
      then Some(d.(tables := d.tables.(edges := d.tables.edges + Inserted(d.tables, d.renamed.value)))) else None
    case DropRenamed => if d.renamed.Some? then Some(d.(renamed := None)) else None
    case CreateIndex => Some(d.(indexed := true))
  }

  // ----- what comes out of the join

  function NewTable(t: Tables, legacy: set<EdgeKey>): map<EdgeKey, EdgeRow> {
    map e | e in legacy && Key(e.scope, e.event) in t.events :: Snapshot(t.events[Key(e.scope, e.event)])
  }

  lemma JoinRowOf(t: Tables, legacy: set<EdgeKey>, r: JoinRow)
    ensures r in Join(t, legacy) <==>
      && r.edge in legacy && r.receipt in t.events
      && r.receipt == Key(r.edge.scope, r.edge.event)
  {
    assert Matches(r.edge, r.receipt) <==> r.receipt == Key(r.edge.scope, r.edge.event);
  }

  lemma {:induction false} JoinSize(t: Tables, legacy: set<EdgeKey>)
    ensures |Join(t, legacy)| == |NewTable(t, legacy)| <= |legacy|
    ensures |Join(t, legacy)| == |legacy| <==> forall e :: e in legacy ==> Key(e.scope, e.event) in t.events
    decreases |legacy|
  {
    hide Join, NewTable;
    if legacy == {} {
      JoinNothing(t);
    } else {
      var e :| e in legacy;
      var rest := legacy - {e};
      JoinSize(t, rest);
      JoinOneMore(t, rest, e);
      assert rest + {e} == legacy;
    }
  }

  lemma JoinNothing(t: Tables)
    ensures Join(t, {}) == {} && NewTable(t, {}) == map[]
  {
  }

  lemma JoinOneMore(t: Tables, legacy: set<EdgeKey>, e: EdgeKey)
    requires e !in legacy
    ensures var hit := if Key(e.scope, e.event) in t.events then 1 else 0;
            |Join(t, legacy + {e})| == |Join(t, legacy)| + hit
              && |NewTable(t, legacy + {e})| == |NewTable(t, legacy)| + hit
  {
    hide Join, NewTable;
    var row := JoinRow(e, Key(e.scope, e.event));
    forall r
      ensures r in Join(t, legacy + {e}) <==> r in Join(t, legacy) || (row.receipt in t.events && r == row)
      ensures r in Join(t, legacy) ==> r.edge != e
    {
      JoinRowOf(t, legacy + {e}, r);
      JoinRowOf(t, legacy, r);
    }
    assert Join(t, legacy + {e}) == Join(t, legacy) + if row.receipt in t.events then {row} else {};
    TableOneMore(t, legacy, e);
  }

  lemma TableOneMore(t: Tables, legacy: set<EdgeKey>, e: EdgeKey)
    requires e !in legacy
    ensures |NewTable(t, legacy + {e})| == |NewTable(t, legacy)| + if Key(e.scope, e.event) in t.events then 1 else 0
  {
    var k := Key(e.scope, e.event);
    if k in t.events {
      assert NewTable(t, legacy + {e}) == NewTable(t, legacy)[e := Snapshot(t.events[k])];
    } else {
      assert NewTable(t, legacy + {e}) == NewTable(t, legacy);
    }
  }

  lemma InsertedIsNewTable(t: Tables, legacy: set<EdgeKey>)
    ensures Inserted(t, legacy) == NewTable(t, legacy)
  {
    hide Join;
    forall r: JoinRow {
      JoinRowOf(t, legacy, r);
    }
    forall e
      ensures e in Inserted(t, legacy) <==> e in NewTable(t, legacy)
      ensures e in Inserted(t, legacy) ==> Inserted(t, legacy)[e] == NewTable(t, legacy)[e]
    {
      assert JoinRow(e, Key(e.scope, e.event)) in Join(t, legacy) <==> e in NewTable(t, legacy);
    }
  }

  /** Everything the migration needs: a legacy table, a free name for it, a receipt for each edge, rows that fit. */
  ghost predicate Migratable(d: Schema) {
    && d.layout.Legacy? && d.renamed.None?
    && (forall e :: e in d.layout.lineage ==> Key(e.scope, e.event) in d.tables.events)
    && (forall r :: r in Join(d.tables, d.layout.lineage) ==> RowFits(d.tables, r))
  }

  /** The database once migrated. */
  function Migrated(d: Schema): Schema
    requires d.layout.Legacy?
  {
    Schema(d.tables.(edges := NewTable(d.tables, d.layout.lineage)), Current, None, true)
  }

  datatype Ended = Ready | Refused | Interrupted

  class Database {
    var committed: Schema
    var work: Schema

    /** Whether the n-th attempt is interrupted. */
    const fails: nat -> bool
    var attempts: nat

    /** No attempt since number `from` was interrupted. */
    ghost predicate Undisturbed(from: nat)
      reads `attempts
    {
      Faults(fails, attempts) == Faults(fails, from)
    }

    constructor (schema: Schema, fails: nat -> bool)
      ensures committed == schema && this.fails == fails && attempts == 0
    {
      committed, work, attempts, this.fails := schema, schema, 0, fails;
    }

    method Attempt() returns (ok: bool)
      modifies `attempts
      ensures attempts == old(attempts) + 1
      ensures Faults(fails, attempts) == Faults(fails, old(attempts)) + if ok then 0 else 1
    {
      ok := !fails(attempts);
      attempts := attempts + 1;
    }

    method Execute(s: SchemaStatement) returns (r: Ended)
      modifies `work, `attempts
      ensures attempts == old(attempts) + 1
      ensures Faults(fails, attempts) == Faults(fails, old(attempts)) + if r.Interrupted? then 1 else 0
      ensures r.Ready? ==> ExecSchema(s, old(work)) == Some(work)
      ensures r.Refused? ==> ExecSchema(s, old(work)).None?
      ensures !r.Ready? ==> work == old(work)
    {
      hide Faults;
      var ok := Attempt();
      if !ok {
        return Interrupted;
      }
      match ExecSchema(s, work)
      case None => return Ended.Refused;
      case Some(next) =>
        work := next;
        return Ready;
    }

    /** The statements of the migration, up to the second count. */
    method CopyJoined() returns (r: Ended)
      requires work.layout.Legacy?
      modifies `work, `attempts
      ensures old(attempts) <= attempts && (r.Interrupted? <==> !Undisturbed(old(attempts)))
      ensures r.Ready? ==>
        && old(work).renamed.None?
        && (forall j :: j in Join(old(work).tables, old(work).layout.lineage) ==> RowFits(old(work).tables, j))
        && work == Schema(old(work).tables.(edges := NewTable(old(work).tables, old(work).layout.lineage)), Current,
                          Some(old(work).layout.lineage), false)
      ensures r.Refused? ==> !Migratable(old(work))
    {
      hide Faults, Join, RowFits, NewTable, Inserted;
      ghost var before := work;
      r := Execute(DropIndex);
      if !r.Ready? {
        return;
      }
      r := Execute(Rename);
      if !r.Ready? {
        return;
      }
      r := Execute(CreateTable);
      if !r.Ready? {
        return;
      }
      EdgesDoNotMatter(before.tables, before.layout.lineage);
      InsertedIsNewTable(work.tables, before.layout.lineage);
      NoEdges(work.tables, before.layout.lineage);
      r := Execute(InsertJoined);
    }

    /** `_migrate_legacy_memory_sources`: nothing to do for the current layout; else the old edges are counted, joined
        with their receipts into the new table, and counted again. */
    method MigrateLegacyMemorySources() returns (r: Ended)
      modifies `work, `attempts
      ensures old(attempts) <= attempts && (r.Interrupted? <==> !Undisturbed(old(attempts)))
      ensures r.Ready? && old(work).layout.Current? ==> work == old(work)
      ensures r.Ready? && !old(work).layout.Current? ==> Migratable(old(work)) && work == Migrated(old(work))
      ensures r.Refused? ==> !old(work).layout.Current? && !Migratable(old(work))
    {
      hide Faults, Join, RowFits, NewTable;
      if work.layout.Current? {
        return Ready;
      }
      if !work.layout.Legacy? {
        return Ended.Refused;
      }
      ghost var before := work;
      var count := |work.layout.lineage|;
      r := CopyJoined();
      if !r.Ready? {
        return;
      }
      JoinSize(before.tables, before.layout.lineage);
      if |work.tables.edges| != count {
        return Ended.Refused;
      }
      r := Execute(DropRenamed);
      if !r.Ready? {
        return;
      }
      r := Execute(CreateIndex);
    }

    /** `_initialize_schema` over an existing schema: the migration and the index are committed together, or the
        database stays as it was. */
    method InitializeSchema() returns (r: Ended)
      modifies this
      ensures old(attempts) <= attempts && (r.Interrupted? <==> !Undisturbed(old(attempts)))
      ensures !r.Ready? ==> committed == old(committed)
      ensures r.Ready? && old(committed).layout.Current? ==> committed == old(committed).(indexed := true)
      ensures r.Ready? && !old(committed).layout.Current? ==>
        Migratable(old(committed)) && committed == Migrated(old(committed))
      ensures r.Refused? ==> !old(committed).layout.Current? && !Migratable(old(committed))
    {
      hide Faults, Migratable, NewTable;
      var begun := Attempt();
      if !begun {
        return Interrupted;
      }
      work := committed;
      r := MigrateLegacyMemorySources();
      if !r.Ready? {
        work := committed;
        return;
      }
      r := Execute(CreateIndex);
      if !r.Ready? {
        work := committed;
        return;
      }
      var done := Attempt();
      if !done {
        work := committed;
        return Interrupted;
      }
      committed := work;
    }
  }

  lemma NoEdges(t: Tables, legacy: set<EdgeKey>)
    requires t.edges == map[]
    ensures t.edges + Inserted(t, legacy) == Inserted(t, legacy)
    ensures forall r :: r in Join(t, legacy) ==> (Insertable(t, r) <==> RowFits(t, r))
  {
    hide RowFits, Inserted;
  }

  /** The join does not look at the table it fills. */
  lemma EdgesDoNotMatter(t: Tables, legacy: set<EdgeKey>)
    ensures Join(t.(edges := map[]), legacy) == Join(t, legacy)
    ensures NewTable(t.(edges := map[]), legacy) == NewTable(t, legacy)
    ensures forall r: JoinRow :: r.receipt in t.events ==> RowFits(t.(edges := map[]), r) == RowFits(t, r)
  {
  }

  // ----- what the migration preserves

  /** The sources of a memory under the old schema. */
  function LegacySources(legacy: set<EdgeKey>, k: Key): (r: set<string>)
    ensures forall x :: x in r <==> EdgeKey(k.scope, k.id, x) in legacy
  {
    var r := set e | e in legacy && e.scope == k.scope && e.memory == k.id :: e.event;
    assert forall x :: EdgeKey(k.scope, k.id, x) in legacy ==> EdgeKey(k.scope, k.id, x).event in r;
    r
  }

  /** After the migration each memory has the lineage its old edges gave it when read against the receipts directly. */
  lemma MigratedLineage(t: Tables, legacy: set<EdgeKey>, k: Key)
    requires forall e :: e in legacy ==> Key(e.scope, e.event) in t.events
    ensures forall x :: x in LegacySources(legacy, k) ==> Key(k.scope, x) in t.events
    ensures SourceRows(t.(edges := NewTable(t, legacy)), k) == DraftRows(t, k.scope, LegacySources(legacy, k))
  {
    var u := t.(edges := NewTable(t, legacy));
    assert SourceIds(u, k) == LegacySources(legacy, k);
    var s := Sorted(LegacySources(legacy, k));
    forall i | 0 <= i < |s|
      ensures SourceRows(u, k)[i] == DraftRows(t, k.scope, LegacySources(legacy, k))[i]
    {
      assert s[i] in Elements(s);
    }
  }

  /** Whatever the old tables hold: a memory of the migrated database reads back exactly when its old edges, read
      against the receipts, do, and as the same record. */
  lemma MigratedMemory(d: Schema, k: Key)
    requires Migratable(d) && k in d.tables.memories
    ensures k in Migrated(d).tables.memories
    ensures forall x :: x in LegacySources(d.layout.lineage, k) ==> Key(k.scope, x) in d.tables.events
    ensures MemoryAt(Migrated(d).tables, k)
      == ReadMemory(k, d.tables.memories[k], DraftRows(d.tables, k.scope, LegacySources(d.layout.lineage, k)))
  {
    hide ReadMemory, SourceRows, DraftRows, NewTable, Join, RowFits;
    MigratedLineage(d.tables, d.layout.lineage, k);
  }

  /** A database of valid tables, seen through the old schema, can be migrated, and becomes exactly those tables. */
  lemma MigrationRestores(t: Tables, indexed: bool)
    requires Valid(t)
    ensures var d := Schema(t.(edges := map[]), Legacy(t.edges.Keys), None, indexed);
            Migratable(d) && Migrated(d) == Schema(t, Current, None, true)
  {
    hide MemoriesReadable, TombstonesReadable, AuditReadable, NoneResurrected, ReadReceipt, Join;
    EdgesDoNotMatter(t, t.edges.Keys);
    forall r | r in Join(t, t.edges.Keys)
      ensures r.receipt in t.events && RowFits(t, r)
    {
      JoinRowOf(t, t.edges.Keys, r);
      ReceiptFacts(t, r.receipt);
    }
    assert NewTable(t, t.edges.Keys) == t.edges;
  }
}
