/** The batched lineage query of recall: all edges of a scope in one result set, and how its rows fall to memories. */
module Grouping {
  import opened TextOrder
  import opened Fingerprint
  import opened Tables
  import opened Recall

  datatype Tagged = Tagged(memory: string, row: SourceRow)

  function Tag(memory: string, rows: seq<SourceRow>): seq<Tagged> {
    seq(|rows|, i requires 0 <= i < |rows| => Tagged(memory, rows[i]))
  }

  function RowsOf(t: Tables, scope: Scope, owners: seq<string>): seq<Tagged> {
    if owners == [] then [] else
      var last := owners[|owners| - 1];
      RowsOf(t, scope, owners[..|owners| - 1]) + Tag(last, SourceRows(t, Key(scope, last)))
  }

  /** `ORDER BY memory_id, event_id`. */
  function ScopeRows(t: Tables, scope: Scope): seq<Tagged> {
    RowsOf(t, scope, Sorted(EdgeOwners(t, scope)))
  }

  /** The rows of one memory, in the order they come. */
  function GroupOf(rows: seq<Tagged>, memory: string): seq<SourceRow> {
    if rows == [] then [] else
      var last := rows[|rows| - 1];
      GroupOf(rows[..|rows| - 1], memory) + if last.memory == memory then [last.row] else []
  }

  lemma {:induction false} GroupOfTagged(before: seq<Tagged>, m: string, rows: seq<SourceRow>, memory: string)
    ensures GroupOf(before + Tag(m, rows), memory) == GroupOf(before, memory) + if m == memory then rows else []
  {
    if rows == [] {
      assert before + Tag(m, rows) == before;
    } else {
      var init, last := rows[..|rows| - 1], rows[|rows| - 1];
      GroupOfTagged(before, m, init, memory);
      assert before + Tag(m, rows) == (before + Tag(m, init)) + [Tagged(m, last)];
      assert rows == init + [last];
    }
  }

  lemma {:induction false} GroupOfRows(t: Tables, scope: Scope, owners: seq<string>, memory: string)
    requires forall i, j :: 0 <= i < j < |owners| ==> owners[i] != owners[j]
    ensures GroupOf(RowsOf(t, scope, owners), memory)
      == if memory in owners then SourceRows(t, Key(scope, memory)) else []
  {
    hide SourceRows;
    if owners != [] {
      var init, last := owners[..|owners| - 1], owners[|owners| - 1];
      GroupOfRows(t, scope, init, memory);
      GroupOfTagged(RowsOf(t, scope, init), last, SourceRows(t, Key(scope, last)), memory);
      assert owners == init + [last];
    }
  }

  /** Grouping the batched rows gives each memory exactly its own ordered edges. */
  lemma GroupsAreLineages(t: Tables, scope: Scope, memory: string)
    ensures GroupOf(ScopeRows(t, scope), memory) == SourceRows(t, Key(scope, memory))
  {
    hide SourceRows;
    var owners := Sorted(EdgeOwners(t, scope));
    forall i, j | 0 <= i < j < |owners|
      ensures owners[i] != owners[j]
    {
      LessIrreflexive(owners[i]);
    }
    GroupOfRows(t, scope, owners, memory);
    assert memory in owners <==> memory in Elements(owners);
    if memory !in owners {
      NoRows(t, scope, memory);
    }
  }

  lemma NoRows(t: Tables, scope: Scope, memory: string)
    requires memory !in EdgeOwners(t, scope)
    ensures SourceRows(t, Key(scope, memory)) == []
  {
    forall x
      ensures x !in SourceIds(t, Key(scope, memory))
    {
      assert EdgeKey(scope, memory, x).memory == memory;
    }
    assert SourceIds(t, Key(scope, memory)) == {};
  }
}
