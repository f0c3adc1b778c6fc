/** On any tables whatever: which malformed rows make an operation answer that the store is corrupt. An operation
    notices the rows it looks at, and no others. */
module Damage {
  import opened Wrappers
  import opened TextOrder
  import opened Binary64
  import opened Fingerprint
  import opened Domain
  import opened Tables
  import opened Policy
  import opened Invariant

  /** A malformed tombstone of the identifier in the scope, whichever entity it is for. */
  predicate BadTombstone(t: Tables, scope: Scope, id: string) {
    exists k :: k in t.tombstones && k.scope == scope && k.id == id && !TombstoneOk(k, t.tombstones[k])
  }

  /** A malformed tombstone of the identifier, in any scope. */
  predicate BadTombstoneAnywhere(t: Tables, id: string) {
    exists k :: k in t.tombstones && k.id == id && !TombstoneOk(k, t.tombstones[k])
  }

  /** A malformed tombstone that carries the fingerprint. */
  predicate BadPrint(t: Tables, scope: Scope, fp: Digest) {
    exists k :: k in t.tombstones && k.scope == scope && t.tombstones[k].fingerprint == Some(fp)
                && !TombstoneOk(k, t.tombstones[k])
  }

  predicate BadReceipt(t: Tables, k: Key) {
    k in t.events && ReceiptAt(t, k).None?
  }

  lemma ReadableIs(t: Tables, scope: Scope, id: string)
    ensures TombsReadable(t, scope, id) <==> !BadTombstone(t, scope, id)
  {
    hide TombstoneOk;
    if !BadTombstone(t, scope, id) {
      forall ty | TombKey(scope, ty, id) in t.tombstones
        ensures TombstoneOk(TombKey(scope, ty, id), t.tombstones[TombKey(scope, ty, id)])
      {
      }
    }
    if k :| k in t.tombstones && k.scope == scope && k.id == id && !TombstoneOk(k, t.tombstones[k]) {
      assert k == TombKey(scope, k.entity, id);
    }
  }

  /** An ingest finds damage in the tombstones of its identifier, else in the receipt, else in a body without one. */
  lemma IngestFindsDamage(t: Tables, d: EventDraft, now: int)
    requires EventDraftOk(d) && IsTime(now)
    ensures Step(t, Ingest(d, now)).reply == Failed(Corruption) <==>
      && d.source.occurredAt + d.rawTtl <= MAX_TIME
      && (|| BadTombstone(t, d.scope, d.eventId)
          || (TombKey(d.scope, RawEvent, d.eventId) !in t.tombstones
              && if EventKey(d) in t.events then BadReceipt(t, EventKey(d))
                 else d.clearFor < Power(2, 63) && d.recallFor < Power(2, 63) && EventKey(d) in t.bodies))
  {
    hide ReadReceipt, TombsReadable, BadTombstone, SameEvent, NewEventRow, Power, Ingested';
    ReadableIs(t, d.scope, d.eventId);
    ColumnBound();
    if d.source.occurredAt + d.rawTtl <= MAX_TIME {
      FreshReceipt(d, now);
    }
  }

  /** An expiry finds damage in any receipt at all. */
  lemma ExpireFindsDamage(t: Tables, asOf: int)
    requires IsTime(asOf)
    ensures Step(t, Expire(asOf)).reply == Failed(Corruption) <==> exists k :: BadReceipt(t, k)
  {
    hide ReadReceipt, Expired';
    if k :| BadReceipt(t, k) {
      assert k in t.events && ReceiptAt(t, k).None?;
    }
    if k :| k in t.events && ReceiptAt(t, k).None? {
      assert BadReceipt(t, k);
    }
  }

  /** The source cannot be told from the tables: its receipt is malformed, or, if it has none, one of its tombstones. */
  predicate BadSource(t: Tables, scope: Scope, id: string) {
    if Key(scope, id) in t.events then BadReceipt(t, Key(scope, id)) else BadTombstone(t, scope, id)
  }

  lemma SourceErrorIs(t: Tables, scope: Scope, id: string)
    ensures SourceError(t, scope, id) == Some(Corruption) <==> BadSource(t, scope, id)
    ensures SourceError(t, scope, id).None? <==> Key(scope, id) in t.events && !BadReceipt(t, Key(scope, id))
  {
    hide ReadReceipt, TombsReadable, BadTombstone;
    ReadableIs(t, scope, id);
  }

  predicate ReadsBack(t: Tables, scope: Scope, id: string) {
    Key(scope, id) in t.events && !BadReceipt(t, Key(scope, id))
  }

  /** The first source that does not read back is a damaged one. */
  predicate FirstIsBad(t: Tables, scope: Scope, ids: seq<string>) {
    exists i :: 0 <= i < |ids| && BadSource(t, scope, ids[i]) && forall j :: 0 <= j < i ==> ReadsBack(t, scope, ids[j])
  }

  lemma {:induction false} SourcesErrorIs(t: Tables, scope: Scope, ids: seq<string>)
    ensures SourcesError(t, scope, ids) == Some(Corruption) <==> FirstIsBad(t, scope, ids)
  {
    hide SourceError, Usable, BadSource, BadReceipt;
    if ids != [] {
      SourceErrorIs(t, scope, ids[0]);
      SourcesErrorIs(t, scope, ids[1..]);
      var rest := ids[1..];
      if FirstIsBad(t, scope, ids) && ReadsBack(t, scope, ids[0]) {
        var i :| 0 <= i < |ids| && BadSource(t, scope, ids[i])
          && forall j :: 0 <= j < i ==> ReadsBack(t, scope, ids[j]);
        assert i > 0 by { NotBoth(t, scope, ids[0]); }
        assert BadSource(t, scope, rest[i - 1]);
        assert forall j :: 0 <= j < i - 1 ==> ReadsBack(t, scope, rest[j]) by {
          assert forall j :: 0 <= j < i - 1 ==> rest[j] == ids[j + 1];
        }
      }
      if FirstIsBad(t, scope, rest) && ReadsBack(t, scope, ids[0]) {
        var i :| 0 <= i < |rest| && BadSource(t, scope, rest[i])
          && forall j :: 0 <= j < i ==> ReadsBack(t, scope, rest[j]);
        assert BadSource(t, scope, ids[i + 1]);
        assert forall j :: 0 < j < i + 1 ==> ReadsBack(t, scope, ids[j]) by {
          assert forall j :: 0 < j < i + 1 ==> ids[j] == rest[j - 1];
        }
      }
    }
  }

  lemma NotBoth(t: Tables, scope: Scope, id: string)
    ensures !(BadSource(t, scope, id) && ReadsBack(t, scope, id))
  {
    hide ReadReceipt;
  }

  /** A materialization that no tombstone stops finds damage in the memory under its identifier; else in its sources;
      else in an edge left over under its identifier. */
  lemma MaterializeFindsDamage(t: Tables, d: MemoryDraft)
    requires MemoryDraftOk(d)
    ensures Step(t, Materialize(d)).reply == Failed(Corruption) <==>
      || BadTombstone(t, d.scope, d.memoryId)
      || (TombKey(d.scope, Memory, d.memoryId) !in t.tombstones
          && (|| BadPrint(t, d.scope, DraftPrint(d))
              || (!PrintTombstoned(t, d.scope, DraftPrint(d))
                  && if MemoryKey(d) in t.memories then MemoryAt(t, MemoryKey(d)).None?
                     else FirstIsBad(t, d.scope, d.sources) || (Derivable(t, d) && Orphaned(t, d)))))
  {
    hide MaterializeStep, TombsReadable, PrintTombstoned, DraftPrint, SourcesError, MemoryAt, SameMemory, NewMemoryRow,
      DraftRows, ReadMemory, MinOf, Materialized', Orphaned, BadTombstone, FirstIsBad, BadPrint, PrintTombsReadable,
      Usable;
    ReadableIs(t, d.scope, d.memoryId);
    PrintReadableIs(t, d.scope, DraftPrint(d));
    SourcesErrorIs(t, d.scope, d.sources);
    MaterializeExits(t, d);
    if Clear(t, d) && MemoryKey(d) !in t.memories {
      DerivableReads(t, d);
      if SourcesError(t, d.scope, d.sources).None? {
        MaterializeStores(t, d);
        DerivableIs(t, d);
      }
    }
  }

  lemma PrintReadableIs(t: Tables, scope: Scope, fp: Digest)
    ensures PrintTombsReadable(t, scope, fp) <==> !BadPrint(t, scope, fp)
  {
    hide TombstoneOk;
  }

  lemma DerivableReads(t: Tables, d: MemoryDraft)
    requires MemoryDraftOk(d)
    ensures Derivable(t, d) ==> SourcesError(t, d.scope, d.sources).None?
  {
    hide Usable, NewMemoryRow, DraftRows, MinOf;
  }

  lemma DerivableIs(t: Tables, d: MemoryDraft)
    requires MemoryDraftOk(d) && SourcesError(t, d.scope, d.sources).None?
    ensures forall x :: x in Elements(d.sources) ==> Key(d.scope, x) in t.events
    ensures var rows := DraftRows(t, d.scope, Elements(d.sources));
            Derivable(t, d) <==>
              rows != [] && d.trust <= MinOf(Trusts(rows))
              && NewMemoryRow(d, rows).clearUntil <= MAX_TIME && NewMemoryRow(d, rows).recallUntil <= MAX_TIME
  {
    hide SourcesError, Usable, NewMemoryRow, DraftRows, MinOf;
    SourcesPresent(t, d);
  }

  /** Governance of a memory finds damage in the tombstones of the identifier if the memory is not there; else in its
      status or its lineage, or, when it is to go, in a tombstone it already has. */
  lemma GovernMemoryFindsDamage(t: Tables, c: Command)
    requires c.entityType.Memory?
    ensures var k := Key(c.scope, c.entityId);
            GovernStep(t, c).reply == Failed(Corruption) <==>
              if k !in t.memories then BadTombstoneAnywhere(t, c.entityId)
              else || t.memories[k].status.UnknownStatus? || !LineageAgrees(t, k)
                   || ((c.action.Forget? || c.action.Delete?) && TombKey(c.scope, Memory, c.entityId) in t.tombstones)
  {
    hide LineageAgrees, TombstoneOk, WithStatus, WithoutMemories, Audited, LiveSomewhere;
    AnywhereIs(t, c);
  }

  /** Deletion of an event finds damage in the tombstones of the identifier if the event is not there; else in its
      receipt, in a dependent's lineage, or in a tombstone of what is to go. */
  lemma DeleteEventFindsDamage(t: Tables, c: Command)
    requires c.entityType.RawEvent? && c.action.Delete?
    ensures var k := Key(c.scope, c.entityId);
            GovernStep(t, c).reply == Failed(Corruption) <==>
              if k !in t.events then BadTombstoneAnywhere(t, c.entityId)
              else || BadReceipt(t, k) || TombKey(c.scope, RawEvent, c.entityId) in t.tombstones
                   || (exists m :: EdgeKey(c.scope, m, c.entityId) in t.edges
                                   && (!DependentOk(t, c.scope, m) || TombKey(c.scope, Memory, m) in t.tombstones))
  {
    hide DependentOk, TombstoneOk, WithoutEvent, LiveSomewhere, ReadReceipt;
    AnywhereIs(t, c);
    var k := Key(c.scope, c.entityId);
    assert forall m :: m in Dependents(t, k) <==> EdgeKey(c.scope, m, c.entityId) in t.edges;
  }

  lemma AnywhereIs(t: Tables, c: Command)
    ensures MissingError(t, c) == Corruption <==> BadTombstoneAnywhere(t, c.entityId)
  {
    hide TombstoneOk, LiveSomewhere;
  }
}
