/** What deleting a raw event removes, row by row, what it reports, and how the two error classifiers differ. */
module Cascade {
  import opened Wrappers
  import opened TextOrder
  import opened StableSort
  import opened Fingerprint
  import opened Domain
  import opened Tables
  import opened Policy
  import opened Invariant

  /** The memory `id` was derived from the event the command names. */
  ghost predicate DerivedFrom(t: Tables, c: Command, id: string) {
    EdgeKey(c.scope, id, c.entityId) in t.edges
  }

  /** `u` is `t` without the event, its body, every memory derived from it and all edges of those memories, with a
      tombstone for each removed entity, a memory's carrying its own fingerprint; every other row is untouched. */
  ghost predicate ExactlyRemoved(t: Tables, c: Command, u: Tables) {
    && EventRemoved(t, c, u) && DerivedRemoved(t, c, u) && AllBuried(t, c, u)
    && u.audit == t.audit + multiset{GovernRow(c)}
  }

  ghost predicate EventRemoved(t: Tables, c: Command, u: Tables) {
    && (forall k :: k in u.events <==> k in t.events && k != Key(c.scope, c.entityId))
    && (forall k :: k in u.events ==> u.events[k] == t.events[k])
    && (forall k :: k in u.bodies <==> k in t.bodies && k != Key(c.scope, c.entityId))
    && (forall k :: k in u.bodies ==> u.bodies[k] == t.bodies[k])
  }

  ghost predicate DerivedRemoved(t: Tables, c: Command, u: Tables) {
    && (forall k :: k in u.memories <==> k in t.memories && !(k.scope == c.scope && DerivedFrom(t, c, k.id)))
    && (forall k :: k in u.memories ==> u.memories[k] == t.memories[k])
    && (forall e :: e in u.edges <==> e in t.edges && !(e.scope == c.scope && DerivedFrom(t, c, e.memory)))
    && (forall e :: e in u.edges ==> u.edges[e] == t.edges[e])
  }

  ghost predicate AllBuried(t: Tables, c: Command, u: Tables) {
    && (forall k :: k in u.tombstones <==> k in t.tombstones || Buried(t, c, k))
    && (forall k :: k in t.tombstones ==> !Buried(t, c, k) && u.tombstones[k] == t.tombstones[k])
    && (forall k :: Buried(t, c, k) ==> k in u.tombstones && IsTombstoneOf(t, c, k, u.tombstones[k]))
  }

  ghost predicate IsTombstoneOf(t: Tables, c: Command, k: TombKey, row: Tombstone) {
    && row.deletedAt == c.occurredAt && row.reason.GovernanceRequested?
    && if k.entity.RawEvent? then row.fingerprint.None?
       else Key(k.scope, k.id) in t.memories && row.fingerprint == Some(t.memories[Key(k.scope, k.id)].fingerprint)
  }

  /** The identities that this deletion gives a tombstone. */
  ghost predicate Buried(t: Tables, c: Command, k: TombKey) {
    && k.scope == c.scope
    && if k.entity.RawEvent? then k.id == c.entityId else DerivedFrom(t, c, k.id)
  }

  lemma DerivedAreRemoved(t: Tables, c: Command)
    requires forall x :: x in Dependents(t, Key(c.scope, c.entityId)) ==> Key(c.scope, x) in t.memories
    ensures DerivedRemoved(t, c, WithoutEvent(t, c))
  {
    hide Keys, Tombs;
    var ds := Dependents(t, Key(c.scope, c.entityId));
    var u := WithoutEvent(t, c);
    forall k
      ensures k in u.memories <==> k in t.memories && !(k.scope == c.scope && DerivedFrom(t, c, k.id))
    {
      KeysOf(c.scope, ds, k);
    }
  }

  /** One identity before and after. */
  lemma Burial(t: Tables, c: Command, k: TombKey)
    requires forall x :: x in Dependents(t, Key(c.scope, c.entityId)) ==> Key(c.scope, x) in t.memories
    ensures var u := WithoutEvent(t, c);
            && (k in u.tombstones <==> k in t.tombstones || Buried(t, c, k))
            && (Buried(t, c, k) ==> IsTombstoneOf(t, c, k, u.tombstones[k]))
            && (k in t.tombstones && !Buried(t, c, k) ==> u.tombstones[k] == t.tombstones[k])
  {
    hide Keys, Tombs, WithoutEdgesOf;
    TombsOf(t, c, Dependents(t, Key(c.scope, c.entityId)), k);
    assert k.entity.RawEvent? && Buried(t, c, k) ==> k == TombKey(c.scope, RawEvent, c.entityId);
  }

  lemma AllAreBuried(t: Tables, c: Command)
    requires NoneResurrected(t) && Key(c.scope, c.entityId) in t.events
    requires forall x :: x in Dependents(t, Key(c.scope, c.entityId)) ==> Key(c.scope, x) in t.memories
    ensures AllBuried(t, c, WithoutEvent(t, c))
  {
    hide WithoutEvent, IsTombstoneOf, Buried;
    forall k | Buried(t, c, k)
      ensures Live(t, k)
    {
      BuriedWereLive(t, c, k);
    }
    forall k: TombKey {
      Burial(t, c, k);
    }
  }

  lemma BuriedWereLive(t: Tables, c: Command, k: TombKey)
    requires Key(c.scope, c.entityId) in t.events && Buried(t, c, k)
    requires forall x :: x in Dependents(t, Key(c.scope, c.entityId)) ==> Key(c.scope, x) in t.memories
    ensures Live(t, k)
  {
  }

  lemma RemovedExactly(t: Tables, c: Command)
    requires NoneResurrected(t) && Key(c.scope, c.entityId) in t.events
    requires forall x :: x in Dependents(t, Key(c.scope, c.entityId)) ==> Key(c.scope, x) in t.memories
    ensures ExactlyRemoved(t, c, WithoutEvent(t, c))
  {
    hide NoneResurrected, Keys, Tombs, WithoutEdgesOf, DerivedRemoved, AllBuried;
    DerivedAreRemoved(t, c);
    AllAreBuried(t, c);
  }

  /** Deleting a live event succeeds, removes exactly the rows that depend on it, and reports exactly the removed
      identifiers in order. */
  lemma DeletionIsExact(t: Tables, c: Command)
    requires Valid(t) && IsTime(c.occurredAt) && c.entityType.RawEvent? && c.action.Delete?
    requires Key(c.scope, c.entityId) in t.events
    ensures ExactlyRemoved(t, c, GovernStep(t, c).state)
    ensures var reply := GovernStep(t, c).reply;
            && reply.Affected?
            && multiset(reply.ids) == multiset{c.entityId} + multiset(Dependents(t, Key(c.scope, c.entityId)))
            && (forall i, j :: 0 <= i < j < |reply.ids| ==> !Less(reply.ids[j], reply.ids[i]))
  {
    hide EventsReadable, MemoriesReadable, AuditReadable, TombstonesReadable, WithoutEvent, ReadReceipt, LineageAgrees,
      Sort, ExactlyRemoved;
    var k := Key(c.scope, c.entityId);
    var ids := [c.entityId] + Sorted(Dependents(t, k));
    DeletionSucceeds(t, c);
    RemovedExactly(t, c);
    SortedText(ids);
    SortedMultiset(Dependents(t, k));
  }

  lemma DeletionSucceeds(t: Tables, c: Command)
    requires Valid(t) && IsTime(c.occurredAt) && c.entityType.RawEvent? && c.action.Delete?
    requires Key(c.scope, c.entityId) in t.events
    ensures forall x :: x in Dependents(t, Key(c.scope, c.entityId)) ==> Key(c.scope, x) in t.memories
    ensures GovernStep(t, c)
      == Outcome(Affected(Sort([c.entityId] + Sorted(Dependents(t, Key(c.scope, c.entityId))), Less)),
        WithoutEvent(t, c))
  {
    hide AuditReadable, TombstonesReadable, WithoutEvent, ReadReceipt, ReadMemory, SourceRows, LineageAgrees, Sort;
    var k := Key(c.scope, c.entityId);
    assert Live(t, TombKey(c.scope, RawEvent, c.entityId));
    forall m | m in Dependents(t, k)
      ensures DependentOk(t, c.scope, m) && TombKey(c.scope, Memory, m) !in t.tombstones
    {
      ValidLineage(t, Key(c.scope, m));
      assert Live(t, TombKey(c.scope, Memory, m));
    }
  }

  lemma SortedText(ids: seq<string>)
    ensures multiset(Sort(ids, Less)) == multiset(ids)
    ensures forall i, j :: 0 <= i < j < |Sort(ids, Less)| ==> !Less(Sort(ids, Less)[j], Sort(ids, Less)[i])
  {
    var any := (x: string, y: string) => true;
    SortPermutes(ids, Less);
    TextOrderIsWeak();
    SortIsStable(ids, Less, any);
    var r := Sort(ids, Less);
    forall i, j | 0 <= i < j < |r|
      ensures !Less(r[j], r[i])
    {
      assert Lex(Less, any)(r[i], r[j]);
    }
  }

  lemma TextOrderIsWeak()
    ensures WeakOrder(Less)
  {
    forall x, y | Less(x, y)
      ensures !Less(y, x)
    {
      LessAsymmetric(x, y);
    }
    forall x, y, z | Less(x, y)
      ensures Less(x, z) || Less(z, y)
    {
      LessTotal(x, z);
      if Less(z, x) {
        LessTransitive(z, x, y);
      }
    }
  }

  lemma {:induction false} SortedMultiset(s: set<string>)
    ensures multiset(Sorted(s)) == multiset(s)
    decreases |s|
  {
    if s != {} {
      var x := Least(s);
      SortedMultiset(s - {x});
      assert Sorted(s) == [x] + Sorted(s - {x});
    }
  }

  /** `u` is `t` without one memory and its edges, with a tombstone that carries its fingerprint and the command's time,
      and one audit row more. */
  ghost predicate ExactlyForgotten(t: Tables, c: Command, u: Tables)
    requires Key(c.scope, c.entityId) in t.memories
  {
    var k, id := Key(c.scope, c.entityId), TombKey(c.scope, Memory, c.entityId);
    && u.events == t.events && u.bodies == t.bodies && u.memories == t.memories - {k}
    && u.edges == (map e | e in t.edges && !(e.scope == c.scope && e.memory == c.entityId) :: t.edges[e])
    && id !in t.tombstones
    && u.tombstones == t.tombstones[id := Tombstone(c.occurredAt, GovernanceRequested, Some(t.memories[k].fingerprint))]
    && u.audit == t.audit + multiset{GovernRow(c)}
  }

  /** Forgetting or deleting a live memory succeeds and removes exactly that memory. */
  lemma RemovalIsExact(t: Tables, c: Command)
    requires Valid(t) && c.entityType.Memory? && (c.action.Forget? || c.action.Delete?)
    requires Key(c.scope, c.entityId) in t.memories
    ensures GovernStep(t, c).reply == Affected([c.entityId])
    ensures ExactlyForgotten(t, c, GovernStep(t, c).state)
  {
    hide KeysAgree, EventsReadable, MemoriesReadable, AuditReadable, TombstonesReadable, LineageAgrees;
    KnownStatus(t, Key(c.scope, c.entityId));
    assert Live(t, TombKey(c.scope, Memory, c.entityId));
    RemovedRows(t, c);
  }

  lemma RemovedRows(t: Tables, c: Command)
    requires Key(c.scope, c.entityId) in t.memories
    ensures var k, id := Key(c.scope, c.entityId), TombKey(c.scope, Memory, c.entityId);
            var u := WithoutMemories(t, c, {c.entityId});
            && u.memories == t.memories - {k}
            && u.edges == (map e | e in t.edges && !(e.scope == c.scope && e.memory == c.entityId) :: t.edges[e])
            && u.tombstones
               == t.tombstones[id := Tombstone(c.occurredAt, GovernanceRequested, Some(t.memories[k].fingerprint))]
  {
    assert Keys(c.scope, {c.entityId}) == {Key(c.scope, c.entityId)};
    var id := TombKey(c.scope, Memory, c.entityId);
    assert Tombs(t, c, {c.entityId}) == map[id := Tomb(t, c, c.entityId)];
  }

  /** A live memory is sealed when active and restored when sealed, which changes its status alone and adds one audit
      row; from the other status the command is refused and nothing changes. */
  lemma TransitionIsExact(t: Tables, c: Command)
    requires Valid(t) && c.entityType.Memory? && (c.action.Seal? || c.action.Restore?)
    requires Key(c.scope, c.entityId) in t.memories
    ensures var k := Key(c.scope, c.entityId);
            GovernStep(t, c) ==
              if c.action.Seal? <==> t.memories[k].status.Active?
              then Outcome(Affected([c.entityId]),
                           t.(memories :=
                             t.memories[k := t.memories[k].(status := if c.action.Seal? then Sealed else Active)],
                              audit := t.audit + multiset{GovernRow(c)}))
              else Refused(InvalidTransition(c.entityId), t)
  {
    hide KeysAgree, EventsReadable, MemoriesReadable, AuditReadable, TombstonesReadable, NoneResurrected, LineageAgrees;
    KnownStatus(t, Key(c.scope, c.entityId));
  }

  /** Restoring undoes sealing: every table but the log is as it was. */
  lemma RestoreUndoesSeal(t: Tables, seal: Command, restore: Command)
    requires Valid(t) && seal.entityType.Memory? && seal.action.Seal?
    requires restore == seal.(action := Restore, occurredAt := restore.occurredAt, reason := restore.reason)
    requires IsTime(seal.occurredAt) && Key(seal.scope, seal.entityId) in t.memories
    requires t.memories[Key(seal.scope, seal.entityId)].status.Active?
    ensures var closed := GovernStep(t, seal).state;
            && GovernStep(closed, restore).reply == Affected([seal.entityId])
            && GovernStep(closed, restore).state.(audit := multiset{}) == t.(audit := multiset{})
  {
    hide Valid, GovernStep;
    TransitionIsExact(t, seal);
    assert Valid(GovernStep(t, seal).state) by { StepKeepsValid(t, Govern(seal)); }
    TransitionIsExact(GovernStep(t, seal).state, restore);
    var k := Key(seal.scope, seal.entityId);
    var u := GovernStep(GovernStep(t, seal).state, restore).state;
    assert u.memories == t.memories;
  }

  /** An identifier is reported twice exactly when a memory derived from the event bears the event's own identifier. */
  lemma ReportedTwice(t: Tables, c: Command, id: string)
    requires Valid(t) && IsTime(c.occurredAt) && c.entityType.RawEvent? && c.action.Delete?
    requires Key(c.scope, c.entityId) in t.events
    ensures var reply := GovernStep(t, c).reply;
            reply.Affected? && multiset(reply.ids)[id] <= 2
            && (multiset(reply.ids)[id] == 2 <==> id == c.entityId && DerivedFrom(t, c, id))
  {
    hide Valid, GovernStep, ExactlyRemoved;
    DeletionIsExact(t, c);
    assert multiset(Dependents(t, Key(c.scope, c.entityId)))[id] == if DerivedFrom(t, c, id) then 1 else 0;
  }

  /** An event identifier tombstoned only elsewhere: the governance classifier says it belongs to another scope, the
      materialization classifier that it does not exist. Everywhere else the two agree. */
  lemma ClassifiersDifferExactly(t: Tables, c: Command)
    requires Valid(t) && c.entityType.RawEvent? && Key(c.scope, c.entityId) !in t.events
    ensures var source := SourceError(t, c.scope, c.entityId);
            && source.Some?
            && if TombstonedOnlyElsewhere(t, c)
               then MissingError(t, c) == ScopeMismatch(c.entityId) && source.value == EntityNotFound(c.entityId)
               else MissingError(t, c) == source.value
  {
    hide MemoriesReadable, EventsReadable, AuditReadable, KeysAgree, NoneResurrected, TombsReadable,
      TombsReadableAnywhere;
    LookupsSucceed(t, c.scope, c.entityId, Sha256([]));
  }

  /** No live entity of the command's type bears the identifier; tombstones of it exist, all in other scopes. */
  ghost predicate TombstonedOnlyElsewhere(t: Tables, c: Command) {
    && TombKey(c.scope, c.entityType, c.entityId) !in t.tombstones
    && !LiveSomewhere(t, c.entityType, c.entityId)
    && (exists k :: k in t.tombstones && k.entity == c.entityType && k.id == c.entityId && k.scope != c.scope)
  }

  /** Governance of an event or a memory calls an identifier foreign although nothing live bears it exactly when it is
      tombstoned, and only in other scopes. */
  lemma ForeignWithoutBearerExactly(t: Tables, c: Command)
    requires Valid(t) && (c.entityType.RawEvent? ==> c.action.Delete?)
    ensures GovernStep(t, c).reply == Failed(ScopeMismatch(c.entityId)) && !LiveSomewhere(t, c.entityType, c.entityId)
      <==> TombstonedOnlyElsewhere(t, c)
  {
    hide MemoriesReadable, EventsReadable, AuditReadable, KeysAgree, NoneResurrected, TombsReadableAnywhere,
      LineageAgrees, ReadReceipt, DependentOk, WithStatus, WithoutMemories, WithoutEvent, Audited;
    LookupsSucceed(t, c.scope, c.entityId, Sha256([]));
  }
}
