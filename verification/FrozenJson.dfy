/** Freezing of caller-supplied metadata: lists become tuples, mappings become read-only mappings, anything else that is
    not JSON is turned away. Values are Python's own; a finite float is the text `repr` gives it. */
module FrozenJson {
  import opened Wrappers
  import opened Binary64
  import opened Numerals
  import opened CanonicalJson
  import opened Metadata

  datatype PyKey = Text(text: string) | NotText

  datatype Entry = Entry(key: PyKey, value: PyValue)

  datatype Floating = Finite(text: FloatText) | NotFinite

  datatype PyValue =
    | PyNone
    | PyBool(b: bool)
    | PyInt(n: int)
    | PyFloat(f: Floating)
    | PyStr(s: string)
    | PyList(items: seq<PyValue>)
    | PyTuple(items: seq<PyValue>)
    | PyMapping(entries: seq<Entry>)
    | PyOther

  /** `int.bit_length`. */
  function BitLength(n: int): nat
    decreases if n < 0 then -n else n
  {
    if n == 0 then 0 else BitLength((if n < 0 then -n else n) / 2) + 1
  }

  /** `_freeze_json`. */
  function Freeze(v: PyValue, depth: nat): Option<PyValue>
    decreases v, 1
  {
    match v
    case PyNone => Some(v)
    case PyBool(_) => Some(v)
    case PyStr(_) => Some(v)
    case PyInt(n) => if BitLength(n) > MAX_BITS then None else Some(v)
    case PyFloat(f) => if f.Finite? then Some(v) else None
    case PyList(items) =>
      if depth + 1 > MAX_DEPTH then None else
        (match FreezeItems(items, depth + 1)
         case None => None
         case Some(frozen) => Some(PyTuple(frozen)))
    case PyMapping(entries) =>
      if depth + 1 > MAX_DEPTH then None else
        (match FreezeEntries(entries, depth + 1)
         case None => None
         case Some(frozen) => Some(PyMapping(frozen)))
    case _ => None
  }

  function FreezeItems(items: seq<PyValue>, depth: nat): (r: Option<seq<PyValue>>)
    ensures r.Some? ==> |r.value| == |items|
    decreases items, 0
  {
    if items == [] then Some([]) else
      match (Freeze(items[0], depth), FreezeItems(items[1..], depth))
      case (Some(first), Some(rest)) => Some([first] + rest)
      case _ => None
  }

  function FreezeEntries(entries: seq<Entry>, depth: nat): (r: Option<seq<Entry>>)
    ensures r.Some? ==> |r.value| == |entries|
    decreases entries, 0
  {
    if entries == [] then Some([])
    else if entries[0].key.NotText? then None
    else
      assert entries[0].value < entries[0];
      match (Freeze(entries[0].value, depth), FreezeEntries(entries[1..], depth))
      case (Some(first), Some(rest)) => Some([Entry(entries[0].key, first)] + rest)
      case _ => None
  }

  lemma {:induction false} FreezeItemsSnoc(items: seq<PyValue>, last: PyValue, depth: nat)
    ensures FreezeItems(items + [last], depth) ==
      match (FreezeItems(items, depth), Freeze(last, depth))
      case (Some(before), Some(f)) => Some(before + [f])
      case _ => None
  {
    hide Freeze, IsRepr;
    if items == [] {
      assert items + [last] == [last] && [last][1..] == [];
      var f := Freeze(last, depth);
      assert f.Some? ==> [f.value] + [] == [] + [f.value];
    } else {
      assert (items + [last])[1..] == items[1..] + [last];
      FreezeItemsSnoc(items[1..], last, depth);
      assert forall a: seq<PyValue>, b, c {:trigger a + (b + c)} :: a + (b + c) == (a + b) + c;
    }
  }

  lemma {:induction false} FreezeEntriesSnoc(entries: seq<Entry>, last: Entry, depth: nat)
    ensures FreezeEntries(entries + [last], depth) ==
      match (FreezeEntries(entries, depth), Freeze(last.value, depth))
      case (Some(before), Some(f)) => if last.key.NotText? then None else Some(before + [Entry(last.key, f)])
      case _ => None
  {
    hide Freeze, IsRepr;
    if entries == [] {
      assert entries + [last] == [last] && [last][1..] == [];
      var f := Freeze(last.value, depth);
      assert f.Some? ==> [Entry(last.key, f.value)] + [] == [] + [Entry(last.key, f.value)];
    } else {
      assert (entries + [last])[1..] == entries[1..] + [last];
      FreezeEntriesSnoc(entries[1..], last, depth);
      assert forall a: seq<Entry>, b, c {:trigger a + (b + c)} :: a + (b + c) == (a + b) + c;
    }
  }

  lemma {:induction false} FailedPrefix(entries: seq<Entry>, i: nat, depth: nat)
    requires i <= |entries| && FreezeEntries(entries[..i], depth).None?
    ensures FreezeEntries(entries, depth).None?
    decreases |entries| - i
  {
    if i < |entries| {
      assert entries[..i + 1] == entries[..i] + [entries[i]];
      FreezeEntriesSnoc(entries[..i], entries[i], depth);
      FailedPrefix(entries, i + 1, depth);
    } else {
      assert entries[..i] == entries;
    }
  }

  lemma {:induction false} FailedItems(items: seq<PyValue>, i: nat, depth: nat)
    requires i <= |items| && FreezeItems(items[..i], depth).None?
    ensures FreezeItems(items, depth).None?
    decreases |items| - i
  {
    if i < |items| {
      assert items[..i + 1] == items[..i] + [items[i]];
      FreezeItemsSnoc(items[..i], items[i], depth);
      FailedItems(items, i + 1, depth);
    } else {
      assert items[..i] == items;
    }
  }

  /** The program: mappings are copied entry by entry into a fresh dictionary. */
  method FreezeJson(v: PyValue, depth: nat) returns (r: Option<PyValue>)
    ensures r == Freeze(v, depth)
    decreases v, 1
  {
    hide IsRepr, BitLength;
    match v
    case PyNone => return Some(v);
    case PyBool(_) => return Some(v);
    case PyStr(_) => return Some(v);
    case PyInt(n) => return if BitLength(n) > MAX_BITS then None else Some(v);
    case PyFloat(f) => return if f.Finite? then Some(v) else None;
    case PyList(items) =>
      if depth + 1 > MAX_DEPTH {
        return None;
      }
      var frozen: seq<PyValue> := [];
      var i := 0;
      while i < |items|
        invariant 0 <= i <= |items| && FreezeItems(items[..i], depth + 1) == Some(frozen)
      {
        assert items[..i + 1] == items[..i] + [items[i]];
        FreezeItemsSnoc(items[..i], items[i], depth + 1);
        var item := FreezeJson(items[i], depth + 1);
        if item.None? {
          FailedItems(items, i + 1, depth + 1);
          return None;
        }
        frozen := frozen + [item.value];
        i := i + 1;
      }
      assert items[..i] == items;
      return Some(PyTuple(frozen));
    case PyMapping(entries) =>
      if depth + 1 > MAX_DEPTH {
        return None;
      }
      var frozen: seq<Entry> := [];
      var i := 0;
      while i < |entries|
        invariant 0 <= i <= |entries| && FreezeEntries(entries[..i], depth + 1) == Some(frozen)
      {
        assert entries[..i + 1] == entries[..i] + [entries[i]];
        FreezeEntriesSnoc(entries[..i], entries[i], depth + 1);
        if entries[i].key.NotText? {
          FailedPrefix(entries, i + 1, depth + 1);
          return None;
        }
        var item := FreezeJson(entries[i].value, depth + 1);
        if item.None? {
          FailedPrefix(entries, i + 1, depth + 1);
          return None;
        }
        frozen := frozen + [Entry(entries[i].key, item.value)];
        i := i + 1;
      }
      assert entries[..i] == entries;
      return Some(PyMapping(frozen));
    case PyTuple(_) => return None;
    case PyOther => return None;
  }

  /** `_json_ready`: tuples become lists again. */
  function Ready(v: PyValue): PyValue
    decreases v, 1
  {
    match v
    case PyMapping(entries) => PyMapping(ReadyEntries(entries))
    case PyTuple(items) => PyList(ReadyItems(items))
    case _ => v
  }

  function ReadyItems(items: seq<PyValue>): (r: seq<PyValue>)
    ensures |r| == |items| && forall i :: 0 <= i < |r| ==> r[i] == Ready(items[i])
    decreases items, 0
  {
    if items == [] then [] else [Ready(items[0])] + ReadyItems(items[1..])
  }

  function ReadyEntries(entries: seq<Entry>): (r: seq<Entry>)
    ensures |r| == |entries|
    decreases entries, 0
  {
    if entries == [] then [] else
      assert entries[0].value < entries[0];
      [Entry(entries[0].key, Ready(entries[0].value))] + ReadyEntries(entries[1..])
  }

  // ----- what is accepted

  /** How many containers are nested at the deepest place. */
  function Depth(v: PyValue): nat
    decreases v, 1
  {
    match v
    case PyList(items) => 1 + DepthOfItems(items)
    case PyTuple(items) => 1 + DepthOfItems(items)
    case PyMapping(entries) => 1 + DepthOfEntries(entries)
    case _ => 0
  }

  function Max(a: nat, b: nat): nat {
    if a < b then b else a
  }

  function DepthOfItems(items: seq<PyValue>): nat
    decreases items, 0
  {
    if items == [] then 0 else Max(Depth(items[0]), DepthOfItems(items[1..]))
  }

  function DepthOfEntries(entries: seq<Entry>): nat
    decreases entries, 0
  {
    if entries == [] then 0 else
      assert entries[0].value < entries[0];
      Max(Depth(entries[0].value), DepthOfEntries(entries[1..]))
  }

  /** JSON with string keys, no tuples, finite floats, and integers of at most 4096 bits, at every level. */
  predicate IsJson(v: PyValue)
    decreases v
  {
    match v
    case PyInt(n) => 0 - Power(2, MAX_BITS) < n < Power(2, MAX_BITS)
    case PyFloat(f) => f.Finite?
    case PyList(items) => forall i :: 0 <= i < |items| ==> IsJson(items[i])
    case PyMapping(entries) => forall i :: 0 <= i < |entries| ==> entries[i].key.Text? && IsJson(entries[i].value)
    case PyTuple(_) => false
    case PyOther => false
    case _ => true
  }

  lemma {:induction false} BitLengthBound(n: int, k: nat)
    ensures BitLength(n) <= k <==> 0 - Power(2, k) < n < Power(2, k)
    decreases k
  {
    if n != 0 && k > 0 {
      var m := if n < 0 then -n else n;
      BitLengthBound(m / 2, k - 1);
      assert BitLength(n) == BitLength(m / 2) + 1 && Power(2, k) == 2 * Power(2, k - 1);
    }
  }

  lemma {:induction false} FreezeAccepts(v: PyValue, depth: nat)
    requires depth <= MAX_DEPTH
    ensures Freeze(v, depth).Some? <==> IsJson(v) && depth + Depth(v) <= MAX_DEPTH
    decreases v, 1
  {
    hide BitLength, Power;
    match v
    case PyInt(n) => BitLengthBound(n, MAX_BITS);
    case PyList(items) =>
      if depth < MAX_DEPTH {
        ItemsAccepted(items, depth + 1);
      }
    case PyMapping(entries) =>
      if depth < MAX_DEPTH {
        EntriesAccepted(entries, depth + 1);
      }
    case _ =>
  }

  lemma {:induction false} ItemsAccepted(items: seq<PyValue>, depth: nat)
    requires depth <= MAX_DEPTH
    ensures FreezeItems(items, depth).Some?
      <==> (forall i :: 0 <= i < |items| ==> IsJson(items[i])) && depth + DepthOfItems(items) <= MAX_DEPTH
    decreases items, 0
  {
    if items != [] {
      FreezeAccepts(items[0], depth);
      ItemsAccepted(items[1..], depth);
      assert items == [items[0]] + items[1..];
    }
  }

  lemma {:induction false} EntriesAccepted(entries: seq<Entry>, depth: nat)
    requires depth <= MAX_DEPTH
    ensures FreezeEntries(entries, depth).Some?
      <==> (forall i :: 0 <= i < |entries| ==> entries[i].key.Text? && IsJson(entries[i].value))
           && depth + DepthOfEntries(entries) <= MAX_DEPTH
    decreases entries, 0
  {
    if entries != [] {
      assert entries[0].value < entries[0];
      FreezeAccepts(entries[0].value, depth);
      EntriesAccepted(entries[1..], depth);
      assert entries == [entries[0]] + entries[1..];
    }
  }

  /** Exactly the string-keyed JSON values of at most 64 container levels, finite floats and 4096-bit integers are
      accepted. */
  lemma FreezeAcceptsExactly(v: PyValue)
    ensures Freeze(v, 0).Some? <==> IsJson(v) && Depth(v) <= 64
    ensures MAX_BITS == 4096
  {
    FreezeAccepts(v, 0);
  }

  // ----- undone and repeated

  /** Thawing a frozen value gives the value back. */
  lemma {:induction false} ReadyUndoesFreeze(v: PyValue, depth: nat)
    requires Freeze(v, depth).Some?
    ensures Ready(Freeze(v, depth).value) == v
    decreases v, 1
  {
    match v
    case PyList(items) => ItemsUndone(items, depth + 1);
    case PyMapping(entries) => EntriesUndone(entries, depth + 1);
    case _ =>
  }

  lemma {:induction false} ItemsUndone(items: seq<PyValue>, depth: nat)
    requires FreezeItems(items, depth).Some?
    ensures ReadyItems(FreezeItems(items, depth).value) == items
    decreases items, 0
  {
    if items != [] {
      ReadyUndoesFreeze(items[0], depth);
      ItemsUndone(items[1..], depth);
      var f := FreezeItems(items, depth).value;
      assert f[1..] == FreezeItems(items[1..], depth).value;
    }
  }

  lemma {:induction false} EntriesUndone(entries: seq<Entry>, depth: nat)
    requires FreezeEntries(entries, depth).Some?
    ensures ReadyEntries(FreezeEntries(entries, depth).value) == entries
    decreases entries, 0
  {
    if entries != [] {
      assert entries[0].value < entries[0];
      ReadyUndoesFreeze(entries[0].value, depth);
      EntriesUndone(entries[1..], depth);
      var f := FreezeEntries(entries, depth).value;
      assert f[1..] == FreezeEntries(entries[1..], depth).value;
    }
  }

  predicate HasList(v: PyValue)
    decreases v
  {
    match v
    case PyList(_) => true
    case PyMapping(entries) => exists i :: 0 <= i < |entries| && HasList(entries[i].value)
    case _ => false
  }

  /** Freezing a frozen value succeeds exactly when the value held no list, and then changes nothing. */
  lemma {:induction false} FreezeTwice(v: PyValue, depth: nat)
    requires Freeze(v, depth).Some?
    ensures Freeze(Freeze(v, depth).value, depth) == if HasList(v) then None else Freeze(v, depth)
    decreases v, 1
  {
    match v
    case PyMapping(entries) => EntriesTwice(entries, depth + 1);
    case _ =>
  }

  lemma {:induction false} EntriesTwice(entries: seq<Entry>, depth: nat)
    requires FreezeEntries(entries, depth).Some?
    ensures FreezeEntries(FreezeEntries(entries, depth).value, depth)
      == if exists i :: 0 <= i < |entries| && HasList(entries[i].value) then None else FreezeEntries(entries, depth)
    decreases entries, 0
  {
    if entries != [] {
      assert entries[0].value < entries[0];
      FreezeTwice(entries[0].value, depth);
      EntriesTwice(entries[1..], depth);
      var f := FreezeEntries(entries, depth).value;
      assert f[1..] == FreezeEntries(entries[1..], depth).value;
      assert entries == [entries[0]] + entries[1..];
      assert forall i :: 0 <= i < |entries| - 1 ==> entries[1..][i] == entries[i + 1];
    }
  }

  /** `{k: []}` is accepted once and turned away the second time. */
  lemma ListIsNotFrozenTwice(k: string)
    ensures var v := PyMapping([Entry(Text(k), PyList([]))]);
            Freeze(v, 0).Some? && HasList(v) && Freeze(Freeze(v, 0).value, 0).None?
  {
    var e := Entry(Text(k), PyList([]));
    var v := PyMapping([e]);
    assert FreezeItems([], 2) == Some([]);
    assert [e] == [] + [e];
    FreezeEntriesSnoc([], e, 1);
    assert HasList(v.entries[0].value);
    FreezeTwice(v, 0);
  }

  // ----- the metadata column

  /** A mapping has each key once. */
  predicate KeysOnce(v: PyValue)
    decreases v
  {
    match v
    case PyList(items) => forall i :: 0 <= i < |items| ==> KeysOnce(items[i])
    case PyTuple(items) => forall i :: 0 <= i < |items| ==> KeysOnce(items[i])
    case PyMapping(entries) =>
      && (forall i, j :: 0 <= i < j < |entries| ==> entries[i].key != entries[j].key)
      && (forall i :: 0 <= i < |entries| ==> KeysOnce(entries[i].value))
    case _ => true
  }

  /** The JSON value a thawed Python value stands for. */
  function AsJson(v: PyValue): Json
    requires IsJson(v)
    decreases v, 1
  {
    match v
    case PyNone => Null
    case PyBool(b) => Bool(b)
    case PyInt(n) => Int(n)
    case PyFloat(f) => Float(f.text)
    case PyStr(s) => Str(s)
    case PyList(items) => Arr(ItemsAsJson(items))
    case PyMapping(entries) => Obj(EntriesAsJson(entries))
  }

  function ItemsAsJson(items: seq<PyValue>): (r: seq<Json>)
    requires forall i :: 0 <= i < |items| ==> IsJson(items[i])
    ensures |r| == |items| && forall i :: 0 <= i < |r| ==> r[i] == AsJson(items[i])
    decreases items, 0
  {
    if items == [] then [] else [AsJson(items[0])] + ItemsAsJson(items[1..])
  }

  function EntriesAsJson(entries: seq<Entry>): (r: seq<Member>)
    requires forall i :: 0 <= i < |entries| ==>
      entries[i].key.Text? && IsJson(entries[i].value)
    ensures |r| == |entries|
    ensures forall i :: 0 <= i < |r| ==>
      (assert entries[i].value < entries[i]; r[i] == Member(entries[i].key.text, AsJson(entries[i].value)))
    decreases entries, 0
  {
    if entries == [] then [] else
      assert entries[0].value < entries[0];
      [Member(entries[0].key.text, AsJson(entries[0].value))] + EntriesAsJson(entries[1..])
  }

  lemma {:induction false} KeysStayDistinct(v: PyValue)
    requires IsJson(v) && KeysOnce(v)
    ensures DistinctKeys(AsJson(v))
    decreases v
  {
    match v
    case PyList(items) =>
      forall i | 0 <= i < |items|
        ensures DistinctKeys(AsJson(items[i]))
      {
        KeysStayDistinct(items[i]);
      }
    case PyMapping(entries) =>
      forall i | 0 <= i < |entries|
        ensures DistinctKeys(AsJson(entries[i].value))
      {
        KeysStayDistinct(entries[i].value);
      }
    case _ =>
  }

  lemma {:induction false} BoundsAsJson(v: PyValue, levels: nat)
    requires IsJson(v) && Depth(v) <= levels
    ensures Bounded(AsJson(v), levels)
    decreases v
  {
    hide Power, IsRepr;
    match v
    case PyList(items) =>
      forall i | 0 <= i < |items|
        ensures Bounded(AsJson(items[i]), levels - 1)
      {
        DeepestItem(items, i);
        BoundsAsJson(items[i], levels - 1);
      }
    case PyMapping(entries) =>
      forall i | 0 <= i < |entries|
        ensures Bounded(EntriesAsJson(entries)[i].value, levels - 1)
      {
        DeepestEntry(entries, i);
        assert entries[i].value < entries[i];
        BoundsAsJson(entries[i].value, levels - 1);
      }
    case _ =>
  }

  lemma {:induction false} DeepestItem(items: seq<PyValue>, i: nat)
    requires i < |items|
    ensures Depth(items[i]) <= DepthOfItems(items)
  {
    if i > 0 {
      DeepestItem(items[1..], i - 1);
    }
  }

  lemma {:induction false} DeepestEntry(entries: seq<Entry>, i: nat)
    requires i < |entries|
    ensures Depth(entries[i].value) <= DepthOfEntries(entries)
  {
    if i > 0 {
      DeepestEntry(entries[1..], i - 1);
    }
  }

  lemma {:induction false} ItemsDepth(items: seq<PyValue>, levels: nat)
    requires forall i :: 0 <= i < |items| ==> Depth(items[i]) <= levels
    ensures DepthOfItems(items) <= levels
  {
    hide Depth;
    if items != [] {
      ItemsDepth(items[1..], levels);
    }
  }

  lemma {:induction false} EntriesDepth(entries: seq<Entry>, levels: nat)
    requires forall i :: 0 <= i < |entries| ==> Depth(entries[i].value) <= levels
    ensures DepthOfEntries(entries) <= levels
  {
    hide Depth;
    if entries != [] {
      EntriesDepth(entries[1..], levels);
    }
  }

  lemma {:induction false} DepthAsJson(v: PyValue, levels: nat)
    requires IsJson(v) && Bounded(AsJson(v), levels)
    ensures Depth(v) <= levels
    decreases v
  {
    hide Power;
    match v
    case PyList(items) =>
      forall i | 0 <= i < |items|
        ensures Depth(items[i]) <= levels - 1
      {
        assert Bounded(ItemsAsJson(items)[i], levels - 1);
        DepthAsJson(items[i], levels - 1);
      }
      ItemsDepth(items, levels - 1);
    case PyMapping(entries) =>
      forall i | 0 <= i < |entries|
        ensures Depth(entries[i].value) <= levels - 1
      {
        assert Bounded(EntriesAsJson(entries)[i].value, levels - 1);
        assert entries[i].value < entries[i];
        DepthAsJson(entries[i].value, levels - 1);
      }
      EntriesDepth(entries, levels - 1);
    case _ =>
  }

  /** A JSON value is a mapping that freezes exactly when the value it stands for is admissible metadata. */
  lemma FreezesExactlyMetadata(v: PyValue)
    requires IsJson(v) && KeysOnce(v)
    ensures v.PyMapping? && Freeze(v, 0).Some? <==> IsMetadata(AsJson(v))
  {
    hide Bounded, DistinctKeys, Freeze;
    FreezeAcceptsExactly(v);
    KeysStayDistinct(v);
    if Depth(v) <= MAX_DEPTH {
      BoundsAsJson(v, MAX_DEPTH);
    }
    if Bounded(AsJson(v), MAX_DEPTH) {
      DepthAsJson(v, MAX_DEPTH);
    }
  }

  /** Metadata that freezes is written as text from which reading gives the caller's own value, up to the order of
      keys. */
  lemma FrozenMetadataRoundTrip(v: PyValue)
    requires v.PyMapping? && KeysOnce(v) && Freeze(v, 0).Some?
    ensures var thawed := Ready(Freeze(v, 0).value);
            IsJson(v) && IsJson(thawed)
              && Decode(Canonical(AsJson(thawed))) == Some(Normalize(AsJson(v)))
  {
    hide Decode, Canonical, Normalize, Bounded;
    FreezeAcceptsExactly(v);
    BoundsAsJson(v, MAX_DEPTH);
    ReadyUndoesFreeze(v, 0);
    KeysStayDistinct(v);
    DecodeCanonical(AsJson(v));
  }
}
