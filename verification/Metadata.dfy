/** Canonical form of JSON values: objects with their keys sorted. What is written to a metadata column, what is
    accepted back from one, and which values Python's `==` identifies. */
module Metadata {
  import opened Wrappers
  import opened TextOrder
  import opened StableSort
  import opened Binary64
  import opened Numerals
  import opened CanonicalJson

  predicate KeyLess(a: Member, b: Member) {
    Less(a.key, b.key)
  }

  predicate KeysDiffer(a: Member, b: Member) {
    a.key != b.key
  }

  /** `sort_keys=True`, at every level. */
  function Normalize(v: Json): Json
    decreases v, 1
  {
    match v
    case Arr(items) => Arr(NormalizeItems(items))
    case Obj(members) => Obj(Sort(NormalizeMembers(members), KeyLess))
    case _ => v
  }

  function NormalizeItems(items: seq<Json>): (r: seq<Json>)
    ensures |r| == |items|
    ensures forall i :: 0 <= i < |r| ==> r[i] == Normalize(items[i])
    decreases items, 0
  {
    if items == [] then [] else [Normalize(items[0])] + NormalizeItems(items[1..])
  }

  function NormalizeMembers(members: seq<Member>): (r: seq<Member>)
    ensures |r| == |members|
    ensures forall i :: 0 <= i < |r| ==> r[i] == Member(members[i].key, Normalize(members[i].value))
    decreases members, 0
  {
    if members == [] then []
    else [Member(members[0].key, Normalize(members[0].value))] + NormalizeMembers(members[1..])
  }

  function Canonical(v: Json): string {
    PrintTo(Normalize(v), [])
  }

  /** No object, at any level, has two members with one key: a Python mapping. */
  predicate DistinctKeys(v: Json)
    decreases v
  {
    match v
    case Arr(items) => forall i :: 0 <= i < |items| ==> DistinctKeys(items[i])
    case Obj(members) =>
      && (forall i, j :: 0 <= i < j < |members| ==> KeysDiffer(members[i], members[j]))
      && (forall i :: 0 <= i < |members| ==> DistinctKeys(members[i].value))
    case _ => true
  }

  const MAX_DEPTH := 64
  const MAX_BITS := 4096

  /** At most `levels` containers nested, and integers of at most 4096 bits. */
  predicate Bounded(v: Json, levels: nat)
    decreases v
  {
    match v
    case Int(n) => 0 - Power(2, MAX_BITS) < n < Power(2, MAX_BITS)
    case Arr(items) => 0 < levels && forall i :: 0 <= i < |items| ==> Bounded(items[i], levels - 1)
    case Obj(members) => 0 < levels && forall i :: 0 <= i < |members| ==> Bounded(members[i].value, levels - 1)
    case _ => true
  }

  /** A metadata value as the domain constructors admit it. */
  predicate IsMetadata(v: Json) {
    v.Obj? && DistinctKeys(v) && Bounded(v, MAX_DEPTH)
  }

  /** `_stored_metadata`: the text must be the canonical text of an object. */
  function Decode(text: string): Option<Json> {
    match ParseValue(text)
    case Ok(v, rest) => if rest == [] && IsMetadata(v) && Canonical(v) == text then Some(v) else None
    case Fail => None
  }

  // ----- the normal form is stable

  predicate IsNormal(v: Json)
    decreases v
  {
    match v
    case Arr(items) => forall i :: 0 <= i < |items| ==> IsNormal(items[i])
    case Obj(members) =>
      && (forall i, j :: 0 <= i < j < |members| ==> !Less(members[j].key, members[i].key))
      && (forall i :: 0 <= i < |members| ==> IsNormal(members[i].value))
    case _ => true
  }

  lemma KeyOrderIsWeak()
    ensures WeakOrder(KeyLess)
  {
    forall x, y | KeyLess(x, y)
      ensures !KeyLess(y, x)
    {
      LessAsymmetric(x.key, y.key);
    }
    forall x, y, z | KeyLess(x, y)
      ensures KeyLess(x, z) || KeyLess(z, y)
    {
      LessTotal(x.key, z.key);
      if Less(z.key, x.key) {
        LessTransitive(z.key, x.key, y.key);
      }
    }
  }

  lemma {:induction false} SortOfSorted(s: seq<Member>)
    requires forall i, j :: 0 <= i < j < |s| ==> !KeyLess(s[j], s[i])
    ensures Sort(s, KeyLess) == s
  {
    if s != [] {
      SortOfSorted(s[1..]);
      assert |s| > 1 ==> !KeyLess(s[1], s[0]);
      assert s == [s[0]] + s[1..];
    }
  }

  /** What sorting an object's members does to them: order only. */
  lemma SortedMembers(members: seq<Member>)
    ensures forall m :: m in Sort(members, KeyLess) <==> m in members
    ensures |Sort(members, KeyLess)| == |members|
    ensures forall i, j :: 0 <= i < j < |members| ==> !KeyLess(Sort(members, KeyLess)[j], Sort(members, KeyLess)[i])
    ensures Chain(members, KeysDiffer) ==> Chain(Sort(members, KeyLess), KeysDiffer)
  {
    var r := Sort(members, KeyLess);
    SortPermutes(members, KeyLess);
    forall m
      ensures m in r <==> m in members
    {
      assert m in multiset(r) <==> m in multiset(members);
    }
    KeyOrderIsWeak();
    var any := (x: Member, y: Member) => true;
    SortIsStable(members, KeyLess, any);
    forall i, j | 0 <= i < j < |members|
      ensures !KeyLess(r[j], r[i])
    {
      assert Lex(KeyLess, any)(r[i], r[j]);
    }
    if Chain(members, KeysDiffer) {
      SortIsStable(members, KeyLess, KeysDiffer);
      forall i, j | 0 <= i < j < |members|
        ensures KeysDiffer(r[i], r[j])
      {
        assert Lex(KeyLess, KeysDiffer)(r[i], r[j]);
        LessIrreflexive(r[i].key);
      }
    }
  }

  lemma {:induction false} NormalizeIsNormal(v: Json)
    ensures IsNormal(Normalize(v))
    ensures DistinctKeys(v) ==> DistinctKeys(Normalize(v))
    decreases v
  {
    match v
    case Arr(items) =>
      forall i | 0 <= i < |items|
        ensures IsNormal(Normalize(items[i])) && (DistinctKeys(v) ==> DistinctKeys(Normalize(items[i])))
      {
        NormalizeIsNormal(items[i]);
      }
    case Obj(members) =>
      var ms := NormalizeMembers(members);
      forall i | 0 <= i < |members|
        ensures IsNormal(ms[i].value) && (DistinctKeys(v) ==> DistinctKeys(ms[i].value))
      {
        NormalizeIsNormal(members[i].value);
      }
      SortedMembers(ms);
      var r := Sort(ms, KeyLess);
      forall i | 0 <= i < |r|
        ensures IsNormal(r[i].value) && (DistinctKeys(v) ==> DistinctKeys(r[i].value))
      {
        assert r[i] in ms;
      }
      if DistinctKeys(v) {
        assert Chain(ms, KeysDiffer);
      }
    case _ =>
  }

  /** In every object, at every level, the keys come in ascending code-point order, none twice. */
  predicate KeysAscend(v: Json)
    decreases v
  {
    match v
    case Arr(items) => forall i :: 0 <= i < |items| ==> KeysAscend(items[i])
    case Obj(members) =>
      && (forall i, j :: 0 <= i < j < |members| ==> Less(members[i].key, members[j].key))
      && (forall i :: 0 <= i < |members| ==> KeysAscend(members[i].value))
    case _ => true
  }

  lemma {:induction false} NormalKeysAscend(v: Json)
    requires IsNormal(v) && DistinctKeys(v)
    ensures KeysAscend(v)
    decreases v
  {
    match v
    case Arr(items) =>
      forall i | 0 <= i < |items|
        ensures KeysAscend(items[i])
      {
        NormalKeysAscend(items[i]);
      }
    case Obj(members) =>
      forall i | 0 <= i < |members|
        ensures KeysAscend(members[i].value)
      {
        NormalKeysAscend(members[i].value);
      }
      forall i, j | 0 <= i < j < |members|
        ensures Less(members[i].key, members[j].key)
      {
        LessTotal(members[i].key, members[j].key);
        assert KeysDiffer(members[i], members[j]);
      }
    case _ =>
  }

  /** A mapping is written with its keys ascending at every level. */
  lemma WrittenKeysAscend(v: Json)
    requires DistinctKeys(v)
    ensures KeysAscend(Normalize(v))
  {
    NormalizeIsNormal(v);
    NormalKeysAscend(Normalize(v));
  }

  lemma {:induction false} NormalizeIsBounded(v: Json, levels: nat)
    requires Bounded(v, levels)
    ensures Bounded(Normalize(v), levels)
    decreases v
  {
    match v
    case Arr(items) =>
      forall i | 0 <= i < |items|
        ensures Bounded(Normalize(items[i]), levels - 1)
      {
        NormalizeIsBounded(items[i], levels - 1);
      }
    case Obj(members) =>
      var ms := NormalizeMembers(members);
      forall i | 0 <= i < |members|
        ensures Bounded(ms[i].value, levels - 1)
      {
        NormalizeIsBounded(members[i].value, levels - 1);
      }
      SortedMembers(ms);
      var r := Sort(ms, KeyLess);
      forall i | 0 <= i < |r|
        ensures Bounded(r[i].value, levels - 1)
      {
        assert r[i] in ms;
      }
    case _ =>
  }

  lemma {:induction false} NormalIsFixed(v: Json)
    requires IsNormal(v)
    ensures Normalize(v) == v
    decreases v
  {
    match v
    case Arr(items) =>
      forall i | 0 <= i < |items|
        ensures Normalize(items[i]) == items[i]
      {
        NormalIsFixed(items[i]);
      }
      assert NormalizeItems(items) == items;
    case Obj(members) =>
      forall i | 0 <= i < |members|
        ensures Normalize(members[i].value) == members[i].value
      {
        NormalIsFixed(members[i].value);
      }
      assert NormalizeMembers(members) == members;
      SortOfSorted(members);
    case _ =>
  }

  /** What is written is accepted back, as the value itself up to the order of keys. */
  lemma DecodeCanonical(v: Json)
    requires IsMetadata(v)
    ensures Decode(Canonical(v)) == Some(Normalize(v))
  {
    hide Bounded;
    NormalizeIsBounded(v, MAX_DEPTH);
    NormalizeIsNormal(v);
    NormalIsFixed(Normalize(v));
    ParsePrint(Normalize(v), []);
  }

  /** What is accepted is exactly what some metadata value is written as. */
  lemma DecodeAcceptsExactlyCanonical(text: string)
    ensures Decode(text).Some? <==> exists v :: IsMetadata(v) && Canonical(v) == text
  {
    if v :| IsMetadata(v) && Canonical(v) == text {
      DecodeCanonical(v);
    }
  }

  /** Canonical text identifies a value up to the order of keys. */
  lemma CanonicalInjective(a: Json, b: Json)
    ensures Canonical(a) == Canonical(b) <==> Normalize(a) == Normalize(b)
  {
    if Canonical(a) == Canonical(b) {
      ParsePrint(Normalize(a), []);
      ParsePrint(Normalize(b), []);
    }
  }

  // ----- Python's equality

  /** The exact number a float is. */
  function FloatValue(t: FloatText): real {
    var n := Scan(t).value.value;
    var x := Nearest(n).value;
    if n.negative then 0.0 - x else x
  }

  /** What equality looks at: booleans, integers and floats are the numbers they stand for, also inside containers. */
  datatype Shape =
    | Nothing
    | Number(value: real)
    | Word(text: string)
    | List(items: seq<Shape>)
    | Mapping(members: seq<Field>)

  datatype Field = Field(key: string, value: Shape)

  function Collapse(v: Json): Shape
    decreases v, 1
  {
    match v
    case Null => Nothing
    case Bool(b) => Number(if b then 1.0 else 0.0)
    case Int(n) => Number(n as real)
    case Float(t) => Number(FloatValue(t))
    case Str(s) => Word(s)
    case Arr(items) => List(CollapseItems(items))
    case Obj(members) => Mapping(CollapseMembers(members))
  }

  function CollapseItems(items: seq<Json>): seq<Shape>
    decreases items, 0
  {
    if items == [] then [] else [Collapse(items[0])] + CollapseItems(items[1..])
  }

  function CollapseMembers(members: seq<Member>): seq<Field>
    decreases members, 0
  {
    if members == [] then []
    else [Field(members[0].key, Collapse(members[0].value))] + CollapseMembers(members[1..])
  }

  /** `a == b` in Python: key order is irrelevant, and numbers of different types are compared exactly. */
  predicate PyEqual(a: Json, b: Json) {
    Collapse(Normalize(a)) == Collapse(Normalize(b))
  }

  /** A value read back from its column equals the value written, by Python's equality as well. */
  lemma DecodedEqualsWritten(v: Json, w: Json)
    requires IsMetadata(v)
    ensures Decode(Canonical(v)).Some?
    ensures PyEqual(Decode(Canonical(v)).value, w) == PyEqual(v, w)
  {
    DecodeCanonical(v);
    NormalizeIsNormal(v);
    NormalIsFixed(Normalize(v));
  }
}
