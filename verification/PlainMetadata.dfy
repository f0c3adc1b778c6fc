/** When Python's equality of metadata is equality of its canonical text: exactly for values none of whose numbers has a
    second form, that is, which hold no boolean, no integer that a float equals and no float that is an integer. */
module PlainMetadata {
  import opened Wrappers
  import opened StableSort
  import opened Binary64
  import opened Numerals
  import opened CanonicalJson
  import opened Metadata

  function Magnitude(n: int): (x: real)
    ensures 0.0 <= x
  {
    (if n < 0 then -n else n) as real
  }

  /** Converting the integer to a float is exact: `float(n) == n`. */
  predicate HasFloat(n: int) {
    Round(Magnitude(n)) == Some(Magnitude(n))
  }

  /** `t.is_integer()`. */
  predicate IsInteger(t: FloatText) {
    FloatValue(t).Floor as real == FloatValue(t)
  }

  /** No boolean, no integer that a float equals and no float that is an integer, at any level. */
  predicate Plain(v: Json)
    decreases v
  {
    match v
    case Bool(_) => false
    case Int(n) => !HasFloat(n)
    case Float(t) => !IsInteger(t)
    case Arr(items) => forall i :: 0 <= i < |items| ==> Plain(items[i])
    case Obj(members) => forall i :: 0 <= i < |members| ==> Plain(members[i].value)
    case _ => true
  }

  // ----- numbers with one form

  /** Two floats of one value, not zero, have one text. */
  lemma FloatUnique(t: FloatText, u: FloatText)
    requires FloatValue(t) == FloatValue(u) != 0.0
    ensures t == u
  {
    hide Scan, Nearest, Repr;
    SignOf(t);
    SignOf(u);
  }

  lemma SignOf(t: FloatText)
    ensures var n := Scan(t).value.value;
            n.negative && FloatValue(t) != 0.0 ==> FloatValue(t) < 0.0
    ensures !Scan(t).value.value.negative ==> FloatValue(t) >= 0.0
    ensures var n := Scan(t).value.value; t == Repr(n.negative, Nearest(n).value)
  {
    hide Scan, Repr;
  }

  /** The value of a float is a double. */
  lemma FloatIsDouble(t: FloatText)
    ensures IsDouble(FloatValue(t)) || IsDouble(0.0 - FloatValue(t))
  {
    hide Scan, Repr;
  }

  lemma FloatEqualsInteger(t: FloatText, n: int)
    requires FloatValue(t) == n as real
    ensures HasFloat(n) && IsInteger(t)
  {
    hide FloatValue, Round, IsDouble, IsRepr;
    FloatIsDouble(t);
    var x := if IsDouble(FloatValue(t)) then FloatValue(t) else 0.0 - FloatValue(t);
    RoundFixes(x);
    MagnitudeOf(n, x);
  }

  lemma MagnitudeOf(n: int, x: real)
    requires 0.0 <= x && (x == n as real || x == 0.0 - n as real)
    ensures Magnitude(n) == x
  {
  }

  lemma SmallHasFloat(n: nat)
    requires n <= 2
    ensures HasFloat(n)
  {
    hide Round, IsDouble;
    SmallIsDouble(n);
    RoundFixes(n as real);
  }

  predicate IsNumber(v: Json) {
    v.Bool? || v.Int? || v.Float?
  }

  lemma OneIntegerForm(n: int, w: Json)
    requires !HasFloat(n) && IsNumber(w) && Collapse(w) == Number(n as real)
    ensures w == Int(n)
  {
    hide FloatValue, HasFloat;
    SmallHasFloat(0);
    SmallHasFloat(1);
    if w.Float? {
      FloatEqualsInteger(w.text, n);
    }
  }

  lemma OneFloatForm(t: FloatText, w: Json)
    requires !IsInteger(t) && IsNumber(w) && Collapse(w) == Number(FloatValue(t))
    ensures w == Float(t)
  {
    hide FloatValue, HasFloat, IsInteger;
    if w.Float? {
      NotZero(t);
      FloatUnique(t, w.text);
    } else {
      FloatEqualsInteger(t, if w.Int? then w.n else if w.b then 1 else 0);
    }
  }

  lemma NotZero(t: FloatText)
    requires !IsInteger(t)
    ensures FloatValue(t) != 0.0
  {
    hide FloatValue;
  }

  /** Nothing but a plain value itself is equal to it. */
  lemma {:induction false} OnlyItself(v: Json, w: Json)
    requires Plain(v) && Collapse(v) == Collapse(w)
    ensures w == v
    decreases w, 1
  {
    hide FloatValue, HasFloat, IsInteger;
    match w
    case Arr(items) => OnlyItems(v.items, items);
    case Obj(members) => OnlyMembers(v.members, members);
    case Null =>
    case Str(_) =>
    case _ =>
      if v.Int? {
        OneIntegerForm(v.n, w);
      } else if v.Float? {
        OneFloatForm(v.text, w);
      }
  }

  lemma {:induction false} OnlyItems(a: seq<Json>, b: seq<Json>)
    requires (forall i :: 0 <= i < |a| ==> Plain(a[i])) && CollapseItems(a) == CollapseItems(b)
    ensures a == b
    decreases b, 0
  {
    hide Plain, Collapse, IsRepr;
    if b != [] {
      assert a != [] && CollapseItems(a)[0] == Collapse(a[0]) && CollapseItems(b)[0] == Collapse(b[0]);
      assert CollapseItems(a)[1..] == CollapseItems(a[1..]) && CollapseItems(b)[1..] == CollapseItems(b[1..]);
      OnlyItself(a[0], b[0]);
      OnlyItems(a[1..], b[1..]);
      assert a == [a[0]] + a[1..] && b == [b[0]] + b[1..];
    }
  }

  lemma {:induction false} OnlyMembers(a: seq<Member>, b: seq<Member>)
    requires (forall i :: 0 <= i < |a| ==> Plain(a[i].value)) && CollapseMembers(a) == CollapseMembers(b)
    ensures a == b
    decreases b, 0
  {
    hide Plain, Collapse, IsRepr;
    if b != [] {
      assert a != [] && CollapseMembers(a)[0] == Field(a[0].key, Collapse(a[0].value));
      assert CollapseMembers(b)[0] == Field(b[0].key, Collapse(b[0].value));
      assert CollapseMembers(a)[1..] == CollapseMembers(a[1..]) && CollapseMembers(b)[1..] == CollapseMembers(b[1..]);
      assert b[0] == Member(b[0].key, b[0].value);
      OnlyItself(a[0].value, b[0].value);
      OnlyMembers(a[1..], b[1..]);
      assert a == [a[0]] + a[1..] && b == [b[0]] + b[1..];
    }
  }

  lemma {:induction false} PlainNormal(v: Json)
    ensures Plain(Normalize(v)) <==> Plain(v)
    decreases v
  {
    match v
    case Arr(items) =>
      forall i | 0 <= i < |items|
        ensures Plain(Normalize(items[i])) <==> Plain(items[i])
      {
        PlainNormal(items[i]);
      }
    case Obj(members) =>
      forall i | 0 <= i < |members|
        ensures Plain(Normalize(members[i].value)) <==> Plain(members[i].value)
      {
        PlainNormal(members[i].value);
      }
      PlainSorted(NormalizeMembers(members));
    case _ =>
  }

  lemma PlainSorted(members: seq<Member>)
    ensures Plain(Obj(Sort(members, KeyLess))) <==> Plain(Obj(members))
  {
    SortedMembers(members);
    var r := Sort(members, KeyLess);
    assert forall i :: 0 <= i < |members| ==> members[i] in r;
    assert forall i :: 0 <= i < |r| ==> r[i] in members;
  }

  /** For a plain value, equality and equality of text are the same. */
  lemma PlainByText(v: Json, w: Json)
    requires Plain(v)
    ensures PyEqual(v, w) <==> Canonical(v) == Canonical(w)
  {
    hide Plain, Collapse, Normalize;
    PlainNormal(v);
    if PyEqual(v, w) {
      OnlyItself(Normalize(v), Normalize(w));
    }
    CanonicalInjective(v, w);
  }

  // ----- the other value

  /** The float an integer is equal to. */
  function FloatOf(n: int): (t: FloatText)
    requires HasFloat(n)
    ensures FloatValue(t) == n as real
  {
    RoundIsDouble(Magnitude(n));
    ReprReads(n < 0, Magnitude(n));
    ShownReads(n < 0, Magnitude(n));
    Repr(n < 0, Magnitude(n))
  }

  /** Every number that has a second form takes it: booleans and integral floats become integers, integers floats. */
  function Flip(v: Json): Json
    decreases v, 1
  {
    match v
    case Bool(b) => Int(if b then 1 else 0)
    case Int(n) => if HasFloat(n) then Float(FloatOf(n)) else v
    case Float(t) => if IsInteger(t) then Int(FloatValue(t).Floor) else v
    case Arr(items) => Arr(FlipItems(items))
    case Obj(members) => Obj(FlipMembers(members))
    case _ => v
  }

  function FlipItems(items: seq<Json>): (r: seq<Json>)
    ensures |r| == |items| && forall i :: 0 <= i < |r| ==> r[i] == Flip(items[i])
    decreases items, 0
  {
    if items == [] then [] else [Flip(items[0])] + FlipItems(items[1..])
  }

  function FlipMembers(members: seq<Member>): (r: seq<Member>)
    ensures |r| == |members|
    ensures forall i :: 0 <= i < |r| ==> r[i] == Member(members[i].key, Flip(members[i].value))
    decreases members, 0
  {
    if members == [] then [] else [Member(members[0].key, Flip(members[0].value))] + FlipMembers(members[1..])
  }

  lemma {:induction false} FlipCollapses(v: Json)
    ensures Collapse(Flip(v)) == Collapse(v)
    decreases v, 1
  {
    hide FloatValue, HasFloat, FloatOf, IsRepr;
    match v
    case Arr(items) => FlipItemsCollapse(items);
    case Obj(members) => FlipMembersCollapse(members);
    case _ =>
  }

  lemma {:induction false} FlipItemsCollapse(items: seq<Json>)
    ensures CollapseItems(FlipItems(items)) == CollapseItems(items)
    decreases items, 0
  {
    if items != [] {
      FlipCollapses(items[0]);
      FlipItemsCollapse(items[1..]);
      assert FlipItems(items)[1..] == FlipItems(items[1..]);
    }
  }

  lemma {:induction false} FlipMembersCollapse(members: seq<Member>)
    ensures CollapseMembers(FlipMembers(members)) == CollapseMembers(members)
    decreases members, 0
  {
    if members != [] {
      assert members[0] == Member(members[0].key, members[0].value);
      FlipCollapses(members[0].value);
      FlipMembersCollapse(members[1..]);
      assert FlipMembers(members)[1..] == FlipMembers(members[1..]);
    }
  }

  lemma {:induction false} InsertFlip(m: Member, s: seq<Member>)
    ensures Insert(Member(m.key, Flip(m.value)), FlipMembers(s), KeyLess) == FlipMembers(Insert(m, s, KeyLess))
  {
    hide Flip;
    if s != [] && KeyLess(s[0], m) {
      InsertFlip(m, s[1..]);
      assert FlipMembers(s)[1..] == FlipMembers(s[1..]);
      var r := Insert(m, s, KeyLess);
      assert r[1..] == Insert(m, s[1..], KeyLess);
    } else {
      var r := Insert(m, s, KeyLess);
      assert r[1..] == s;
    }
  }

  lemma {:induction false} SortFlip(s: seq<Member>)
    ensures Sort(FlipMembers(s), KeyLess) == FlipMembers(Sort(s, KeyLess))
  {
    hide Flip, Insert;
    if s != [] {
      SortFlip(s[1..]);
      assert FlipMembers(s)[1..] == FlipMembers(s[1..]);
      InsertFlip(s[0], Sort(s[1..], KeyLess));
    }
  }

  lemma {:induction false} NormalizeFlip(v: Json)
    ensures Normalize(Flip(v)) == Flip(Normalize(v))
    decreases v
  {
    hide FloatValue, HasFloat, IsInteger, FloatOf, Sort, IsRepr;
    match v
    case Arr(items) =>
      forall i | 0 <= i < |items|
        ensures Normalize(FlipItems(items)[i]) == Flip(NormalizeItems(items)[i])
      {
        NormalizeFlip(items[i]);
      }
      assert NormalizeItems(FlipItems(items)) == FlipItems(NormalizeItems(items));
    case Obj(members) =>
      forall i | 0 <= i < |members|
        ensures NormalizeMembers(FlipMembers(members))[i] == FlipMembers(NormalizeMembers(members))[i]
      {
        NormalizeFlip(members[i].value);
      }
      assert NormalizeMembers(FlipMembers(members)) == FlipMembers(NormalizeMembers(members));
      SortFlip(NormalizeMembers(members));
    case _ =>
  }

  lemma {:induction false} FlipDiffers(v: Json)
    requires !Plain(v)
    ensures Flip(v) != v
    decreases v
  {
    match v
    case Arr(items) =>
      var i :| 0 <= i < |items| && !Plain(items[i]);
      FlipDiffers(items[i]);
      assert FlipItems(items)[i] != items[i];
    case Obj(members) =>
      var i :| 0 <= i < |members| && !Plain(members[i].value);
      FlipDiffers(members[i].value);
      assert FlipMembers(members)[i] != members[i];
    case _ =>
  }

  lemma {:induction false} FlipKeepsKeys(v: Json)
    requires DistinctKeys(v)
    ensures DistinctKeys(Flip(v))
    decreases v
  {
    match v
    case Arr(items) =>
      forall i | 0 <= i < |items|
        ensures DistinctKeys(FlipItems(items)[i])
      {
        FlipKeepsKeys(items[i]);
      }
    case Obj(members) =>
      forall i | 0 <= i < |members|
        ensures DistinctKeys(FlipMembers(members)[i].value)
      {
        FlipKeepsKeys(members[i].value);
      }
    case _ =>
  }

  lemma {:induction false} FlipKeepsBounds(v: Json, levels: nat)
    requires Bounded(v, levels)
    ensures Bounded(Flip(v), levels)
    decreases v
  {
    hide Power, FloatValue, HasFloat, IsInteger;
    match v
    case Bool(_) => PowerStep(2, MAX_BITS - 1);
    case Float(t) =>
      if IsInteger(t) {
        IntegralBound(t);
      }
    case Arr(items) =>
      forall i | 0 <= i < |items|
        ensures Bounded(FlipItems(items)[i], levels - 1)
      {
        FlipKeepsBounds(items[i], levels - 1);
      }
    case Obj(members) =>
      forall i | 0 <= i < |members|
        ensures Bounded(FlipMembers(members)[i].value, levels - 1)
      {
        FlipKeepsBounds(members[i].value, levels - 1);
      }
    case _ =>
  }

  /** The whole part of a float has at most 1024 bits. */
  lemma IntegralBound(t: FloatText)
    ensures 0 - Power(2, MAX_BITS) < FloatValue(t).Floor < Power(2, MAX_BITS)
  {
    hide FloatValue, Power, IsDouble, Scale, Binary, IsRepr;
    var v := FloatValue(t);
    FloatIsDouble(t);
    var x := if IsDouble(v) then v else 0.0 - v;
    DoubleBound(x);
    FloorBound(v, x, Power(2, OVERFLOW_EXPONENT));
    PowerStep(2, OVERFLOW_EXPONENT);
    PowersGrow(OVERFLOW_EXPONENT + 1, MAX_BITS);
  }

  lemma FloorBound(v: real, x: real, p: nat)
    requires 0.0 <= x < p as real && (v == x || v == 0.0 - x)
    ensures 0 - p <= v.Floor < p
  {
  }

  lemma DoubleBound(x: real)
    requires IsDouble(x)
    ensures 0.0 <= x < Power(2, OVERFLOW_EXPONENT) as real
  {
    hide Power, Scale, First;
    RoundFixes(x);
    ScaleIsPower(2, OVERFLOW_EXPONENT);
  }

  lemma {:induction false} PowersGrow(j: nat, k: nat)
    requires j <= k
    ensures Power(2, j) <= Power(2, k)
  {
    if j < k {
      PowersGrow(j, k - 1);
      PowerStep(2, k - 1);
    }
  }

  /** A value that is not plain is equal to an admissible value with another text. */
  lemma FlipIsEqual(v: Json)
    requires IsMetadata(v)
    ensures IsMetadata(Flip(v)) && PyEqual(v, Flip(v)) && PyEqual(Flip(v), v)
    ensures !Plain(v) ==> Canonical(v) != Canonical(Flip(v))
  {
    hide Plain, Bounded, DistinctKeys, Collapse, Normalize;
    FlipKeepsKeys(v);
    FlipKeepsBounds(v, MAX_DEPTH);
    NormalizeFlip(v);
    FlipCollapses(Normalize(v));
    PlainNormal(v);
    if !Plain(v) {
      FlipDiffers(Normalize(v));
    }
    CanonicalInjective(v, Flip(v));
  }

  /** Python's equality with a metadata value is equality of canonical text, for every metadata value it may be compared
      with, exactly when the value is plain. */
  lemma EqualByTextExactly(v: Json)
    requires IsMetadata(v)
    ensures Plain(v) <==> forall w | IsMetadata(w) :: PyEqual(v, w) <==> Canonical(v) == Canonical(w)
  {
    hide Plain, IsMetadata, PyEqual, Canonical;
    if Plain(v) {
      forall w | IsMetadata(w)
        ensures PyEqual(v, w) <==> Canonical(v) == Canonical(w)
      {
        PlainByText(v, w);
      }
    } else {
      FlipIsEqual(v);
    }
  }

  // ----- inputs

  lemma Exchanged(k: string, v: Json)
    requires !Plain(v) && DistinctKeys(v) && Bounded(v, MAX_DEPTH - 1)
    ensures var a, b := Obj([Member(k, v)]), Obj([Member(k, Flip(v))]);
            IsMetadata(a) && IsMetadata(b) && PyEqual(a, b) && Canonical(a) != Canonical(b)
  {
    hide Bounded, DistinctKeys, PyEqual, Canonical, Flip;
    var a := Obj([Member(k, v)]);
    SingleMember(k, v);
    FlipIsEqual(a);
  }

  lemma SingleMember(k: string, v: Json)
    ensures var a := Obj([Member(k, v)]);
            && (Plain(a) <==> Plain(v)) && Flip(a) == Obj([Member(k, Flip(v))])
            && (DistinctKeys(v) && Bounded(v, MAX_DEPTH - 1) ==> IsMetadata(a))
  {
    hide FloatValue, HasFloat, IsInteger, FloatOf, Power, IsRepr, Flip;
    var ms := [Member(k, v)];
    assert ms[1..] == [] && ms[0].value == v;
    FlipsMembers(ms);
    assert FlipMembers(ms) == [Member(k, Flip(v))];
  }

  lemma FlipsMembers(members: seq<Member>)
    ensures Flip(Obj(members)) == Obj(FlipMembers(members))
  {
    hide FloatValue, HasFloat, IsInteger, FloatOf, IsRepr, FlipMembers;
  }

  lemma TwoIsBounded()
    ensures 2 < Power(2, MAX_BITS)
  {
    hide Power;
    PowerStep(2, MAX_BITS - 1);
    PowerStep(2, MAX_BITS - 2);
  }

  /** Under any key: `true` and 1, 2 and `2.0`, are equal to Python and admissible, and their texts differ. */
  lemma EqualValuesWithDifferentTexts(k: string)
    ensures var a, b := Obj([Member(k, Bool(true))]), Obj([Member(k, Int(1))]);
            IsMetadata(a) && IsMetadata(b) && PyEqual(a, b) && Canonical(a) != Canonical(b)
    ensures HasFloat(2)
    ensures var a, b := Obj([Member(k, Int(2))]), Obj([Member(k, Float(FloatOf(2)))]);
            IsMetadata(a) && IsMetadata(b) && PyEqual(a, b) && Canonical(a) != Canonical(b)
  {
    hide IsMetadata, PyEqual, Canonical, Power, HasFloat, FloatOf;
    Exchanged(k, Bool(true));
    SmallHasFloat(2);
    TwoIsBounded();
    Exchanged(k, Int(2));
  }
}
