/** Stable sorting of a sequence by a key order (Python's `list.sort`), and what a chain of stable sorts computes. */
module StableSort {

  /** A strict weak order: what a sort key induces on the elements. */
  ghost predicate WeakOrder<T(!new)>(lt: (T, T) -> bool) {
    && (forall x, y :: lt(x, y) ==> !lt(y, x))
    && (forall x, y, z :: lt(x, y) ==> lt(x, z) || lt(z, y))
  }

  /** Elements are pairwise related in the order they stand. */
  ghost predicate Chain<T(!new)>(s: seq<T>, rel: (T, T) -> bool) {
    forall i, j :: 0 <= i < j < |s| ==> rel(s[i], s[j])
  }

  /** First by `major`, ties broken by `minor`. */
  function Lex<T>(major: (T, T) -> bool, minor: (T, T) -> bool): (T, T) -> bool {
    (x, y) => major(x, y) || (!major(y, x) && minor(x, y))
  }

  function Insert<T>(x: T, s: seq<T>, lt: (T, T) -> bool): seq<T> {
    if s == [] || !lt(s[0], x) then [x] + s else [s[0]] + Insert(x, s[1..], lt)
  }

  function Sort<T>(s: seq<T>, lt: (T, T) -> bool): seq<T> {
    if s == [] then [] else Insert(s[0], Sort(s[1..], lt), lt)
  }

  lemma {:induction false} InsertPermutes<T>(x: T, s: seq<T>, lt: (T, T) -> bool)
    ensures multiset(Insert(x, s, lt)) == multiset{x} + multiset(s)
  {
    if s != [] && lt(s[0], x) {
      InsertPermutes(x, s[1..], lt);
      assert s == [s[0]] + s[1..];
    }
  }

  lemma {:induction false} SortPermutes<T>(s: seq<T>, lt: (T, T) -> bool)
    ensures multiset(Sort(s, lt)) == multiset(s)
    ensures |Sort(s, lt)| == |s|
  {
    if s != [] {
      SortPermutes(s[1..], lt);
      InsertPermutes(s[0], Sort(s[1..], lt), lt);
      assert s == [s[0]] + s[1..];
    }
    assert |multiset(Sort(s, lt))| == |Sort(s, lt)| && |multiset(s)| == |s|;
  }

  lemma {:induction false} InsertKeepsChain<T(!new)>(x: T, s: seq<T>, lt: (T, T) -> bool, before: (T, T) -> bool)
    requires WeakOrder(lt)
    requires Chain(s, Lex(lt, before))
    requires forall y :: y in s ==> before(x, y)
    ensures Chain(Insert(x, s, lt), Lex(lt, before))
  {
    var rel := Lex(lt, before);
    var r := Insert(x, s, lt);
    if s == [] {
    } else if !lt(s[0], x) {
      forall i, j | 0 <= i < j < |r|
        ensures rel(r[i], r[j])
      {
        if i == 0 {
          assert r[j] == s[j - 1];
          assert j > 1 ==> rel(s[0], s[j - 1]);
        }
      }
    } else {
      var rest := Insert(x, s[1..], lt);
      InsertKeepsChain(x, s[1..], lt, before);
      InsertPermutes(x, s[1..], lt);
      forall y | y in rest
        ensures rel(s[0], y)
      {
        assert y in multiset(rest);
        if y != x {
          assert y in s[1..];
        }
      }
    }
  }

  /** A stable sort leaves its input's order standing among ties: whatever relation the input's elements stood in,
      the result stands in "first by the key, then by that relation". */
  lemma {:induction false} SortIsStable<T(!new)>(s: seq<T>, lt: (T, T) -> bool, before: (T, T) -> bool)
    requires WeakOrder(lt)
    requires Chain(s, before)
    ensures Chain(Sort(s, lt), Lex(lt, before))
  {
    if s != [] {
      var rest := Sort(s[1..], lt);
      SortIsStable(s[1..], lt, before);
      SortPermutes(s[1..], lt);
      forall y | y in rest
        ensures before(s[0], y)
      {
        assert y in multiset(rest);
        assert y in s[1..];
      }
      InsertKeepsChain(s[0], rest, lt, before);
    }
  }

  /** Two permutations of each other that both stand in a strict order are the same sequence. */
  lemma {:induction false} ChainUnique<T(!new)>(a: seq<T>, b: seq<T>, lt: (T, T) -> bool)
    requires forall x, y :: lt(x, y) ==> !lt(y, x)
    requires Chain(a, lt) && Chain(b, lt)
    requires multiset(a) == multiset(b)
    ensures a == b
  {
    assert |multiset(a)| == |a| && |multiset(b)| == |b|;
    if a != [] {
      FirstsAgree(a, b, lt);
      SplitFirst(a);
      SplitFirst(b);
      ChainUnique(a[1..], b[1..], lt);
      assert a == [a[0]] + a[1..] && b == [b[0]] + b[1..];
    }
  }

  lemma FirstPrecedes<T(!new)>(a: seq<T>, x: T, lt: (T, T) -> bool)
    requires Chain(a, lt) && x in multiset(a)
    ensures a[0] == x || lt(a[0], x)
  {
    var i :| 0 <= i < |a| && a[i] == x;
  }

  lemma FirstsAgree<T(!new)>(a: seq<T>, b: seq<T>, lt: (T, T) -> bool)
    requires a != [] && b != []
    requires forall x, y :: lt(x, y) ==> !lt(y, x)
    requires Chain(a, lt) && Chain(b, lt)
    requires multiset(a) == multiset(b)
    ensures a[0] == b[0]
  {
    FirstPrecedes(a, b[0], lt);
    FirstPrecedes(b, a[0], lt);
  }

  lemma SplitFirst<T>(a: seq<T>)
    requires a != []
    ensures multiset(a[1..]) == multiset(a) - multiset{a[0]}
  {
    assert a == [a[0]] + a[1..];
  }
}
