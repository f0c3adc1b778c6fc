/** UTF-8 (section 3 of RFC 3629), and why SQL's byte-wise `ORDER BY` agrees with Python's code-point `sorted`. */
module Utf8 {
  import opened TextOrder

  type Bytes = seq<int>

  /** The encoding of one character. */
  function EncodeChar(c: char): (b: Bytes)
    ensures 1 <= |b| <= 4
    ensures forall i :: 0 <= i < |b| ==> 0 <= b[i] < 0xF8
  {
    var n := c as int;
    if n < 0x80 then [n]
    else if n < 0x800 then [0xC0 + n / 64, 0x80 + n % 64]
    else if n < 0x10000 then [0xE0 + n / 64 / 64, 0x80 + n / 64 % 64, 0x80 + n % 64]
    else [0xF0 + n / 64 / 64 / 64, 0x80 + n / 64 / 64 % 64, 0x80 + n / 64 % 64, 0x80 + n % 64]
  }

  function Encode(s: string): Bytes {
    if s == [] then [] else EncodeChar(s[0]) + Encode(s[1..])
  }

  /** `memcmp` order, a proper prefix first. */
  predicate BytesLess(a: Bytes, b: Bytes) {
    b != [] && (a == [] || a[0] < b[0] || (a[0] == b[0] && BytesLess(a[1..], b[1..])))
  }

  /** The first difference of `a` and `b` is at `k`, and `a` has the smaller byte there. */
  ghost predicate Diverge(a: Bytes, b: Bytes, k: nat) {
    k < |a| && k < |b| && a[k] < b[k] && forall i :: 0 <= i < k ==> a[i] == b[i]
  }

  lemma DivergingChars(c: char, d: char)
    requires c < d
    ensures exists k :: Diverge(EncodeChar(c), EncodeChar(d), k)
  {
    var a, b := EncodeChar(c), EncodeChar(d);
    if a[0] < b[0] {
      assert Diverge(a, b, 0);
    } else {
      SameLead(c, d);
      SixBitGroups(c as int, d as int);
      SixBitGroups(c as int / 64, d as int / 64);
      SixBitGroups(c as int / 64 / 64, d as int / 64 / 64);
      var k := if a[1] != b[1] then 1 else if a[2] != b[2] then 2 else 3;
      assert Diverge(a, b, k);
    }
  }

  /** Of two ordered characters the first has the smaller leading byte, unless both take the same number of bytes. */
  lemma SameLead(c: char, d: char)
    requires c < d && EncodeChar(c)[0] >= EncodeChar(d)[0]
    ensures |EncodeChar(c)| == |EncodeChar(d)| >= 2
    ensures EncodeChar(c)[0] == EncodeChar(d)[0]
  {
    SixBitGroups(c as int, d as int);
    SixBitGroups(c as int / 64, d as int / 64);
    SixBitGroups(c as int / 64 / 64, d as int / 64 / 64);
  }

  lemma SixBitGroups(m: int, n: int)
    requires 0 <= m <= n
    ensures m / 64 < n / 64 || (m / 64 == n / 64 && m % 64 <= n % 64)
    ensures m / 64 == n / 64 && m % 64 == n % 64 ==> m == n
  {
  }

  lemma {:induction false} DivergenceDecides(a: Bytes, b: Bytes, x: Bytes, y: Bytes, k: nat)
    requires Diverge(a, b, k)
    ensures BytesLess(a + x, b + y) && !BytesLess(b + y, a + x)
    decreases k
  {
    if k > 0 {
      assert a[0] == b[0];
      DivergenceDecides(a[1..], b[1..], x, y, k - 1);
      assert (a + x)[1..] == a[1..] + x && (b + y)[1..] == b[1..] + y;
    }
  }

  lemma {:induction false} CommonPrefixCancels(p: Bytes, a: Bytes, b: Bytes)
    ensures BytesLess(p + a, p + b) == BytesLess(a, b)
  {
    if p == [] {
      assert p + a == a && p + b == b;
    } else {
      assert (p + a)[1..] == p[1..] + a && (p + b)[1..] == p[1..] + b;
      CommonPrefixCancels(p[1..], a, b);
    }
  }

  /** Comparing encodings byte by byte is comparing the strings code point by code point. */
  lemma {:induction false} ByteOrderIsCodePointOrder(a: string, b: string)
    ensures BytesLess(Encode(a), Encode(b)) == Less(a, b)
  {
    if a != [] && b != [] {
      var x, y := EncodeChar(a[0]), EncodeChar(b[0]);
      if a[0] < b[0] {
        DivergingChars(a[0], b[0]);
        var k :| Diverge(x, y, k);
        DivergenceDecides(x, y, Encode(a[1..]), Encode(b[1..]), k);
      } else if b[0] < a[0] {
        DivergingChars(b[0], a[0]);
        var k :| Diverge(y, x, k);
        DivergenceDecides(y, x, Encode(b[1..]), Encode(a[1..]), k);
      } else {
        CommonPrefixCancels(x, Encode(a[1..]), Encode(b[1..]));
        ByteOrderIsCodePointOrder(a[1..], b[1..]);
      }
    }
  }

  /** The rows of a query: increasing by the bytes of their identifiers. */
  ghost predicate OrderedByBytes(ids: seq<string>) {
    forall i, j :: 0 <= i < j < |ids| ==> BytesLess(Encode(ids[i]), Encode(ids[j]))
  }

  /** `ORDER BY id` over the identifiers `s` returns exactly what `sorted` makes of them. */
  lemma SqlOrderIsSorted(ids: seq<string>, s: set<string>)
    requires Elements(ids) == s
    ensures OrderedByBytes(ids) <==> ids == Sorted(s)
  {
    if OrderedByBytes(ids) {
      forall i, j | 0 <= i < j < |ids|
        ensures Less(ids[i], ids[j])
      {
        ByteOrderIsCodePointOrder(ids[i], ids[j]);
      }
      SortedIsTheEnumeration(ids);
    }
    if ids == Sorted(s) {
      forall i, j | 0 <= i < j < |ids|
        ensures BytesLess(Encode(ids[i]), Encode(ids[j]))
      {
        ByteOrderIsCodePointOrder(ids[i], ids[j]);
      }
    }
  }
}
