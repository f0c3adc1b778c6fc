/** Finite double-precision numbers as exact reals: rounding to the nearest, and the shortest decimal that rounds back
    (the digits Python's `repr` shows). Only magnitudes; signs are put on elsewhere. */
module Binary64 {
  import opened Wrappers

  function Power(b: nat, k: nat): (p: nat)
    requires 0 < b
    ensures 0 < p
  {
    if k == 0 then 1 else
      var p := Power(b, k - 1);
      assert 0 < b * p;
      b * p
  }

  /** `b` to the `k`, for exponents of either sign. */
  function Scale(b: nat, k: int): (r: real)
    requires 0 < b
    ensures 0.0 < r
    decreases if k < 0 then -k else k
  {
    if k == 0 then 1.0
    else if k > 0 then
      var r := Scale(b, k - 1);
      assert 0.0 < b as real * r;
      b as real * r
    else
      var r := Scale(b, k + 1);
      assert 0.0 < r / b as real;
      r / b as real
  }

  const MANTISSA_BITS := 53
  const MIN_EXPONENT := -1074
  const MAX_EXPONENT := 971
  const OVERFLOW_EXPONENT := 1024

  /** The least exponent, from `k` on, at which `v` has fewer than 54 binary digits before the point. */
  function First(v: real, k: int): (r: int)
    ensures k <= r && (r <= MAX_EXPONENT ==> v < Scale(2, MANTISSA_BITS + r))
    decreases MAX_EXPONENT - k
  {
    if k > MAX_EXPONENT || v < Scale(2, MANTISSA_BITS + k) then k else First(v, k + 1)
  }

  function HalfEven(v: real): int {
    var f := v.Floor;
    var d := v - f as real;
    if d < 0.5 || (d == 0.5 && f % 2 == 0) then f else f + 1
  }

  /** The multiple of two to the `k` nearest to `v`, ties to even. */
  function RoundedAt(v: real, k: int): real {
    HalfEven(v / Scale(2, k)) as real * Scale(2, k)
  }

  /** The double nearest to `v`, ties to even; nothing when it overflows. */
  function Round(v: real): Option<real>
    requires 0.0 <= v
  {
    var k := First(v, MIN_EXPONENT);
    if k > MAX_EXPONENT then None else
      var r := RoundedAt(v, k);
      if r < Scale(2, OVERFLOW_EXPONENT) then Some(r) else None
  }

  ghost predicate Binary(x: real, m: nat, k: int) {
    m < Power(2, MANTISSA_BITS) && MIN_EXPONENT <= k <= MAX_EXPONENT && x == m as real * Scale(2, k)
  }

  /** A finite double, or zero. */
  ghost predicate IsDouble(x: real) {
    exists m: nat, k: int :: Binary(x, m, k)
  }

  // ----- scales

  lemma ScaleStep(b: nat, k: int)
    requires 0 < b
    ensures Scale(b, k + 1) == b as real * Scale(b, k)
  {
    if k < 0 {
      assert Scale(b, k) == Scale(b, k + 1) / b as real;
      assert b as real * (Scale(b, k + 1) / b as real) == Scale(b, k + 1);
    }
  }

  lemma Associate(a: real, b: real, c: real)
    ensures a * (b * c) == (a * b) * c
  {
  }

  lemma {:induction false} ScaleAdds(b: nat, j: int, k: int)
    requires 0 < b
    ensures Scale(b, j + k) == Scale(b, j) * Scale(b, k)
    decreases if k < 0 then -k else k
  {
    hide Scale;
    if k == 0 {
      ScaleZero(b);
    } else if k > 0 {
      ScaleAdds(b, j, k - 1);
      ScaleStep(b, j + k - 1);
      ScaleStep(b, k - 1);
      StepUp(b as real, Scale(b, j + k - 1), Scale(b, j), Scale(b, k - 1), Scale(b, k));
    } else {
      ScaleAdds(b, j, k + 1);
      ScaleStep(b, j + k);
      ScaleStep(b, k);
      StepDown(b as real, Scale(b, j + k), Scale(b, j), Scale(b, k), Scale(b, k + 1));
    }
  }

  lemma ScaleZero(b: nat)
    requires 0 < b
    ensures Scale(b, 0) == 1.0
  {
  }

  lemma StepUp(c: real, x: real, y: real, z: real, w: real)
    requires x == y * z && w == c * z
    ensures c * x == y * w
  {
    assert c * (y * z) == y * (c * z);
  }

  lemma StepDown(c: real, x: real, y: real, z: real, w: real)
    requires 0.0 < c && c * x == y * w && w == c * z
    ensures x == y * z
  {
    assert y * (c * z) == c * (y * z);
    Cancel(c, x, y * z);
  }

  lemma Cancel(c: real, x: real, y: real)
    requires 0.0 < c && c * x == c * y
    ensures x == y
  {
    assert c * (x - y) == 0.0;
  }

  lemma {:induction false} ScaleIsPower(b: nat, k: nat)
    requires 0 < b
    ensures Scale(b, k) == Power(b, k) as real
  {
    if k > 0 {
      ScaleIsPower(b, k - 1);
    }
  }

  lemma {:induction false} ScaleGrows(j: int, k: int)
    requires j <= k
    ensures Scale(2, j) <= Scale(2, k)
    decreases k - j
  {
    if j < k {
      ScaleGrows(j, k - 1);
      ScaleStep(2, k - 1);
    }
  }

  lemma {:induction false} FirstBound(v: real, k: int, j: int)
    requires k <= j <= MAX_EXPONENT && v < Scale(2, MANTISSA_BITS + j)
    ensures First(v, k) <= j
    decreases j - k
  {
    if k < j && v >= Scale(2, MANTISSA_BITS + k) {
      FirstBound(v, k + 1, j);
    }
  }

  // ----- rounding

  lemma Dividing(a: real, s: real)
    requires 0.0 < s
    ensures a * s / s == a && a / s * s == a
  {
  }

  lemma Ordered(a: real, b: real, s: real)
    requires 0.0 < s && a < b
    ensures a * s < b * s
  {
  }

  lemma RoundExact(x: real, n: nat, k: int)
    requires 0.0 <= x < Scale(2, OVERFLOW_EXPONENT) && k == First(x, MIN_EXPONENT) <= MAX_EXPONENT
    requires x == n as real * Scale(2, k)
    ensures Round(x) == Some(x)
  {
    hide Scale, First;
    DividesExactly(x, n, Scale(2, k));
  }

  lemma DividesExactly(x: real, n: nat, s: real)
    requires 0.0 < s && x == n as real * s
    ensures x / s == n as real && HalfEven(x / s) == n && (x / s).Floor == n
  {
    Dividing(n as real, s);
  }

  lemma Product(m: nat, a: nat, p: real, q: real)
    requires p == a as real * q
    ensures m as real * p == (m * a) as real * q
  {
    assert (m * a) as real == m as real * a as real;
    assert m as real * (a as real * q) == m as real * a as real * q;
  }

  lemma NotNegative(m: nat, s: real)
    requires 0.0 < s
    ensures 0.0 <= m as real * s
  {
  }

  /** A double is its own nearest double. */
  lemma RoundFixes(x: real)
    requires IsDouble(x)
    ensures 0.0 <= x && Round(x) == Some(x)
  {
    hide Scale, Power, First, Round;
    var m: nat, j: int :| Binary(x, m, j);
    NotNegative(m, Scale(2, j));
    BinaryBound(x, m, j);
    FirstBound(x, MIN_EXPONENT, j);
    var k := First(x, MIN_EXPONENT);
    ScaleAdds(2, j - k, k);
    ScaleIsPower(2, j - k);
    Product(m, Power(2, j - k), Scale(2, j), Scale(2, k));
    ScaleGrows(MANTISSA_BITS + j, OVERFLOW_EXPONENT);
    RoundExact(x, m * Power(2, j - k), k);
  }

  lemma BinaryBound(x: real, m: nat, j: int)
    requires Binary(x, m, j)
    ensures x < Scale(2, MANTISSA_BITS + j)
  {
    hide Scale, Power;
    ScaleIsPower(2, MANTISSA_BITS);
    ScaleAdds(2, MANTISSA_BITS, j);
    Ordered(m as real, Power(2, MANTISSA_BITS) as real, Scale(2, j));
  }

  /** What is rounded is a double. */
  lemma RoundIsDouble(v: real)
    requires 0.0 <= v && Round(v).Some?
    ensures IsDouble(Round(v).value)
  {
    hide Scale, Power, First, HalfEven;
    var k := First(v, MIN_EXPONENT);
    var s := Scale(2, k);
    var q := HalfEven(v / s);
    MantissaFits(v, k);
    if q < Power(2, MANTISSA_BITS) {
      assert Binary(Round(v).value, q, k);
    } else {
      NextExponent(k);
      assert Binary(Round(v).value, Power(2, MANTISSA_BITS - 1), k + 1);
    }
  }

  lemma MantissaFits(v: real, k: int)
    requires 0.0 <= v < Scale(2, MANTISSA_BITS + k)
    ensures 0 <= HalfEven(v / Scale(2, k)) <= Power(2, MANTISSA_BITS)
  {
    hide Scale, Power, HalfEven;
    var s, p := Scale(2, k), Power(2, MANTISSA_BITS);
    PowerScale(2, MANTISSA_BITS, k);
    Dividing(p as real, s);
    Quotients(v, p as real * s, s);
    NotNegativeQuotient(v, s);
    HalfEvenBounds(v / s, p);
    HalfEvenBounds(v / s, 0);
  }

  lemma AtLeast(a: real, b: real, s: real)
    requires 0.0 < s && a <= b
    ensures a * s <= b * s
  {
  }

  lemma PowerScale(b: nat, n: nat, k: int)
    requires 0 < b
    ensures Power(b, n) as real * Scale(b, k) == Scale(b, n + k)
  {
    hide Power, Scale;
    ScaleIsPower(b, n);
    ScaleAdds(b, n, k);
  }

  /** Rounding up to the next power of two moves to the next exponent, short of the overflow. */
  lemma NextExponent(k: int)
    requires MIN_EXPONENT <= k <= MAX_EXPONENT
    requires Power(2, MANTISSA_BITS) as real * Scale(2, k) < Scale(2, OVERFLOW_EXPONENT)
    ensures k + 1 <= MAX_EXPONENT && Power(2, MANTISSA_BITS - 1) < Power(2, MANTISSA_BITS)
    ensures Power(2, MANTISSA_BITS) as real * Scale(2, k) == Power(2, MANTISSA_BITS - 1) as real * Scale(2, k + 1)
  {
    hide Scale, Power;
    PowerStep(2, MANTISSA_BITS - 1);
    PowerScale(2, MANTISSA_BITS, k);
    PowerScale(2, MANTISSA_BITS - 1, k + 1);
  }

  lemma PowerStep(b: nat, k: nat)
    requires 1 < b
    ensures Power(b, k + 1) == b * Power(b, k) && Power(b, k) < Power(b, k + 1)
  {
  }

  lemma SmallIsDouble(n: nat)
    requires n <= 2
    ensures IsDouble(n as real)
  {
    hide Power;
    ScaleZero(2);
    PowerStep(2, MANTISSA_BITS - 1);
    PowerStep(2, MANTISSA_BITS - 2);
    assert Binary(n as real, n, 0);
  }

  // ----- rounding keeps order

  lemma {:induction false} FirstIsReached(v: real, k: int)
    ensures First(v, k) > k ==> Scale(2, MANTISSA_BITS + First(v, k) - 1) <= v
    decreases MAX_EXPONENT - k
  {
    if k <= MAX_EXPONENT && v >= Scale(2, MANTISSA_BITS + k) {
      FirstIsReached(v, k + 1);
    }
  }

  lemma {:induction false} FirstGrows(a: real, b: real, k: int)
    requires a <= b
    ensures First(a, k) <= First(b, k)
    decreases MAX_EXPONENT - k
  {
    if k <= MAX_EXPONENT && a >= Scale(2, MANTISSA_BITS + k) {
      FirstGrows(a, b, k + 1);
    }
  }

  lemma HalfEvenGrows(a: real, b: real)
    requires a <= b
    ensures HalfEven(a) <= HalfEven(b)
  {
  }

  lemma HalfEvenBounds(v: real, n: int)
    ensures v <= n as real ==> HalfEven(v) <= n
    ensures v >= n as real ==> HalfEven(v) >= n
  {
  }

  lemma Quotients(a: real, b: real, s: real)
    requires 0.0 < s && a <= b
    ensures a / s <= b / s
  {
    if a / s > b / s {
      Ordered(b / s, a / s, s);
      Dividing(a, s);
      Dividing(b, s);
    }
  }

  /** A number below a power of two rounds to at most that power, a number from it on to at least that power. */
  lemma RoundsAcross(v: real, k: int, n: nat)
    requires 0.0 <= v
    ensures v <= Scale(2, n + k) ==> RoundedAt(v, k) <= Scale(2, n + k)
    ensures v >= Scale(2, n + k) ==> RoundedAt(v, k) >= Scale(2, n + k)
  {
    hide Scale, Power, HalfEven;
    var s, p := Scale(2, k), Power(2, n);
    PowerScale(2, n, k);
    Dividing(p as real, s);
    HalfEvenBounds(v / s, p);
    if v <= Scale(2, n + k) {
      Quotients(v, Scale(2, n + k), s);
      AtLeast(HalfEven(v / s) as real, p as real, s);
    }
    if v >= Scale(2, n + k) {
      Quotients(Scale(2, n + k), v, s);
      AtLeast(p as real, HalfEven(v / s) as real, s);
    }
  }

  lemma RoundedGrows(a: real, b: real)
    requires 0.0 <= a <= b && First(b, MIN_EXPONENT) <= MAX_EXPONENT
    ensures First(a, MIN_EXPONENT) <= First(b, MIN_EXPONENT)
    ensures RoundedAt(a, First(a, MIN_EXPONENT)) <= RoundedAt(b, First(b, MIN_EXPONENT))
  {
    hide Scale, Power, HalfEven, First;
    var j, k := First(a, MIN_EXPONENT), First(b, MIN_EXPONENT);
    FirstGrows(a, b, MIN_EXPONENT);
    if j == k {
      Quotients(a, b, Scale(2, k));
      HalfEvenGrows(a / Scale(2, k), b / Scale(2, k));
      AtLeast(HalfEven(a / Scale(2, k)) as real, HalfEven(b / Scale(2, k)) as real, Scale(2, k));
    } else {
      FirstIsReached(b, MIN_EXPONENT);
      RoundsAcross(a, j, MANTISSA_BITS);
      RoundsAcross(b, k, MANTISSA_BITS - 1);
      ScaleGrows(MANTISSA_BITS + j, MANTISSA_BITS - 1 + k);
    }
  }

  /** Of two numbers the larger is not rounded to less. */
  lemma RoundGrows(a: real, b: real)
    requires 0.0 <= a <= b && Round(b).Some?
    ensures Round(a).Some? && Round(a).value <= Round(b).value
  {
    hide Scale, First, RoundedAt;
    RoundedGrows(a, b);
  }

  // ----- rounding goes to the nearest

  function Distance(x: real, y: real): (d: real)
    ensures 0.0 <= d
  {
    if x < y then y - x else x - y
  }

  /** No integer is nearer than the one rounded to; if another is as near, the one rounded to is even. */
  lemma HalfEvenIsNearest(u: real, n: int)
    ensures Distance(HalfEven(u) as real, u) <= Distance(n as real, u)
    ensures Distance(HalfEven(u) as real, u) == Distance(n as real, u) && n != HalfEven(u) ==> HalfEven(u) % 2 == 0
  {
    var f := u.Floor;
    assert n <= f || n >= f + 1;
  }

  lemma DistanceScales(x: real, y: real, s: real, xs: real, ys: real)
    requires 0.0 < s && xs == x * s && ys == y * s
    ensures Distance(xs, ys) == Distance(x, y) * s
  {
    assert (x - y) * s == xs - ys && (y - x) * s == ys - xs;
    if x < y {
      Ordered(x, y, s);
    } else {
      AtLeast(y, x, s);
    }
  }

  lemma SameScaled(a: real, b: real, s: real)
    requires 0.0 < s
    ensures a * s == b * s ==> a == b
  {
    if a < b {
      Ordered(a, b, s);
    } else if b < a {
      Ordered(b, a, s);
    }
  }

  lemma ScaledNearest(x: real, y: real, u: real, s: real, xs: real, ys: real, us: real)
    requires 0.0 < s && Distance(x, u) <= Distance(y, u) && xs == x * s && ys == y * s && us == u * s
    ensures Distance(xs, us) <= Distance(ys, us)
    ensures Distance(xs, us) == Distance(ys, us) ==> Distance(x, u) == Distance(y, u)
  {
    hide Distance;
    DistanceScales(x, u, s, xs, us);
    DistanceScales(y, u, s, ys, us);
    AtLeast(Distance(x, u), Distance(y, u), s);
    SameScaled(Distance(x, u), Distance(y, u), s);
  }

  /** The same for multiples of a power of two. */
  lemma MultipleIsNoNearer(v: real, k: int, n: int, x: real)
    requires 0.0 <= v && x == n as real * Scale(2, k)
    ensures Distance(RoundedAt(v, k), v) <= Distance(x, v)
    ensures Distance(RoundedAt(v, k), v) == Distance(x, v) && x != RoundedAt(v, k) ==>
      HalfEven(v / Scale(2, k)) % 2 == 0
  {
    hide Scale, HalfEven, Distance;
    var s := Scale(2, k);
    var u := v / s;
    var h := HalfEven(u);
    Dividing(v, s);
    HalfEvenIsNearest(u, n);
    ScaledNearest(h as real, n as real, u, s, RoundedAt(v, k), x, v);
    assert n == h ==> x == RoundedAt(v, k);
  }

  /** A double with a large enough exponent is a multiple of the smaller power of two. */
  lemma IsMultiple(y: real, m: nat, j: int, k: int) returns (n: nat)
    requires Binary(y, m, j) && k <= j
    ensures y == n as real * Scale(2, k)
  {
    hide Scale, Power;
    ScaleAdds(2, j - k, k);
    ScaleIsPower(2, j - k);
    n := m * Power(2, j - k);
    Product(m, Power(2, j - k), Scale(2, j), Scale(2, k));
  }

  /** Some even number of units makes up the double. */
  ghost predicate IsEven(x: real) {
    exists m: nat, k: int :: m % 2 == 0 && Binary(x, m, k)
  }

  /** No double is nearer to `v` than the one it is rounded to; if another is as near, that one is even. */
  lemma RoundIsNearest(v: real, y: real)
    requires 0.0 <= v && Round(v).Some? && IsDouble(y)
    ensures Distance(Round(v).value, v) <= Distance(y, v)
    ensures Distance(Round(v).value, v) == Distance(y, v) && y != Round(v).value ==> IsEven(Round(v).value)
  {
    hide Scale, Power, HalfEven, RoundedAt, First, Distance, IsEven;
    var k := First(v, MIN_EXPONENT);
    var m: nat, j: int :| Binary(y, m, j);
    if k <= j {
      var n := IsMultiple(y, m, j, k);
      MultipleIsNoNearer(v, k, n, y);
      assert Round(v).value == RoundedAt(v, k);
      if HalfEven(v / Scale(2, k)) % 2 == 0 {
        EvenRounded(v, k);
      }
    } else {
      BelowTheGrid(v, y, m, j, k);
    }
  }

  lemma EvenRounded(v: real, k: int)
    requires 0.0 <= v && k == First(v, MIN_EXPONENT) && Round(v).Some? && HalfEven(v / Scale(2, k)) % 2 == 0
    ensures IsEven(Round(v).value)
  {
    hide Scale, Power, First, HalfEven;
    var q := HalfEven(v / Scale(2, k));
    MantissaFits(v, k);
    if q < Power(2, MANTISSA_BITS) {
      assert Binary(Round(v).value, q, k);
    } else {
      NextExponent(k);
      PowerStep(2, MANTISSA_BITS - 2);
      assert Binary(Round(v).value, Power(2, MANTISSA_BITS - 1), k + 1);
    }
  }

  /** A double with a smaller exponent than `v` needs is farther away than the least power of two that does not. */
  lemma BelowTheGrid(v: real, y: real, m: nat, j: int, k: int)
    requires 0.0 <= v && k == First(v, MIN_EXPONENT) && Round(v).Some? && Binary(y, m, j) && j < k
    ensures Distance(Round(v).value, v) < Distance(y, v)
  {
    hide Scale, Power, HalfEven, First;
    FirstIsReached(v, MIN_EXPONENT);
    BinaryBound(y, m, j);
    ScaleGrows(MANTISSA_BITS + j, MANTISSA_BITS - 1 + k);
    PowerScale(2, MANTISSA_BITS - 1, k);
    var edge := Scale(2, MANTISSA_BITS - 1 + k);
    var n := Power(2, MANTISSA_BITS - 1);
    assert n as real * Scale(2, k) == edge;
    assert y < edge <= v;
    MultipleIsNoNearer(v, k, n, edge);
    assert Round(v).value == RoundedAt(v, k);
  }

  lemma PowerAdds(b: nat, j: nat, k: nat)
    requires 1 < b
    ensures Power(b, j + k) == Power(b, j) * Power(b, k)
  {
    hide Power;
    ScaleIsPower(b, j + k);
    ScaleIsPower(b, j);
    ScaleIsPower(b, k);
    ScaleAdds(b, j, k);
    assert (Power(b, j) * Power(b, k)) as real == Power(b, j) as real * Power(b, k) as real;
  }

  // ----- the format

  lemma MantissaPower()
    ensures Power(2, MANTISSA_BITS) == 0x20_0000_0000_0000
  {
    assert Power(2, 4) == 16;
    PowerAdds(2, 4, 4);
    PowerAdds(2, 8, 8);
    PowerAdds(2, 16, 16);
    PowerAdds(2, 32, 16);
    PowerAdds(2, 48, 4);
    PowerStep(2, 52);
  }

  lemma SmallIntegers(n: nat)
    requires n <= 0x20_0000_0000_0000
    ensures IsDouble(n as real)
  {
    hide Power;
    MantissaPower();
    if n < 0x20_0000_0000_0000 {
      ScaleZero(2);
      assert Binary(n as real, n, 0);
    } else {
      PowerStep(2, MANTISSA_BITS - 1);
      assert Scale(2, 1) == 2.0;
      assert Binary(n as real, Power(2, MANTISSA_BITS - 1), 1);
    }
  }

  /** A double whose units are larger than one is an even integer. */
  lemma LargeIsEven(x: real, m: nat, k: int) returns (n: nat)
    requires Binary(x, m, k) && 0 < k
    ensures x == (2 * n) as real
  {
    hide Power, Scale;
    ScaleIsPower(2, k);
    PowerStep(2, k - 1);
    n := m * Power(2, k - 1);
    assert m * (2 * Power(2, k - 1)) == 2 * n;
    assert (m * Power(2, k)) as real == m as real * Power(2, k) as real;
  }

  /** Section 3.4 of IEEE 754: 53 bits of precision, units from two to the -1074 to two to the 971. Every integer up to
      two to the 53 is a double, the next is not; no positive double is smaller than the one unit, none larger than the
      other's last multiple. */
  lemma DoubleFormat(n: nat, x: real)
    ensures MIN_EXPONENT == -1074 && MAX_EXPONENT == 971
    ensures n <= 0x20_0000_0000_0000 ==> IsDouble(n as real)
    ensures !IsDouble(0x20_0000_0000_0001 as real)
    ensures IsDouble(x) && 0.0 < x ==>
      Scale(2, MIN_EXPONENT) <= x <= 0x1F_FFFF_FFFF_FFFF as real * Scale(2, MAX_EXPONENT)
  {
    hide Power, Scale;
    if n <= 0x20_0000_0000_0000 {
      SmallIntegers(n);
    }
    NextInteger();
    if IsDouble(x) && 0.0 < x {
      DoubleRange(x);
    }
  }

  lemma NextInteger()
    ensures !IsDouble(0x20_0000_0000_0001 as real)
  {
    hide Power, Scale;
    MantissaPower();
    var x := 0x20_0000_0000_0001 as real;
    forall m: nat, k: int
      ensures !Binary(x, m, k)
    {
      if Binary(x, m, k) {
        if k > 0 {
          var n := LargeIsEven(x, m, k);
        } else {
          ScaleGrows(k, 0);
          ScaleZero(2);
          TimesAtMostOne(m as real, Scale(2, k));
        }
      }
    }
  }

  lemma TimesAtMostOne(a: real, s: real)
    requires 0.0 <= a && 0.0 < s <= 1.0
    ensures a * s <= a
  {
    assert a * (1.0 - s) >= 0.0;
  }

  lemma DoubleRange(x: real)
    requires IsDouble(x) && 0.0 < x
    ensures Scale(2, MIN_EXPONENT) <= x <= 0x1F_FFFF_FFFF_FFFF as real * Scale(2, MAX_EXPONENT)
  {
    hide Power, Scale;
    MantissaPower();
    var m: nat, k: int :| Binary(x, m, k);
    ScaleGrows(MIN_EXPONENT, k);
    ScaleGrows(k, MAX_EXPONENT);
    assert m > 0;
    Between(m as real, 0x1F_FFFF_FFFF_FFFF as real, Scale(2, MIN_EXPONENT), Scale(2, k), Scale(2, MAX_EXPONENT));
  }

  lemma Between(m: real, top: real, low: real, s: real, high: real)
    requires 1.0 <= m <= top && 0.0 < low <= s <= high
    ensures low <= m * s <= top * high
  {
    AtLeast(1.0, m, s);
    AtLeast(m, top, s);
    assert top * s <= top * high by { AtLeast(s, high, top); }
  }

  // ----- the shortest decimal

  datatype Decimal = Decimal(digits: nat, exponent: int)

  function ValueOf(d: Decimal): (v: real)
    ensures 0.0 <= v
  {
    NotNegative(d.digits, Scale(10, d.exponent));
    d.digits as real * Scale(10, d.exponent)
  }

  predicate RoundsTo(d: Decimal, x: real) {
    Round(ValueOf(d)) == Some(x)
  }

  /** `x` in units of ten to the `e`. */
  function Units(x: real, e: int): (u: real)
    requires 0.0 <= x
    ensures 0.0 <= u
  {
    NotNegativeQuotient(x, Scale(10, e));
    x / Scale(10, e)
  }

  lemma NotNegativeQuotient(x: real, s: real)
    requires 0.0 <= x && 0.0 < s
    ensures 0.0 <= x / s
  {
  }

  /** The decimals with exponent `e` next to `x`, below and above, are tried; the closer of those that round to `x`. */
  function DecimalAt(x: real, e: int): Option<nat>
    requires 0.0 <= x
  {
    var u := Units(x, e);
    var f: nat := u.Floor;
    var below, above := RoundsTo(Decimal(f, e), x), RoundsTo(Decimal(f + 1, e), x);
    var d := u - f as real;
    if below && (!above || d < 0.5 || (d == 0.5 && f % 2 == 0)) then Some(f)
    else if above then Some(f + 1) else None
  }

  /** The largest exponent, from `e` down, at which some decimal rounds to `x`: the fewest digits. */
  function Shortest(x: real, e: int): Decimal
    requires 0.0 <= x
    decreases e - MIN_EXPONENT
  {
    match DecimalAt(x, e)
    case Some(m) => Decimal(m, e)
    case None => if e <= MIN_EXPONENT then Decimal(0, 0) else Shortest(x, e - 1)
  }

  /** Every double is a decimal with at most 1074 digits after the point. */
  lemma ExactAtTheEnd(x: real)
    requires IsDouble(x)
    ensures 0.0 <= x && DecimalAt(x, MIN_EXPONENT).Some?
  {
    hide Scale, Power, Round;
    RoundFixes(x);
    var m: nat, k: int :| Binary(x, m, k);
    var s := Scale(10, MIN_EXPONENT);
    var n := m * Power(2, k - MIN_EXPONENT) * Power(5, -MIN_EXPONENT);
    WholeTimes(x, m, k, s, n);
    DividesExactly(x, n, s);
    assert ValueOf(Decimal(n, MIN_EXPONENT)) == x;
    assert RoundsTo(Decimal(n, MIN_EXPONENT), x);
  }

  lemma WholeTimes(x: real, m: nat, k: int, s: real, n: nat)
    requires MIN_EXPONENT <= k && x == m as real * Scale(2, k) && s == Scale(10, MIN_EXPONENT)
    requires n == m * Power(2, k - MIN_EXPONENT) * Power(5, -MIN_EXPONENT)
    ensures x == n as real * s
  {
    hide Scale, Power;
    var two, five, ten := Scale(2, -MIN_EXPONENT), Power(5, -MIN_EXPONENT) as real, Scale(10, -MIN_EXPONENT);
    ScaleAdds(10, -MIN_EXPONENT, MIN_EXPONENT);
    ScaleZero(10);
    assert ten * s == 1.0;
    TenIsTwoFives(-MIN_EXPONENT);
    ScaleIsPower(2, -MIN_EXPONENT);
    ScaleIsPower(10, -MIN_EXPONENT);
    assert ten == two * five;
    ScaleAdds(2, k, -MIN_EXPONENT);
    ScaleIsPower(2, k - MIN_EXPONENT);
    var p := Scale(2, k - MIN_EXPONENT);
    assert p == Scale(2, k) * two;
    assert n as real == m as real * p * five;
    Regroup(m as real, Scale(2, k), two, five, s);
  }

  lemma Regroup(m: real, a: real, two: real, five: real, s: real)
    requires two * five * s == 1.0
    ensures m * (a * two) * five * s == m * a
  {
    assert m * (a * two) * five * s == (m * a) * (two * five * s);
  }

  lemma {:induction false} TenIsTwoFives(k: nat)
    ensures Power(10, k) == Power(2, k) * Power(5, k)
  {
    hide Power;
    if k > 0 {
      TenIsTwoFives(k - 1);
      PowerStep(10, k - 1);
      PowerStep(2, k - 1);
      PowerStep(5, k - 1);
      TwoTimesFive(Power(2, k - 1), Power(5, k - 1));
    } else {
      PowerZero();
    }
  }

  lemma PowerZero()
    ensures Power(10, 0) == Power(2, 0) == Power(5, 0) == 1
  {
  }

  lemma TwoTimesFive(a: nat, b: nat)
    ensures 10 * (a * b) == (2 * a) * (5 * b)
  {
  }

  /** The shortest decimal rounds back: reading what `repr` shows gives the number. */
  lemma {:induction false} ShortestRoundsBack(x: real, e: int)
    requires IsDouble(x) && MIN_EXPONENT <= e
    ensures 0.0 <= x && Round(ValueOf(Shortest(x, e))) == Some(x)
    decreases e - MIN_EXPONENT
  {
    hide Round, Scale, Units;
    RoundFixes(x);
    if DecimalAt(x, e).None? {
      if e == MIN_EXPONENT {
        ExactAtTheEnd(x);
      } else {
        ShortestRoundsBack(x, e - 1);
      }
    }
  }

  lemma {:induction false} PassedOver(x: real, e: int, k: int)
    requires 0.0 <= x && MIN_EXPONENT <= e && Shortest(x, e).exponent < k <= e
    ensures DecimalAt(x, k).None?
    decreases e - MIN_EXPONENT
  {
    hide DecimalAt;
    if e > MIN_EXPONENT && k < e {
      PassedOver(x, e - 1, k);
    }
  }

  lemma UnitsAround(x: real, k: int)
    requires 0.0 <= x
    ensures ValueOf(Decimal(Units(x, k).Floor, k)) <= x <= ValueOf(Decimal(Units(x, k).Floor + 1, k))
  {
    hide Scale;
    var s := Scale(10, k);
    Dividing(x, s);
    AtLeast(Units(x, k).Floor as real, Units(x, k), s);
    AtLeast(Units(x, k), (Units(x, k).Floor + 1) as real, s);
  }

  lemma ValuesGrow(a: nat, b: nat, k: int)
    requires a <= b
    ensures ValueOf(Decimal(a, k)) <= ValueOf(Decimal(b, k))
  {
    hide Scale;
    AtLeast(a as real, b as real, Scale(10, k));
  }

  /** If any decimal of some exponent rounds to `x`, one next to `x` does. */
  lemma NeighboursSuffice(x: real, m: nat, k: int)
    requires IsDouble(x) && 0.0 <= x && RoundsTo(Decimal(m, k), x)
    ensures DecimalAt(x, k).Some?
  {
    hide Round, Units, ValueOf;
    RoundFixes(x);
    UnitsAround(x, k);
    var f: nat := Units(x, k).Floor;
    if m <= f {
      ValuesGrow(m, f, k);
      RoundGrows(ValueOf(Decimal(f, k)), x);
      RoundGrows(ValueOf(Decimal(m, k)), ValueOf(Decimal(f, k)));
    } else {
      ValuesGrow(f + 1, m, k);
      RoundGrows(ValueOf(Decimal(f + 1, k)), ValueOf(Decimal(m, k)));
      RoundGrows(x, ValueOf(Decimal(f + 1, k)));
    }
  }

  /** And it is the shortest: no decimal of a larger exponent rounds to the number. */
  lemma NothingShorter(x: real, e: int, d: Decimal)
    requires IsDouble(x) && 0.0 <= x && MIN_EXPONENT <= e && Shortest(x, e).exponent < d.exponent <= e
    ensures Round(ValueOf(d)) != Some(x)
  {
    hide Round, ValueOf, DecimalAt, Shortest;
    PassedOver(x, e, d.exponent);
    if Round(ValueOf(d)) == Some(x) {
      assert d == Decimal(d.digits, d.exponent);
      NeighboursSuffice(x, d.digits, d.exponent);
    }
  }

  lemma {:induction false} TensGrow(j: int, k: int)
    requires j <= k
    ensures Scale(10, j) <= Scale(10, k)
    decreases k - j
  {
    if j < k {
      TensGrow(j, k - 1);
      ScaleStep(10, k - 1);
    }
  }

  /** Nothing from two to the 1024 on rounds to a double. */
  lemma Overflows(v: real)
    requires Scale(2, OVERFLOW_EXPONENT) <= v
    ensures 0.0 <= v && Round(v).None?
  {
    hide Scale, RoundedAt, First;
    var k := First(v, MIN_EXPONENT);
    if k <= MAX_EXPONENT {
      ScaleGrows(MANTISSA_BITS + k, OVERFLOW_EXPONENT);
    }
  }

  lemma TenPowersAreLarger(k: nat)
    ensures Scale(2, k) <= Scale(10, k)
  {
    hide Scale, Power;
    ScaleIsPower(2, k);
    ScaleIsPower(10, k);
    TenIsTwoFives(k);
    NoSmaller(Power(2, k), Power(5, k));
  }

  lemma NoSmaller(a: nat, b: nat)
    requires 0 < b
    ensures a <= a * b
  {
  }

  /** Its last digit is not zero. */
  lemma ShortestEndsInDigit(x: real)
    requires IsDouble(x) && 0.0 < x
    ensures Shortest(x, OVERFLOW_EXPONENT).digits % 10 != 0
  {
    hide Shortest, Round, Scale;
    var d := Shortest(x, OVERFLOW_EXPONENT);
    ShortestHasDigits(x, OVERFLOW_EXPONENT);
    ShortestRoundsBack(x, OVERFLOW_EXPONENT);
    if d.digits % 10 == 0 {
      var e := Decimal(d.digits / 10, d.exponent + 1);
      ScaleStep(10, d.exponent);
      TenfoldValue(d.digits / 10, Scale(10, d.exponent));
      assert ValueOf(e) == ValueOf(d);
      ExponentBound(x, OVERFLOW_EXPONENT);
      if d.exponent == OVERFLOW_EXPONENT {
        TenPowersAreLarger(OVERFLOW_EXPONENT);
        AtLeast(1.0, d.digits as real, Scale(10, d.exponent));
        Overflows(ValueOf(d));
      } else {
        NothingShorter(x, OVERFLOW_EXPONENT, e);
      }
    }
  }

  lemma TenfoldValue(q: nat, s: real)
    ensures q as real * (10.0 * s) == (10 * q) as real * s
  {
  }

  lemma {:induction false} ExponentBound(x: real, e: int)
    requires 0.0 <= x && MIN_EXPONENT <= e && 0 < Shortest(x, e).digits
    ensures Shortest(x, e).exponent <= e
    decreases e - MIN_EXPONENT
  {
    hide DecimalAt;
    if e > MIN_EXPONENT && DecimalAt(x, e).None? {
      ExponentBound(x, e - 1);
    }
  }

  /** It has a digit, unless the number is zero. */
  lemma ShortestHasDigits(x: real, e: int)
    requires IsDouble(x) && 0.0 < x && MIN_EXPONENT <= e
    ensures 0 < Shortest(x, e).digits
  {
    hide Scale, Shortest;
    ShortestRoundsBack(x, e);
    if Shortest(x, e).digits == 0 {
      assert ValueOf(Shortest(x, e)) == 0.0;
      ZeroIsDouble();
      RoundFixes(0.0);
    }
  }

  lemma ZeroIsDouble()
    ensures IsDouble(0.0)
  {
    assert Binary(0.0, 0, 0);
  }
}
