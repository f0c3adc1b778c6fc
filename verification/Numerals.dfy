/** Numbers as JSON text (section 6 of RFC 8259): scanning a numeral, writing integers and floats, and reading back what
    was written. A float is the text Python's `repr` gives it. */
module Numerals {
  import opened Wrappers
  import opened Binary64

  predicate IsDigit(c: char) {
    '0' <= c <= '9'
  }

  predicate AllDigits(s: string) {
    forall i :: 0 <= i < |s| ==> IsDigit(s[i])
  }

  function Digit(d: int): (c: char)
    requires 0 <= d < 10
    ensures IsDigit(c)
  {
    (('0' as int) + d) as char
  }

  function Digits(n: nat): (s: string)
    ensures s != [] && AllDigits(s)
    ensures s[0] == '0' <==> n == 0
  {
    if n < 10 then [Digit(n)] else Digits(n / 10) + [Digit(n % 10)]
  }

  function NatOf(s: string): nat
    requires AllDigits(s)
  {
    if s == [] then 0 else 10 * NatOf(s[..|s| - 1]) + (s[|s| - 1] as int - '0' as int)
  }

  lemma NatOfSnoc(s: string, c: char)
    requires AllDigits(s) && IsDigit(c)
    ensures AllDigits(s + [c]) && NatOf(s + [c]) == 10 * NatOf(s) + (c as int - '0' as int)
  {
    assert (s + [c])[..|s|] == s;
  }

  lemma {:induction false} NatOfDigits(n: nat)
    ensures NatOf(Digits(n)) == n
  {
    if n >= 10 {
      NatOfDigits(n / 10);
      NatOfSnoc(Digits(n / 10), Digit(n % 10));
    } else {
      NatOfSnoc([], Digit(n));
      assert [] + [Digit(n)] == [Digit(n)];
    }
  }

  lemma {:induction false} NatOfConcat(a: string, b: string)
    requires AllDigits(a) && AllDigits(b)
    ensures AllDigits(a + b) && NatOf(a + b) == NatOf(a) * Power(10, |b|) + NatOf(b)
  {
    hide Power, NatOf;
    if b == [] {
      assert a + b == a;
      NatOfNothing();
    } else {
      var init, c := b[..|b| - 1], b[|b| - 1];
      NatOfConcat(a, init);
      assert a + b == (a + init) + [c] && b == init + [c];
      NatOfSnoc(a + init, c);
      NatOfSnoc(init, c);
      PowerStep(10, |init|);
      TenTimes(NatOf(a), Power(10, |init|), NatOf(init));
    }
  }

  lemma NatOfNothing()
    ensures NatOf([]) == 0 && Power(10, 0) == 1
  {
  }

  lemma TenTimes(a: nat, p: nat, b: nat)
    ensures 10 * (a * p + b) == a * (10 * p) + 10 * b
  {
  }

  function Zeros(n: nat): (s: string)
    ensures |s| == n && AllDigits(s)
  {
    seq(n, i => '0')
  }

  lemma {:induction false} ZerosAreNothing(n: nat)
    ensures NatOf(Zeros(n)) == 0
  {
    if n > 0 {
      ZerosAreNothing(n - 1);
      assert Zeros(n) == Zeros(n - 1) + ['0'];
      NatOfSnoc(Zeros(n - 1), '0');
    }
  }

  // ----- numerals

  datatype Exponent = Exponent(negative: bool, digits: string)

  datatype Numeral = Numeral(negative: bool, whole: string, fraction: Option<string>, exponent: Option<Exponent>)

  /** What the grammar of section 6 of RFC 8259 allows. */
  predicate WellFormed(n: Numeral) {
    && n.whole != [] && AllDigits(n.whole) && (n.whole[0] == '0' ==> |n.whole| == 1)
    && (n.fraction.Some? ==> n.fraction.value != [] && AllDigits(n.fraction.value))
    && (n.exponent.Some? ==> n.exponent.value.digits != [] && AllDigits(n.exponent.value.digits))
  }

  predicate IsWhole(n: Numeral) {
    n.fraction.None? && n.exponent.None?
  }

  function ShowExponent(e: Option<Exponent>, k: string): string {
    match e
    case None => k
    case Some(x) => ['e', if x.negative then '-' else '+'] + x.digits + k
  }

  function ShowFraction(f: Option<string>, k: string): string {
    match f
    case None => k
    case Some(ds) => ['.'] + ds + k
  }

  /** The text of a numeral in front of `k`. */
  function Show(n: Numeral, k: string): string {
    (if n.negative then ['-'] else []) + n.whole + ShowFraction(n.fraction, ShowExponent(n.exponent, k))
  }

  /** How many digits `s` starts with. */
  function Span(s: string): (n: nat)
    ensures n <= |s| && AllDigits(s[..n]) && (n < |s| ==> !IsDigit(s[n]))
  {
    if s == [] || !IsDigit(s[0]) then 0 else
      var n := Span(s[1..]) + 1;
      assert s[..n] == [s[0]] + s[1..][..n - 1];
      n
  }

  lemma {:induction false} SpanIs(a: string, b: string)
    requires AllDigits(a) && (b == [] || !IsDigit(b[0]))
    ensures Span(a + b) == |a|
  {
    if a != [] {
      assert (a + b)[1..] == a[1..] + b;
      SpanIs(a[1..], b);
    } else {
      assert a + b == b;
    }
  }

  datatype Scanned<+T> = Scanned(value: T, rest: string)

  function ScanFraction(s: string): (r: Scanned<Option<string>>)
    ensures |r.rest| <= |s|
    ensures r.value.Some? ==> r.value.value != [] && AllDigits(r.value.value)
  {
    if s == [] || s[0] != '.' then Scanned(None, s) else
      var n := Span(s[1..]);
      if n == 0 then Scanned(None, s) else Scanned(Some(s[1..][..n]), s[1..][n..])
  }

  function ScanExponent(s: string): (r: Scanned<Option<Exponent>>)
    ensures |r.rest| <= |s|
    ensures r.value.Some? ==> r.value.value.digits != [] && AllDigits(r.value.value.digits)
  {
    if |s| < 2 || (s[0] != 'e' && s[0] != 'E') then Scanned(None, s) else
      var signed := s[1] == '+' || s[1] == '-';
      var t := if signed then s[2..] else s[1..];
      var n := Span(t);
      if n == 0 then Scanned(None, s) else Scanned(Some(Exponent(s[1] == '-', t[..n])), t[n..])
  }

  /** The longest numeral `s` starts with. */
  function Scan(s: string): (r: Option<Scanned<Numeral>>)
    ensures r.Some? ==> |r.value.rest| < |s| && WellFormed(r.value.value)
  {
    var negative := s != [] && s[0] == '-';
    var t := if negative then s[1..] else s;
    var d := Span(t);
    if d == 0 then None else
      var n := if t[0] == '0' then 1 else d;
      assert t[..n] == t[..d][..n];
      var f := ScanFraction(t[n..]);
      var e := ScanExponent(f.rest);
      Some(Scanned(Numeral(negative, t[..n], f.value, e.value), e.rest))
  }

  /** Text that cannot continue a numeral. */
  predicate Delimits(k: string) {
    k == [] || !(IsDigit(k[0]) || k[0] == '.' || k[0] == 'e' || k[0] == 'E')
  }

  lemma ExponentReads(e: Option<Exponent>, k: string)
    requires Delimits(k) && (e.Some? ==> e.value.digits != [] && AllDigits(e.value.digits))
    ensures ScanExponent(ShowExponent(e, k)) == Scanned(e, k)
  {
    if e.Some? {
      var ds := e.value.digits;
      var s := ShowExponent(e, k);
      assert s[2..] == ds + k;
      SpanIs(ds, k);
      assert (ds + k)[..|ds|] == ds && (ds + k)[|ds|..] == k;
    }
  }

  lemma FractionReads(f: Option<string>, k: string)
    requires k == [] || (!IsDigit(k[0]) && k[0] != '.')
    requires f.Some? ==> f.value != [] && AllDigits(f.value)
    ensures ScanFraction(ShowFraction(f, k)) == Scanned(f, k)
  {
    if f.Some? {
      var ds := f.value;
      var s := ShowFraction(f, k);
      assert s[1..] == ds + k;
      SpanIs(ds, k);
      assert (ds + k)[..|ds|] == ds && (ds + k)[|ds|..] == k;
    }
  }

  /** What follows the whole digits starts with none, and what follows the fraction with no point either. */
  lemma PartsDelimit(n: Numeral, k: string)
    requires Delimits(k)
    ensures var tail := ShowExponent(n.exponent, k);
            && (tail == [] || (!IsDigit(tail[0]) && tail[0] != '.'))
            && var rest := ShowFraction(n.fraction, tail); (rest == [] || !IsDigit(rest[0]))
  {
  }

  /** A numeral's text is read back as the numeral, and what followed it is left. */
  lemma NumeralReads(n: Numeral, k: string)
    requires WellFormed(n) && Delimits(k)
    ensures Scan(Show(n, k)) == Some(Scanned(n, k))
  {
    hide Span, ShowExponent, ShowFraction, ScanExponent, ScanFraction;
    var tail := ShowExponent(n.exponent, k);
    var rest := ShowFraction(n.fraction, tail);
    PartsDelimit(n, k);
    ExponentReads(n.exponent, k);
    FractionReads(n.fraction, tail);
    var s := Show(n, k);
    var t := n.whole + rest;
    assert n.negative ==> s[1..] == t;
    assert !n.negative ==> s == t;
    SpanIs(n.whole, rest);
    assert t[..|n.whole|] == n.whole && t[|n.whole|..] == rest;
  }

  // ----- values

  function FractionOf(n: Numeral): string {
    if n.fraction.Some? then n.fraction.value else []
  }

  /** The decimal a numeral writes, without its sign. */
  function DecimalOf(n: Numeral): Decimal
    requires WellFormed(n)
  {
    var f := FractionOf(n);
    var e := if n.exponent.None? then 0 else
      var x := n.exponent.value; if x.negative then 0 - NatOf(x.digits) else NatOf(x.digits);
    Decimal(NatOf(n.whole + f), e - |f|)
  }

  function Whole(n: int): Numeral {
    Numeral(n < 0, Digits(if n < 0 then -n else n), None, None)
  }

  function WholeOf(n: Numeral): int
    requires WellFormed(n)
  {
    if n.negative then 0 - NatOf(n.whole) else NatOf(n.whole)
  }

  lemma WholeReads(n: int)
    ensures WellFormed(Whole(n)) && IsWhole(Whole(n)) && WholeOf(Whole(n)) == n
  {
    var m: nat := if n < 0 then -n else n;
    NatOfDigits(m);
    LeadingDigit(m);
  }

  lemma LeadingDigit(n: nat)
    ensures Digits(n)[0] == '0' ==> |Digits(n)| == 1
  {
  }

  // Python's format of the digits `s` with the point after the first `point` of them.

  function Small(s: string, point: int): Numeral
    requires point <= 0
  {
    Numeral(false, "0", Some(Zeros(-point) + s), None)
  }

  function Large(s: string, zeros: nat): Numeral {
    Numeral(false, s + Zeros(zeros), Some("0"), None)
  }

  function Middle(s: string, point: nat): Numeral
    requires point < |s|
  {
    Numeral(false, s[..point], Some(s[point..]), None)
  }

  function Plainly(d: Decimal): Numeral
    requires 0 < d.digits
  {
    var s := Digits(d.digits);
    var point := |s| + d.exponent;
    if point <= 0 then Small(s, point) else if d.exponent >= 0 then Large(s, d.exponent) else Middle(s, point)
  }

  function Scientifically(d: Decimal): Numeral
    requires 0 < d.digits
  {
    var s := Digits(d.digits);
    var e := |s| + d.exponent - 1;
    var digits := Padded(if e < 0 then -e else e);
    Numeral(false, s[..1], if |s| == 1 then None else Some(s[1..]), Some(Exponent(e < 0, digits)))
  }

  /** An exponent has at least two digits. */
  function Padded(n: nat): string {
    var m := Digits(n);
    if |m| == 1 then ['0'] + m else m
  }

  /** Plain between 1e-4 and 1e16, else with an exponent. */
  function Formatted(d: Decimal): Numeral
    requires 0 < d.digits
  {
    if -4 < |Digits(d.digits)| + d.exponent <= 16 then Plainly(d) else Scientifically(d)
  }

  /** The numeral is a float's and writes the decimal `d`. */
  ghost predicate Writes(n: Numeral, d: Decimal) {
    WellFormed(n) && !IsWhole(n) && ValueOf(DecimalOf(n)) == ValueOf(d)
  }

  lemma SmallWrites(d: Decimal, s: string)
    requires s == Digits(d.digits) && |s| + d.exponent <= 0
    ensures Writes(Small(s, |s| + d.exponent), d)
  {
    hide Scale, Power, NatOf, Zeros, ValueOf;
    var point := |s| + d.exponent;
    NatOfDigits(d.digits);
    ZerosAreNothing(1 - point);
    MoreZeros(-point);
    assert "0" + (Zeros(-point) + s) == Zeros(1 - point) + s;
    NatOfConcat(Zeros(1 - point), s);
    assert DecimalOf(Small(s, point)) == d;
  }

  lemma MoreZeros(n: nat)
    ensures "0" + Zeros(n) == Zeros(n + 1) == Zeros(n) + "0"
  {
  }

  lemma LargeWrites(d: Decimal, s: string)
    requires s == Digits(d.digits) && 0 <= d.exponent && 0 < d.digits
    ensures Writes(Large(s, d.exponent), d)
  {
    hide Scale, Power, NatOf, Zeros, ValueOf;
    var zeros := Zeros(d.exponent + 1);
    NatOfDigits(d.digits);
    MoreZeros(d.exponent);
    assert (s + Zeros(d.exponent)) + "0" == s + zeros;
    ZerosAreNothing(d.exponent + 1);
    NatOfConcat(s, zeros);
    assert DecimalOf(Large(s, d.exponent)) == Decimal(d.digits * Power(10, d.exponent + 1), -1);
    SameValue(d.digits, d.exponent + 1, -1, d.exponent);
  }

  lemma MiddleWrites(d: Decimal, s: string)
    requires s == Digits(d.digits) && d.exponent < 0 < |s| + d.exponent && 0 < d.digits
    ensures Writes(Middle(s, |s| + d.exponent), d)
  {
    hide Scale, Power, NatOf, Zeros, ValueOf;
    var point := |s| + d.exponent;
    NatOfDigits(d.digits);
    assert s[..point] + s[point..] == s;
    assert DecimalOf(Middle(s, point)) == d;
  }

  lemma SameValue(m: nat, k: nat, e: int, total: int)
    requires total == k + e
    ensures ValueOf(Decimal(m * Power(10, k), e)) == ValueOf(Decimal(m, total))
  {
    hide Scale, Power;
    PowerScale(10, k, e);
    assert (m * Power(10, k)) as real == m as real * Power(10, k) as real;
    Associate(m as real, Power(10, k) as real, Scale(10, e));
  }

  lemma PaddedExponent(m: string)
    requires m != [] && AllDigits(m)
    ensures AllDigits(['0'] + m) && NatOf(['0'] + m) == NatOf(m)
  {
    NatOfConcat(['0'], m);
    NatOfSnoc([], '0');
    assert [] + ['0'] == ['0'];
  }

  lemma PaddedReads(n: nat)
    ensures Padded(n) != [] && AllDigits(Padded(n)) && NatOf(Padded(n)) == n
  {
    hide NatOf;
    NatOfDigits(n);
    PaddedExponent(Digits(n));
  }

  lemma ScientificallyWrites(d: Decimal)
    requires 0 < d.digits
    ensures Writes(Scientifically(d), d)
  {
    hide Scale, Power, NatOf, Padded, ValueOf;
    var s := Digits(d.digits);
    var e := |s| + d.exponent - 1;
    NatOfDigits(d.digits);
    PaddedReads(if e < 0 then -e else e);
    assert s[..1] + s[1..] == s;
    assert |s| == 1 ==> s[..1] == s && s + [] == s;
    assert DecimalOf(Scientifically(d)) == d;
  }

  // ----- floats

  /** The numeral Python shows for a double, with its sign. */
  function Shown(negative: bool, x: real): Numeral
    requires 0.0 <= x
  {
    var d := Shortest(x, OVERFLOW_EXPONENT);
    (if x == 0.0 || d.digits == 0 then Numeral(false, "0", Some("0"), None) else Formatted(d)).(negative := negative)
  }

  function Repr(negative: bool, x: real): string
    requires 0.0 <= x
  {
    Show(Shown(negative, x), [])
  }

  lemma ShownReads(negative: bool, x: real)
    requires IsDouble(x) && 0.0 <= x
    ensures var n := Shown(negative, x);
            WellFormed(n) && !IsWhole(n) && n.negative == negative && Round(ValueOf(DecimalOf(n))) == Some(x)
  {
    hide Round, Scale, Shortest, Formatted;
    if x == 0.0 {
      NatOfSnoc([], '0');
      NatOfSnoc("0", '0');
      assert [] + ['0'] == "0" && "0" + ['0'] == "0" + "0";
      RoundFixes(x);
    } else {
      var d := Shortest(x, OVERFLOW_EXPONENT);
      ShortestHasDigits(x, OVERFLOW_EXPONENT);
      ShortestRoundsBack(x, OVERFLOW_EXPONENT);
      FormattedWrites(d);
      SignIsApart(Formatted(d), negative);
    }
  }

  lemma FormattedWrites(d: Decimal)
    requires 0 < d.digits
    ensures Writes(Formatted(d), d)
  {
    hide Writes, Small, Large, Middle, Scientifically;
    var s := Digits(d.digits);
    if |s| + d.exponent <= 0 {
      SmallWrites(d, s);
    } else if d.exponent >= 0 {
      LargeWrites(d, s);
    } else {
      MiddleWrites(d, s);
    }
    ScientificallyWrites(d);
  }

  lemma SignIsApart(n: Numeral, negative: bool)
    requires WellFormed(n)
    ensures WellFormed(n.(negative := negative)) && DecimalOf(n.(negative := negative)) == DecimalOf(n)
  {
  }

  lemma {:induction false} DigitsBound(n: nat)
    requires 0 < n
    ensures Power(10, |Digits(n)| - 1) <= n < Power(10, |Digits(n)|)
  {
    hide Power;
    if n < 10 {
      NatOfNothing();
      PowerStep(10, 0);
    } else {
      DigitsBound(n / 10);
      PowerStep(10, |Digits(n / 10)| - 1);
      PowerStep(10, |Digits(n / 10)|);
    }
  }

  lemma Squeeze(low: real, m: real, high: real, s: real, a: real, b: real)
    requires low <= m < high && 0.0 < s && a == low * s && b == high * s
    ensures a <= m * s < b
  {
    AtLeast(low, m, s);
    Ordered(m, high, s);
  }

  /** A decimal lies between the powers of ten that its digits and its exponent name. */
  lemma DecimalBounds(d: Decimal)
    requires 0 < d.digits
    ensures var p := |Digits(d.digits)| + d.exponent; Scale(10, p - 1) <= ValueOf(d) < Scale(10, p)
  {
    hide Power, Scale, Digits;
    var n := |Digits(d.digits)|;
    DigitsBound(d.digits);
    PowerScale(10, n, d.exponent);
    PowerScale(10, n - 1, d.exponent);
    var a, b := Scale(10, n - 1 + d.exponent), Scale(10, n + d.exponent);
    Squeeze(Power(10, n - 1) as real, d.digits as real, Power(10, n) as real, Scale(10, d.exponent), a, b);
  }

  lemma PlainRange(d: Decimal)
    requires 0 < d.digits
    ensures -4 < |Digits(d.digits)| + d.exponent <= 16 <==> Scale(10, -4) <= ValueOf(d) < Scale(10, 16)
  {
    hide Scale, ValueOf, Digits;
    var p := |Digits(d.digits)| + d.exponent;
    DecimalBounds(d);
    if p <= -4 {
      TensGrow(p, -4);
    } else {
      TensGrow(-4, p - 1);
    }
    if p <= 16 {
      TensGrow(p, 16);
    } else {
      TensGrow(16, p - 1);
    }
  }

  predicate EndsInDigit(s: string) {
    s != [] && s[|s| - 1] != '0'
  }

  lemma LastDigit(n: nat)
    requires n % 10 != 0
    ensures EndsInDigit(Digits(n)) && Digits(n)[0] != '0'
  {
  }

  lemma FormattedShape(d: Decimal)
    requires d.digits % 10 != 0
    ensures var n := Formatted(d);
            && (n.exponent.None? <==> -4 < |Digits(d.digits)| + d.exponent <= 16)
            && (n.exponent.None? ==>
                  n.fraction.Some? && (n.fraction.value == "0" || EndsInDigit(n.fraction.value)))
            && (n.exponent.Some? ==>
                  && |n.whole| == 1 && n.whole[0] != '0'
                  && (n.fraction.Some? ==> EndsInDigit(n.fraction.value))
                  && |n.exponent.value.digits| >= 2
                  && (|n.exponent.value.digits| > 2 ==> n.exponent.value.digits[0] != '0'))
  {
    hide Zeros;
    LastDigit(d.digits);
    var s := Digits(d.digits);
    var e := |s| + d.exponent - 1;
    TwoDigits(if e < 0 then -e else e);
  }

  lemma TwoDigits(n: nat)
    ensures |Padded(n)| >= 2 && (|Padded(n)| > 2 ==> Padded(n)[0] != '0')
  {
    LeadingDigit(n);
  }

  /** The text of a positive double, as Python lays it out: the shortest decimal that rounds to it, without an exponent
      from 1e-4 up to 1e16, otherwise with one digit, not zero, before the point and a signed exponent of at least two
      digits; never an idle zero at the end, except the one after the point of a whole number. */
  lemma ReprShape(negative: bool, x: real)
    requires IsDouble(x) && 0.0 < x
    ensures var n := Shown(negative, x);
            && WellFormed(n)
            && (n.exponent.None? <==> Scale(10, -4) <= ValueOf(DecimalOf(n)) < Scale(10, 16))
            && (n.exponent.None? ==>
                  n.fraction.Some? && (n.fraction.value == "0" || EndsInDigit(n.fraction.value)))
            && (n.exponent.Some? ==>
                  && |n.whole| == 1 && n.whole[0] != '0'
                  && (n.fraction.Some? ==> EndsInDigit(n.fraction.value))
                  && |n.exponent.value.digits| >= 2
                  && (|n.exponent.value.digits| > 2 ==> n.exponent.value.digits[0] != '0'))
            && Repr(negative, x) ==
               (if negative then "-" else "") + n.whole + (if n.fraction.Some? then "." + n.fraction.value else "")
               + if n.exponent.Some?
                 then (if n.exponent.value.negative then "e-" else "e+") + n.exponent.value.digits else ""
  {
    hide Scale, Shortest, Formatted, ValueOf, Digits, Round, EndsInDigit;
    var d := Shortest(x, OVERFLOW_EXPONENT);
    ShortestEndsInDigit(x);
    FormattedShape(d);
    FormattedWrites(d);
    PlainRange(d);
    SignIsApart(Formatted(d), negative);
    var n := Shown(negative, x);
    assert n == Formatted(d).(negative := negative);
    assert ValueOf(DecimalOf(n)) == ValueOf(d);
    ReprText(n);
  }

  lemma ReprText(n: Numeral)
    ensures Show(n, []) ==
      (if n.negative then "-" else "") + n.whole + (if n.fraction.Some? then "." + n.fraction.value else "")
      + if n.exponent.Some?
        then (if n.exponent.value.negative then "e-" else "e+") + n.exponent.value.digits else ""
  {
  }

  /** What Python makes of a numeral with a fraction or an exponent: the nearest double, unless it overflows. */
  function Nearest(n: Numeral): (x: Option<real>)
    requires WellFormed(n)
    ensures x.Some? ==> 0.0 <= x.value && IsDouble(x.value)
  {
    var v := ValueOf(DecimalOf(n));
    var x := Round(v);
    if x.Some? then
      RoundIsDouble(v);
      RoundFixes(x.value);
      x
    else None
  }

  /** The text is what Python shows for some finite float. */
  predicate IsRepr(t: string) {
    var s := Scan(t);
    && s.Some? && s.value.rest == [] && !IsWhole(s.value.value)
    && Nearest(s.value.value).Some?
    && t == Repr(s.value.value.negative, Nearest(s.value.value).value)
  }

  /** `float(repr(x)) == x`: the text of a double is the text of a float, and reads as that double. */
  lemma ReprReads(negative: bool, x: real)
    requires IsDouble(x) && 0.0 <= x
    ensures Scan(Repr(negative, x)) == Some(Scanned(Shown(negative, x), []))
    ensures IsRepr(Repr(negative, x)) && Nearest(Shown(negative, x)) == Some(x)
  {
    hide Shown, DecimalOf;
    ShownReads(negative, x);
    NumeralReads(Shown(negative, x), []);
  }
}
