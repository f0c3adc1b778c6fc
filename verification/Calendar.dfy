/** The proleptic Gregorian calendar of the years 1 to 9999, which bounds what a datetime can be. */
module Calendar {
  import opened Domain

  predicate IsLeap(year: nat) {
    year % 4 == 0 && (year % 100 != 0 || year % 400 == 0)
  }

  /** The days of the years 1 to `years`. */
  function DaysOf(years: nat): nat {
    if years == 0 then 0 else DaysOf(years - 1) + if IsLeap(years) then 366 else 365
  }

  const LAST_YEAR := 9999
  const MICROSECONDS_PER_DAY := 24 * 60 * 60 * 1_000_000

  lemma FourYears(n: nat)
    requires 0 < n
    ensures n / 4 == (n - 1) / 4 + if n % 4 == 0 then 1 else 0
  {
  }

  lemma Century(n: nat)
    requires 0 < n
    ensures n / 100 == (n - 1) / 100 + if n % 100 == 0 then 1 else 0
  {
  }

  lemma FourCenturies(n: nat)
    requires 0 < n
    ensures n / 400 == (n - 1) / 400 + if n % 400 == 0 then 1 else 0
  {
  }

  lemma Hundreds(n: nat)
    ensures n % 100 == 0 ==> n % 4 == 0
  {
    var q := n / 100;
    assert n == 100 * q + n % 100;
    FourTimes(25 * q);
  }

  lemma FourTimes(m: nat)
    ensures (4 * m) % 4 == 0
  {
  }

  lemma FourHundreds(n: nat)
    ensures n % 400 == 0 ==> n % 100 == 0
  {
    var q := n / 400;
    assert n == 400 * q + n % 400;
    HundredTimes(4 * q);
  }

  lemma HundredTimes(m: nat)
    ensures (100 * m) % 100 == 0
  {
  }

  lemma LeapsCounted(n: nat)
    requires 0 < n
    ensures (if IsLeap(n) then 1 else 0) == (n / 4 - n / 100 + n / 400) - ((n - 1) / 4 - (n - 1) / 100 + (n - 1) / 400)
  {
    FourYears(n);
    Century(n);
    FourCenturies(n);
    Hundreds(n);
    FourHundreds(n);
  }

  lemma {:induction false} DaysCounted(years: nat)
    ensures DaysOf(years) == 365 * years + years / 4 - years / 100 + years / 400
  {
    if years > 0 {
      DaysCounted(years - 1);
      hide IsLeap;
      LeapsCounted(years);
    }
  }

  /** The last time is the last microsecond of the year 9999, counted from the start of the year 1. */
  lemma LastTime()
    ensures MAX_TIME + 1 == DaysOf(LAST_YEAR) * MICROSECONDS_PER_DAY
  {
    hide DaysOf;
    DaysCounted(LAST_YEAR);
  }
}
