/** Calendar months as the monthly resample sees them: every month is a
    bin, numbered consecutively so that the bins between two dates can be
    enumerated. */
module Months {
  import opened Records

  /** The number of the month a date falls in: January of year 0 is 0, and
      consecutive months have consecutive numbers. */
  function MonthIndex(d: Date): int {
    d.year * 12 + (d.month - 1)
  }

  /** The year of month number `m` (floor division, since 12 > 0). */
  function YearOf(m: int): int {
    m / 12
  }

  /** The month of the year, 1 to 12, of month number `m`. */
  function MonthOf(m: int): (month: int)
    ensures 1 <= month <= 12
  {
    m % 12 + 1
  }

  /** Numbering a valid date's month and reading the number back gives the
      date's own year and month. */
  lemma MonthIndexRoundTrip(d: Date)
    requires ValidDate(d)
    ensures YearOf(MonthIndex(d)) == d.year
    ensures MonthOf(MonthIndex(d)) == d.month
  {
  }

  /** Reading a month number as (year, month) and numbering it again gives
      the same number. */
  lemma MonthOfRoundTrip(m: int)
    ensures MonthIndex(Date(YearOf(m), MonthOf(m), 1)) == m
  {
  }

  /** The label `resample('M')` gives a bin: the last day of its month. */
  function MonthEnd(m: int): (d: Date)
    ensures ValidDate(d)
    ensures MonthIndex(d) == m
    ensures d.day == DaysInMonth(d.year, d.month)
  {
    Date(YearOf(m), MonthOf(m), DaysInMonth(YearOf(m), MonthOf(m)))
  }

  /** The bin of a valid date's month ends in the same month of the same
      year, on a day not before the date. */
  lemma MonthEndOfDate(d: Date)
    requires ValidDate(d)
    ensures YearOf(MonthIndex(d)) == d.year && MonthOf(MonthIndex(d)) == d.month
    ensures MonthEnd(MonthIndex(d)).year == d.year
    ensures MonthEnd(MonthIndex(d)).month == d.month
    ensures d.day <= MonthEnd(MonthIndex(d)).day
  {
    MonthIndexRoundTrip(d);
  }

  /** The month numbers lo, lo + 1, ..., hi. */
  function Range(lo: int, hi: int): (ms: seq<int>)
    ensures |ms| == if lo <= hi then hi - lo + 1 else 0
    ensures forall i :: 0 <= i < |ms| ==> ms[i] == lo + i
    ensures forall i, j :: 0 <= i < j < |ms| ==> ms[i] < ms[j]
    ensures forall m :: m in ms <==> lo <= m <= hi
  {
    var ms := seq(if lo <= hi then hi - lo + 1 else 0, i => lo + i);
    forall m | lo <= m <= hi ensures m in ms {
      assert ms[m - lo] == m;
    }
    ms
  }
}
