/** Days and months of the proleptic Gregorian calendar, counted from 1970-01-01. */
module Gregorian {
  import opened Basics

  /** 1 January of year `y`. */
  function YearStart(y: int): int { 365 * y + (y + 3) / 4 - (y + 99) / 100 + (y + 399) / 400 - 719528 }

  predicate IsLeap(y: int) { y % 4 == 0 && (y % 100 != 0 || y % 400 == 0) }

  /** Days of the year before month `m` of a common year, January being 0. */
  function DaysBefore(m: int): int
    requires 0 <= m < 12
  {
    if m == 0 then 0 else if m == 1 then 31 else if m == 2 then 59 else if m == 3 then 90
    else if m == 4 then 120 else if m == 5 then 151 else if m == 6 then 181 else if m == 7 then 212
    else if m == 8 then 243 else if m == 9 then 273 else if m == 10 then 304 else 334
  }

  /** First day of month `k`, counting months from January of the year 0. */
  function MonthStart(k: int): int {
    YearStart(k / 12) + DaysBefore(k % 12) + if k % 12 >= 2 && IsLeap(k / 12) then 1 else 0
  }

  /** Rounding up steps at the multiples of `m`. */
  lemma {:induction false} RoundsUp(y: int, m: int)
    requires m > 1
    ensures (y + m) / m - (y + m - 1) / m == if y % m == 0 then 1 else 0
  {
    var q, r := y / m, y % m;
    assert y == q * m + r;
    assert (q + 1) * m == q * m + m;
    QuotientIs(y + m, m, q + 1, r);
    if r == 0 { QuotientIs(y + m - 1, m, q, m - 1); } else { QuotientIs(y + m - 1, m, q + 1, r - 1); }
  }

  lemma {:induction false} Multiples(y: int)
    ensures y % 100 == 0 ==> y % 4 == 0
    ensures y % 400 == 0 ==> y % 100 == 0
  {
    if y % 100 == 0 {
      assert y == 100 * (y / 100);
      QuotientIs(y, 4, 25 * (y / 100), 0);
    }
    if y % 400 == 0 {
      assert y == 400 * (y / 400);
      QuotientIs(y, 100, 4 * (y / 400), 0);
    }
  }

  lemma YearLength(y: int)
    ensures YearStart(y + 1) - YearStart(y) == if IsLeap(y) then 366 else 365
  {
    RoundsUp(y, 4);
    RoundsUp(y, 100);
    RoundsUp(y, 400);
    Multiples(y);
    var q, q', c, c' := (y + 3) / 4, (y + 4) / 4, (y + 99) / 100, (y + 100) / 100;
    var e, e' := (y + 399) / 400, (y + 400) / 400;
    assert YearStart(y) == 365 * y + q - c + e - 719528;
    assert YearStart(y + 1) == 365 * (y + 1) + q' - c' + e' - 719528;
  }

  /** Thirty days have September, April, June and November. */
  function DaysIn(y: int, m: int): int
    requires 0 <= m < 12
  {
    if m == 1 then (if IsLeap(y) then 29 else 28) else if m == 3 || m == 5 || m == 8 || m == 10 then 30 else 31
  }

  lemma MonthLength(k: int)
    ensures MonthStart(k + 1) - MonthStart(k) == DaysIn(k / 12, k % 12)
    ensures 28 <= MonthStart(k + 1) - MonthStart(k) <= 31
  {
    var y, m := k / 12, k % 12;
    if m == 11 {
      assert (k + 1) / 12 == y + 1 && (k + 1) % 12 == 0;
      YearLength(y);
    } else {
      assert (k + 1) / 12 == y && (k + 1) % 12 == m + 1;
    }
  }

  /** Days are counted from 1 January 1970; with the lengths of the months that fixes all of them. */
  lemma {:induction false} EpochIs()
    ensures MonthStart(1970 * 12) == 0
  {
  }

  lemma {:induction false} MonthsIncrease(a: int, b: int)
    requires a <= b
    ensures 28 * (b - a) <= MonthStart(b) - MonthStart(a) <= 31 * (b - a)
    decreases b - a
  {
    hide MonthStart;
    if a < b {
      MonthLength(b - 1);
      MonthsIncrease(a, b - 1);
    }
  }

  /** The month a day is in, looked for from month `k` on. */
  function MonthFrom(day: int, k: int): (m: int)
    ensures MonthStart(m) <= day < MonthStart(m + 1)
    decreases if day < MonthStart(k) then MonthStart(k) - day + 31 else day - MonthStart(k)
  {
    hide MonthStart;
    MonthLength(k);
    MonthLength(k - 1);
    if day < MonthStart(k) then MonthFrom(day, k - 1)
    else if day >= MonthStart(k + 1) then MonthFrom(day, k + 1)
    else k
  }

  /** The month of a day. */
  function MonthOf(day: int): (m: int)
    ensures MonthStart(m) <= day < MonthStart(m + 1)
  {
    hide MonthStart;
    MonthFrom(day, 1970 * 12)
  }

  /** A day is in one month only. */
  lemma {:induction false} MonthUnique(day: int, m: int)
    requires MonthStart(m) <= day < MonthStart(m + 1)
    ensures MonthOf(day) == m
  {
    hide MonthStart;
    var k := MonthOf(day);
    if k < m { MonthsIncrease(k + 1, m); }
    if m < k { MonthsIncrease(m + 1, k); }
  }

  lemma {:induction false} MonthMonotone(day: int, day': int)
    requires day <= day'
    ensures MonthOf(day) <= MonthOf(day')
  {
    hide MonthStart;
    var a, b := MonthOf(day), MonthOf(day');
    if b < a { MonthsIncrease(b + 1, a); }
  }
}
