/** In which order the parts of an interval are added, and where the order shows. */
module IcuOrder {
  import opened Basics
  import opened Gregorian
  import opened IcuTime

  /** The day `n` months on: the same day of the month, or the last one if the month is shorter. */
  function DayPlus(day: int, n: int): int {
    var k := MonthOf(day);
    MonthStart(k + n) + Min(day - MonthStart(k), MonthStart(k + n + 1) - MonthStart(k + n) - 1)
  }

  lemma {:induction false} InstantIs(zone: int, day: int, time: int)
    requires 0 <= time < MSECS_PER_DAY
    ensures LocalDay(zone, Instant(zone, day, time)) == day && LocalTime(zone, Instant(zone, day, time)) == time
  {
    QuotientIs(day * MSECS_PER_DAY + time, MSECS_PER_DAY, day, time);
  }

  /** Adding months keeps the time and the day of the month, or gives the last day of a month that is too short. */
  lemma {:induction false} MonthsKeepDay(zone: int, ms: int, n: int)
    ensures var day, day' := LocalDay(zone, ms), LocalDay(zone, PlusMonths(zone, ms, n));
      var k := MonthOf(day); var length := MonthStart(k + n + 1) - MonthStart(k + n);
      && LocalTime(zone, PlusMonths(zone, ms, n)) == LocalTime(zone, ms)
      && MonthOf(day') == k + n
      && (if day - MonthStart(k) < length then day' - MonthStart(k + n) == day - MonthStart(k)
          else day' + 1 == MonthStart(k + n + 1))
  {
    hide MonthStart, Instant;
    var day := LocalDay(zone, ms);
    var k := MonthOf(day);
    MonthLength(k + n);
    InstantIs(zone, DayPlus(day, n), LocalTime(zone, ms));
    MonthUnique(DayPlus(day, n), k + n);
  }

  lemma {:induction false} EarlierMonth(zone: int, ms: int, ms': int)
    requires MonthOf(LocalDay(zone, ms)) < MonthOf(LocalDay(zone, ms'))
    ensures ms < ms'
  {
    hide MonthStart;
    var t, t' := ms + zone, ms' + zone;
    if ms >= ms' {
      assert t / MSECS_PER_DAY >= t' / MSECS_PER_DAY;
      MonthMonotone(LocalDay(zone, ms'), LocalDay(zone, ms));
    }
  }

  /** The difference in months is the greatest number of months, towards zero, that does not pass the second instant. */
  lemma {:induction false} MonthDifferenceIs(zone: int, ms: int, udate: int)
    ensures var n := MonthDifference(zone, ms, udate);
      && (ms <= udate ==> n >= 0 && PlusMonths(zone, ms, n) <= udate < PlusMonths(zone, ms, n + 1))
      && (udate <= ms ==> n <= 0 && PlusMonths(zone, ms, n - 1) < udate <= PlusMonths(zone, ms, n))
  {
    hide MonthStart, PlusMonths, LocalDay, LocalTime;
    var k := MonthOf(LocalDay(zone, udate)) - MonthOf(LocalDay(zone, ms));
    MonthsKeepDay(zone, ms, k);
    MonthsKeepDay(zone, ms, k - 1);
    MonthsKeepDay(zone, ms, k + 1);
    EarlierMonth(zone, PlusMonths(zone, ms, k - 1), udate);
    EarlierMonth(zone, udate, PlusMonths(zone, ms, k + 1));
    PlusNoMonths(zone, ms);
    if k > 0 { EarlierMonth(zone, ms, udate); }
    if k < 0 { EarlierMonth(zone, udate, ms); }
  }

  function LengthOf(k: int): int { MonthStart(k + 1) - MonthStart(k) }

  /** The months take a day and the next one to a day and the next one. */
  predicate StaysNext(day: int, n: int) {
    var k := MonthOf(day);
    var at := day - MonthStart(k) + 1;
    if at < LengthOf(k) then at < LengthOf(k + n) else LengthOf(k + n) <= LengthOf(k)
  }

  /** The next millisecond is on the same day, or the months keep the next day next. */
  predicate Continues(zone: int, ms: int, n: int) {
    LocalTime(zone, ms) < MSECS_PER_DAY - 1 || StaysNext(LocalDay(zone, ms), n)
  }

  lemma {:induction false} StaysNextIs(day: int, n: int)
    ensures StaysNext(day, n) <==> DayPlus(day + 1, n) == DayPlus(day, n) + 1
  {
    hide MonthStart;
    var k := MonthOf(day);
    MonthLength(k + 1);
    MonthLength(k + n);
    MonthLength(k + n + 1);
    assert k + 1 + n == k + n + 1;
    if day + 1 < MonthStart(k + 1) { MonthUnique(day + 1, k); } else { MonthUnique(day + 1, k + 1); }
  }

  lemma {:induction false} NextMillisecond(zone: int, ms: int)
    ensures if LocalTime(zone, ms) == MSECS_PER_DAY - 1
            then LocalDay(zone, ms + 1) == LocalDay(zone, ms) + 1 && LocalTime(zone, ms + 1) == 0
            else LocalDay(zone, ms + 1) == LocalDay(zone, ms) && LocalTime(zone, ms + 1) == LocalTime(zone, ms) + 1
  {
    var t := ms + zone;
    var q, r := t / MSECS_PER_DAY, t % MSECS_PER_DAY;
    assert t == q * MSECS_PER_DAY + r;
    if r == MSECS_PER_DAY - 1 {
      QuotientIs(t + 1, MSECS_PER_DAY, q + 1, 0);
    } else {
      QuotientIs(t + 1, MSECS_PER_DAY, q, r + 1);
    }
  }

  lemma PlusMonthsIs(zone: int, ms: int, n: int)
    ensures PlusMonths(zone, ms, n) == DayPlus(LocalDay(zone, ms), n) * MSECS_PER_DAY + LocalTime(zone, ms) - zone
    ensures 0 <= LocalTime(zone, ms) < MSECS_PER_DAY
  {
    hide MonthStart;
  }

  lemma {:induction false} ContinuesIs(zone: int, ms: int, n: int)
    ensures Continues(zone, ms, n) <==> PlusMonths(zone, ms + 1, n) == PlusMonths(zone, ms, n) + 1
  {
    hide PlusMonths, DayPlus, LocalDay, LocalTime, StaysNext;
    StaysNextIs(LocalDay(zone, ms), n);
    NextMillisecond(zone, ms);
    PlusMonthsIs(zone, ms, n);
    PlusMonthsIs(zone, ms + 1, n);
  }

  lemma {:induction false} CarriedFloor(ts: int)
    ensures Carried(ts, 0) == (ts / 1000, ts % 1000)
  {
  }

  /** Only the months. */
  lemma {:induction false} AddMonthsIs(zone: int, ts: int, n: int)
    requires Finite(ts) && AddTo(zone, ts, Interval(n, 0, 0)).Some?
    ensures AddTo(zone, ts, Interval(n, 0, 0)).value == PlusMonths(zone, ts / 1000, n) * 1000 + ts % 1000
  {
    hide PlusMonths, DateFits, Carried;
    CarriedFloor(ts);
  }

  lemma {:induction false} AddedIsFinite(zone: int, ts: int, i: Interval)
    requires Finite(ts) && AddTo(zone, ts, i).Some?
    ensures Finite(AddTo(zone, ts, i).value)
  {
    hide Moved, Carried;
  }

  lemma {:induction false} CarriedUp(ts: int, micros: int)
    requires micros >= 0
    ensures var c := Carried(ts, micros);
      c.0 == ts / 1000 + (if ts % 1000 + micros % 1000 < 1000 then 0 else 1)
      && c.0 * 1000 + c.1 == ts + micros % 1000
  {
  }

  lemma {:induction false} AddIs(zone: int, ts: int, i: Interval)
    requires Finite(ts) && AddTo(zone, ts, i).Some?
    ensures AddTo(zone, ts, i).value == Moved(zone, Carried(ts, i.micros).0, i) * 1000 + Carried(ts, i.micros).1
  {
    hide Moved, Carried, DateFits;
  }

  /**
    An interval without a negative part: months first, then days and time, exactly unless the microseconds
    carry into the next millisecond before the months are added and the months tear the two apart.
   */
  lemma {:induction false} MonthsFirst(zone: int, ts: int, i: Interval)
    requires Finite(ts) && i.months >= 0 && i.days >= 0 && i.micros >= 0
    requires AddTo(zone, ts, i).Some? && AddTo(zone, ts, Interval(i.months, 0, 0)).Some?
    requires AddTo(zone, AddTo(zone, ts, Interval(i.months, 0, 0)).value, Interval(0, i.days, i.micros)).Some?
    ensures AddTo(zone, ts, i)
         == AddTo(zone, AddTo(zone, ts, Interval(i.months, 0, 0)).value, Interval(0, i.days, i.micros))
       <==> ts % 1000 + i.micros % 1000 < 1000 || Continues(zone, ts / 1000, i.months)
  {
    hide PlusMonths, AddTo, Carried, Continues;
    var months := Interval(i.months, 0, 0);
    AddedIsFinite(zone, ts, months);
    AddMonthsIs(zone, ts, i.months);
    AddIsLinear(zone, AddTo(zone, ts, months).value, i.days, i.micros);
    AddIs(zone, ts, i);
    CarriedUp(ts, i.micros);
    ContinuesIs(zone, ts / 1000, i.months);
  }

  lemma {:induction false} CarriedAny(ts: int, micros: int)
    ensures var c := Carried(ts, micros);
      c.0 * 1000 + c.1 == ts + CMod(micros, 1000) && -1000 < c.1 < 1000
      && (c.1 < 0 <==> CMod(ts, 1000) + CMod(micros, 1000) < -1000)
  {
    CDivMod(ts, 1000);
    CDivMod(micros, 1000);
  }

  /**
    An interval with a negative part: days and time first, then months, exactly unless the remainders below a
    millisecond are carried only once where they borrow twice, and the months tear the millisecond from the one before.
   */
  lemma {:induction false} TimeFirst(zone: int, ts: int, i: Interval)
    requires Finite(ts) && (i.months < 0 || i.days < 0 || i.micros < 0)
    requires AddTo(zone, ts, i).Some? && AddTo(zone, ts, Interval(0, i.days, i.micros)).Some?
    requires AddTo(zone, AddTo(zone, ts, Interval(0, i.days, i.micros)).value, Interval(i.months, 0, 0)).Some?
    ensures AddTo(zone, ts, i)
         == AddTo(zone, AddTo(zone, ts, Interval(0, i.days, i.micros)).value, Interval(i.months, 0, 0))
       <==> CMod(ts, 1000) + CMod(i.micros, 1000) >= -1000
            || Continues(zone, (ts + i.days * MICROS_PER_DAY + i.micros) / 1000, i.months)
  {
    hide PlusMonths, AddTo, Carried, Continues, CMod, CDiv;
    var time := Interval(0, i.days, i.micros);
    var c, mid := Carried(ts, i.micros), AddTo(zone, ts, time).value;
    AddedIsFinite(zone, ts, time);
    AddIsLinear(zone, ts, i.days, i.micros);
    AddMonthsIs(zone, mid, i.months);
    AddIs(zone, ts, i);
    CarriedAny(ts, i.micros);
    CDivMod(i.micros, 1000);
    ContinuesIs(zone, mid / 1000, i.months);
  }

  // ---------------------------------------------------------------- where the orders differ

  lemma {:induction false} JanuaryAndFebruary(y: int)
    requires !IsLeap(y)
    ensures MonthStart(y * 12 + 1) == MonthStart(y * 12) + 31 && MonthStart(y * 12 + 2) == MonthStart(y * 12) + 59
  {
    hide MonthStart, IsLeap;
    var k := y * 12;
    QuotientIs(k, 12, y, 0);
    QuotientIs(k + 1, 12, y, 1);
    MonthLength(k);
    MonthLength(k + 1);
  }

  /** The last two days of a January, and the last of the February after it. */
  lemma {:induction false} EndOfJanuary(y: int)
    requires !IsLeap(y)
    ensures var day := MonthStart(y * 12); DayPlus(day + 29, 1) == day + 58 && DayPlus(day + 30, 1) == day + 58
  {
    hide MonthStart, IsLeap;
    var k := y * 12;
    JanuaryAndFebruary(y);
    MonthUnique(MonthStart(k) + 29, k);
    MonthUnique(MonthStart(k) + 30, k);
  }

  lemma {:induction false} Starts()
    ensures !IsLeap(1970) && MonthStart(1970 * 12) == 0 && !IsLeap(1969) && MonthStart(1969 * 12) == -365
  {
    EpochIs();
    YearLength(1969);
    assert MonthStart(1970 * 12) == YearStart(1970) && MonthStart(1969 * 12) == YearStart(1969);
  }

  lemma {:induction false} MonthOn(day: int, time: int, next: int)
    requires 0 <= time < MSECS_PER_DAY && DayPlus(day, 1) == next
    ensures PlusMonths(0, day * MSECS_PER_DAY + time, 1) == next * MSECS_PER_DAY + time
  {
    hide PlusMonths, DayPlus;
    InstantIs(0, day, time);
    PlusMonthsIs(0, day * MSECS_PER_DAY + time, 1);
  }

  lemma {:induction false} AddGives(ts: int, i: Interval, ms: int, micros: int, r: int)
    requires Finite(ts) && Carried(ts, i.micros) == (ms, micros) && Moved(0, ms, i) == r
    requires -1_000_000_000_000 < ms < 1_000_000_000_000 && -1_000_000_000_000 < r < 1_000_000_000_000
    requires -1000 < micros < 1000
    ensures AddTo(0, ts, i) == Some(r * 1000 + micros)
  {
    hide Carried, Moved, DateFits;
    DateRange(ms * 1000);
    DateRange(r * 1000 + micros);
  }

  /** A month and a microsecond after the last microsecond of 30 January 1970: 28 February, but 1 March in two steps. */
  lemma {:induction false} CarryExample()
    ensures var ts := 30 * MICROS_PER_DAY - 1;
      && AddTo(0, ts, Interval(1, 0, 1)) == Some(58 * MICROS_PER_DAY)
      && AddTo(0, ts, Interval(1, 0, 0)) == Some(59 * MICROS_PER_DAY - 1)
      && AddTo(0, 59 * MICROS_PER_DAY - 1, Interval(0, 0, 1)) == Some(59 * MICROS_PER_DAY)
  {
    hide PlusMonths, DayPlus, AddTo, IsLeap, MonthStart;
    var ts := 30 * MICROS_PER_DAY - 1;
    Starts();
    EndOfJanuary(1970);
    MonthOn(29, MSECS_PER_DAY - 1, 58);
    MonthOn(30, 0, 58);
    PlusNoMonths(0, 59 * MSECS_PER_DAY);
    AddGives(ts, Interval(1, 0, 1), 30 * MSECS_PER_DAY, 0, 58 * MSECS_PER_DAY);
    AddGives(ts, Interval(1, 0, 0), 30 * MSECS_PER_DAY - 1, 999, 59 * MSECS_PER_DAY - 1);
    AddGives(59 * MICROS_PER_DAY - 1, Interval(0, 0, 1), 59 * MSECS_PER_DAY, 0, 59 * MSECS_PER_DAY);
  }

  /**
    A month on and 999 microseconds back from the first microsecond of 31 January 1969: 27 February, but 28
    February in two steps.
   */
  lemma {:induction false} BorrowExample()
    ensures var ts, mid, end := -335 * MICROS_PER_DAY + 1, -335 * MICROS_PER_DAY - 998, -307 * MICROS_PER_DAY - 998;
      && AddTo(0, ts, Interval(1, 0, -999)) == Some(end)
      && AddTo(0, ts, Interval(0, 0, -999)) == Some(mid)
      && AddTo(0, mid, Interval(1, 0, 0)) == Some(end + MICROS_PER_DAY)
  {
    hide PlusMonths, DayPlus, AddTo, IsLeap, MonthStart;
    var ts, mid := -335 * MICROS_PER_DAY + 1, -335 * MICROS_PER_DAY - 998;
    Starts();
    EndOfJanuary(1969);
    MonthOn(-335, 0, -307);
    MonthOn(-336, MSECS_PER_DAY - 1, -307);
    PlusNoMonths(0, -335 * MSECS_PER_DAY);
    AddGives(ts, Interval(1, 0, -999), -335 * MSECS_PER_DAY, -998, -307 * MSECS_PER_DAY);
    AddGives(ts, Interval(0, 0, -999), -335 * MSECS_PER_DAY, -998, -335 * MSECS_PER_DAY);
    AddGives(mid, Interval(1, 0, 0), -335 * MSECS_PER_DAY - 1, 2, -306 * MSECS_PER_DAY - 1);
  }
}
