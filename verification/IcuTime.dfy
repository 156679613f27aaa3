/**
  Timestamps and interval addition on a calendar.

  The calendar is the proleptic Gregorian one in a zone with a fixed offset, kept as a count of
  milliseconds. Division is C division, which truncates towards zero.
 */
module IcuTime {
  import opened Basics
  import opened Gregorian

  const MICROS_PER_MSEC := 1000
  const MSECS_PER_SEC := 1000
  const SECS_PER_MINUTE := 60
  const MINS_PER_HOUR := 60
  const MSECS_PER_DAY := 86_400_000
  const MICROS_PER_DAY := 86_400_000_000
  const INT64_MAX := 0x7fff_ffff_ffff_ffff
  const INT32_MAX := 0x7fff_ffff

  predicate Int64(x: int) { -INT64_MAX - 1 <= x <= INT64_MAX }

  predicate Int32(x: int) { -INT32_MAX - 1 <= x <= INT32_MAX }

  function CDiv(a: int, b: int): int
    requires b > 0
  {
    if a >= 0 then a / b else -((-a) / b)
  }

  function CMod(a: int, b: int): int
    requires b > 0
  {
    if a >= 0 then a % b else -((-a) % b)
  }

  lemma CDivMod(a: int, b: int)
    requires b > 0
    ensures a == CDiv(a, b) * b + CMod(a, b) && -b < CMod(a, b) < b
    ensures (a >= 0 ==> CMod(a, b) >= 0) && (a <= 0 ==> CMod(a, b) <= 0)
  {
    var n := if a >= 0 then a else -a;
    assert n == n / b * b + n % b;
  }

  // ---------------------------------------------------------------- timestamps

  /** The least timestamp whose day starts within 64 bits. */
  const MIN_TIMESTAMP: int := -106751991 * MICROS_PER_DAY

  /** The two ends of the range stand for infinities. */
  predicate Finite(ts: int) { ts != INT64_MAX && ts != -INT64_MAX }

  /** What Timestamp::Convert and the range check of TryGetTime accept. */
  predicate DateFits(ts: int) {
    Int64(ts) && Finite(ts) && Int64(ts / MICROS_PER_DAY * MICROS_PER_DAY)
  }

  lemma DateRange(ts: int)
    ensures DateFits(ts) <==> MIN_TIMESTAMP <= ts < INT64_MAX
  {
  }

  // ---------------------------------------------------------------- the calendar

  datatype Field = Millisecond | Second | Minute | Hour | Date | Month

  function LocalDay(zone: int, ms: int): int { (ms + zone) / MSECS_PER_DAY }

  function LocalTime(zone: int, ms: int): int { (ms + zone) % MSECS_PER_DAY }

  /** A day and a time of it in the zone. */
  function Instant(zone: int, day: int, time: int): int { day * MSECS_PER_DAY + time - zone }

  /** The same day of the month `n` months on, or the last day if the month is shorter. */
  function PlusMonths(zone: int, ms: int, n: int): int {
    var day := LocalDay(zone, ms);
    var k := MonthOf(day);
    var length := MonthStart(k + n + 1) - MonthStart(k + n);
    Instant(zone, MonthStart(k + n) + Min(day - MonthStart(k), length - 1), LocalTime(zone, ms))
  }

  function Plus(zone: int, ms: int, field: Field, n: int): int {
    match field
    case Millisecond => ms + n
    case Second => ms + n * 1000
    case Minute => ms + n * 60_000
    case Hour => ms + n * 3_600_000
    case Date => ms + n * MSECS_PER_DAY
    case Month => PlusMonths(zone, ms, n)
  }

  class Calendar {
    const zone: int
    var millis: int

    constructor (zone: int)
      ensures this.zone == zone && millis == 0
    {
      this.zone := zone;
      millis := 0;
    }

    method SetMillis(udate: int)
      modifies this
      ensures millis == udate
    {
      millis := udate;
    }

    /** Calendar::add takes 32-bit amounts. */
    method Add(field: Field, n: int)
      requires Int32(n)
      modifies this
      ensures millis == Plus(zone, old(millis), field, n)
    {
      millis := Plus(zone, millis, field, n);
    }

    /** Whole days or months from the calendar's time to `udate`, towards zero; the time moves by them. */
    method FieldDifference(udate: int, field: Field) returns (n: int)
      requires field == Date || field == Month
      modifies this
      ensures n == Difference(zone, old(millis), udate, field)
    {
      n := Difference(zone, millis, udate, field);
      millis := Plus(zone, millis, field, n);
    }
  }

  /** How far the months of two instants are apart, counting whole ones only. */
  function MonthDifference(zone: int, ms: int, udate: int): int {
    var n := MonthOf(LocalDay(zone, udate)) - MonthOf(LocalDay(zone, ms));
    if n > 0 && PlusMonths(zone, ms, n) > udate then n - 1
    else if n < 0 && PlusMonths(zone, ms, n) < udate then n + 1
    else n
  }

  function Difference(zone: int, ms: int, udate: int, field: Field): int {
    if field == Month then MonthDifference(zone, ms, udate) else CDiv(udate - ms, MSECS_PER_DAY)
  }

  // ---------------------------------------------------------------- adding an interval

  datatype Interval = Interval(months: int, days: int, micros: int)

  predicate IsInterval(i: Interval) { Int32(i.months) && Int32(i.days) && Int64(i.micros) }

  /** Milliseconds and microseconds of a timestamp, with the microseconds of the interval moved. */
  function Carried(ts: int, micros: int): (int, int) {
    var millis, rest := CDiv(ts, 1000), CMod(ts, 1000) + CMod(micros, 1000);
    if rest >= 1000 then (millis + 1, rest - 1000)
    else if rest < 0 then (millis - 1, rest + 1000)
    else (millis, rest)
  }

  /** Where the interval takes an instant: time first if it goes back, months first if it goes forward. */
  function Moved(zone: int, ms: int, i: Interval): int {
    var time := CDiv(i.micros, 1000);
    if i.months < 0 || i.days < 0 || i.micros < 0
    then PlusMonths(zone, ms + time + i.days * MSECS_PER_DAY, i.months)
    else PlusMonths(zone, ms, i.months) + i.days * MSECS_PER_DAY + time
  }

  /** Timestamp plus interval, if it is in range. */
  function AddTo(zone: int, ts: int, i: Interval): Option<int> {
    if !Finite(ts) then Some(ts)
    else
      var c := Carried(ts, i.micros);
      var r := Moved(zone, c.0, i);
      if !DateFits(c.0 * 1000) || !Int64(r * 1000) || !DateFits(r * 1000 + c.1) then None
      else Some(r * 1000 + c.1)
  }

  /** Adding hours in amounts of 32 bits. */
  method CalendarAddHour(calendar: Calendar, hours: int)
    modifies calendar
    ensures calendar.millis == old(calendar.millis) + hours * 3_600_000
  {
    var left := hours;
    if left >= 0 {
      while left > 0
        invariant calendar.millis + (if left > 0 then left else 0) * 3_600_000
               == old(calendar.millis) + hours * 3_600_000
      {
        calendar.Add(Hour, if left > INT32_MAX then INT32_MAX else left);
        left := left - INT32_MAX;
      }
    } else {
      while left < 0
        invariant calendar.millis + (if left < 0 then left else 0) * 3_600_000
               == old(calendar.millis) + hours * 3_600_000
      {
        calendar.Add(Hour, if left < -INT32_MAX - 1 then -INT32_MAX - 1 else left);
        left := left + INT32_MAX + 1;
      }
    }
  }

  /** Hours, minutes, seconds and milliseconds add up. */
  lemma UnitsAddUp(x: int)
    ensures var h := CDiv(CDiv(CDiv(x, 1000), 60), 60); var m := CMod(CDiv(CDiv(x, 1000), 60), 60);
      var s := CMod(CDiv(x, 1000), 60); var ms := CMod(x, 1000);
      ms + s * 1000 + m * 60_000 + h * 3_600_000 == x && Int32(ms) && Int32(s) && Int32(m)
  {
    hide CDiv, CMod;
    CDivMod(x, 1000);
    CDivMod(CDiv(x, 1000), 60);
    CDivMod(CDiv(CDiv(x, 1000), 60), 60);
  }

  lemma FitsInt64(ts: int)
    ensures DateFits(ts) ==> Int64(ts)
  {
  }

  /** ICUCalendarAdd of a timestamp and an interval. */
  method Add(calendar: Calendar, ts: int, i: Interval) returns (r: Option<int>)
    requires Int64(ts) && IsInterval(i)
    modifies calendar
    ensures r == AddTo(calendar.zone, ts, i)
  {
    hide PlusMonths, CDiv, CMod, DateFits;
    if !Finite(ts) { return Some(ts); }
    var millis, micros := CDiv(ts, MICROS_PER_MSEC), CMod(ts, MICROS_PER_MSEC);
    micros := micros + CMod(i.micros, MICROS_PER_MSEC);
    if micros >= MICROS_PER_MSEC {
      micros, millis := micros - MICROS_PER_MSEC, millis + 1;
    } else if micros < 0 {
      micros, millis := micros + MICROS_PER_MSEC, millis - 1;
    }
    FitsInt64(millis * 1000);
    if !Int64(millis * MICROS_PER_MSEC) || !DateFits(millis * MICROS_PER_MSEC) { return None; }
    calendar.SetMillis(millis);
    var hours := CDiv(i.micros, MICROS_PER_MSEC);
    UnitsAddUp(hours);
    var ms := CMod(hours, MSECS_PER_SEC);
    hours := CDiv(hours, MSECS_PER_SEC);
    var seconds := CMod(hours, SECS_PER_MINUTE);
    hours := CDiv(hours, SECS_PER_MINUTE);
    var minutes := CMod(hours, MINS_PER_HOUR);
    hours := CDiv(hours, MINS_PER_HOUR);
    if i.months < 0 || i.days < 0 || i.micros < 0 {
      calendar.Add(Millisecond, ms);
      calendar.Add(Second, seconds);
      calendar.Add(Minute, minutes);
      CalendarAddHour(calendar, hours);
      calendar.Add(Date, i.days);
      calendar.Add(Month, i.months);
    } else {
      calendar.Add(Month, i.months);
      calendar.Add(Date, i.days);
      CalendarAddHour(calendar, hours);
      calendar.Add(Minute, minutes);
      calendar.Add(Second, seconds);
      calendar.Add(Millisecond, ms);
    }
    r := GetTime(calendar, micros);
  }

  /** TryGetTime: the calendar's time and microseconds, if they are in range. */
  method GetTime(calendar: Calendar, micros: int) returns (r: Option<int>)
    ensures r == if Int64(calendar.millis * 1000) && DateFits(calendar.millis * 1000 + micros)
                 then Some(calendar.millis * 1000 + micros) else None
  {
    hide DateFits;
    FitsInt64(calendar.millis * 1000 + micros);
    var ms := calendar.millis * MICROS_PER_MSEC;
    if !Int64(ms) { return None; }
    if !Int64(ms + micros) { return None; }
    return if DateFits(ms + micros) then Some(ms + micros) else None;
  }

  /** SetTime: the floor of the milliseconds goes to the calendar, the rest is returned. */
  method SetTime(calendar: Calendar, ts: int) returns (micros: int)
    modifies calendar
    ensures calendar.millis == ts / 1000 && micros == ts % 1000
  {
    var millis := CDiv(ts, MICROS_PER_MSEC);
    micros := CMod(ts, MICROS_PER_MSEC);
    if micros < 0 {
      millis, micros := millis - 1, micros + MICROS_PER_MSEC;
    }
    calendar.SetMillis(millis);
  }

  // ---------------------------------------------------------------- what adding means

  lemma {:induction false} PlusNoMonths(zone: int, ms: int)
    ensures PlusMonths(zone, ms, 0) == ms
  {
    hide MonthStart;
    var t := ms + zone;
    assert t == t / MSECS_PER_DAY * MSECS_PER_DAY + t % MSECS_PER_DAY;
  }

  lemma CarriedIs(ts: int, micros: int)
    ensures Carried(ts, micros).0 * 1000 + Carried(ts, micros).1 == ts + CMod(micros, 1000)
  {
    CDivMod(ts, 1000);
  }

  /** Days and microseconds are added exactly, whatever the sign of the timestamp. */
  lemma {:induction false} AddIsLinear(zone: int, ts: int, days: int, micros: int)
    requires Finite(ts)
    ensures var r := AddTo(zone, ts, Interval(0, days, micros));
      r.Some? ==> r.value == ts + days * MICROS_PER_DAY + micros
    ensures AddTo(zone, ts, Interval(0, days, micros)).Some? <==>
      var base := Carried(ts, micros).0 * 1000; var sum := ts + days * MICROS_PER_DAY + micros;
      DateFits(base) && DateFits(sum) && Int64(sum - Carried(ts, micros).1)
  {
    hide PlusMonths, DateFits, CDiv, CMod;
    var c := Carried(ts, micros);
    CarriedIs(ts, micros);
    CDivMod(micros, 1000);
    PlusNoMonths(zone, c.0);
    PlusNoMonths(zone, c.0 + CDiv(micros, 1000) + days * MSECS_PER_DAY);
  }

  lemma FitsFinite(ts: int)
    ensures DateFits(ts) ==> Finite(ts)
  {
  }

  /** An interval of microseconds that is added and subtracted again gives the timestamp back. */
  lemma {:induction false} AddThenSubtract(zone: int, ts: int, micros: int)
    requires Finite(ts)
    ensures var r := AddTo(zone, ts, Interval(0, 0, micros));
      r.Some? ==> var back := AddTo(zone, r.value, Interval(0, 0, -micros)); back.Some? ==> back.value == ts
  {
    hide DateFits, Carried, AddTo;
    AddIsLinear(zone, ts, 0, micros);
    var r := AddTo(zone, ts, Interval(0, 0, micros));
    if r.Some? {
      FitsFinite(ts + micros);
      AddIsLinear(zone, r.value, 0, -micros);
    }
  }
}
