/** Time buckets of microseconds, days and months. */
module TimeBucket {
  import opened Basics
  import opened Gregorian
  import opened IcuTime

  const DEFAULT_ORIGIN_MICROS_1: int := 10959 * MICROS_PER_DAY
  const DEFAULT_ORIGIN_MICROS_2: int := 10957 * MICROS_PER_DAY

  datatype Width = Micros | Days | Months

  datatype Classified = Class(width: Width) | NotPositive | DayWithTime | MonthWithDayOrTime

  /** ClassifyBucketWidthErrorThrow */
  function Classify(w: Interval): (c: Classified)
    ensures c == Class(Micros) <==> w.months == 0 && w.days == 0 && w.micros > 0
    ensures c == Class(Days) <==> w.months == 0 && w.micros == 0 && w.days > 0
    ensures c == Class(Months) <==> w.days == 0 && w.micros == 0 && w.months > 0
    ensures c == DayWithTime <==> w.months == 0 && w.days != 0 && w.micros != 0
    ensures c == MonthWithDayOrTime <==> w.months != 0 && (w.days != 0 || w.micros != 0)
  {
    if w.months == 0 && w.days == 0 then (if w.micros <= 0 then NotPositive else Class(Micros))
    else if w.months == 0 && w.micros == 0 then (if w.days <= 0 then NotPositive else Class(Days))
    else if w.days == 0 && w.micros == 0 then (if w.months <= 0 then NotPositive else Class(Months))
    else if w.months == 0 then DayWithTime
    else MonthWithDayOrTime
  }

  /** The greatest multiple of `w` that is no greater than `x`. */
  function Floor(x: int, w: int): int
    requires w > 0
  {
    x / w * w
  }

  lemma FloorIs(x: int, w: int)
    requires w > 0
    ensures Floor(x, w) <= x < Floor(x, w) + w
  {
    assert x == x / w * w + x % w;
  }

  lemma {:induction false} FloorUnique(x: int, w: int, k: int)
    requires w > 0 && k * w <= x < k * w + w
    ensures Floor(x, w) == k * w
  {
    QuotientIs(x, w, k, x - k * w);
  }

  /** C division, and one step back below zero, rounds down. */
  lemma {:induction false} TruncatedFloor(x: int, w: int)
    requires w > 0
    ensures Floor(x, w) == if x < 0 && CMod(x, w) != 0 then CDiv(x, w) * w - w else CDiv(x, w) * w
  {
    hide CDiv, CMod, Floor;
    CDivMod(x, w);
    var q := CDiv(x, w);
    if x < 0 && CMod(x, w) != 0 {
      assert (q - 1) * w == q * w - w;
      FloorUnique(x, w, q - 1);
    } else {
      FloorUnique(x, w, q);
    }
  }

  // ---------------------------------------------------------------- microseconds

  /** No step of the bucket of microseconds leaves the range. */
  predicate MicrosFit(zone: int, width: int, ts: int, origin: int)
    requires width > 0
  {
    && Int64(ts - origin) && Int64(Floor(ts - origin, width))
    && AddTo(zone, origin, Interval(0, 0, Floor(ts - origin, width))).Some?
  }

  /** WidthConvertibleToMicrosCommon */
  method MicrosBucket(calendar: Calendar, width: int, ts: int, origin: int) returns (r: Option<int>)
    requires 0 < width <= INT64_MAX && Int64(ts) && Int64(origin) && Finite(origin)
    modifies calendar
    ensures r.Some? ==> r.value == origin + Floor(ts - origin, width) && r.value <= ts < r.value + width
    ensures r.Some? <==> MicrosFit(calendar.zone, width, ts, origin)
  {
    hide CDiv, CMod, AddTo, Floor;
    var micros := ts - origin;
    if !Int64(micros) { return None; }
    TruncatedFloor(micros, width);
    FloorIs(micros, width);
    CDivMod(micros, width);
    var result := CDiv(micros, width) * width;
    if micros < 0 && CMod(micros, width) != 0 {
      result := result - width;
      if !Int64(result) { return None; }
    }
    AddIsLinear(calendar.zone, origin, 0, result);
    r := Add(calendar, origin, Interval(0, 0, result));
  }

  // ---------------------------------------------------------------- days

  /** Milliseconds from the origin, rounded down, to the timestamp, rounded towards zero. */
  function MillisApart(ts: int, origin: int): int { CDiv(ts, 1000) - origin / 1000 }

  /**
    The bucket comes out above the timestamp: before the epoch and the origin, when the two
    roundings add up to more than a millisecond right at the start of a bucket.
   */
  predicate Slips(ts: int, origin: int, width: int)
    requires width > 0
  {
    var apart := MillisApart(ts, origin);
    apart < 0 && origin % 1000 - CMod(ts, 1000) > 1000 && (apart - 1) % (width * MSECS_PER_DAY) == 0
  }

  /** A bucket of the length `m`, found through the multiple `b` of `m` next to `y` on the side of zero. */
  lemma DaysStep(x: int, up: int, down: int, y: int, b: int, m: int)
    requires 1000 * y == x + up - down && 0 <= up < 1000 && -1000 < down < 1000 && m >= MSECS_PER_DAY
    requires if y >= 0 then b <= y < b + m else b - m < y <= b
    ensures var c := if x < 1000 * b then b - m else b;
      1000 * c <= x < 1000 * (c + m) <==> !(y < 0 && up - down > 1000 && y == b - m + 1)
  {
  }

  lemma {:induction false} DivTwice(n: int, b: int, c: int)
    requires n >= 0 && b > 0 && c > 0
    ensures b * c > 0 && n / b / c == n / (b * c) && n / b >= 0
  {
    var q := n / b;
    var p := q / c;
    assert n == q * b + n % b;
    assert q == p * c + q % c;
    MulLe(1, c, b);
    MulLe(q % c, c - 1, b);
    MulLe(0, q % c, b);
    assert (c - 1) * b == c * b - b;
    assert q * b == (p * c) * b + (q % c) * b;
    assert (p * c) * b == p * (b * c);
    QuotientIs(n, b * c, p, (q % c) * b + n % b);
  }

  lemma {:induction false} CDivTwice(a: int, b: int, c: int)
    requires b > 0 && c > 0
    ensures b * c > 0 && CDiv(CDiv(a, b), c) == CDiv(a, b * c)
  {
    DivTwice(if a >= 0 then a else -a, b, c);
  }

  lemma {:induction false} NextMultiple(y: int, m: int)
    requires m > 0
    ensures var b := CDiv(y, m) * m;
      && (if y >= 0 then b <= y < b + m else b - m < y <= b)
      && (y < 0 ==> ((y - 1) % m == 0 <==> y == b - m + 1))
  {
    hide CDiv, CMod;
    CDivMod(y, m);
    var q := CDiv(y, m);
    if y < 0 {
      var r := y - 1 - (q - 1) * m;
      assert (q - 1) * m == q * m - m;
      assert 0 <= r < m;
      QuotientIs(y - 1, m, q - 1, r);
    }
  }

  /** The bucket that the day count leads to, before and after the step back, in milliseconds from the origin. */
  function DaysFrom(ts: int, origin: int, width: int): int
    requires width > 0
  {
    var b := CDiv(MillisApart(ts, origin), width * MSECS_PER_DAY) * (width * MSECS_PER_DAY);
    if ts - origin < 1000 * b then b - width * MSECS_PER_DAY else b
  }

  lemma {:induction false} DaysFromIs(ts: int, origin: int, width: int)
    requires width > 0
    ensures var c, m := DaysFrom(ts, origin, width), width * MSECS_PER_DAY;
      && c % m == 0
      && (1000 * c <= ts - origin < 1000 * (c + m) <==> !Slips(ts, origin, width))
  {
    var y, m := MillisApart(ts, origin), width * MSECS_PER_DAY;
    hide CDiv, CMod;
    CDivMod(ts, 1000);
    var p := CDiv(y, m);
    NextMultiple(y, m);
    DaysStep(ts - origin, origin % 1000, CMod(ts, 1000), y, p * m, m);
    assert (p - 1) * m == p * m - m;
    QuotientIs(p * m, m, p, 0);
    QuotientIs(p * m - m, m, p - 1, 0);
  }

  lemma DaysInMillis(p: int, width: int)
    ensures p * width * MICROS_PER_DAY == 1000 * (p * (width * MSECS_PER_DAY))
  {
    assert p * (width * MSECS_PER_DAY) == p * width * MSECS_PER_DAY;
  }

  /** The first guess at the bucket is above the timestamp. */
  predicate GuessExceeds(ts: int, origin: int, width: int)
    requires width > 0
  {
    ts - origin < 1000 * (CDiv(MillisApart(ts, origin), width * MSECS_PER_DAY) * (width * MSECS_PER_DAY))
  }

  /** The first guess at the bucket, in days from the origin. */
  function DaysGuess(ts: int, origin: int, width: int): int
    requires width > 0
  {
    CDiv(MillisApart(ts, origin), width * MSECS_PER_DAY) * width
  }

  /** No step of the bucket of days leaves the range. */
  predicate DaysFit(zone: int, width: int, ts: int, origin: int)
    requires width > 0
  {
    var days := DaysGuess(ts, origin, width);
    && Int32(days) && AddTo(zone, origin, Interval(0, days, 0)).Some?
    && (GuessExceeds(ts, origin, width) ==>
          AddTo(zone, origin + days * MICROS_PER_DAY, Interval(0, -width, 0)).Some?)
  }

  /** WidthConvertibleToDaysCommon */
  method DaysBucket(calendar: Calendar, width: int, ts: int, origin: int) returns (r: Option<int>)
    requires 0 < width <= INT32_MAX && Int64(ts) && Int64(origin) && Finite(origin)
    modifies calendar
    ensures r.Some? ==> r.value == origin + 1000 * DaysFrom(ts, origin, width)
    ensures r.Some? ==> (r.value <= ts < r.value + width * MICROS_PER_DAY <==> !Slips(ts, origin, width))
    ensures r.Some? <==> DaysFit(calendar.zone, width, ts, origin)
  {
    hide CDiv, CMod, AddTo, Slips, Carried, DateFits;
    var m := width * MSECS_PER_DAY;
    DaysFromIs(ts, origin, width);
    var rest := SetTime(calendar, origin);
    var tsDays := calendar.FieldDifference(CDiv(ts, 1000), Date);
    CDivTwice(MillisApart(ts, origin), MSECS_PER_DAY, width);
    var result := CDiv(tsDays, width) * width;
    if !Int32(result) { return None; }
    DaysInMillis(CDiv(tsDays, width), width);
    AddIsLinear(calendar.zone, origin, result, 0);
    r := Add(calendar, origin, Interval(0, result, 0));
    if r.None? { return; }
    if ts < r.value {
      FitsFinite(r.value);
      FitsInt64(r.value);
      AddIsLinear(calendar.zone, r.value, -width, 0);
      r := Add(calendar, r.value, Interval(0, -width, 0));
    }
  }

  lemma {:induction false} NotSlippedIsFloor(ts: int, origin: int, width: int)
    requires width > 0 && !Slips(ts, origin, width)
    ensures 1000 * DaysFrom(ts, origin, width) == Floor(ts - origin, width * MICROS_PER_DAY)
  {
    hide CDiv, CMod, Floor, DaysFrom, Slips;
    DaysFromIs(ts, origin, width);
    var c, m := DaysFrom(ts, origin, width), width * MSECS_PER_DAY;
    var k := c / m;
    assert c == k * m + c % m;
    assert 1000 * (k * m) == k * (width * MICROS_PER_DAY);
    FloorUnique(ts - origin, width * MICROS_PER_DAY, k);
  }

  /** A bucket that slips is the next one. */
  lemma {:induction false} SlippedIsNext(ts: int, origin: int, width: int)
    requires width > 0
    ensures Slips(ts, origin, width) ==> ts - origin < 1000 * DaysFrom(ts, origin, width)
    ensures Slips(ts, origin, width) ==>
      1000 * DaysFrom(ts, origin, width) == Floor(ts - origin, width * MICROS_PER_DAY) + width * MICROS_PER_DAY
  {
    if Slips(ts, origin, width) {
      var y, m := MillisApart(ts, origin), width * MSECS_PER_DAY;
      hide CDiv, CMod, Floor;
      CDivMod(ts, 1000);
      var p := CDiv(y, m);
      NextMultiple(y, m);
      assert (p - 2) * m == p * m - m - m && (p - 2) * (width * MICROS_PER_DAY) == 1000 * ((p - 2) * m);
      FloorUnique(ts - origin, width * MICROS_PER_DAY, p - 2);
    }
  }

  lemma FloorRest(x: int, w: int)
    requires w > 0
    ensures Floor(x, w) == x <==> x % w == 0
  {
    assert x == x / w * w + x % w;
  }

  /** With an origin in whole milliseconds the bucket always holds the timestamp. */
  lemma {:induction false} WholeMillisecondOrigin(ts: int, origin: int, width: int)
    requires width > 0 && origin % 1000 == 0
    ensures !Slips(ts, origin, width)
    ensures 1000 * DaysFrom(ts, origin, width) == Floor(ts - origin, width * MICROS_PER_DAY)
  {
    hide CDiv, CMod, Floor, DaysFrom;
    CDivMod(ts, 1000);
    DaysFromIs(ts, origin, width);
    var c, m := DaysFrom(ts, origin, width), width * MSECS_PER_DAY;
    var k := c / m;
    assert c == k * m + c % m;
    assert 1000 * (k * m) == k * (width * MICROS_PER_DAY);
    FloorUnique(ts - origin, width * MICROS_PER_DAY, k);
  }

  /** A guess above a timestamp at or after the origin, which the code asserts not to happen, happens just then. */
  lemma {:induction false} GuessExceedsAfterOrigin(ts: int, origin: int, width: int)
    requires width > 0 && ts >= origin
    ensures GuessExceeds(ts, origin, width) <==>
            1000 * (MillisApart(ts, origin) % (width * MSECS_PER_DAY)) < origin % 1000 - CMod(ts, 1000)
  {
    var y, m := MillisApart(ts, origin), width * MSECS_PER_DAY;
    hide CMod;
    CDivMod(ts, 1000);
    assert y >= 0;
    assert y == y / m * m + y % m;
  }

  /** One day after the epoch, from an origin just after it. */
  lemma {:induction false} GuessExample()
    ensures MICROS_PER_DAY >= 999 && GuessExceeds(MICROS_PER_DAY, 999, 1)
  {
    assert CDiv(MICROS_PER_DAY, 1000) == MSECS_PER_DAY && MillisApart(MICROS_PER_DAY, 999) == MSECS_PER_DAY;
  }

  /** After the step back, which the code asserts to lead below the timestamp, the bucket is not below it just then. */
  lemma {:induction false} StepBackNotBelow(ts: int, origin: int, width: int)
    requires width > 0
    ensures ts <= origin + 1000 * DaysFrom(ts, origin, width) <==>
            Slips(ts, origin, width) || (ts - origin) % (width * MICROS_PER_DAY) == 0
  {
    hide CDiv, CMod, DaysFrom, Slips, Floor;
    var c, m, w := DaysFrom(ts, origin, width), width * MSECS_PER_DAY, width * MICROS_PER_DAY;
    DaysFromIs(ts, origin, width);
    SlippedIsNext(ts, origin, width);
    if !Slips(ts, origin, width) { NotSlippedIsFloor(ts, origin, width); }
    FloorIs(ts - origin, w);
    FloorRest(ts - origin, w);
  }

  /** A timestamp one day before its origin. */
  lemma {:induction false} StepBackExample()
    ensures GuessExceeds(999 - MICROS_PER_DAY, 999, 1)
    ensures 999 - MICROS_PER_DAY == 999 + 1000 * DaysFrom(999 - MICROS_PER_DAY, 999, 1)
  {
    assert CDiv(999 - MICROS_PER_DAY, 1000) == 1 - MSECS_PER_DAY;
    assert MillisApart(999 - MICROS_PER_DAY, 999) == 1 - MSECS_PER_DAY;
    assert CDiv(1 - MSECS_PER_DAY, MSECS_PER_DAY) == 0;
  }

  lemma {:induction false} AddFits(zone: int, ts: int, days: int)
    requires -10 <= days <= 10 && -10 * MICROS_PER_DAY <= ts <= 10 * MICROS_PER_DAY
    ensures AddTo(zone, ts, Interval(0, days, 0)).Some?
  {
    hide AddTo, DateFits;
    AddIsLinear(zone, ts, days, 0);
    CarriedIs(ts, 0);
    DateRange(Carried(ts, 0).0 * 1000);
    DateRange(ts + days * MICROS_PER_DAY);
  }

  /** A timestamp, an origin between two milliseconds and a width for which the bucket is above the timestamp. */
  lemma {:induction false} DaysBucketSlips(zone: int)
    ensures var ts, origin := -1_999, MICROS_PER_DAY - 1_001;
      Slips(ts, origin, 1) && DaysFit(zone, 1, ts, origin) && origin + 1000 * DaysFrom(ts, origin, 1) > ts
  {
    hide AddTo;
    var ts, origin := -1_999, MICROS_PER_DAY - 1_001;
    assert CDiv(ts, 1000) == -1 && CMod(ts, 1000) == -999 && origin / 1000 == MSECS_PER_DAY - 2;
    assert MillisApart(ts, origin) == 1 - MSECS_PER_DAY && DaysGuess(ts, origin, 1) == 0;
    AddFits(zone, origin, 0);
    AddFits(zone, origin, -1);
  }

  // ---------------------------------------------------------------- what day buckets keep

  lemma {:induction false} CDivMonotone(a: int, b: int, m: int)
    requires a <= b && m > 0
    ensures CDiv(a, m) <= CDiv(b, m)
  {
    hide CDiv, CMod;
    CDivMod(a, m);
    CDivMod(b, m);
    var p, q := CDiv(a, m), CDiv(b, m);
    if q < p {
      MulLe(q + 1, p, m);
      assert (q + 1) * m == q * m + m;
      if p > 0 { MulLe(1, p, m); } else { MulLe(q + 1, 0, m); }
    }
  }

  /** Later timestamps have no earlier day buckets, even where they slip. */
  lemma {:induction false} DaysMonotone(ts: int, ts': int, origin: int, width: int)
    requires width > 0 && ts <= ts'
    ensures DaysFrom(ts, origin, width) <= DaysFrom(ts', origin, width)
  {
    hide CDiv;
    var m := width * MSECS_PER_DAY;
    CDivMonotone(ts, ts', 1000);
    var p, q := CDiv(MillisApart(ts, origin), m), CDiv(MillisApart(ts', origin), m);
    CDivMonotone(MillisApart(ts, origin), MillisApart(ts', origin), m);
    if p < q {
      MulLe(p + 1, q, m);
      assert (p + 1) * m == p * m + m;
    }
  }

  lemma NegativeModulo(x: int)
    requires x < 0
    ensures (-x) % 1000 == if x % 1000 == 0 then 0 else 1000 - x % 1000
  {
  }

  lemma {:induction false} NoSlipOnStart(start: int, origin: int, width: int)
    requires width > 0 && start % 1000 == origin % 1000
    ensures !Slips(start, origin, width)
  {
    assert origin % 1000 - CMod(start, 1000) <= 1000 by {
      if start < 0 { NegativeModulo(start); }
    }
    hide CDiv, CMod;
  }

  /** The start of a day bucket is in that bucket. */
  lemma {:induction false} DaysIdempotent(ts: int, origin: int, width: int)
    requires width > 0
    ensures var start := origin + 1000 * DaysFrom(ts, origin, width);
      !Slips(start, origin, width) && DaysFrom(start, origin, width) == DaysFrom(ts, origin, width)
  {
    hide DaysFrom, Floor, CDiv;
    var c, m := DaysFrom(ts, origin, width), width * MSECS_PER_DAY;
    var start := origin + 1000 * c;
    DaysFromIs(ts, origin, width);
    assert start % 1000 == origin % 1000;
    NoSlipOnStart(start, origin, width);
    NotSlippedIsFloor(start, origin, width);
    var k := c / m;
    assert c == k * m;
    assert 1000 * (k * m) == k * (width * MICROS_PER_DAY);
    FloorUnique(start - origin, width * MICROS_PER_DAY, k);
  }

  // ---------------------------------------------------------------- months

  /** The instant at which month `k` starts, in microseconds. */
  function MonthInstant(zone: int, k: int): int { Instant(zone, MonthStart(k), 0) * 1000 }

  /** The month of a timestamp. */
  function MonthAt(zone: int, ts: int): int { MonthOf(LocalDay(zone, ts / 1000)) }

  lemma {:induction false} MonthAtIs(zone: int, ts: int)
    ensures MonthInstant(zone, MonthAt(zone, ts)) <= ts < MonthInstant(zone, MonthAt(zone, ts) + 1)
  {
    hide MonthStart, MonthOf;
    var ms := ts / 1000;
    var day := LocalDay(zone, ms);
    assert day * MSECS_PER_DAY <= ms + zone < (day + 1) * MSECS_PER_DAY;
    var k := MonthAt(zone, ts);
    assert MonthStart(k) <= day < MonthStart(k + 1);
  }

  lemma {:induction false} MonthInstantsIncrease(zone: int, a: int, b: int)
    requires a <= b
    ensures MonthInstant(zone, a) <= MonthInstant(zone, b)
    ensures a < b ==> MonthInstant(zone, a) < MonthInstant(zone, b)
  {
    hide MonthStart;
    MonthsIncrease(a, b);
  }

  /** The start of a month is in that month. */
  lemma {:induction false} MonthAtStart(zone: int, k: int)
    ensures MonthAt(zone, MonthInstant(zone, k)) == k
    ensures LocalDay(zone, MonthInstant(zone, k) / 1000) == MonthStart(k)
    ensures LocalTime(zone, MonthInstant(zone, k) / 1000) == 0
  {
    hide MonthStart, MonthOf;
    var i := Instant(zone, MonthStart(k), 0);
    assert i * 1000 / 1000 == i;
    assert MonthStart(k) * MSECS_PER_DAY / MSECS_PER_DAY == MonthStart(k);
    MonthLength(k);
    MonthUnique(MonthStart(k), k);
  }

  /** From the start of a month, months are added to starts of months. */
  lemma {:induction false} PlusMonthsFromStart(zone: int, k: int, n: int)
    ensures PlusMonths(zone, Instant(zone, MonthStart(k), 0), n) == Instant(zone, MonthStart(k + n), 0)
  {
    hide MonthStart, MonthOf;
    MonthAtStart(zone, k);
    var i := Instant(zone, MonthStart(k), 0);
    assert i * 1000 / 1000 == i;
    MonthLength(k + n);
  }

  lemma {:induction false} MonthDifferenceOfStarts(zone: int, a: int, b: int)
    ensures MonthDifference(zone, Instant(zone, MonthStart(a), 0), Instant(zone, MonthStart(b), 0)) == b - a
  {
    hide MonthStart, MonthOf, PlusMonths;
    MonthAtStart(zone, a);
    MonthAtStart(zone, b);
    var i, j := Instant(zone, MonthStart(a), 0), Instant(zone, MonthStart(b), 0);
    assert i * 1000 / 1000 == i && j * 1000 / 1000 == j;
    PlusMonthsFromStart(zone, a, b - a);
  }

  /** The start of the month of a timestamp is not in 64 bits. */
  predicate MonthOverflows(zone: int, ts: int) { !Int64(MonthInstant(zone, MonthAt(zone, ts))) }

  /** TruncMonth: the calendar's time becomes the start of its month. */
  method TruncMonth(calendar: Calendar)
    modifies calendar
    ensures var zone := calendar.zone;
      calendar.millis == Instant(zone, MonthStart(MonthOf(LocalDay(zone, old(calendar.millis)))), 0)
  {
    calendar.SetMillis(Instant(calendar.zone, MonthStart(MonthOf(LocalDay(calendar.zone, calendar.millis))), 0));
  }

  /**
    SetTime, TruncMonth and GetTimeUnsafe: a timestamp at the start of its month. Microseconds are made of
    the milliseconds without a check; `None` is a product that 64 bits do not hold.
   */
  method Truncated(calendar: Calendar, ts: int) returns (r: Option<int>)
    modifies calendar
    ensures r == if MonthOverflows(calendar.zone, ts) then None
                 else Some(MonthInstant(calendar.zone, MonthAt(calendar.zone, ts)))
  {
    hide MonthStart, MonthOf;
    var micros := SetTime(calendar, ts);
    TruncMonth(calendar);
    var t := calendar.millis * 1000;
    return if Int64(t) then Some(t) else None;
  }

  /** The month of the bucket. */
  function BucketMonth(zone: int, width: int, ts: int, origin: int): int
    requires width > 0
  {
    MonthAt(zone, origin) + Floor(MonthAt(zone, ts) - MonthAt(zone, origin), width)
  }

  /** No step of the bucket of months that is checked leaves the range. */
  predicate MonthsFit(zone: int, width: int, ts: int, origin: int)
    requires width > 0
  {
    var a, b := MonthAt(zone, origin), MonthAt(zone, ts);
    && Int32(CDiv(b - a, width) * width) && Int32(Floor(b - a, width))
    && AddTo(zone, MonthInstant(zone, a), Interval(Floor(b - a, width), 0, 0)).Some?
  }

  lemma {:induction false} MonthInstantMillis(zone: int, k: int)
    ensures MonthInstant(zone, k) / 1000 == Instant(zone, MonthStart(k), 0) == CDiv(MonthInstant(zone, k), 1000)
  {
    hide MonthStart;
    var i := Instant(zone, MonthStart(k), 0);
    assert i * 1000 / 1000 == i;
  }

  lemma {:induction false} BucketMonthHolds(zone: int, width: int, ts: int, origin: int)
    requires width > 0
    ensures var k := BucketMonth(zone, width, ts, origin); MonthInstant(zone, k) <= ts < MonthInstant(zone, k + width)
  {
    hide MonthStart, MonthOf, Floor, MonthInstant, MonthAt;
    var a, b := MonthAt(zone, origin), MonthAt(zone, ts);
    FloorIs(b - a, width);
    MonthAtIs(zone, ts);
    MonthInstantsIncrease(zone, BucketMonth(zone, width, ts, origin), b);
    MonthInstantsIncrease(zone, b + 1, BucketMonth(zone, width, ts, origin) + width);
  }

  lemma {:induction false} AddMonthsToStart(zone: int, k: int, n: int)
    ensures var r := AddTo(zone, MonthInstant(zone, k), Interval(n, 0, 0));
      && (r.Some? ==> r.value == MonthInstant(zone, k + n))
      && (r.Some? <==> DateFits(MonthInstant(zone, k)) && DateFits(MonthInstant(zone, k + n)))
  {
    hide MonthStart, MonthOf, PlusMonths, DateFits;
    var i := Instant(zone, MonthStart(k), 0);
    MonthInstantMillis(zone, k);
    PlusMonthsFromStart(zone, k, n);
    assert Carried(i * 1000, 0) == (i, 0);
    assert i * 1000 % 1000 == 0;
    FitsInt64(MonthInstant(zone, k + n));
  }

  /** What becomes of a timestamp. `Overflowed`: a product that is not checked left 64 bits. */
  datatype Outcome = Bucket(ts: int) | Null | OutOfRange | Overflowed | BadWidth(reason: Classified)

  lemma StartsFit(zone: int, ts: int, origin: int)
    requires !MonthOverflows(zone, ts) && !MonthOverflows(zone, origin)
    ensures Int64(MonthInstant(zone, MonthAt(zone, ts))) && Int64(MonthInstant(zone, MonthAt(zone, origin)))
  {
  }

  /** WidthConvertibleToMonthsCommon */
  method MonthsBucket(calendar: Calendar, width: int, ts: int, origin: int) returns (r: Outcome)
    requires 0 < width <= INT32_MAX && Int64(ts) && Int64(origin)
    modifies calendar
    ensures r.Bucket? ==> r.ts == MonthInstant(calendar.zone, BucketMonth(calendar.zone, width, ts, origin))
    ensures r.Bucket? ==>
      r.ts <= ts < MonthInstant(calendar.zone, BucketMonth(calendar.zone, width, ts, origin) + width)
    ensures r == Overflowed <==> MonthOverflows(calendar.zone, ts) || MonthOverflows(calendar.zone, origin)
    ensures r != Overflowed ==> if MonthsFit(calendar.zone, width, ts, origin) then r.Bucket? else r == OutOfRange
  {
    hide MonthStart, MonthOf, CDiv, CMod, Floor, AddTo, MonthInstant, MonthAt, PlusMonths, MonthOverflows;
    var zone := calendar.zone;
    ghost var a, b := MonthAt(zone, origin), MonthAt(zone, ts);
    BucketMonthHolds(zone, width, ts, origin);
    var truncated := Truncated(calendar, ts);
    if truncated.None? { return Overflowed; }
    var start := Truncated(calendar, origin);
    if start.None? { return Overflowed; }
    StartsFit(zone, ts, origin);
    var rest := SetTime(calendar, start.value);
    MonthInstantMillis(zone, a);
    MonthInstantMillis(zone, b);
    MonthDifferenceOfStarts(zone, a, b);
    var months := calendar.FieldDifference(CDiv(truncated.value, 1000), Month);
    assert months == b - a;
    TruncatedFloor(months, width);
    var result := CDiv(months, width) * width;
    if !Int32(result) { return OutOfRange; }
    if months < 0 && CMod(months, width) != 0 {
      result := result - width;
      if !Int32(result) { return OutOfRange; }
    }
    AddMonthsToStart(zone, a, result);
    var sum := Add(calendar, start.value, Interval(result, 0, 0));
    return if sum.Some? then Bucket(sum.value) else OutOfRange;
  }

  // ---------------------------------------------------------------- all widths

  /** The start of the bucket of `ts`. */
  function BucketOf(zone: int, w: Interval, ts: int, origin: int): int
    requires Classify(w).Class?
  {
    match Classify(w).width
    case Micros => origin + Floor(ts - origin, w.micros)
    case Days => origin + Floor(ts - origin, w.days * MICROS_PER_DAY)
    case Months => MonthInstant(zone, BucketMonth(zone, w.months, ts, origin))
  }

  /** The start of the next bucket. */
  function NextBucket(zone: int, w: Interval, ts: int, origin: int): int
    requires Classify(w).Class?
  {
    match Classify(w).width
    case Micros => BucketOf(zone, w, ts, origin) + w.micros
    case Days => BucketOf(zone, w, ts, origin) + w.days * MICROS_PER_DAY
    case Months => MonthInstant(zone, BucketMonth(zone, w.months, ts, origin) + w.months)
  }

  /** No step of the bucket that is checked leaves the range. */
  predicate Fits(zone: int, w: Interval, ts: int, origin: int)
    requires Classify(w).Class?
  {
    match Classify(w).width
    case Micros => MicrosFit(zone, w.micros, ts, origin)
    case Days => DaysFit(zone, w.days, ts, origin)
    case Months => MonthsFit(zone, w.months, ts, origin)
  }

  /** A step of the bucket that is not checked leaves 64 bits. */
  predicate Overflows(zone: int, w: Interval, ts: int, origin: int) {
    Classify(w) == Class(Months) && (MonthOverflows(zone, ts) || MonthOverflows(zone, origin))
  }

  /** The bucket that is returned, if one is: the one after that of the timestamp where a day bucket slips. */
  function Returned(zone: int, w: Interval, ts: int, origin: int): Option<int>
    requires Classify(w).Class?
  {
    if Overflows(zone, w, ts, origin) || !Fits(zone, w, ts, origin) then None
    else if Classify(w) == Class(Days) then Some(origin + 1000 * DaysFrom(ts, origin, w.days))
    else Some(BucketOf(zone, w, ts, origin))
  }

  lemma ClassifyIs(w: Interval)
    ensures Classify(w) == Class(Micros) ==> w.micros > 0
    ensures Classify(w) == Class(Days) ==> w.days > 0
    ensures Classify(w) == Class(Months) ==> w.months > 0
  {
  }

  /** time_bucket with an origin. */
  method TimeBucketFrom(calendar: Calendar, w: Interval, ts: int, origin: int) returns (r: Outcome)
    requires IsInterval(w) && Int64(ts) && Int64(origin)
    modifies calendar
    ensures r == Null <==> !Finite(origin)
    ensures Finite(origin) ==> (r.BadWidth? <==> !Classify(w).Class?) && (r.BadWidth? ==> r.reason == Classify(w))
    ensures Finite(origin) && Classify(w).Class? && !Finite(ts) ==> r == Bucket(ts)
    ensures Finite(origin) && Classify(w).Class? && Finite(ts) ==>
            && (r == Overflowed <==> Overflows(calendar.zone, w, ts, origin))
            && (r == OutOfRange <==> !Overflows(calendar.zone, w, ts, origin) && !Fits(calendar.zone, w, ts, origin))
            && (r.Bucket? <==> Returned(calendar.zone, w, ts, origin).Some?)
    ensures r.Bucket? && Finite(ts) ==> Returned(calendar.zone, w, ts, origin) == Some(r.ts)
    ensures r.Bucket? && Finite(ts) && !(Classify(w) == Class(Days) && Slips(ts, origin, w.days)) ==>
            && r.ts == BucketOf(calendar.zone, w, ts, origin)
            && r.ts <= ts < NextBucket(calendar.zone, w, ts, origin)
  {
    hide Floor, MonthInstant, BucketMonth, Slips, DaysFrom, AddTo, Classify;
    hide MicrosFit, DaysFit, MonthsFit, MonthOverflows;
    ClassifyIs(w);
    if !Finite(origin) { return Null; }
    var c := Classify(w);
    if !c.Class? { return BadWidth(c); }
    if !Finite(ts) { return Bucket(ts); }
    var b: Option<int>;
    match c.width {
      case Micros => b := MicrosBucket(calendar, w.micros, ts, origin);
      case Days =>
        b := DaysBucket(calendar, w.days, ts, origin);
        if !Slips(ts, origin, w.days) { NotSlippedIsFloor(ts, origin, w.days); }
      case Months =>
        r := MonthsBucket(calendar, w.months, ts, origin);
        return;
    }
    return if b.Some? then Bucket(b.value) else OutOfRange;
  }

  /** Only within a month of the least number of 64 bits does the start of a month overflow. */
  lemma {:induction false} OverflowIsEarly(zone: int, ts: int)
    requires Int64(ts) && MonthOverflows(zone, ts)
    ensures ts < -INT64_MAX - 1 + 31 * MICROS_PER_DAY
  {
    hide MonthStart, MonthOf;
    var k := MonthAt(zone, ts);
    MonthAtIs(zone, ts);
    MonthLength(k);
  }

  lemma {:induction false} DefaultFits(zone: int)
    ensures !MonthOverflows(zone, DEFAULT_ORIGIN_MICROS_2)
  {
    hide MonthOverflows;
    if MonthOverflows(zone, DEFAULT_ORIGIN_MICROS_2) { OverflowIsEarly(zone, DEFAULT_ORIGIN_MICROS_2); }
  }

  /** time_bucket with its default origins: Monday 2000-01-03, or 2000-01-01 for months. */
  method TimeBucketDefault(calendar: Calendar, w: Interval, ts: int) returns (r: Outcome)
    requires IsInterval(w) && Int64(ts)
    modifies calendar
    ensures r.BadWidth? <==> !Classify(w).Class?
    ensures r.BadWidth? ==> r.reason == Classify(w)
    ensures Classify(w).Class? && !Finite(ts) ==> r == Bucket(ts)
    ensures Classify(w).Class? && Finite(ts) ==>
            var origin := if Classify(w) == Class(Months) then DEFAULT_ORIGIN_MICROS_2 else DEFAULT_ORIGIN_MICROS_1;
            && (r == Overflowed <==> Classify(w) == Class(Months) && MonthOverflows(calendar.zone, ts))
            && (r == OutOfRange <==> r != Overflowed && !Fits(calendar.zone, w, ts, origin))
            && (r.Bucket? ==> Returned(calendar.zone, w, ts, origin) == Some(r.ts))
    ensures r.Bucket? && Finite(ts) ==>
            var origin := if Classify(w) == Class(Months) then DEFAULT_ORIGIN_MICROS_2 else DEFAULT_ORIGIN_MICROS_1;
            && r.ts == BucketOf(calendar.zone, w, ts, origin)
            && r.ts <= ts < NextBucket(calendar.zone, w, ts, origin)
  {
    hide Floor, MonthInstant, BucketMonth, Slips, DaysFrom, AddTo, BucketOf, NextBucket, Classify, Fits, MonthOverflows;
    ClassifyIs(w);
    DefaultFits(calendar.zone);
    var origin := if Classify(w) == Class(Months) then DEFAULT_ORIGIN_MICROS_2 else DEFAULT_ORIGIN_MICROS_1;
    if Classify(w) == Class(Days) { WholeMillisecondOrigin(ts, origin, w.days); }
    r := TimeBucketFrom(calendar, w, ts, origin);
  }

  lemma {:induction false} FloorMonotone(x: int, y: int, w: int)
    requires x <= y && w > 0
    ensures Floor(x, w) <= Floor(y, w)
  {
    var p, q := x / w, y / w;
    assert x == p * w + x % w && y == q * w + y % w;
    assert (q + 1) * w == q * w + w;
    if q < p { MulLe(q + 1, p, w); } else { MulLe(p, q, w); }
  }

  lemma {:induction false} FloorIdempotent(x: int, w: int)
    requires w > 0
    ensures Floor(Floor(x, w), w) == Floor(x, w)
  {
    QuotientIs(x / w * w, w, x / w, 0);
  }

  lemma {:induction false} IdealMonotone(zone: int, w: Interval, ts: int, ts': int, origin: int)
    requires Classify(w).Class? && ts <= ts'
    ensures BucketOf(zone, w, ts, origin) <= BucketOf(zone, w, ts', origin)
  {
    hide Floor, MonthInstant, Classify, MonthOf, MonthStart;
    ClassifyIs(w);
    match Classify(w).width
    case Micros => FloorMonotone(ts - origin, ts' - origin, w.micros);
    case Days => FloorMonotone(ts - origin, ts' - origin, w.days * MICROS_PER_DAY);
    case Months =>
      var a, b, b' := MonthAt(zone, origin), MonthAt(zone, ts), MonthAt(zone, ts');
      MonthMonotone(LocalDay(zone, ts / 1000), LocalDay(zone, ts' / 1000));
      FloorMonotone(b - a, b' - a, w.months);
      MonthInstantsIncrease(zone, BucketMonth(zone, w.months, ts, origin), BucketMonth(zone, w.months, ts', origin));
  }

  /** Bucketing is monotone, and so is what is returned. */
  lemma {:induction false} BucketMonotone(zone: int, w: Interval, ts: int, ts': int, origin: int)
    requires Classify(w).Class? && ts <= ts'
    ensures BucketOf(zone, w, ts, origin) <= BucketOf(zone, w, ts', origin)
    ensures Returned(zone, w, ts, origin).Some? && Returned(zone, w, ts', origin).Some? ==>
      Returned(zone, w, ts, origin).value <= Returned(zone, w, ts', origin).value
  {
    hide BucketOf, Classify, DaysFrom, Fits, Overflows;
    ClassifyIs(w);
    IdealMonotone(zone, w, ts, ts', origin);
    if Classify(w) == Class(Days) { DaysMonotone(ts, ts', origin, w.days); }
  }

  lemma {:induction false} IdealIdempotent(zone: int, w: Interval, ts: int, origin: int)
    requires Classify(w).Class?
    ensures BucketOf(zone, w, BucketOf(zone, w, ts, origin), origin) == BucketOf(zone, w, ts, origin)
  {
    hide Floor, MonthInstant, Classify, MonthAt;
    ClassifyIs(w);
    match Classify(w).width
    case Micros => FloorIdempotent(ts - origin, w.micros);
    case Days => FloorIdempotent(ts - origin, w.days * MICROS_PER_DAY);
    case Months =>
      MonthAtStart(zone, BucketMonth(zone, w.months, ts, origin));
      FloorIdempotent(MonthAt(zone, ts) - MonthAt(zone, origin), w.months);
  }

  lemma {:induction false} MicrosAgain(zone: int, width: int, ts: int, origin: int)
    requires width > 0 && MicrosFit(zone, width, ts, origin)
    ensures MicrosFit(zone, width, origin + Floor(ts - origin, width), origin)
  {
    hide Floor, AddTo;
    FloorIdempotent(ts - origin, width);
  }

  /** What is added is in 64 bits. */
  lemma AddInRange(zone: int, ts: int, i: Interval)
    requires Int64(ts)
    ensures AddTo(zone, ts, i).Some? ==> Int64(AddTo(zone, ts, i).value)
  {
  }

  lemma {:induction false} WholeQuotient(x: int, w: int)
    requires w > 0
    ensures CDiv(Floor(x, w), w) * w == Floor(x, w)
  {
    hide Floor, CDiv, CMod;
    var f := Floor(x, w);
    FloorIdempotent(x, w);
    TruncatedFloor(f, w);
    CDivMod(f, w);
  }

  lemma {:induction false} MonthsAgain(zone: int, width: int, ts: int, origin: int)
    requires width > 0 && MonthsFit(zone, width, ts, origin) && !MonthOverflows(zone, origin)
    ensures var b := MonthInstant(zone, BucketMonth(zone, width, ts, origin));
      MonthsFit(zone, width, b, origin) && !MonthOverflows(zone, b)
  {
    hide Floor, AddTo, MonthInstant, MonthAt, CDiv, CMod;
    var a, k := MonthAt(zone, origin), BucketMonth(zone, width, ts, origin);
    var n := Floor(MonthAt(zone, ts) - a, width);
    MonthAtStart(zone, k);
    FloorIdempotent(MonthAt(zone, ts) - a, width);
    AddMonthsToStart(zone, a, n);
    AddInRange(zone, MonthInstant(zone, a), Interval(n, 0, 0));
    WholeQuotient(MonthAt(zone, ts) - a, width);
  }

  lemma CarriedNothing(x: int)
    ensures Carried(x, 0) == (x / 1000, x % 1000)
  {
  }

  lemma FitsFloor(ts: int, ms: int)
    requires 1000 * ms <= ts < 1000 * ms + 1000
    ensures DateFits(ts) ==> Int64(1000 * ms) && DateFits(1000 * ms)
  {
    DateRange(ts);
    DateRange(1000 * ms);
  }

  /** Adding days only fails if the milliseconds of the timestamp or the sum are out of range. */
  lemma {:induction false} AddDaysFits(zone: int, x: int, days: int)
    requires Finite(x)
    ensures AddTo(zone, x, Interval(0, days, 0)).Some? <==>
      DateFits(x / 1000 * 1000) && DateFits(x + days * MICROS_PER_DAY)
  {
    hide AddTo, DateFits, Carried;
    var sum := x + days * MICROS_PER_DAY;
    AddIsLinear(zone, x, days, 0);
    CarriedNothing(x);
    DateRange(sum);
    assert x == x / 1000 * 1000 + x % 1000;
    assert sum - x % 1000 == 1000 * (x / 1000 + days * MSECS_PER_DAY);
    FitsFloor(sum, x / 1000 + days * MSECS_PER_DAY);
  }

  lemma {:induction false} MultipleNear(k: int, p: int, m: int, y: int)
    requires m > 1 && (y == k * m || y == k * m + 1)
    requires if y >= 0 then p * m <= y < p * m + m else p * m - m < y <= p * m
    ensures p * m == k * m || (p * m == k * m + m && k * m + m <= 0)
  {
    assert (k + 1) * m == k * m + m && (k - 1) * m == k * m - m && (k + 2) * m == k * m + 2 * m;
    if p < k { MulLe(p, k - 1, m); }
    if p > k + 1 { MulLe(k + 2, p, m); }
    if k >= 0 { MulLe(0, k, m); } else { MulLe(k, -1, m); MulLe(k + 1, 0, m); }
  }

  /** The first guess for the start of a day bucket is that start, or the next one if that is up to the origin. */
  lemma {:induction false} GuessOfStart(c: int, origin: int, width: int)
    requires width > 0 && c % (width * MSECS_PER_DAY) == 0
    ensures var m, guess := width * MSECS_PER_DAY, DaysGuess(origin + 1000 * c, origin, width) * MSECS_PER_DAY;
      guess == c || (guess == c + m <= 0)
  {
    var m, b := width * MSECS_PER_DAY, origin + 1000 * c;
    var y := MillisApart(b, origin);
    assert y == c || y == c + 1 by {
      assert b / 1000 == origin / 1000 + c;
      CDivMod(b, 1000);
    }
    var k := c / m;
    assert c == k * m;
    var p := CDiv(y, m);
    assert p * width * MSECS_PER_DAY == p * m;
    hide CDiv, CMod;
    NextMultiple(y, m);
    MultipleNear(k, p, m, y);
  }

  /** When day buckets are in range: the origin, the first guess and, after a step back, the bucket. */
  lemma {:induction false} DaysFitIs(zone: int, width: int, ts: int, origin: int)
    requires width > 0 && Finite(origin)
    ensures DaysFit(zone, width, ts, origin) <==>
      && Int32(DaysGuess(ts, origin, width)) && DateFits(origin / 1000 * 1000)
      && DateFits(origin + DaysGuess(ts, origin, width) * MICROS_PER_DAY)
      && DateFits(origin + 1000 * DaysFrom(ts, origin, width))
  {
    hide AddTo, DateFits, CDiv;
    var days := DaysGuess(ts, origin, width);
    var guess := origin + days * MICROS_PER_DAY;
    DaysInMillis(CDiv(MillisApart(ts, origin), width * MSECS_PER_DAY), width);
    AddDaysFits(zone, origin, days);
    if DateFits(guess) {
      FitsFinite(guess);
      AddDaysFits(zone, guess, -width);
      FitsFloor(guess, guess / 1000);
    }
  }

  lemma {:induction false} DaysAgain(zone: int, width: int, ts: int, origin: int)
    requires width > 0 && Int64(origin) && Finite(origin) && DaysFit(zone, width, ts, origin)
    ensures DaysFit(zone, width, origin + 1000 * DaysFrom(ts, origin, width), origin)
  {
    hide DaysFit, DaysFrom, DaysGuess, DateFits, Slips;
    var c, b := DaysFrom(ts, origin, width), origin + 1000 * DaysFrom(ts, origin, width);
    var guess := origin + DaysGuess(b, origin, width) * MICROS_PER_DAY;
    DaysFitIs(zone, width, ts, origin);
    DaysFitIs(zone, width, b, origin);
    DaysFromIs(ts, origin, width);
    DaysIdempotent(ts, origin, width);
    GuessOfStart(c, origin, width);
    DateRange(b);
    DateRange(guess);
    DateRange(origin / 1000 * 1000);
  }

  /** The start of a bucket is in that bucket, and what is returned is returned for itself. */
  lemma {:induction false} BucketIdempotent(zone: int, w: Interval, ts: int, origin: int)
    requires Classify(w).Class?
    ensures BucketOf(zone, w, BucketOf(zone, w, ts, origin), origin) == BucketOf(zone, w, ts, origin)
    ensures Int64(origin) && Finite(origin) && Returned(zone, w, ts, origin).Some? ==>
      Returned(zone, w, Returned(zone, w, ts, origin).value, origin) == Returned(zone, w, ts, origin)
  {
    hide Classify, DaysFrom, Slips, MicrosFit, DaysFit, MonthsFit, MonthOverflows, Floor, MonthInstant, BucketMonth;
    ClassifyIs(w);
    IdealIdempotent(zone, w, ts, origin);
    if Int64(origin) && Finite(origin) && Returned(zone, w, ts, origin).Some? {
      match Classify(w).width
      case Micros => MicrosAgain(zone, w.micros, ts, origin);
      case Days =>
        DaysAgain(zone, w.days, ts, origin);
        DaysIdempotent(ts, origin, w.days);
      case Months => MonthsAgain(zone, w.months, ts, origin);
    }
  }

  // ---------------------------------------------------------------- where the start of a month overflows

  /** What a product of 64 bits comes to if it wraps around. */
  function Wrapped(x: int): int { (x + INT64_MAX + 1) % (2 * INT64_MAX + 2) - INT64_MAX - 1 }

  lemma {:induction false} WrappedBelow(x: int)
    requires -3 * INT64_MAX < x < -INT64_MAX - 1
    ensures Wrapped(x) == x + 2 * INT64_MAX + 2
  {
    QuotientIs(x + INT64_MAX + 1, 2 * INT64_MAX + 2, -1, x + INT64_MAX + 1 + 2 * INT64_MAX + 2);
  }

  /** Whole months from the start of a month to a later instant. */
  lemma {:induction false} MonthDifferenceFromStart(zone: int, a: int, ms: int)
    requires Instant(zone, MonthStart(a), 0) <= ms
    ensures MonthDifference(zone, Instant(zone, MonthStart(a), 0), ms) == MonthOf(LocalDay(zone, ms)) - a
  {
    hide MonthStart, MonthOf, PlusMonths;
    var i, k := Instant(zone, MonthStart(a), 0), MonthOf(LocalDay(zone, ms));
    assert i * 1000 / 1000 == i && ms * 1000 / 1000 == ms;
    MonthAtStart(zone, a);
    MonthAtIs(zone, ms * 1000);
    PlusMonthsFromStart(zone, a, k - a);
    MonthMonotone(LocalDay(zone, i), LocalDay(zone, ms));
  }

  /** The start of the month of a timestamp, as the wrapped product. */
  function WrappedStart(zone: int, ts: int): int { Wrapped(MonthInstant(zone, MonthAt(zone, ts))) }

  lemma {:induction false} WrappedStartIs(zone: int, ts: int)
    requires Int64(ts) && MonthOverflows(zone, ts)
    ensures WrappedStart(zone, ts) == MonthInstant(zone, MonthAt(zone, ts)) + 2 * INT64_MAX + 2 > 0 > ts
  {
    hide MonthStart, MonthOf;
    OverflowIsEarly(zone, ts);
    MonthAtIs(zone, ts);
    MonthLength(MonthAt(zone, ts));
    WrappedBelow(MonthInstant(zone, MonthAt(zone, ts)));
  }

  lemma {:induction false} WrappedMonths(zone: int, ts: int, origin: int)
    requires Int64(ts) && MonthOverflows(zone, ts)
    requires MonthInstant(zone, MonthAt(zone, origin)) <= WrappedStart(zone, ts)
    ensures var v, a := WrappedStart(zone, ts), MonthAt(zone, origin);
      MonthDifference(zone, MonthInstant(zone, a) / 1000, CDiv(v, 1000)) == MonthAt(zone, v) - a
  {
    hide MonthStart, MonthOf, MonthOverflows, Wrapped;
    var v, a := WrappedStart(zone, ts), MonthAt(zone, origin);
    WrappedStartIs(zone, ts);
    MonthInstantMillis(zone, a);
    assert CDiv(v, 1000) == v / 1000;
    MonthDifferenceFromStart(zone, a, v / 1000);
  }

  lemma {:induction false} FloorStep(x: int, y: int, w: int)
    requires w > 0 && Floor(x, w) < Floor(y, w)
    ensures Floor(x, w) + w <= Floor(y, w)
  {
    var p, q := x / w, y / w;
    if q <= p { MulLe(q, p, w); }
    MulLe(p + 1, q, w);
    assert (p + 1) * w == p * w + w;
  }

  lemma {:induction false} BucketMonthApart(zone: int, width: int, ts: int, v: int, origin: int)
    requires width > 0 && ts <= v
    ensures var k, k' := BucketMonth(zone, width, ts, origin), BucketMonth(zone, width, v, origin);
      k != k' ==> MonthInstant(zone, k') > ts
  {
    hide Floor, MonthInstant, MonthOf, MonthStart;
    var a, b, b' := MonthAt(zone, origin), MonthAt(zone, ts), MonthAt(zone, v);
    MonthMonotone(LocalDay(zone, ts / 1000), LocalDay(zone, v / 1000));
    FloorMonotone(b - a, b' - a, width);
    BucketMonthHolds(zone, width, ts, origin);
    if BucketMonth(zone, width, ts, origin) != BucketMonth(zone, width, v, origin) {
      FloorStep(b - a, b' - a, width);
      MonthInstantsIncrease(zone, BucketMonth(zone, width, ts, origin) + width, BucketMonth(zone, width, v, origin));
    }
  }

  /**
    If the product wraps around and the checks that follow pass, the bucket is that of the wrapped start of
    the month, centuries of millennia later, and holds the timestamp only if that is the same bucket.
   */
  lemma {:induction false} WrappedBucket(zone: int, width: int, ts: int, origin: int)
    requires width > 0 && Int64(ts) && MonthOverflows(zone, ts)
    requires MonthInstant(zone, MonthAt(zone, origin)) <= WrappedStart(zone, ts)
    ensures var v, a := WrappedStart(zone, ts), MonthAt(zone, origin);
      var months := MonthDifference(zone, MonthInstant(zone, a) / 1000, CDiv(v, 1000));
      var r := AddTo(zone, MonthInstant(zone, a), Interval(Floor(months, width), 0, 0));
      r.Some? ==> && r.value == MonthInstant(zone, BucketMonth(zone, width, v, origin))
                  && (r.value <= ts <==> BucketMonth(zone, width, v, origin) == BucketMonth(zone, width, ts, origin))
  {
    hide AddTo, MonthInstant, MonthAt, Floor, MonthOverflows, WrappedStart, MonthDifference, CDiv;
    var v, a := WrappedStart(zone, ts), MonthAt(zone, origin);
    WrappedMonths(zone, ts, origin);
    AddMonthsToStart(zone, a, Floor(MonthAt(zone, v) - a, width));
    BucketMonthHolds(zone, width, ts, origin);
    WrappedStartIs(zone, ts);
    BucketMonthApart(zone, width, ts, v, origin);
  }

  lemma {:induction false} LeastMonth()
    ensures MonthInstant(0, MonthAt(0, MIN_TIMESTAMP)) == -9_223_373_836_800_000_000
  {
    hide MonthOf;
    assert MIN_TIMESTAMP / 1000 == -106_751_991 * MSECS_PER_DAY;
    assert LocalDay(0, MIN_TIMESTAMP / 1000) == -106_751_991;
    assert MonthStart(-3_483_685) == -106_752_012 && MonthStart(-3_483_684) == -106_751_981;
    MonthUnique(-106_751_991, -3_483_685);
  }

  lemma {:induction false} WrappedMonth(v: int)
    requires v == 9_223_370_236_909_551_616
    ensures MonthAt(0, v) == 3_530_963 && MonthInstant(0, 3_530_963) == 9_223_368_566_400_000_000
  {
    hide MonthOf;
    assert LocalDay(0, v / 1000) == 106_751_970;
    assert MonthStart(3_530_963) == 106_751_951 && MonthStart(3_530_964) == 106_751_982;
    MonthUnique(106_751_970, 3_530_963);
  }

  lemma {:induction false} DefaultMonth()
    ensures MonthAt(0, DEFAULT_ORIGIN_MICROS_2) == 24_000 && MonthInstant(0, 24_000) == DEFAULT_ORIGIN_MICROS_2
  {
    hide MonthOf;
    assert DEFAULT_ORIGIN_MICROS_2 / 1000 == 10_957 * MSECS_PER_DAY;
    assert LocalDay(0, DEFAULT_ORIGIN_MICROS_2 / 1000) == 10_957;
    assert MonthStart(24_000) == 10_957 && MonthStart(24_001) == 10_988;
    MonthUnique(10_957, 24_000);
  }

  lemma {:induction false} AddManyMonths()
    ensures AddTo(0, DEFAULT_ORIGIN_MICROS_2, Interval(3_506_963, 0, 0)) == Some(9_223_368_566_400_000_000)
  {
    hide AddTo, MonthInstant, MonthAt, DateFits;
    DefaultMonth();
    WrappedMonth(9_223_370_236_909_551_616);
    AddMonthsToStart(0, 24_000, 3_506_963);
    DateRange(DEFAULT_ORIGIN_MICROS_2);
    DateRange(9_223_368_566_400_000_000);
  }

  /** The least timestamp, in buckets of one month: if the product wraps, its bucket is in the year 294246. */
  lemma {:induction false} LeastTimestamp()
    ensures Int64(MIN_TIMESTAMP) && Finite(MIN_TIMESTAMP) && MonthOverflows(0, MIN_TIMESTAMP)
    ensures var v, start := WrappedStart(0, MIN_TIMESTAMP), MonthInstant(0, MonthAt(0, DEFAULT_ORIGIN_MICROS_2));
      var months := MonthDifference(0, start / 1000, CDiv(v, 1000));
      && Int32(months) && Floor(months, 1) == months
      && AddTo(0, start, Interval(months, 0, 0)) == Some(9_223_368_566_400_000_000)
  {
    hide MonthAt, MonthInstant, AddTo, Wrapped, MonthDifference;
    LeastMonth();
    WrappedBelow(-9_223_373_836_800_000_000);
    WrappedMonth(WrappedStart(0, MIN_TIMESTAMP));
    DefaultMonth();
    WrappedMonths(0, MIN_TIMESTAMP, DEFAULT_ORIGIN_MICROS_2);
    AddManyMonths();
  }
}
