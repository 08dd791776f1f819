/**
 Civil dates: the second-by-second decoding of a Macintosh time stamp and the
 closed form that turns a civil date into an AmigaDOS day number.
 */
module Calendar {
  import opened Basics

  /** Seconds from 1904-01-01 (the Macintosh epoch) to 1970-01-01. */
  const MAC_EPOCH: int := 2082844800
  const SECONDS_A_DAY: int := 86400
  /** Days from 1970-01-01 to 1978-01-01. */
  const AMIGA_EPOCH_DAYS: int := 2922
  const TICKS_PER_SECOND: int := 50

  type Uint32 = x: int | 0 <= x < 0x1_0000_0000

  datatype Date = Date(year: int, month: int, day: int)
  datatype Timestamp = Timestamp(date: Date, hour: int, minute: int, second: int)
  datatype DateStamp = DateStamp(days: int, minute: int, tick: int)
  /** The all-zero time stamp left for a time before 1970. */
  const NO_TIME: Timestamp := Timestamp(Date(0, 0, 0), 0, 0, 0)
  const AMIGA_EPOCH: Date := Date(1978, 1, 1)

  // ----- the Gregorian calendar -----

  predicate IsLeap(year: int) {
    year % 4 == 0 && (year % 100 != 0 || year % 400 == 0)
  }

  function YearDays(year: int): int {
    if IsLeap(year) then 366 else 365
  }

  function MonthDays(year: int, month: int): int
    requires 1 <= month <= 12
  {
    if month == 2 then (if IsLeap(year) then 29 else 28)
    else if month == 4 || month == 6 || month == 9 || month == 11 then 30
    else 31
  }

  predicate ValidDate(d: Date) {
    1 <= d.month <= 12 && 1 <= d.day <= MonthDays(d.year, d.month)
  }

  /** The day after a valid date. */
  function Next(d: Date): (r: Date)
    requires ValidDate(d)
    ensures ValidDate(r)
  {
    if d.day < MonthDays(d.year, d.month) then d.(day := d.day + 1)
    else if d.month < 12 then Date(d.year, d.month + 1, 1)
    else Date(d.year + 1, 1, 1)
  }

  /** The n-th day after 1978-01-01, found by walking the calendar. */
  function NthDay(n: nat): (r: Date)
    ensures ValidDate(r)
  {
    if n == 0 then AMIGA_EPOCH else Next(NthDay(n - 1))
  }

  predicate Before(a: Date, b: Date) {
    a.year < b.year
    || (a.year == b.year && (a.month < b.month || (a.month == b.month && a.day < b.day)))
  }

  // ----- the closed form -----

  /** Division as C does it, toward zero. */
  function CDiv(a: int, b: int): int
    requires b > 0
  {
    if a >= 0 then a / b else -((-a) / b)
  }

  /** The year, shifted to start in March. */
  function ShiftedYear(d: Date): int {
    if d.month <= 2 then d.year - 1 else d.year
  }

  function Era(y: int): int {
    CDiv(if y >= 0 then y else y - 399, 400)
  }

  function YearOfEra(y: int): int {
    y - Era(y) * 400
  }

  function DayOfYear(d: Date): int {
    CDiv(153 * (d.month + (if d.month > 2 then -3 else 9)) + 2, 5) + d.day - 1
  }

  function DayOfEra(d: Date): int {
    var yoe := YearOfEra(ShiftedYear(d));
    yoe * 365 + CDiv(yoe, 4) - CDiv(yoe, 100) + DayOfYear(d)
  }

  /** Days since 1978-01-01. */
  function DaysSince1978(d: Date): int {
    Era(ShiftedYear(d)) * 146097 + DayOfEra(d) - 719468 - AMIGA_EPOCH_DAYS
  }

  /** Leap days before the March that starts shifted year y, for any y. */
  function LeapDays(y: int): int {
    y / 4 - y / 100 + y / 400
  }

  /** Days before the month in the year that starts in March. */
  function DaysToMonth(month: int): int {
    (153 * (if month > 2 then month - 3 else month + 9) + 2) / 5
  }

  /** The eras drop out: the closed form is the same sum for every year. */
  lemma {:induction false} ClosedFormUnfolds(d: Date)
    requires 1 <= d.month <= 12
    ensures var y := if d.month <= 2 then d.year - 1 else d.year;
            DaysSince1978(d) == y * 365 + LeapDays(y) + DaysToMonth(d.month) + d.day - 1
                                - 719468 - AMIGA_EPOCH_DAYS
  {
    var y := if d.month <= 2 then d.year - 1 else d.year;
    var era := y / 400;
    assert CDiv(if y >= 0 then y else y - 399, 400) == era;
    var yoe := y - era * 400;
    assert yoe / 4 == y / 4 - era * 100;
    assert yoe / 100 == y / 100 - era * 4;
  }

  /** A quotient grows by one exactly at the multiples of the divisor. */
  lemma {:induction false} QuotientSteps(y: int, k: int)
    requires k == 4 || k == 100 || k == 400
    ensures y / k == (y - 1) / k + (if y % k == 0 then 1 else 0)
  {
    if k == 4 {
      assert y / 4 == (y - 1) / 4 + (if y % 4 == 0 then 1 else 0);
    } else if k == 100 {
      assert y / 100 == (y - 1) / 100 + (if y % 100 == 0 then 1 else 0);
    } else {
      assert y / 400 == (y - 1) / 400 + (if y % 400 == 0 then 1 else 0);
    }
  }

  lemma {:induction false} Centuries(y: int)
    ensures y % 100 == 0 ==> y % 4 == 0
    ensures y % 400 == 0 ==> y % 100 == 0
  {
    if y % 100 == 0 {
      assert y == 4 * (25 * (y / 100));
    }
    if y % 400 == 0 {
      assert y == 100 * (4 * (y / 400));
    }
  }

  lemma {:induction false} LeapDayOfYear(year: int)
    ensures LeapDays(year) == LeapDays(year - 1) + (if IsLeap(year) then 1 else 0)
  {
    QuotientSteps(year, 4);
    QuotientSteps(year, 100);
    QuotientSteps(year, 400);
    Centuries(year);
  }

  /** Month lengths outside February, in the year that starts in March. */
  lemma {:induction false} MonthLengths(year: int, month: int)
    requires 1 <= month < 12 && month != 2
    ensures DaysToMonth(month + 1) == DaysToMonth(month) + MonthDays(year, month)
  {
  }

  lemma {:induction false} MonthStarts(year: int, month: int)
    requires 1 <= month < 12
    ensures DaysSince1978(Date(year, month + 1, 1))
         == DaysSince1978(Date(year, month, 1)) + MonthDays(year, month)
  {
    ClosedFormUnfolds(Date(year, month, 1));
    ClosedFormUnfolds(Date(year, month + 1, 1));
    if month == 2 {
      LeapDayOfYear(year);
    } else {
      MonthLengths(year, month);
    }
  }

  lemma {:induction false} YearStarts(year: int)
    ensures DaysSince1978(Date(year + 1, 1, 1)) == DaysSince1978(Date(year, 12, 1)) + 31
    ensures DaysSince1978(Date(year + 1, 1, 1)) == DaysSince1978(Date(year, 1, 1)) + YearDays(year)
  {
    ClosedFormUnfolds(Date(year, 1, 1));
    ClosedFormUnfolds(Date(year, 12, 1));
    ClosedFormUnfolds(Date(year + 1, 1, 1));
    LeapDayOfYear(year);
  }

  lemma {:induction false} DayOffset(d: Date)
    requires 1 <= d.month <= 12
    ensures DaysSince1978(d) == DaysSince1978(d.(day := 1)) + d.day - 1
  {
    ClosedFormUnfolds(d);
    ClosedFormUnfolds(d.(day := 1));
  }

  /** Every valid date of any Gregorian year is one more than the day before it. */
  lemma {:induction false} ClosedFormAdvances(d: Date)
    requires ValidDate(d)
    ensures DaysSince1978(Next(d)) == DaysSince1978(d) + 1
  {
    DayOffset(d);
    DayOffset(Next(d));
    if d.day == MonthDays(d.year, d.month) {
      if d.month < 12 {
        MonthStarts(d.year, d.month);
      } else {
        YearStarts(d.year);
      }
    }
  }

  /** The closed form counts the days of the calendar. */
  lemma {:induction false} ClosedFormCountsDays(n: nat)
    ensures DaysSince1978(NthDay(n)) == n
  {
    if n == 0 {
    } else {
      ClosedFormCountsDays(n - 1);
      ClosedFormAdvances(NthDay(n - 1));
    }
  }

  lemma {:induction false} MonthStartsGrow(year: int, m: int, n: int)
    requires 1 <= m < n <= 12
    ensures DaysSince1978(Date(year, m, 1)) + MonthDays(year, m) <= DaysSince1978(Date(year, n, 1))
    decreases n
  {
    MonthStarts(year, n - 1);
    if m < n - 1 {
      MonthStartsGrow(year, m, n - 1);
    }
  }

  lemma {:induction false} YearStartsGrow(a: int, b: int)
    requires a <= b
    ensures DaysSince1978(Date(a, 1, 1)) <= DaysSince1978(Date(b, 1, 1))
    decreases b - a
  {
    if a < b {
      YearStarts(b - 1);
      YearStartsGrow(a, b - 1);
    }
  }

  lemma {:induction false} WithinYear(d: Date)
    requires ValidDate(d)
    ensures DaysSince1978(Date(d.year, 1, 1)) <= DaysSince1978(d) < DaysSince1978(Date(d.year + 1, 1, 1))
  {
    hide DaysSince1978;
    DayOffset(d);
    YearStarts(d.year);
    if d.month > 1 {
      MonthStartsGrow(d.year, 1, d.month);
    }
    if d.month < 12 {
      MonthStartsGrow(d.year, d.month, 12);
    }
  }

  /** The closed form orders valid dates as the calendar does, so it is injective on them. */
  lemma {:induction false} ClosedFormOrders(a: Date, b: Date)
    requires ValidDate(a) && ValidDate(b)
    ensures Before(a, b) <==> DaysSince1978(a) < DaysSince1978(b)
    ensures a == b <==> DaysSince1978(a) == DaysSince1978(b)
  {
    if Before(a, b) {
      ClosedFormGrows(a, b);
    } else if Before(b, a) {
      ClosedFormGrows(b, a);
    }
  }

  lemma {:induction false} ClosedFormGrows(a: Date, b: Date)
    requires ValidDate(a) && ValidDate(b) && Before(a, b)
    ensures DaysSince1978(a) < DaysSince1978(b)
  {
    if a.year < b.year {
      WithinYear(a);
      WithinYear(b);
      YearStartsGrow(a.year + 1, b.year);
    } else {
      DayOffset(a);
      DayOffset(b);
      if a.month < b.month {
        MonthStartsGrow(a.year, a.month, b.month);
      }
    }
  }

  /** Every date from 1978 on is the day its own closed form names. */
  lemma {:induction false} ClosedFormInverse(d: Date)
    requires ValidDate(d)
    ensures DaysSince1978(d) >= 0 <==> d.year >= 1978
    ensures d.year >= 1978 ==> NthDay(DaysSince1978(d)) == d
  {
    var n := DaysSince1978(d);
    ClosedFormOrders(d, AMIGA_EPOCH);
    if n >= 0 {
      ClosedFormCountsDays(n);
      ClosedFormOrders(NthDay(n), d);
    }
  }

  predicate FitsLong(x: int) {
    -0x8000_0000 <= x < 0x8000_0000
  }

  /** Years and days within eras have their ranges, and no value on the way to
      the day number leaves a 32-bit LONG, for years within five million of zero. */
  lemma {:induction false} ClosedFormFitsLong(d: Date)
    requires ValidDate(d) && -5_000_000 <= d.year <= 5_000_000
    ensures var y, doy := ShiftedYear(d), DayOfYear(d);
            var era, yoe, doe := Era(y), YearOfEra(y), DayOfEra(d);
            && 0 <= yoe < 400 && 0 <= doy < 366 && 0 <= doe < 146097
            && FitsLong(y - 399) && FitsLong(era * 400) && FitsLong(era * 146097) && FitsLong(yoe * 365)
            && FitsLong(era * 146097 + doe) && FitsLong(era * 146097 + doe - 719468) && FitsLong(DaysSince1978(d))
  {
    EraOf(ShiftedYear(d));
    WithinShiftedYear(d);
    var yoe := YearOfEra(ShiftedYear(d));
    assert yoe / 4 <= 99 && (yoe < 300 ==> yoe / 4 <= 74) && (yoe >= 300 ==> yoe / 100 == 3);
  }

  lemma {:induction false} EraOf(y: int)
    ensures Era(y) == y / 400 && YearOfEra(y) == y % 400
  {
  }

  lemma {:induction false} WithinShiftedYear(d: Date)
    requires ValidDate(d)
    ensures 0 <= DayOfYear(d) < 366
  {
  }

  // ----- Macintosh times -----

  /** The instant a time stamp names, in seconds since 1970-01-01. */
  function UnixSeconds(t: Timestamp): int {
    (DaysSince1978(t.date) + AMIGA_EPOCH_DAYS) * SECONDS_A_DAY + t.hour * 3600 + t.minute * 60 + t.second
  }

  predicate ValidTime(t: Timestamp) {
    ValidDate(t.date) && 0 <= t.hour < 24 && 0 <= t.minute < 60 && 0 <= t.second < 60
  }

  /** First day of the month that follows month0 whole months of a year. */
  function MonthStart(year: int, month0: int): int
    requires 0 <= month0 <= 12
  {
    DaysSince1978(if month0 == 12 then Date(year + 1, 1, 1) else Date(year, month0 + 1, 1))
  }

  lemma {:induction false} ClockTime(rem: int)
    requires 0 <= rem < SECONDS_A_DAY
    ensures 0 <= rem / 3600 < 24 && 0 <= rem % 3600 / 60 < 60 && 0 <= rem % 60 < 60
    ensures rem / 3600 * 3600 + rem % 3600 / 60 * 60 + rem % 60 == rem
  {
    var h := rem / 3600;
    var r := rem - h * 3600;
    assert r == rem % 3600;
    assert rem % 60 == r % 60;
  }

  method FromMacTime(macSecs: Uint32) returns (t: Timestamp)
    ensures macSecs < MAC_EPOCH ==> t == NO_TIME
    ensures macSecs >= MAC_EPOCH ==> ValidTime(t) && UnixSeconds(t) == macSecs - MAC_EPOCH
  {
    if macSecs < MAC_EPOCH {
      return NO_TIME;
    }
    var unixSecs := macSecs - MAC_EPOCH;
    var days := unixSecs / SECONDS_A_DAY;
    var rem := unixSecs % SECONDS_A_DAY;
    ghost var total := days - AMIGA_EPOCH_DAYS;

    var year := 1970;
    while days >= YearDays(year)
      invariant 0 <= days && year >= 1970
      invariant days + DaysSince1978(Date(year, 1, 1)) == total
      decreases days
    {
      YearStarts(year);
      days := days - YearDays(year);
      year := year + 1;
    }

    YearStarts(year);
    var month := 0;
    while month < 12 && days >= MonthDays(year, month + 1)
      invariant 0 <= month <= 12 && 0 <= days
      invariant days + MonthStart(year, month) == total
      invariant total < MonthStart(year, 12)
    {
      if month < 11 {
        MonthStarts(year, month + 1);
      }
      days := days - MonthDays(year, month + 1);
      month := month + 1;
    }

    t := Timestamp(Date(year, month + 1, days + 1), rem / 3600, rem % 3600 / 60, rem % 60);
    DayOffset(t.date);
    ClockTime(rem);
  }

  /** A valid time stamp is the only one naming its instant. */
  lemma {:induction false} InstantDeterminesTimestamp(a: Timestamp, b: Timestamp)
    requires ValidTime(a) && ValidTime(b) && UnixSeconds(a) == UnixSeconds(b)
    ensures a == b
  {
    assert DaysSince1978(a.date) == DaysSince1978(b.date);
    ClosedFormOrders(a.date, b.date);
  }

  /** The AmigaDOS form of a time stamp; times before 1978 have none. */
  function ToDateStamp(t: Timestamp): Option<DateStamp> {
    if t.date.year < 1978 || t.date.month < 1 || t.date.month > 12 || t.date.day < 1 || t.date.day > 31
       || t.hour > 23 || t.minute > 59 || t.second > 59
    then None
    else Some(DateStamp(DaysSince1978(t.date), t.hour * 60 + t.minute, t.second * TICKS_PER_SECOND))
  }

  /** Seconds since the AmigaDOS epoch that a date stamp stands for. */
  function StampSeconds(s: DateStamp): int {
    s.days * SECONDS_A_DAY + s.minute * 60 + s.tick / TICKS_PER_SECOND
  }

  /** A decoded time has an AmigaDOS form exactly when it lies in 1978 or
      later, and that form gives the original second count back. */
  lemma {:induction false} MacTimeSurvives(macSecs: Uint32, t: Timestamp)
    requires macSecs >= MAC_EPOCH
    requires ValidTime(t) && UnixSeconds(t) == macSecs - MAC_EPOCH
    ensures ToDateStamp(t).Some? <==> macSecs >= MAC_EPOCH + AMIGA_EPOCH_DAYS * SECONDS_A_DAY
    ensures ToDateStamp(t).Some? ==>
              var s := ToDateStamp(t).value;
              && 0 <= s.days && 0 <= s.minute < 1440 && 0 <= s.tick < 60 * TICKS_PER_SECOND
              && StampSeconds(s) == macSecs - MAC_EPOCH - AMIGA_EPOCH_DAYS * SECONDS_A_DAY
  {
    ClosedFormInverse(t.date);
  }
}
