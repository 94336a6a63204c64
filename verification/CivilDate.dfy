/** Civil dates as day numbers and log timestamps as seconds
    (tools/log-triage/src/main.rs:324-379, tools/eol-check/src/main.rs:27-42). */
module CivilDate {
  import opened Wrappers

  /** Rust's `/` on i64: it truncates toward zero. */
  function Quot(a: int, b: int): int
    requires b > 0
  {
    if a >= 0 then a / b else -((-a) / b)
  }

  /** Rust's `%` on i64: the remainder takes the sign of the dividend. */
  function Rem(a: int, b: int): int
    requires b > 0
  {
    a - b * Quot(a, b)
  }

  /** `days_from_civil` of log-triage. */
  function DaysFromCivil(y: int, m: int, d: int): int {
    var y := if m <= 2 then y - 1 else y;
    var era := Quot(if y >= 0 then y else y - 399, 400);
    var yoe := y - era * 400;
    var mp := Rem(m + 9, 12);
    var doy := Quot(153 * mp + 2, 5) + d - 1;
    var doe := yoe * 365 + Quot(yoe, 4) - Quot(yoe, 100) + doy;
    era * 146097 + doe - 719468
  }

  /** The day count inside `iso_to_days` of eol-check. */
  function IsoDays(y: int, m: int, d: int): int {
    var y := if m <= 2 then y - 1 else y;
    var era := Quot(if y >= 0 then y else y - 399, 400);
    var yoe := y - era * 400;
    var doy := Quot(153 * (if m > 2 then m - 3 else m + 9) + 2, 5) + d - 1;
    var doe := yoe * 365 + Quot(yoe, 4) - Quot(yoe, 100) + doy;
    era * 146097 + doe - 719468
  }

  // ---------- the proleptic Gregorian calendar ----------

  datatype Date = Date(y: int, m: int, d: int)

  predicate Leap(y: int) { y % 4 == 0 && (y % 100 != 0 || y % 400 == 0) }

  function YearLength(y: int): int { if Leap(y) then 366 else 365 }

  function MonthLength(y: int, m: int): int {
    if m == 2 then (if Leap(y) then 29 else 28)
    else if m == 4 || m == 6 || m == 9 || m == 11 then 30 else 31
  }

  predicate ValidDate(a: Date) { 1 <= a.m <= 12 && 1 <= a.d <= MonthLength(a.y, a.m) }

  function NextDay(a: Date): Date {
    if a.d < MonthLength(a.y, a.m) then Date(a.y, a.m, a.d + 1)
    else if a.m < 12 then Date(a.y, a.m + 1, 1)
    else Date(a.y + 1, 1, 1)
  }

  function PrevDay(a: Date): Date {
    if a.d > 1 then Date(a.y, a.m, a.d - 1)
    else if a.m > 1 then Date(a.y, a.m - 1, MonthLength(a.y, a.m - 1))
    else Date(a.y - 1, 12, 31)
  }

  predicate Before(a: Date, b: Date) {
    a.y < b.y || (a.y == b.y && (a.m < b.m || (a.m == b.m && a.d < b.d)))
  }

  /** Days of all months of the year before month `m`. */
  function DaysBeforeMonth(y: int, m: int): int
    decreases m
  {
    if m <= 1 then 0 else DaysBeforeMonth(y, m - 1) + MonthLength(y, m - 1)
  }

  /** Days from 1 January 1970 to 1 January of `y`, negative before 1970. */
  function DaysBeforeYear(y: int): int
    decreases if y < 1970 then 1970 - y else y - 1970
  {
    if y == 1970 then 0
    else if y > 1970 then DaysBeforeYear(y - 1) + YearLength(y - 1)
    else DaysBeforeYear(y + 1) - YearLength(y)
  }

  /** The reference: count whole years, then whole months, then days. */
  function DayNumber(a: Date): int {
    DaysBeforeYear(a.y) + DaysBeforeMonth(a.y, a.m) + a.d - 1
  }

  // ---------- the algorithm in closed form ----------

  /** Days before 1 March of the year `y`, shifted so that 1 January 1970 is day 0. */
  function MarchBase(y: int): int { 365 * y + y / 4 - y / 100 + y / 400 - 719468 }

  lemma EraSplit(y: int)
    ensures var era := Quot(if y >= 0 then y else y - 399, 400);
            var yoe := y - era * 400;
            && 0 <= yoe < 400
            && era * 146097 + yoe * 365 + Quot(yoe, 4) - Quot(yoe, 100) - 719468 == MarchBase(y)
  {
    var era := Quot(if y >= 0 then y else y - 399, 400);
    assert era == y / 400 by {
      if y < 0 {
        var q := (399 - y) / 400;
        assert 400 * q <= 399 - y < 400 * q + 400;
        assert 0 <= y + 400 * q < 400;
      }
    }
    var yoe := y - era * 400;
    assert y / 4 == 100 * era + yoe / 4;
    assert y / 100 == 4 * era + yoe / 100;
  }

  function DayOfMarchYear(m: int): int
    requires 1 <= m <= 12
  {
    (153 * (if m > 2 then m - 3 else m + 9) + 2) / 5
  }

  lemma ClosedForm(y: int, m: int, d: int)
    requires 1 <= m <= 12
    ensures DaysFromCivil(y, m, d) == MarchBase(if m <= 2 then y - 1 else y) + DayOfMarchYear(m) + d - 1
    ensures IsoDays(y, m, d) == DaysFromCivil(y, m, d)
  {
    EraSplit(if m <= 2 then y - 1 else y);
    assert Rem(m + 9, 12) == if m > 2 then m - 3 else m + 9;
  }

  lemma MarchBaseStep(y: int)
    ensures MarchBase(y) - MarchBase(y - 1) == YearLength(y)
  {
    FloorStep(y, 4);
    FloorStep(y, 100);
    FloorStep(y, 400);
    DivisorsNest(y);
  }

  lemma FloorStep(y: int, n: int)
    requires n == 4 || n == 100 || n == 400
    ensures y / n - (y - 1) / n == if y % n == 0 then 1 else 0
  {
    if n == 4 {
    } else if n == 100 {
    } else {
    }
  }

  lemma HundredDivides(z: int)
    ensures (100 * z) % 100 == 0
  {
  }

  lemma FourDivides(z: int)
    ensures (4 * z) % 4 == 0
  {
  }

  lemma DivisorsNest(y: int)
    ensures (y % 400 == 0 ==> y % 100 == 0) && (y % 100 == 0 ==> y % 4 == 0)
  {
    HundredDivides(4 * (y / 400));
    FourDivides(25 * (y / 100));
  }

  /** 1 March of `y` is 59 or 60 days after 1 January. */
  lemma {:induction false} YearBase(y: int)
    ensures MarchBase(y) == DaysBeforeYear(y) + 59 + (if Leap(y) then 1 else 0)
    decreases if y < 1970 then 1970 - y else y - 1970
  {
    if y > 1970 {
      YearBase(y - 1);
      MarchBaseStep(y);
    } else if y < 1970 {
      YearBase(y + 1);
      MarchBaseStep(y + 1);
    }
  }

  lemma MonthBase(y: int, m: int)
    requires 1 <= m <= 12
    ensures DaysBeforeMonth(y, m) ==
            if m <= 2 then DayOfMarchYear(m) - 306 else DayOfMarchYear(m) + 59 + (if Leap(y) then 1 else 0)
  {
    var feb := if Leap(y) then 29 else 28;
    assert DaysBeforeMonth(y, 2) == 31;
    assert DaysBeforeMonth(y, 3) == 31 + feb;
    assert DaysBeforeMonth(y, 4) == 62 + feb;
    assert DaysBeforeMonth(y, 5) == 92 + feb;
    assert DaysBeforeMonth(y, 6) == 123 + feb;
    assert DaysBeforeMonth(y, 7) == 153 + feb;
    assert DaysBeforeMonth(y, 8) == 184 + feb;
    assert DaysBeforeMonth(y, 9) == 215 + feb;
    assert DaysBeforeMonth(y, 10) == 245 + feb;
    assert DaysBeforeMonth(y, 11) == 276 + feb;
    assert DaysBeforeMonth(y, 12) == 306 + feb;
  }

  /** Both forms are the calendar's day count, for every year, month 1 to 12 and day offset. */
  lemma BothFormsCountDays(y: int, m: int, d: int)
    requires 1 <= m <= 12
    ensures DaysFromCivil(y, m, d) == DayNumber(Date(y, m, d))
    ensures IsoDays(y, m, d) == DayNumber(Date(y, m, d))
  {
    ClosedForm(y, m, d);
    MonthBase(y, m);
    YearBase(y);
    MarchBaseStep(y);
  }

  // ---------- the reference count ----------

  lemma YearStep(y: int)
    ensures DaysBeforeYear(y + 1) == DaysBeforeYear(y) + YearLength(y)
  {
  }

  lemma {:induction false} YearsApart(y: int, z: int)
    requires y < z
    ensures DaysBeforeYear(y) + YearLength(y) <= DaysBeforeYear(z)
    decreases z - y
  {
    YearStep(z - 1);
    if y < z - 1 { YearsApart(y, z - 1); }
  }

  lemma {:induction false} MonthsApart(y: int, m: int, n: int)
    requires 1 <= m < n <= 13
    ensures DaysBeforeMonth(y, m) + MonthLength(y, m) <= DaysBeforeMonth(y, n)
    decreases n - m
  {
    if m < n - 1 { MonthsApart(y, m, n - 1); }
  }

  lemma NextDayCountsOne(a: Date)
    requires ValidDate(a)
    ensures ValidDate(NextDay(a)) && DayNumber(NextDay(a)) == DayNumber(a) + 1
  {
    if a.d == MonthLength(a.y, a.m) && a.m == 12 {
      MonthBase(a.y, 12);
      YearStep(a.y);
    }
  }

  lemma PrevThenNext(a: Date)
    requires ValidDate(a)
    ensures ValidDate(PrevDay(a)) && NextDay(PrevDay(a)) == a && PrevDay(NextDay(a)) == a
  {
  }

  lemma BeforeCountsLess(a: Date, b: Date)
    requires ValidDate(a) && ValidDate(b) && Before(a, b)
    ensures DayNumber(a) < DayNumber(b)
  {
    if a.y < b.y {
      YearsApart(a.y, b.y);
      if a.m < 12 { MonthsApart(a.y, a.m, 12); }
      MonthBase(a.y, 12);
      if b.m > 1 { MonthsApart(b.y, 1, b.m); }
    } else if a.m < b.m {
      MonthsApart(a.y, a.m, b.m);
    }
  }

  /** Every integer is the day number of a valid date. */
  lemma {:induction false} DateOfDay(n: int) returns (a: Date)
    ensures ValidDate(a) && DayNumber(a) == n
    decreases if n < 0 then -n else n
  {
    if n == 0 {
      a := Date(1970, 1, 1);
    } else if n > 0 {
      var b := DateOfDay(n - 1);
      NextDayCountsOne(b);
      a := NextDay(b);
    } else {
      var b := DateOfDay(n + 1);
      PrevThenNext(b);
      NextDayCountsOne(PrevDay(b));
      a := PrevDay(b);
    }
  }

  // ---------- what the tools compute ----------

  function Days(a: Date): int { DaysFromCivil(a.y, a.m, a.d) }

  lemma Epoch()
    ensures Days(Date(1970, 1, 1)) == 0 && IsoDays(1970, 1, 1) == 0
  {
    BothFormsCountDays(1970, 1, 1);
  }

  /** The next calendar day is one more, in every year, negative ones included. */
  lemma NextDayIsPlusOne(a: Date)
    requires ValidDate(a)
    ensures ValidDate(NextDay(a)) && Days(NextDay(a)) == Days(a) + 1
  {
    NextDayCountsOne(a);
    var b := NextDay(a);
    BothFormsCountDays(a.y, a.m, a.d);
    BothFormsCountDays(b.y, b.m, b.d);
  }

  /** Day numbers order valid dates as their (year, month, day) triples do. */
  lemma DaysOrderDates(a: Date, b: Date)
    requires ValidDate(a) && ValidDate(b)
    ensures Days(a) < Days(b) <==> Before(a, b)
    ensures Days(a) == Days(b) <==> a == b
  {
    BothFormsCountDays(a.y, a.m, a.d);
    BothFormsCountDays(b.y, b.m, b.d);
    if Before(a, b) { BeforeCountsLess(a, b); }
    if Before(b, a) { BeforeCountsLess(b, a); }
  }

  /** Every integer is the day number of exactly one valid date. */
  lemma EveryDayHasOneDate(n: int) returns (a: Date)
    ensures ValidDate(a) && Days(a) == n
    ensures forall b | ValidDate(b) && Days(b) == n :: b == a
  {
    a := DateOfDay(n);
    BothFormsCountDays(a.y, a.m, a.d);
    forall b | ValidDate(b) && Days(b) == n ensures b == a { DaysOrderDates(a, b); }
  }

  // ---------- timestamps ----------

  datatype Stamp = Stamp(date: Date, h: int, mi: int, s: int)

  /** The numbers captured from an ISO or a syslog timestamp; the month names map to 1..12. */
  predicate InRange(t: Stamp) {
    1 <= t.date.m <= 12 && 1 <= t.date.d <= 31 && t.h < 24 && t.mi < 60 && t.s < 61
  }

  /** `parse_ts` on captured numbers: the ISO capture first, else the syslog capture in year 2000. */
  function ParseTs(iso: Option<Stamp>, syslog: Option<Stamp>): Option<int> {
    if iso.Some? && InRange(iso.value) then Some(Seconds(iso.value))
    else if syslog.Some? then
      var t := syslog.value.(date := Date(2000, syslog.value.date.m, syslog.value.date.d));
      if 1 <= t.date.d <= 31 && t.h < 24 && t.mi < 60 && t.s < 61 then Some(Seconds(t)) else None
    else None
  }

  function Seconds(t: Stamp): int { Days(t.date) * 86400 + t.h * 3600 + t.mi * 60 + t.s }

  predicate ValidStamp(t: Stamp) {
    ValidDate(t.date) && 0 <= t.h < 24 && 0 <= t.mi < 60 && 0 <= t.s < 61
  }

  predicate StampBefore(a: Stamp, b: Stamp) {
    || Before(a.date, b.date)
    || (a.date == b.date && (a.h < b.h || (a.h == b.h && (a.mi < b.mi || (a.mi == b.mi && a.s < b.s)))))
  }

  /** `b` is second 0 of the minute after the one in which `a` is second 60. */
  predicate LeapSecondBefore(a: Stamp, b: Stamp) {
    && a.s == 60 && b.s == 0
    && Days(b.date) * 1440 + b.h * 60 + b.mi == Days(a.date) * 1440 + a.h * 60 + a.mi + 1
  }

  /** The calendar date a day past the end of its month stands for: 30 February is 1 or 2 March. */
  function Rolled(a: Date): Date
    requires 1 <= a.m <= 12 && 1 <= a.d <= 31
  {
    var n := MonthLength(a.y, a.m);
    if a.d <= n || a.m == 12 then a else Date(a.y, a.m + 1, a.d - n)
  }

  lemma RolledIsTheSameDay(a: Date)
    requires 1 <= a.m <= 12 && 1 <= a.d <= 31
    ensures ValidDate(Rolled(a)) && Days(Rolled(a)) == Days(a)
    ensures ValidDate(a) ==> Rolled(a) == a
  {
    var b := Rolled(a);
    BothFormsCountDays(a.y, a.m, a.d);
    BothFormsCountDays(b.y, b.m, b.d);
  }

  /** What `parse_ts` accepts: any day 1 to 31 of any month, and second 60. */
  predicate AcceptedStamp(t: Stamp) { InRange(t) && 0 <= t.h && 0 <= t.mi && 0 <= t.s }

  function RolledStamp(t: Stamp): Stamp
    requires AcceptedStamp(t)
  {
    t.(date := Rolled(t.date))
  }

  /** Minutes since the epoch. */
  function Minute(t: Stamp): int { Days(t.date) * 1440 + t.h * 60 + t.mi }

  /** Valid stamps are ordered by minute, then second. */
  lemma StampsByMinute(a: Stamp, b: Stamp)
    requires ValidStamp(a) && ValidStamp(b)
    ensures StampBefore(a, b) <==> Minute(a) < Minute(b) || (Minute(a) == Minute(b) && a.s < b.s)
    ensures a == b <==> Minute(a) == Minute(b) && a.s == b.s
  {
    DaysOrderDates(a.date, b.date);
    DaysOrderDates(b.date, a.date);
    var ra, rb := a.h * 60 + a.mi, b.h * 60 + b.mi;
    assert 0 <= ra < 1440 && 0 <= rb < 1440;
    assert ra == rb <==> a.h == b.h && a.mi == b.mi;
    assert ra < rb <==> a.h < b.h || (a.h == b.h && a.mi < b.mi);
  }

  lemma RolledSeconds(t: Stamp)
    requires AcceptedStamp(t)
    ensures ValidStamp(RolledStamp(t)) && Seconds(RolledStamp(t)) == Seconds(t)
  {
    RolledIsTheSameDay(t.date);
  }

  /** Accepted stamps compare as the calendar does, days past the end of a month rolled over, except
      that second 60 of a minute and second 0 of the next get the same number; no others do. */
  lemma SecondsOrderStamps(a: Stamp, b: Stamp)
    requires AcceptedStamp(a) && AcceptedStamp(b)
    ensures var x, y := RolledStamp(a), RolledStamp(b);
            && (Seconds(a) < Seconds(b) <==> StampBefore(x, y) && !LeapSecondBefore(x, y))
            && (Seconds(a) == Seconds(b) <==> x == y || LeapSecondBefore(x, y) || LeapSecondBefore(y, x))
  {
    var x, y := RolledStamp(a), RolledStamp(b);
    RolledSeconds(a);
    RolledSeconds(b);
    ValidSecondsOrder(x, y);
  }

  lemma ValidSecondsOrder(x: Stamp, y: Stamp)
    requires ValidStamp(x) && ValidStamp(y)
    ensures Seconds(x) < Seconds(y) <==> StampBefore(x, y) && !LeapSecondBefore(x, y)
    ensures Seconds(x) == Seconds(y) <==> x == y || LeapSecondBefore(x, y) || LeapSecondBefore(y, x)
  {
    StampsByMinute(x, y);
    assert Seconds(x) == Minute(x) * 60 + x.s && Seconds(y) == Minute(y) * 60 + y.s;
    assert LeapSecondBefore(x, y) <==> x.s == 60 && y.s == 0 && Minute(y) == Minute(x) + 1;
    assert LeapSecondBefore(y, x) <==> y.s == 60 && x.s == 0 && Minute(x) == Minute(y) + 1;
  }

  /** With seconds below 60 numbers order accepted stamps exactly as tuples of rolled-over dates. */
  lemma SecondsOrderExactly(a: Stamp, b: Stamp)
    requires AcceptedStamp(a) && AcceptedStamp(b) && a.s < 60 && b.s < 60
    ensures Seconds(a) < Seconds(b) <==> StampBefore(RolledStamp(a), RolledStamp(b))
    ensures Seconds(a) == Seconds(b) <==> RolledStamp(a) == RolledStamp(b)
  {
    SecondsOrderStamps(a, b);
  }

  /** A syslog line carries no year; it is read in 2000. */
  function InYear2000(t: Stamp): Stamp { t.(date := Date(2000, t.date.m, t.date.d)) }

  /** Every accepted syslog stamp gets a number, and they compare by month, day and time as in a leap
      year: 29 February is a day of its own, 30 February is 1 March. */
  lemma SyslogOrder(a: Stamp, b: Stamp)
    requires AcceptedStamp(a) && AcceptedStamp(b)
    ensures var ta, tb := ParseTs(None, Some(a)), ParseTs(None, Some(b));
            var x, y := RolledStamp(InYear2000(a)), RolledStamp(InYear2000(b));
            && ta.Some? && tb.Some?
            && (ta.value < tb.value <==> StampBefore(x, y) && !LeapSecondBefore(x, y))
            && (ta.value == tb.value <==> x == y || LeapSecondBefore(x, y) || LeapSecondBefore(y, x))
  {
    SecondsOrderStamps(InYear2000(a), InYear2000(b));
  }

  /** Month 1 to 12, day 1 to 31, and a time of day up to 23:59:60. */
  ghost predicate IsClock(t: Stamp) {
    1 <= t.date.m <= 12 && 1 <= t.date.d <= 31 && 0 <= t.h <= 23 && 0 <= t.mi <= 59 && 0 <= t.s <= 60
  }

  /** Seconds since the epoch, the days counted by the calendar. */
  ghost function ClockSeconds(t: Stamp): int
    requires IsClock(t)
  {
    ((DayNumber(Rolled(t.date)) * 24 + t.h) * 60 + t.mi) * 60 + t.s
  }

  lemma ClockCounts(t: Stamp)
    requires IsClock(t)
    ensures Seconds(t) == ClockSeconds(t)
  {
    RolledIsTheSameDay(t.date);
    var b := Rolled(t.date);
    BothFormsCountDays(b.y, b.m, b.d);
    DaysAreCounted(b);
  }

  lemma DaysAreCounted(a: Date)
    requires ValidDate(a)
    ensures Days(a) == DayNumber(a)
  {
    BothFormsCountDays(a.y, a.m, a.d);
  }

  /** A line's time: that of its ISO timestamp if it has one in range, with its own year; else that of
      its syslog timestamp if that is in range, in the year 2000; else none. */
  lemma ParseTsMeans(iso: Option<Stamp>, syslog: Option<Stamp>)
    requires iso.Some? ==> iso.value.h >= 0 && iso.value.mi >= 0 && iso.value.s >= 0
    requires syslog.Some? ==> syslog.value.h >= 0 && syslog.value.mi >= 0 && syslog.value.s >= 0
                              && 1 <= syslog.value.date.m <= 12
    ensures var own := iso.Some? && IsClock(iso.value);
            && (own ==> ParseTs(iso, syslog) == Some(ClockSeconds(iso.value)))
            && (!own && syslog.Some? && IsClock(syslog.value) ==>
                  ParseTs(iso, syslog)
                  == Some(ClockSeconds(syslog.value.(date := Date(2000, syslog.value.date.m, syslog.value.date.d)))))
            && (!own && !(syslog.Some? && IsClock(syslog.value)) ==> ParseTs(iso, syslog) == None)
  {
    if iso.Some? && IsClock(iso.value) { ClockCounts(iso.value); }
    if syslog.Some? && IsClock(syslog.value) {
      ClockCounts(syslog.value.(date := Date(2000, syslog.value.date.m, syslog.value.date.d)));
    }
  }
}
