/** Timestamps and the business calendar: counting weekdays between two
    timestamps and rendering an elapsed duration as days, hours and minutes. */
module Calendar {
  import opened Values

  /** A timezone-naive timestamp with microsecond resolution, as Python's
      `datetime` has it. */
  datatype DateTime = DateTime(year: int, month: int, day: int,
                               hour: int, minute: int, second: int, micro: int)

  predicate IsLeapYear(y: int) {
    y % 4 == 0 && (y % 100 != 0 || y % 400 == 0)
  }

  function DaysInMonth(y: int, m: int): int {
    if m == 2 then (if IsLeapYear(y) then 29 else 28)
    else if m == 4 || m == 6 || m == 9 || m == 11 then 30
    else 31
  }

  /** The range checks Python's `datetime` constructor makes. */
  predicate Valid(dt: DateTime) {
    1 <= dt.year <= 9999 && 1 <= dt.month <= 12 && 1 <= dt.day <= DaysInMonth(dt.year, dt.month) &&
    0 <= dt.hour < 24 && 0 <= dt.minute < 60 && 0 <= dt.second < 60 && 0 <= dt.micro < 1000000
  }

  /** `datetime.min`. */
  const MinDateTime := DateTime(1, 1, 1, 0, 0, 0, 0)

  const MicrosPerMinute := 60000000
  const MicrosPerDay := 86400000000

  /** Days from 1970-01-01 to the given proleptic Gregorian date. */
  function DaysFromCivil(y: int, m: int, d: int): int {
    var y' := if m <= 2 then y - 1 else y;
    var era := y' / 400;
    var yoe := y' - era * 400;
    var mp := (m + 9) % 12;
    var doy := (153 * mp + 2) / 5 + d - 1;
    var doe := yoe * 365 + yoe / 4 - yoe / 100 + doy;
    era * 146097 + doe - 719468
  }

  /** Consecutive dates have consecutive day numbers: within a month, from
      the last day of a month to the first of the next, and across the end
      of a year. So the day numbers order dates as `date` objects compare. */
  lemma NextDayInMonth(y: int, m: int, d: int)
    requires 1 <= m <= 12 && 1 <= d < DaysInMonth(y, m)
    ensures DaysFromCivil(y, m, d + 1) == DaysFromCivil(y, m, d) + 1
  {
  }

  lemma NextMonthStart(y: int, m: int)
    requires 1 <= m < 12 && m != 2
    ensures DaysFromCivil(y, m + 1, 1) == DaysFromCivil(y, m, DaysInMonth(y, m)) + 1
  {
  }

  /** The days before March 1 of year a + 1, counted from 1970-01-01: the
      400-year eras, then the years within the current era. */
  function MarchDays(a: int): int {
    var era := a / 400;
    var yoe := a - era * 400;
    era * 146097 + yoe * 365 + yoe / 4 - yoe / 100 - 719468
  }

  lemma MarchFirstDays(y: int)
    ensures DaysFromCivil(y, 3, 1) == MarchDays(y)
  {
  }

  lemma FebruaryDays(y: int, d: int)
    ensures DaysFromCivil(y, 2, d) == MarchDays(y - 1) + 336 + d
  {
  }

  lemma MarchDaysOfEra(a: int, era: int, yoe: int)
    requires 0 <= yoe < 400 && a == era * 400 + yoe
    ensures MarchDays(a) == era * 146097 + yoe * 365 + yoe / 4 - yoe / 100 - 719468
  {
    assert a / 400 == era;
  }

  /** The March-to-March year ending in year y's February has 366 days when
      y is a leap year and 365 otherwise. */
  lemma MarchYearLength(y: int)
    ensures MarchDays(y) == MarchDays(y - 1) + (if IsLeapYear(y) then 366 else 365)
  {
    var era := (y - 1) / 400;
    var yoe := (y - 1) - era * 400;
    MarchDaysOfEra(y - 1, era, yoe);
    if yoe == 399 {
      MarchDaysOfEra(y, era + 1, 0);
      EraStartIsLeap(y, era + 1);
    } else {
      MarchDaysOfEra(y, era, yoe + 1);
      YearOfEraStep(y, era, yoe + 1);
    }
  }

  lemma EraStartIsLeap(y: int, era: int)
    requires y == era * 400
    ensures IsLeapYear(y)
  {
  }

  /** Within an era, year n of it adds a leap day through n / 4 and takes
      one away through n / 100. */
  lemma YearOfEraStep(y: int, era: int, n: int)
    requires 1 <= n < 400 && y == era * 400 + n
    ensures IsLeapYear(y) <==> n / 4 - (n - 1) / 4 - (n / 100 - (n - 1) / 100) == 1
    ensures 0 <= n / 4 - (n - 1) / 4 - (n / 100 - (n - 1) / 100) <= 1
  {
    EraYearMods(y, era, n);
    SuccDiv4(n - 1);
    SuccDiv100(n - 1);
    HundredsAreFours(n);
  }

  lemma EraYearMods(y: int, era: int, n: int)
    requires 1 <= n < 400 && y == era * 400 + n
    ensures y % 4 == n % 4 && y % 100 == n % 100 && y % 400 == n
  {
    ShiftMod4(era * 100, n);
    ShiftMod100(era * 4, n);
    ShiftMod400(era, n);
  }

  lemma ShiftMod4(c: int, n: int)
    ensures (4 * c + n) % 4 == n % 4
  {
    assert 4 * c + n == 4 * (c + n / 4) + n % 4;
  }

  lemma ShiftMod100(c: int, n: int)
    ensures (100 * c + n) % 100 == n % 100
  {
    assert 100 * c + n == 100 * (c + n / 100) + n % 100;
  }

  lemma ShiftMod400(c: int, n: int)
    ensures (400 * c + n) % 400 == n % 400
  {
    assert 400 * c + n == 400 * (c + n / 400) + n % 400;
  }

  lemma HundredsAreFours(n: int)
    ensures n % 100 == 0 ==> n % 4 == 0
  {
  }

  lemma SuccDiv4(k: nat)
    ensures (k + 1) / 4 == k / 4 + (if (k + 1) % 4 == 0 then 1 else 0)
  {
  }

  lemma SuccDiv100(k: nat)
    ensures (k + 1) / 100 == k / 100 + (if (k + 1) % 100 == 0 then 1 else 0)
  {
  }

  /** March 1 follows February 28 or, in a leap year, February 29. */
  lemma MarchAfterFebruary(y: int)
    ensures DaysFromCivil(y, 3, 1) == DaysFromCivil(y, 2, DaysInMonth(y, 2)) + 1
  {
    MarchFirstDays(y);
    FebruaryDays(y, DaysInMonth(y, 2));
    MarchYearLength(y);
  }

  lemma NextYearStart(y: int)
    ensures DaysFromCivil(y + 1, 1, 1) == DaysFromCivil(y, 12, 31) + 1
  {
  }

  /** The calendar date of a timestamp, as a day number (`dt.date()`). */
  function DayNumber(dt: DateTime): int {
    DaysFromCivil(dt.year, dt.month, dt.day)
  }

  function TimeOfDay(dt: DateTime): int {
    ((dt.hour * 60 + dt.minute) * 60 + dt.second) * 1000000 + dt.micro
  }

  /** Microseconds since 1970-01-01T00:00:00. */
  function Instant(dt: DateTime): int {
    DayNumber(dt) * MicrosPerDay + TimeOfDay(dt)
  }

  /** Python's `a < b` on naive datetimes. */
  predicate Before(a: DateTime, b: DateTime) {
    Instant(a) < Instant(b)
  }

  lemma LaterInstantLaterDate(a: DateTime, b: DateTime)
    requires Valid(a) && Valid(b) && !Before(b, a)
    ensures DayNumber(a) <= DayNumber(b)
  {
    assert 0 <= TimeOfDay(a) < MicrosPerDay && 0 <= TimeOfDay(b) < MicrosPerDay;
  }

  // ---------------------------------------------------------------------
  // Business days

  /** 0 is Monday, 6 is Sunday; day number 0 (1970-01-01) was a Thursday. */
  function Weekday(day: int): int {
    (day + 3) % 7
  }

  predicate IsBusinessDay(day: int) {
    Weekday(day) < 5
  }

  /** Reference count: the business days d with lo <= d < hi. */
  function WeekdayCount(lo: int, hi: int): nat
    decreases hi - lo
  {
    if hi <= lo then 0 else WeekdayCount(lo, hi - 1) + (if IsBusinessDay(hi - 1) then 1 else 0)
  }

  /** The business days from the Monday 1969-12-29 (day -3) up to, not including, day x. */
  function WeekdaysBefore(x: int): int {
    var k := x + 3;
    5 * (k / 7) + (if k % 7 < 5 then k % 7 else 5)
  }

  lemma WeekdaysBeforeStep(x: int)
    ensures WeekdaysBefore(x + 1) - WeekdaysBefore(x) == (if IsBusinessDay(x) then 1 else 0)
  {
    var k := x + 3;
    assert k == 7 * (k / 7) + k % 7;
    if k % 7 < 6 {
      assert (k + 1) / 7 == k / 7 && (k + 1) % 7 == k % 7 + 1;
    } else {
      assert (k + 1) / 7 == k / 7 + 1 && (k + 1) % 7 == 0;
    }
  }

  lemma {:induction false} WeekdayCountClosedForm(lo: int, hi: int)
    requires lo <= hi
    ensures WeekdayCount(lo, hi) == WeekdaysBefore(hi) - WeekdaysBefore(lo)
    decreases hi - lo
  {
    if lo < hi {
      WeekdayCountClosedForm(lo, hi - 1);
      WeekdaysBeforeStep(hi - 1);
    }
  }

  /** `get_business_days(start, end)`: 0 when end precedes start, otherwise the
      number of Monday-to-Friday dates d with start.date() <= d < end.date(),
      counted by whole weeks as numpy's `busday_count` does. */
  function BusinessDays(start: DateTime, end: DateTime): (r: nat)
    requires Valid(start) && Valid(end)
    ensures Before(end, start) ==> r == 0
    ensures !Before(end, start) ==> r == WeekdayCount(DayNumber(start), DayNumber(end))
  {
    if Before(end, start) then 0
    else
      LaterInstantLaterDate(start, end);
      WeekdayCountClosedForm(DayNumber(start), DayNumber(end));
      WeekdaysBefore(DayNumber(end)) - WeekdaysBefore(DayNumber(start))
  }

  /** `get_business_days_elapsed(start)`, with the clock reading as a parameter. */
  function BusinessDaysElapsed(start: DateTime, now: DateTime): (r: nat)
    requires Valid(start) && Valid(now)
    ensures Before(now, start) ==> r == 0
    ensures !Before(now, start) ==> r == WeekdayCount(DayNumber(start), DayNumber(now))
  {
    BusinessDays(start, now)
  }

  lemma {:induction false} WeekdayCountAtMostSpan(lo: int, hi: int)
    requires lo <= hi
    ensures WeekdayCount(lo, hi) <= hi - lo
    decreases hi - lo
  {
    if lo < hi {
      WeekdayCountAtMostSpan(lo, hi - 1);
    }
  }

  /** A span with no Saturday or Sunday in it counts every one of its days. */
  lemma {:induction false} WeekdayCountNoWeekend(lo: int, hi: int)
    requires lo <= hi
    requires forall d :: lo <= d < hi ==> IsBusinessDay(d)
    ensures WeekdayCount(lo, hi) == hi - lo
    decreases hi - lo
  {
    if lo < hi {
      WeekdayCountNoWeekend(lo, hi - 1);
    }
  }

  /** Every run of seven consecutive days holds five business days, so a span
      of whole weeks loses exactly two days per weekend it crosses. */
  lemma WeekdayCountWholeWeeks(lo: int, weeks: nat)
    ensures WeekdayCount(lo, lo + 7 * weeks) == 5 * weeks
  {
    WeekdayCountClosedForm(lo, lo + 7 * weeks);
    var k := lo + 3;
    assert (k + 7 * weeks) / 7 == k / 7 + weeks && (k + 7 * weeks) % 7 == k % 7;
  }

  /** Only the calendar dates matter: time of day is ignored, even where the
      datetime guard compares it, and two timestamps on the same date are
      zero business days apart. */
  lemma BusinessDaysIgnoreTimeOfDay(s1: DateTime, e1: DateTime, s2: DateTime, e2: DateTime)
    requires Valid(s1) && Valid(e1) && Valid(s2) && Valid(e2)
    requires DayNumber(s1) == DayNumber(s2) && DayNumber(e1) == DayNumber(e2)
    ensures BusinessDays(s1, e1) == BusinessDays(s2, e2)
    ensures DayNumber(s1) == DayNumber(e1) ==> BusinessDays(s1, e1) == 0
  {
    if Before(e1, s1) {
      LaterInstantLaterDate(e1, s1);
    } else {
      LaterInstantLaterDate(s1, e1);
    }
    if Before(e2, s2) {
      LaterInstantLaterDate(e2, s2);
    } else {
      LaterInstantLaterDate(s2, e2);
    }
  }

  lemma BusinessDaysAtMostDateSpan(start: DateTime, end: DateTime)
    requires Valid(start) && Valid(end) && !Before(end, start)
    ensures BusinessDays(start, end) <= DayNumber(end) - DayNumber(start)
  {
    LaterInstantLaterDate(start, end);
    WeekdayCountAtMostSpan(DayNumber(start), DayNumber(end));
  }

  /** 2024-01-01 was a Monday; from it to 2024-01-15 there are ten business days. */
  lemma JanuaryTwoWeeks()
    ensures Weekday(DaysFromCivil(2024, 1, 1)) == 0
    ensures BusinessDays(DateTime(2024, 1, 1, 9, 0, 0, 0), DateTime(2024, 1, 15, 8, 0, 0, 0)) == 10
  {
    assert DaysFromCivil(2024, 1, 1) == 19723;
    assert DaysFromCivil(2024, 1, 15) == 19737;
  }

  // ---------------------------------------------------------------------
  // Elapsed wall-clock time

  datatype Elapsed = Elapsed(days: int, hours: int, minutes: int)

  /** The whole minutes from start to end, split into days, hours and minutes;
      all zero when end precedes start. */
  function ElapsedParts(start: DateTime, end: DateTime): (e: Elapsed)
    ensures Instant(end) < Instant(start) ==> e == Elapsed(0, 0, 0)
    ensures Instant(start) <= Instant(end) ==>
      e.days >= 0 && 0 <= e.hours < 24 && 0 <= e.minutes < 60 &&
      e.days * 1440 + e.hours * 60 + e.minutes == (Instant(end) - Instant(start)) / MicrosPerMinute
  {
    var delta := Instant(end) - Instant(start);
    if delta < 0 then Elapsed(0, 0, 0)
    else
      var total := delta / MicrosPerMinute;
      assert total % 1440 == 60 * ((total % 1440) / 60) + total % 60 by {
        assert total == 1440 * (total / 1440) + total % 1440;
        assert total % 1440 == 60 * ((total % 1440) / 60) + (total % 1440) % 60;
        assert (total % 1440) % 60 == total % 60;
      }
      Elapsed(total / 1440, (total % 1440) / 60, total % 60)
  }

  function ShowElapsed(e: Elapsed): string
    requires e.days >= 0 && e.hours >= 0 && e.minutes >= 0
  {
    NatToString(e.days) + ("d " + (NatToString(e.hours) + ("h " + (NatToString(e.minutes) + "m"))))
  }

  /** `format_elapsed_time(start, end)`: "Xd Xh Xm" of the whole minutes elapsed,
      "0d 0h 0m" when end precedes start. The text never starts with a sign and
      reads back as exactly the parts it renders. */
  function FormatElapsed(start: DateTime, end: DateTime): (r: string)
    ensures Instant(end) < Instant(start) ==> r == "0d 0h 0m"
    ensures |r| > 0 && IsDigit(r[0])
    ensures ParseElapsed(r) == Some(ElapsedParts(start, end))
  {
    var e := ElapsedParts(start, end);
    var r := ShowElapsed(e);
    ShowElapsedReadsBack(e);
    r
  }

  /** The length of the run of digits at the start of s. */
  function LeadingDigits(s: string): (n: nat)
    ensures n <= |s| && IsDigits(s[..n]) && (n < |s| ==> !IsDigit(s[n]))
  {
    if s == [] || !IsDigit(s[0]) then 0
    else
      var n := 1 + LeadingDigits(s[1..]);
      assert s[..n] == [s[0]] + s[1..][..n - 1];
      n
  }

  /** A leading decimal number and the text after it. */
  function ReadNumber(s: string): Option<(nat, string)> {
    var n := LeadingDigits(s);
    if n == 0 then None else Some((Number(s[..n]), s[n..]))
  }

  /** Reads "Xd Xh Xm" back into its parts. */
  function ParseElapsed(s: string): Option<Elapsed> {
    match ReadNumber(s)
    case None => None
    case Some((d, r1)) =>
      if !StartsWith(r1, "d ") then None
      else match ReadNumber(r1[2..])
      case None => None
      case Some((h, r2)) =>
        if !StartsWith(r2, "h ") then None
        else match ReadNumber(r2[2..])
        case None => None
        case Some((m, r3)) => if r3 == "m" then Some(Elapsed(d, h, m)) else None
  }

  lemma {:induction false} LeadingDigitsOfNumeral(digits: string, t: string)
    requires IsDigits(digits)
    requires t == [] || !IsDigit(t[0])
    ensures LeadingDigits(digits + t) == |digits|
    decreases |digits|
  {
    if digits != [] {
      assert (digits + t)[1..] == digits[1..] + t;
      LeadingDigitsOfNumeral(digits[1..], t);
    } else {
      assert digits + t == t;
    }
  }

  lemma ReadNumberOfNatToString(n: nat, t: string)
    requires t == [] || !IsDigit(t[0])
    ensures ReadNumber(NatToString(n) + t) == Some((n, t))
  {
    var s := NatToString(n);
    LeadingDigitsOfNumeral(s, t);
    assert (s + t)[..|s|] == s && (s + t)[|s|..] == t;
    NumberOfNatToString(n);
  }

  lemma ShowElapsedReadsBack(e: Elapsed)
    requires e.days >= 0 && e.hours >= 0 && e.minutes >= 0
    ensures ParseElapsed(ShowElapsed(e)) == Some(e)
  {
    var d, h, m := NatToString(e.days), NatToString(e.hours), NatToString(e.minutes);
    var r2 := "h " + (m + "m");
    var r1 := "d " + (h + r2);
    ReadNumberOfNatToString(e.days, r1);
    assert StartsWith(r1, "d ") && r1[2..] == h + r2;
    ReadNumberOfNatToString(e.hours, r2);
    assert StartsWith(r2, "h ") && r2[2..] == m + "m";
    ReadNumberOfNatToString(e.minutes, "m");
  }
}
