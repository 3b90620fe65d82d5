/** Calendar fields of a UTC time value in milliseconds, as in section 21.4.1 of ECMA-262:
    days are counted from 1970-01-01, a Thursday. */
module Calendar {

  const MS_PER_MINUTE := 60_000
  const MS_PER_HOUR := 3_600_000
  const MS_PER_DAY := 86_400_000

  datatype Date = Date(year: int, month: int, day: int)

  const EPOCH := Date(1970, 1, 1)

  predicate IsLeap(y: int) {
    y % 4 == 0 && (y % 100 != 0 || y % 400 == 0)
  }

  function DaysIn(y: int, m: int): int {
    if m == 2 then (if IsLeap(y) then 29 else 28)
    else if m == 4 || m == 6 || m == 9 || m == 11 then 30
    else 31
  }

  predicate IsDate(d: Date) {
    1 <= d.month <= 12 && 1 <= d.day <= DaysIn(d.year, d.month)
  }

  function NextDay(d: Date): Date {
    if d.day < DaysIn(d.year, d.month) then Date(d.year, d.month, d.day + 1)
    else if d.month < 12 then Date(d.year, d.month + 1, 1)
    else Date(d.year + 1, 1, 1)
  }

  function PreviousDay(d: Date): Date {
    if d.day > 1 then Date(d.year, d.month, d.day - 1)
    else if d.month > 1 then Date(d.year, d.month - 1, DaysIn(d.year, d.month - 1))
    else Date(d.year - 1, 12, 31)
  }

  function DateOfDay(n: int): (d: Date)
    ensures IsDate(d)
    decreases if n < 0 then -n else n
  {
    if n == 0 then EPOCH else if n > 0 then NextDay(DateOfDay(n - 1)) else PreviousDay(DateOfDay(n + 1))
  }

  /** Day by day the calendar moves to the next date, before and after the epoch. */
  lemma DateOfNextDay(n: int)
    ensures DateOfDay(n + 1) == NextDay(DateOfDay(n))
  {
  }

  function MinuteOf(t: int): int {
    (t / MS_PER_MINUTE) % 60
  }

  function HourOf(t: int): int {
    (t / MS_PER_HOUR) % 24
  }

  function DayOf(t: int): int {
    t / MS_PER_DAY
  }

  function WeekdayOf(t: int): int {
    (DayOf(t) + 4) % 7
  }

  /** Day, hour, minute and the rest of the minute recompose the time. */
  lemma TimeParts(t: int)
    ensures t == 86_400_000 * DayOf(t) + 3_600_000 * HourOf(t) + 60_000 * MinuteOf(t) + t % 60_000
    ensures 0 <= HourOf(t) < 24 && 0 <= MinuteOf(t) < 60
  {
    assert t / MS_PER_HOUR == (t / MS_PER_MINUTE) / 60;
    assert t / MS_PER_DAY == (t / MS_PER_HOUR) / 24;
  }

  /** The epoch is a Thursday, and each day is the next day of the week. */
  lemma WeekdaySteps(t: int)
    ensures 0 <= t < 86_400_000 ==> WeekdayOf(t) == 4
    ensures WeekdayOf(t + 86_400_000) == (WeekdayOf(t) + 1) % 7
  {
    assert DayOf(t + MS_PER_DAY) == DayOf(t) + 1;
  }

  // ----- The year as a count of days -----

  function DaysBefore(y: int, m: int): int
    requires 1 <= m <= 12
  {
    var leap := if IsLeap(y) then 1 else 0;
    match m
    case 1 => 0
    case 2 => 31
    case 3 => 59 + leap
    case 4 => 90 + leap
    case 5 => 120 + leap
    case 6 => 151 + leap
    case 7 => 181 + leap
    case 8 => 212 + leap
    case 9 => 243 + leap
    case 10 => 273 + leap
    case 11 => 304 + leap
    case 12 => 334 + leap
  }

  function Ordinal(d: Date): int
    requires IsDate(d)
  {
    DaysBefore(d.year, d.month) + d.day
  }

  function YearLength(y: int): int {
    if IsLeap(y) then 366 else 365
  }

  lemma OrdinalFacts(d: Date)
    requires IsDate(d)
    ensures 1 <= Ordinal(d) <= YearLength(d.year)
    ensures Ordinal(d) == YearLength(d.year) <==> d.month == 12 && d.day == 31
    ensures IsDate(NextDay(d))
    ensures Ordinal(d) < YearLength(d.year) ==> NextDay(d).year == d.year && Ordinal(NextDay(d)) == Ordinal(d) + 1
    ensures Ordinal(d) == YearLength(d.year) ==> NextDay(d).year == d.year + 1 && Ordinal(NextDay(d)) == 1
  {
  }

  /** The day number of January 1st, by the closed formula of ECMA-262. */
  function DayFromYear(y: int): int {
    365 * (y - 1970) + (y - 1969) / 4 - (y - 1901) / 100 + (y - 1601) / 400
  }

  /** The same, counted year by year. */
  function YearStart(y: int): int
    decreases if y < 1970 then 1970 - y else y - 1970
  {
    if y == 1970 then 0
    else if y > 1970 then YearStart(y - 1) + YearLength(y - 1)
    else YearStart(y + 1) - YearLength(y)
  }

  lemma YearSteps(y: int)
    ensures YearStart(y + 1) == YearStart(y) + YearLength(y)
  {
  }

  /** Each quotient of the formula moves on exactly when its divisor divides the year. */
  lemma QuotientStep(y: int, shift: int, k: int)
    requires k == 4 || k == 100 || k == 400
    requires shift % k == 0
    ensures (y - shift) / k == (y - shift - 1) / k + if y % k == 0 then 1 else 0
  {
  }

  lemma FormulaSteps(y: int)
    ensures DayFromYear(y + 1) == DayFromYear(y) + YearLength(y)
  {
    QuotientStep(y, 1968, 4);
    QuotientStep(y, 1900, 100);
    QuotientStep(y, 1600, 400);
  }

  lemma {:induction false} YearStartIsClosed(y: int)
    ensures YearStart(y) == DayFromYear(y)
    decreases if y < 1970 then 1970 - y else y - 1970
  {
    if y > 1970 {
      FormulaSteps(y - 1);
      YearStartIsClosed(y - 1);
    } else if y < 1970 {
      FormulaSteps(y);
      YearStartIsClosed(y + 1);
    }
  }

  function DayNumber(d: Date): int
    requires IsDate(d)
  {
    YearStart(d.year) + Ordinal(d) - 1
  }

  lemma {:induction false} LaterYears(y: int, z: int)
    requires y < z
    ensures YearStart(z) >= YearStart(y) + YearLength(y)
    decreases z - y
  {
    YearSteps(z - 1);
    if y < z - 1 {
      LaterYears(y, z - 1);
    }
  }

  lemma NextDayNumber(d: Date)
    requires IsDate(d)
    ensures DayNumber(NextDay(d)) == DayNumber(d) + 1
  {
    OrdinalFacts(d);
    YearSteps(d.year);
  }

  /** The calendar walked day by day numbers its days, before and after the epoch. */
  lemma {:induction false} DateOfDayHasNumber(n: int)
    ensures DayNumber(DateOfDay(n)) == n
    decreases if n < 0 then -n else n
  {
    if n > 0 {
      DateOfDayHasNumber(n - 1);
      NextDayNumber(DateOfDay(n - 1));
    } else if n < 0 {
      DateOfDayHasNumber(n + 1);
      DateOfNextDay(n);
      NextDayNumber(DateOfDay(n));
      assert DayNumber(DateOfDay(n)) + 1 == n + 1;
    }
  }

  lemma OrdinalIsUnique(d: Date, e: Date)
    requires IsDate(d) && IsDate(e) && d.year == e.year && Ordinal(d) == Ordinal(e)
    ensures d == e
  {
  }

  /** A date is the date of day `n` exactly when the formula gives it that number. */
  lemma DateOfDayIff(d: Date, n: int)
    requires IsDate(d)
    ensures DateOfDay(n) == d <==> DayFromYear(d.year) + Ordinal(d) - 1 == n
  {
    YearStartIsClosed(d.year);
    DateOfDayHasNumber(n);
    var e := DateOfDay(n);
    OrdinalFacts(d);
    OrdinalFacts(e);
    if DayNumber(d) == n {
      if d.year < e.year { LaterYears(d.year, e.year); }
      if e.year < d.year { LaterYears(e.year, d.year); }
      OrdinalIsUnique(d, e);
    }
  }

  // ----- The day of the week -----

  /** Zeller's congruence, with Sunday as 0: January and February belong to the year before. */
  function Zeller(d: Date): int {
    var y := if d.month <= 2 then d.year - 1 else d.year;
    var m := if d.month <= 2 then d.month + 12 else d.month;
    (d.day + 13 * (m + 1) / 5 + y + y / 4 - y / 100 + y / 400 + 6) % 7
  }

  /** Leap years up to `y`. */
  function LeapsTo(y: int): int {
    y / 4 - y / 100 + y / 400
  }

  lemma LeapStep(y: int)
    ensures LeapsTo(y) == LeapsTo(y - 1) + if IsLeap(y) then 1 else 0
  {
    QuotientStep(y, 0, 4);
    QuotientStep(y, 0, 100);
    QuotientStep(y, 0, 400);
    FourHundredIsHundred(y);
  }

  lemma FourHundredIsHundred(y: int)
    ensures y % 400 == 0 ==> y % 100 == 0
    ensures y % 100 == 0 ==> y % 4 == 0
  {
    if y % 400 == 0 { HundredTimes(4 * (y / 400)); }
    if y % 100 == 0 { FourTimes(25 * (y / 100)); }
  }

  lemma HundredTimes(q: int)
    ensures (100 * q) % 100 == 0
  {
  }

  lemma FourTimes(q: int)
    ensures (4 * q) % 4 == 0
  {
  }

  lemma FormulaByLeaps(y: int)
    ensures DayFromYear(y) == 365 * (y - 1970) + LeapsTo(y - 1) - 477
  {
    assert (y - 1969) / 4 == (y - 1) / 4 - 492;
    assert (y - 1901) / 100 == (y - 1) / 100 - 19;
    assert (y - 1601) / 400 == (y - 1) / 400 - 4;
  }

  lemma SameRemainder(a: int, b: int, k: int)
    requires a == b + 7 * k
    ensures a % 7 == b % 7
  {
  }

  /** Days before a month in a common year. */
  function CommonDaysBefore(m: int): int
    requires 1 <= m <= 12
  {
    DaysBefore(1970, m)
  }

  /** The year's share of a day count, with the leap day moved to the end of the shifted year. */
  lemma YearShare(d: Date, y: int)
    requires IsDate(d) && y == (if d.month <= 2 then d.year - 1 else d.year)
    ensures DayFromYear(d.year) + DaysBefore(d.year, d.month) ==
              365 * (d.year - 1970) - 477 + LeapsTo(y) + CommonDaysBefore(d.month)
  {
    FormulaByLeaps(d.year);
    LeapStep(d.year);
  }

  lemma MonthConstant(m: int, c: int)
    requires 1 <= m <= 12 && c == 13 * ((if m <= 2 then m + 12 else m) + 1) / 5
    ensures (CommonDaysBefore(m) - c + 365 * (if m <= 2 then 1 else 0) - 719_530) % 7 == 0
  {
  }

  /** What is left of the difference between day count and congruence depends on the month only. */
  lemma MonthRemainder(d: Date, y: int, c: int)
    requires IsDate(d)
    requires y == (if d.month <= 2 then d.year - 1 else d.year)
    requires c == 13 * ((if d.month <= 2 then d.month + 12 else d.month) + 1) / 5
    ensures (DayFromYear(d.year) + Ordinal(d) + 3 - (d.day + c + y + LeapsTo(y) + 6) - 364 * y) % 7 == 0
  {
    YearShare(d, y);
    var rest := CommonDaysBefore(d.month) - c + 365 * (d.year - y) - 719_530;
    MonthConstant(d.month, c);
    assert rest % 7 == 0;
    assert DayFromYear(d.year) + Ordinal(d) + 3 - (d.day + c + y + LeapsTo(y) + 6) - 364 * y == rest;
  }

  /** Counted from the formula, the day of the week is Zeller's. */
  lemma ZellerCounts(d: Date)
    requires IsDate(d)
    ensures (DayFromYear(d.year) + Ordinal(d) + 3) % 7 == Zeller(d)
  {
    var y := if d.month <= 2 then d.year - 1 else d.year;
    var c := 13 * ((if d.month <= 2 then d.month + 12 else d.month) + 1) / 5;
    var n, z := DayFromYear(d.year) + Ordinal(d) + 3, d.day + c + y + LeapsTo(y) + 6;
    MonthRemainder(d, y, c);
    SameRemainder(n, z, 52 * y + (n - z - 364 * y) / 7);
  }

  /** The weekday of a time is Zeller's for its date. */
  lemma WeekdayIsZeller(t: int)
    ensures WeekdayOf(t) == Zeller(DateOfDay(DayOf(t)))
  {
    var d := DateOfDay(DayOf(t));
    DateOfDayIff(d, DayOf(t));
    ZellerCounts(d);
  }

  /** Counting `k` days on from February 29th: the rest of the leap year, then early next year. */
  lemma {:induction false} DaysAfterLeapDay(n: int, k: nat)
    requires DateOfDay(n).month == 2 && DateOfDay(n).day == 29 && k <= 366
    ensures
      var d, y := DateOfDay(n + k), DateOfDay(n).year;
      if k <= 306 then d.year == y && Ordinal(d) == 60 + k else d.year == y + 1 && Ordinal(d) == k - 306
  {
    var y := DateOfDay(n).year;
    assert IsLeap(y) && !IsLeap(y + 1);
    if k > 0 {
      DaysAfterLeapDay(n, k - 1);
      OrdinalFacts(DateOfDay(n + k - 1));
      DateOfNextDay(n + k - 1);
    }
  }

  /** No other February 29th falls in the 366 days after one. */
  lemma NoLeapDayWithinAYear(n: int, k: nat)
    requires DateOfDay(n).month == 2 && DateOfDay(n).day == 29 && 1 <= k <= 366
    ensures !(DateOfDay(n + k).month == 2 && DateOfDay(n + k).day == 29)
  {
    DaysAfterLeapDay(n, k);
    assert IsLeap(DateOfDay(n).year) && !IsLeap(DateOfDay(n).year + 1);
  }
}
