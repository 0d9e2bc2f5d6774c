/**
 The proleptic Gregorian calendar behind every stored timestamp: instants as
 Unix seconds on one side, year/month/day and clock fields in UTC on the other.
 */
module Calendar {

  const SECONDS_PER_DAY := 86400

  // Days from 1 January of year 0 to 1 January 1970.
  const EPOCH_DAYS := 719528

  datatype Civil = Civil(year: int, month: int, day: int, hour: int, minute: int, second: int)

  predicate IsLeap(year: int) {
    year % 4 == 0 && (year % 100 != 0 || year % 400 == 0)
  }

  function DaysInFebruary(year: int): (n: int)
    ensures 28 <= n <= 29
  {
    if IsLeap(year) then 29 else 28
  }

  function DaysIn(month: int, year: int): int {
    if month == 2 then DaysInFebruary(year)
    else if month == 4 || month == 6 || month == 9 || month == 11 then 30
    else 31
  }

  predicate ValidDate(year: int, month: int, day: int) {
    1 <= month <= 12 && 1 <= day <= DaysIn(month, year)
  }

  predicate Valid(c: Civil) {
    && ValidDate(c.year, c.month, c.day)
    && 0 <= c.hour < 24
    && 0 <= c.minute < 60
    && 0 <= c.second < 60
  }

  // Days from 1 January of year 0 to 1 January of `year`.
  function DaysBeforeYear(year: int): int
    decreases if year < 0 then -year else year
  {
    if year == 0 then 0
    else if year > 0 then DaysBeforeYear(year - 1) + 337 + DaysInFebruary(year - 1)
    else DaysBeforeYear(year + 1) - 337 - DaysInFebruary(year)
  }

  function DaysBeforeMonth(month: int, year: int): int
    requires 1 <= month <= 13
    decreases month
  {
    if month == 1 then 0 else DaysBeforeMonth(month - 1, year) + DaysIn(month - 1, year)
  }

  function DayNumber(year: int, month: int, day: int): int
    requires 1 <= month <= 12
  {
    DaysBeforeYear(year) + DaysBeforeMonth(month, year) + day - 1
  }

  function ToSeconds(c: Civil): int
    requires 1 <= c.month <= 12
  {
    (DayNumber(c.year, c.month, c.day) - EPOCH_DAYS) * SECONDS_PER_DAY
    + c.hour * 3600 + c.minute * 60 + c.second
  }

  function NextDate(c: Civil): Civil {
    if c.day < DaysIn(c.month, c.year) then c.(day := c.day + 1)
    else if c.month < 12 then c.(month := c.month + 1, day := 1)
    else c.(year := c.year + 1, month := 1, day := 1)
  }

  lemma YearStep(year: int)
    ensures DaysBeforeYear(year + 1) == DaysBeforeYear(year) + 337 + DaysInFebruary(year)
  {
  }

  lemma YearLength(year: int)
    ensures DaysBeforeMonth(12, year) == 306 + DaysInFebruary(year)
    ensures DaysBeforeMonth(13, year) == 337 + DaysInFebruary(year)
  {
    assert DaysBeforeMonth(3, year) == 31 + DaysInFebruary(year);
    assert DaysBeforeMonth(5, year) == DaysBeforeMonth(3, year) + 61;
    assert DaysBeforeMonth(7, year) == DaysBeforeMonth(5, year) + 61;
    assert DaysBeforeMonth(9, year) == DaysBeforeMonth(7, year) + 62;
    assert DaysBeforeMonth(11, year) == DaysBeforeMonth(9, year) + 61;
  }

  // The last day of December is followed by the first of January.
  lemma YearEnds(year: int)
    ensures DayNumber(year, 12, 31) + 1 == DayNumber(year + 1, 1, 1)
  {
    YearStep(year);
    YearLength(year);
  }

  lemma NextDateValid(c: Civil)
    requires Valid(c)
    ensures Valid(NextDate(c))
  {
  }

  lemma DayAfterDay(c: Civil)
    requires Valid(c)
    ensures var d := NextDate(c);
            Valid(d) && DayNumber(d.year, d.month, d.day) == DayNumber(c.year, c.month, c.day) + 1
  {
    NextDateValid(c);
    if c.day == DaysIn(c.month, c.year) {
      if c.month == 12 {
        YearEnds(c.year);
      } else {
        assert DaysBeforeMonth(c.month + 1, c.year) == DaysBeforeMonth(c.month, c.year) + DaysIn(c.month, c.year);
      }
    }
  }

  function Tomorrow(c: Civil): (d: Civil)
    requires Valid(c)
    ensures Valid(d) && ToSeconds(d) == ToSeconds(c) + SECONDS_PER_DAY
  {
    DayAfterDay(c);
    NextDate(c)
  }

  function PreviousDate(c: Civil): Civil {
    if c.day > 1 then c.(day := c.day - 1)
    else if c.month > 1 then c.(month := c.month - 1, day := DaysIn(c.month - 1, c.year))
    else c.(year := c.year - 1, month := 12, day := 31)
  }

  lemma NextDateAfterPrevious(c: Civil)
    requires Valid(c)
    ensures Valid(PreviousDate(c)) && NextDate(PreviousDate(c)) == c
  {
  }

  lemma DayBeforeDay(c: Civil)
    requires Valid(c)
    ensures var d := PreviousDate(c);
            Valid(d) && DayNumber(d.year, d.month, d.day) == DayNumber(c.year, c.month, c.day) - 1
  {
    NextDateAfterPrevious(c);
    DayAfterDay(PreviousDate(c));
  }

  function Yesterday(c: Civil): (d: Civil)
    requires Valid(c)
    ensures Valid(d) && ToSeconds(d) == ToSeconds(c) - SECONDS_PER_DAY
  {
    DayBeforeDay(c);
    PreviousDate(c)
  }

  // The clock of 1 January 1970, advanced minute by minute.
  function OnEpochDay(secondOfDay: int): (c: Civil)
    requires 0 <= secondOfDay < SECONDS_PER_DAY
    ensures Valid(c) && c == Civil(1970, 1, 1, c.hour, c.minute, c.second)
    ensures c.hour * 3600 + c.minute * 60 + c.second == secondOfDay
  {
    if secondOfDay < 60 then Civil(1970, 1, 1, 0, 0, secondOfDay)
    else
      var c := OnEpochDay(secondOfDay - 60);
      if c.minute < 59 then c.(minute := c.minute + 1) else c.(hour := c.hour + 1, minute := 0)
  }

  lemma FourthYears(year: int)
    ensures (year + 4) / 4 - (year + 3) / 4 == if year % 4 == 0 then 1 else 0
  {
  }

  lemma HundredthYears(year: int)
    ensures (year + 100) / 100 - (year + 99) / 100 == if year % 100 == 0 then 1 else 0
  {
  }

  lemma FourHundredthYears(year: int)
    ensures (year + 400) / 400 - (year + 399) / 400 == if year % 400 == 0 then 1 else 0
  {
  }

  lemma CenturiesAreFourths(year: int)
    ensures year % 100 == 0 ==> year % 4 == 0
  {
    assert year == 4 * (25 * (year / 100)) + year % 100;
  }

  lemma FourHundredthsAreCenturies(year: int)
    ensures year % 400 == 0 ==> year % 100 == 0
  {
    assert year == 100 * (4 * (year / 400)) + year % 400;
  }

  lemma LeapDays(year: int)
    ensures DaysInFebruary(year) - 28 == (year + 4) / 4 - (year + 3) / 4 - (year + 100) / 100 + (year + 99) / 100
                                         + (year + 400) / 400 - (year + 399) / 400
  {
    FourthYears(year);
    HundredthYears(year);
    FourHundredthYears(year);
    CenturiesAreFourths(year);
    FourHundredthsAreCenturies(year);
  }

  // The day count in closed form, for every year: a leap day every 4 years, but
  // not every 100, but every 400.
  lemma {:induction false} DaysBeforeYearClosed(year: int)
    ensures DaysBeforeYear(year) == 365 * year + (year + 3) / 4 - (year + 99) / 100 + (year + 399) / 400
    decreases if year < 0 then -year else year
  {
    if year > 0 {
      DaysBeforeYearClosed(year - 1);
      LeapDays(year - 1);
    } else if year < 0 {
      DaysBeforeYearClosed(year + 1);
      LeapDays(year);
    }
  }

  // The days before a month in closed form, from March on: five months in turn
  // have 153 days.
  lemma {:induction false} DaysBeforeMonthClosed(month: int, year: int)
    requires 1 <= month <= 13
    ensures DaysBeforeMonth(month, year) ==
            if month == 1 then 0
            else if month == 2 then 31
            else 31 + DaysInFebruary(year) + (153 * (month - 3) + 2) / 5
    decreases month
  {
    if month > 1 {
      DaysBeforeMonthClosed(month - 1, year);
    }
  }

  // The second count of any date and clock, by arithmetic alone.
  lemma SecondsClosed(c: Civil)
    requires 1 <= c.month <= 12
    ensures var leap := if c.year % 4 == 0 && (c.year % 100 != 0 || c.year % 400 == 0) then 1 else 0;
            var years := 365 * c.year + (c.year + 3) / 4 - (c.year + 99) / 100 + (c.year + 399) / 400;
            var months := if c.month <= 2 then 31 * (c.month - 1) else 59 + leap + (153 * (c.month - 3) + 2) / 5;
            ToSeconds(c)
            == 86400 * (years + months + c.day - 1 - 719528) + 3600 * c.hour + 60 * c.minute + c.second
  {
    DaysBeforeYearClosed(c.year);
    DaysBeforeMonthClosed(c.month, c.year);
  }

  lemma EpochDays()
    ensures DaysBeforeYear(1970) == EPOCH_DAYS
  {
    DaysBeforeYearClosed(1970);
  }

  // The UTC calendar fields of a Unix second, reached from 1 January 1970 by
  // walking the calendar day by day; the inverse of ToSeconds.
  function FromSeconds(seconds: int): (c: Civil)
    ensures Valid(c)
    ensures ToSeconds(c) == seconds
    decreases if seconds < 0 then SECONDS_PER_DAY - seconds else seconds
  {
    if seconds < 0 then Yesterday(FromSeconds(seconds + SECONDS_PER_DAY))
    else if seconds >= SECONDS_PER_DAY then Tomorrow(FromSeconds(seconds - SECONDS_PER_DAY))
    else EpochDays(); OnEpochDay(seconds)
  }

  // Reading order of the fields: the order of the printed text as well.
  predicate EarlierDate(a: Civil, b: Civil) {
    a.year < b.year || (a.year == b.year && (a.month < b.month || (a.month == b.month && a.day < b.day)))
  }

  predicate SameDate(a: Civil, b: Civil) {
    a.year == b.year && a.month == b.month && a.day == b.day
  }

  predicate EarlierClock(a: Civil, b: Civil) {
    a.hour < b.hour || (a.hour == b.hour && (a.minute < b.minute || (a.minute == b.minute && a.second < b.second)))
  }

  predicate Earlier(a: Civil, b: Civil) {
    EarlierDate(a, b) || (SameDate(a, b) && EarlierClock(a, b))
  }

  lemma {:induction false} YearsAscend(a: int, b: int)
    requires a <= b
    ensures DaysBeforeYear(a) <= DaysBeforeYear(b)
    decreases b - a
  {
    if a < b {
      YearStep(a);
      YearsAscend(a + 1, b);
    }
  }

  lemma {:induction false} MonthsAscend(a: int, b: int, year: int)
    requires 1 <= a <= b <= 13
    ensures DaysBeforeMonth(a, year) <= DaysBeforeMonth(b, year)
    decreases b - a
  {
    if a < b {
      MonthsAscend(a + 1, b, year);
    }
  }

  lemma DateWithinYear(year: int, month: int, day: int)
    requires ValidDate(year, month, day)
    ensures DaysBeforeYear(year) <= DayNumber(year, month, day) < DaysBeforeYear(year + 1)
  {
    MonthsAscend(1, month, year);
    MonthsAscend(month + 1, 13, year);
    YearStep(year);
    YearLength(year);
  }

  lemma EarlierDateFewerDays(a: Civil, b: Civil)
    requires Valid(a) && Valid(b) && EarlierDate(a, b)
    ensures DayNumber(a.year, a.month, a.day) < DayNumber(b.year, b.month, b.day)
  {
    if a.year < b.year {
      DateWithinYear(a.year, a.month, a.day);
      DateWithinYear(b.year, b.month, b.day);
      YearsAscend(a.year + 1, b.year);
    } else if a.month < b.month {
      MonthsAscend(a.month + 1, b.month, a.year);
    }
  }

  // The field order of valid dates is the order of the instants they name.
  lemma EarlierIsFewerSeconds(a: Civil, b: Civil)
    requires Valid(a) && Valid(b)
    ensures Earlier(a, b) <==> ToSeconds(a) < ToSeconds(b)
  {
    if EarlierDate(a, b) {
      EarlierDateFewerDays(a, b);
    } else if EarlierDate(b, a) {
      EarlierDateFewerDays(b, a);
    }
  }

  // Together with the contract of FromSeconds: valid calendar fields and
  // Unix seconds are in bijection.
  lemma FromSecondsInverts(c: Civil)
    requires Valid(c)
    ensures FromSeconds(ToSeconds(c)) == c
  {
    var d := FromSeconds(ToSeconds(c));
    EarlierIsFewerSeconds(c, d);
    EarlierIsFewerSeconds(d, c);
  }

  function NewYear(year: int): (c: Civil)
    ensures Valid(c)
  {
    Civil(year, 1, 1, 0, 0, 0)
  }

  lemma BeforeNewYear(seconds: int, year: int)
    ensures seconds < ToSeconds(NewYear(year)) <==> FromSeconds(seconds).year < year
  {
    EarlierIsFewerSeconds(FromSeconds(seconds), NewYear(year));
  }
}
