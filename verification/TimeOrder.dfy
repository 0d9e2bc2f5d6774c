/**
 The order of stored time strings. The database sorts and range-filters them
 bytewise; this module shows that order to be chronological, and for which years.
 */
module TimeOrder {
  import opened Calendar
  import opened Decimal
  import opened TimeLayout

  // A two-digit field and a separator before what follows.
  lemma FieldOrder(m: int, n: int, separator: char, a: string, b: string)
    requires 0 <= m < 100 && 0 <= n < 100
    ensures Less(Padded(m, 2) + ([separator] + a), Padded(n, 2) + ([separator] + b))
            <==> m < n || (m == n && Less(a, b))
  {
    assert Pow10(2) == 10 * Pow10(1) == 100;
    LessByNumber(m, n, 2, [separator] + a, [separator] + b);
    LessAfterPrefix([separator], a, b);
  }

  lemma ClockOrder(a: Civil, b: Civil)
    requires Valid(a) && Valid(b)
    ensures Less(ClockText(a), ClockText(b)) <==> EarlierClock(a, b)
  {
    var x, y := Padded(a.second, 2), Padded(b.second, 2);
    FieldOrder(a.hour, b.hour, ':', Padded(a.minute, 2) + (":" + x), Padded(b.minute, 2) + (":" + y));
    FieldOrder(a.minute, b.minute, ':', x, y);
    assert x + "" == x && y + "" == y;
    assert Pow10(2) == 10 * Pow10(1) == 100;
    LessByNumber(a.second, b.second, 2, "", "");
  }

  // Year -1 prints "-0001", below every digit.
  lemma YearOrder(m: int, n: int, a: string, b: string)
    requires -1 <= m <= 9999 && -1 <= n <= 9999
    ensures Less(SignedPadded(m, 4) + a, SignedPadded(n, 4) + b) <==> m < n || (m == n && Less(a, b))
  {
    if m < 0 && n < 0 {
      LessAfterPrefix(SignedPadded(-1, 4), a, b);
    } else if m < 0 {
      assert IsDigit(Padded(n, 4)[0]);
    } else if n < 0 {
      assert IsDigit(Padded(m, 4)[0]);
    } else {
      assert Pow10(4) == 100 * Pow10(2) == 10000;
      LessByNumber(m, n, 4, a, b);
    }
  }

  function MonthText(c: Civil, rest: string): string
    requires Valid(c)
  {
    Padded(c.month, 2) + ("-" + (Padded(c.day, 2) + rest))
  }

  lemma DateThen(c: Civil, rest: string)
    requires Valid(c)
    ensures DateText(c) + rest == SignedPadded(c.year, 4) + ("-" + MonthText(c, rest))
  {
  }

  lemma MonthOrder(a: Civil, b: Civil, x: string, y: string)
    requires Valid(a) && Valid(b)
    ensures Less(MonthText(a, x), MonthText(b, y))
            <==> a.month < b.month || (a.month == b.month && (a.day < b.day || (a.day == b.day && Less(x, y))))
  {
    FieldOrder(a.month, b.month, '-', Padded(a.day, 2) + x, Padded(b.day, 2) + y);
    assert Pow10(2) == 10 * Pow10(1) == 100;
    LessByNumber(a.day, b.day, 2, x, y);
  }

  lemma DateOrder(a: Civil, b: Civil, x: string, y: string)
    requires Valid(a) && Valid(b)
    requires -1 <= a.year <= 9999 && -1 <= b.year <= 9999
    ensures Less(DateText(a) + x, DateText(b) + y) <==> EarlierDate(a, b) || (SameDate(a, b) && Less(x, y))
  {
    DateThen(a, x);
    DateThen(b, y);
    var p, q := MonthText(a, x), MonthText(b, y);
    YearOrder(a.year, b.year, "-" + p, "-" + q);
    LessAfterPrefix("-", p, q);
    MonthOrder(a, b, x, y);
  }

  lemma TextOrder(layout: Layout, a: Civil, b: Civil)
    requires Valid(a) && Valid(b) && !layout.HasZone()
    requires layout.HasDate() ==> -1 <= a.year <= 9999 && -1 <= b.year <= 9999
    ensures Less(Text(layout, a), Text(layout, b)) <==> Earlier(Printed(layout, a), Printed(layout, b))
  {
    ClockOrder(a, b);
    if layout == DateOnly {
      DateOrder(a, b, "", "");
      assert DateText(a) + "" == DateText(a) && DateText(b) + "" == DateText(b);
    } else if layout == DateTime {
      DateOrder(a, b, " " + ClockText(a), " " + ClockText(b));
      LessAfterPrefix(" ", ClockText(a), ClockText(b));
    }
  }

  // Stored strings compare exactly as the parts of the instants they show.
  lemma StringOrderIsTimeOrder(layout: Layout, s: Instant, t: Instant)
    requires !layout.HasZone()
    requires layout.HasDate() ==> -1 <= s.Year() <= 9999 && -1 <= t.Year() <= 9999
    ensures Less(Format(layout, s), Format(layout, t))
            <==> Shown(layout, s).seconds < Shown(layout, t).seconds
    ensures layout == DateTime ==>
              (Less(Format(layout, s), Format(layout, t)) <==> s.seconds < t.seconds)
  {
    var a, b := FromSeconds(s.seconds), FromSeconds(t.seconds);
    TextOrder(layout, a, b);
    EarlierIsFewerSeconds(Printed(layout, a), Printed(layout, b));
  }

  // ---------- for which years ----------

  // The layouts that order depends on the year in.
  type StoredDate = l: Layout | l == DateTime || l == DateOnly witness DateTime

  // Between the years, the texts of a layout compare as what they show.
  ghost predicate OrderFaithful(layout: StoredDate, low: int, high: int) {
    forall s: Instant, t: Instant {:trigger Format(layout, s), Format(layout, t)} ::
      low <= s.Year() <= high && low <= t.Year() <= high ==>
        (Less(Format(layout, s), Format(layout, t)) <==> Shown(layout, s).seconds < Shown(layout, t).seconds)
  }

  // A date and time shows the whole instant, to the second.
  lemma DateTimeShowsSeconds(t: Instant)
    ensures Shown(DateTime, t) == t.Floor()
  {
  }

  // How many digits a year prints with, the sign apart.
  function Width(year: int): nat {
    |Padded(if year < 0 then -year else year, 4)|
  }

  // Whatever follows them, the years themselves order the texts as they should.
  ghost predicate YearsOrdered(m: int, n: int) {
    forall a: string, b: string {:trigger SignedPadded(m, 4) + a, SignedPadded(n, 4) + b} ::
      Less(SignedPadded(m, 4) + a, SignedPadded(n, 4) + b) <==> m < n || (m == n && Less(a, b))
  }

  lemma SameYearOrdered(year: int)
    ensures YearsOrdered(year, year)
  {
    forall a: string, b: string
      ensures Less(SignedPadded(year, 4) + a, SignedPadded(year, 4) + b) <==> Less(a, b)
    {
      LessAfterPrefix(SignedPadded(year, 4), a, b);
    }
  }

  lemma FourDigitsOrdered(m: int, n: int)
    requires -1 <= m <= 9999 && -1 <= n <= 9999
    ensures YearsOrdered(m, n)
  {
    forall a: string, b: string
      ensures Less(SignedPadded(m, 4) + a, SignedPadded(n, 4) + b) <==> m < n || (m == n && Less(a, b))
    {
      YearOrder(m, n, a, b);
    }
  }

  lemma SameWidthOrdered(m: int, n: int)
    requires m >= 0 && n >= 0 && Width(m) == Width(n)
    ensures YearsOrdered(m, n)
  {
    forall a: string, b: string
      ensures Less(SignedPadded(m, 4) + a, SignedPadded(n, 4) + b) <==> m < n || (m == n && Less(a, b))
    {
      LessByLength(m, n, 4, a, b);
    }
  }

  // Adjacent years are written in the wrong order when, after year 0, the later
  // one takes another digit, and before year 0, when it does not.
  predicate Reversed(year: int) {
    if year >= 0 then Width(year) != Width(year + 1)
    else year <= -2 && Width(year) == Width(year + 1)
  }

  lemma FirstBytes(n: nat, a: string, b: string)
    requires n > 0 && |Padded(n, 4)| != |Padded(n - 1, 4)|
    ensures Less(Padded(n, 4) + a, Padded(n - 1, 4) + b) && !Less(Padded(n - 1, 4) + b, Padded(n, 4) + a)
  {
    WidthStep(n, 4);
    assert (Padded(n, 4) + a)[0] == '1' && (Padded(n - 1, 4) + b)[0] == '9';
  }

  lemma ReversedTexts(year: int, a: string, b: string)
    requires Reversed(year)
    ensures !Less(SignedPadded(year, 4) + a, SignedPadded(year + 1, 4) + b)
  {
    if year >= 0 {
      FirstBytes(year + 1, b, a);
    } else {
      var m, n := -year, -year - 1;
      assert SignedPadded(year, 4) + a == "-" + (Padded(m, 4) + a);
      assert SignedPadded(year + 1, 4) + b == "-" + (Padded(n, 4) + b);
      LessAfterPrefix("-", Padded(m, 4) + a, Padded(n, 4) + b);
      LessByLength(m, n, 4, a, b);
    }
  }

  lemma NarrowedTexts(low: int, a: string, b: string)
    requires low <= -2 && Width(low) != Width(low + 1)
    ensures Less(SignedPadded(low, 4) + a, SignedPadded(low + 1, 4) + b)
    ensures !Less(SignedPadded(low + 1, 4) + b, SignedPadded(low, 4) + a)
  {
    var p, q := Padded(-low, 4), Padded(-low - 1, 4);
    FirstBytes(-low, a, b);
    assert SignedPadded(low, 4) + a == "-" + (p + a) && SignedPadded(low + 1, 4) + b == "-" + (q + b);
    LessAfterPrefix("-", p + a, q + b);
    LessAfterPrefix("-", q + b, p + a);
  }

  // Before year 0 a digit less puts two years right.
  predicate Narrowed(m: int, n: int) {
    m <= -2 && n == m + 1 && Width(m) != Width(n)
  }

  lemma NarrowedOrdered(m: int, n: int)
    requires Narrowed(m, n) || Narrowed(n, m)
    ensures YearsOrdered(m, n)
  {
    forall a: string, b: string
      ensures Less(SignedPadded(m, 4) + a, SignedPadded(n, 4) + b) <==> m < n || (m == n && Less(a, b))
    {
      if m < n {
        NarrowedTexts(m, a, b);
      } else {
        NarrowedTexts(n, b, a);
      }
    }
  }

  function AfterDate(layout: StoredDate, c: Civil): string
    requires Valid(c)
  {
    if layout == DateOnly then "" else " " + ClockText(c)
  }

  lemma TextByYear(layout: StoredDate, c: Civil)
    requires Valid(c)
    ensures Text(layout, c) == SignedPadded(c.year, 4) + ("-" + MonthText(c, AfterDate(layout, c)))
  {
    DateThen(c, AfterDate(layout, c));
    assert DateText(c) + "" == DateText(c);
  }

  lemma TextReversed(layout: StoredDate, a: Civil, b: Civil)
    requires Valid(a) && Valid(b) && b.year == a.year + 1 && Reversed(a.year)
    ensures !Less(Text(layout, a), Text(layout, b))
  {
    TextByYear(layout, a);
    TextByYear(layout, b);
    ReversedTexts(a.year, "-" + MonthText(a, AfterDate(layout, a)), "-" + MonthText(b, AfterDate(layout, b)));
  }

  // Any two times in such years, the earlier of which is not the smaller text.
  lemma OrderBreaks(layout: StoredDate, a: Civil, b: Civil) returns (s: Instant, t: Instant)
    requires Valid(a) && Valid(b) && b.year == a.year + 1 && Reversed(a.year)
    ensures s.Year() == a.year && t.Year() == b.year && s.seconds < t.seconds
    ensures Shown(layout, s).seconds < Shown(layout, t).seconds
    ensures !Less(Format(layout, s), Format(layout, t))
  {
    FromSecondsInverts(a);
    FromSecondsInverts(b);
    EarlierIsFewerSeconds(a, b);
    EarlierIsFewerSeconds(Printed(layout, a), Printed(layout, b));
    TextReversed(layout, a, b);
    s, t := Instant(ToSeconds(a), 0), Instant(ToSeconds(b), 0);
  }

  lemma RestOrder(layout: StoredDate, a: Civil, b: Civil)
    requires Valid(a) && Valid(b)
    ensures Less(AfterDate(layout, a), AfterDate(layout, b)) <==> layout == DateTime && EarlierClock(a, b)
  {
    LessAfterPrefix(" ", ClockText(a), ClockText(b));
    ClockOrder(a, b);
  }

  lemma TextOrderByYears(layout: StoredDate, a: Civil, b: Civil)
    requires Valid(a) && Valid(b) && YearsOrdered(a.year, b.year)
    ensures Less(Text(layout, a), Text(layout, b)) <==> Earlier(Printed(layout, a), Printed(layout, b))
  {
    var x, y := AfterDate(layout, a), AfterDate(layout, b);
    TextByYear(layout, a);
    TextByYear(layout, b);
    assert Less(SignedPadded(a.year, 4) + ("-" + MonthText(a, x)), SignedPadded(b.year, 4) + ("-" + MonthText(b, y)))
           <==> a.year < b.year || (a.year == b.year && Less("-" + MonthText(a, x), "-" + MonthText(b, y)));
    LessAfterPrefix("-", MonthText(a, x), MonthText(b, y));
    MonthOrder(a, b, x, y);
    RestOrder(layout, a, b);
  }

  ghost predicate AllYearsOrdered(low: int, high: int) {
    forall m, n :: low <= m <= high && low <= n <= high ==> YearsOrdered(m, n)
  }

  lemma OrderedYearsFaithful(layout: StoredDate, low: int, high: int)
    requires AllYearsOrdered(low, high)
    ensures OrderFaithful(layout, low, high)
  {
    forall s: Instant, t: Instant | low <= s.Year() <= high && low <= t.Year() <= high
      ensures Less(Format(layout, s), Format(layout, t)) <==> Shown(layout, s).seconds < Shown(layout, t).seconds
    {
      var a, b := FromSeconds(s.seconds), FromSeconds(t.seconds);
      TextOrderByYears(layout, a, b);
      EarlierIsFewerSeconds(Printed(layout, a), Printed(layout, b));
    }
  }

  lemma ReversedUnfaithful(layout: StoredDate, low: int, high: int, year: int)
    requires low <= year < high && Reversed(year)
    ensures !OrderFaithful(layout, low, high)
  {
    var s, t := OrderBreaks(layout, NewYear(year), NewYear(year + 1));
  }

  // The spans of years stored in time order: those of at most one year, those
  // within -1..9999, those of one width after that, and those of two years
  // before year 0 of which the later has a digit less, as -10000 and -9999.
  predicate FaithfulSpan(low: int, high: int) {
    || low >= high
    || (-1 <= low && high <= 9999)
    || (9999 < low && Width(low) == Width(high))
    || Narrowed(low, high)
  }

  lemma WideSpanOrdered(low: int, high: int, m: int, n: int)
    requires 0 <= low <= m <= high && low <= n <= high && Width(low) == Width(high)
    ensures YearsOrdered(m, n)
  {
    WidthsAscend(low, m, 4);
    WidthsAscend(m, high, 4);
    WidthsAscend(low, n, 4);
    WidthsAscend(n, high, 4);
    SameWidthOrdered(m, n);
  }

  lemma FaithfulSpanOrders(low: int, high: int, m: int, n: int)
    requires FaithfulSpan(low, high) && low <= m <= high && low <= n <= high
    ensures YearsOrdered(m, n)
  {
    if m == n {
      SameYearOrdered(m);
    } else if -1 <= low && high <= 9999 {
      FourDigitsOrdered(m, n);
    } else if 9999 < low {
      WideSpanOrdered(low, high, m, n);
    } else {
      NarrowedOrdered(m, n);
    }
  }

  lemma FaithfulSpanOrdered(low: int, high: int)
    requires FaithfulSpan(low, high)
    ensures AllYearsOrdered(low, high)
  {
    forall m, n | low <= m <= high && low <= n <= high
      ensures YearsOrdered(m, n)
    {
      FaithfulSpanOrders(low, high, m, n);
    }
  }

  // Somewhere between two widths the width changes.
  lemma {:induction false} WidthChanges(low: nat, high: nat) returns (year: nat)
    requires low <= high && Width(low) != Width(high)
    ensures low <= year < high && Reversed(year)
    decreases high - low
  {
    if Width(low) != Width(low + 1) {
      year := low;
    } else {
      year := WidthChanges(low + 1, high);
    }
  }

  lemma FourDigitWidth(year: int)
    requires 0 <= year
    ensures Width(year) == 4 <==> year <= 9999
  {
    assert Pow10(4) == 100 * Pow10(2) == 10000;
    PaddedLength(year, 4);
  }

  // No two years in a row before year 0 lose a digit.
  lemma NoTwoNarrowings(year: int)
    requires year <= -3 && Width(year) != Width(year + 1)
    ensures Width(year + 1) == Width(year + 2)
  {
    WidthStep(-year, 4);
    WidthStep(-year - 1, 4);
  }

  lemma OtherSpansReversed(low: int, high: int) returns (year: int)
    requires !FaithfulSpan(low, high)
    ensures low <= year < high && Reversed(year)
  {
    if low <= -2 {
      year := low;
      if !Reversed(low) {
        if low == -2 {
          FourDigitWidth(2);
          FourDigitWidth(1);
        } else {
          NoTwoNarrowings(low);
          year := low + 1;
        }
      }
    } else {
      var first := if low == -1 then 0 else low;
      FourDigitWidth(first);
      FourDigitWidth(high);
      year := WidthChanges(first, high);
    }
  }

  // The exact spans, for all years there are and for either dated text.
  lemma FaithfulYears(layout: StoredDate, low: int, high: int)
    ensures OrderFaithful(layout, low, high) <==> FaithfulSpan(low, high)
  {
    if FaithfulSpan(low, high) {
      FaithfulSpanOrdered(low, high);
      OrderedYearsFaithful(layout, low, high);
    } else {
      var year := OtherSpansReversed(low, high);
      ReversedUnfaithful(layout, low, high, year);
    }
  }

  // So the years -10000 and -9999 are stored in order, though no longer span
  // with -10000 in it is.
  lemma NarrowedPair(layout: StoredDate)
    ensures OrderFaithful(layout, -10000, -9999)
    ensures forall low, high :: low <= -10000 <= high && high - low > 1 ==> !OrderFaithful(layout, low, high)
  {
    FourDigitWidth(9999);
    FourDigitWidth(10000);
    FaithfulYears(layout, -10000, -9999);
    forall low, high | low <= -10000 <= high && high - low > 1
      ensures !OrderFaithful(layout, low, high)
    {
      FaithfulYears(layout, low, high);
    }
  }
}
