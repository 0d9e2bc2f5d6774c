/**
 Reading any accepted time text back (mongo/datetime.go:168-179): the layouts
 are disjoint, so the order of the list is immaterial, and what a type prints
 reads back as the part of the instant it shows.
 */
module TimeCodec {
  import opened Wrappers
  import opened Calendar
  import opened Decimal
  import opened TimeLayout

  function FirstMatch(layouts: seq<Layout>, s: string): Option<Instant>
    decreases |layouts|, s
  {
    if layouts == [] then None
    else if ParseInLocation(layouts[0], s).Some? then ParseInLocation(layouts[0], s)
    else FirstMatch(layouts[1..], s)
  }

  function LayoutsTried(primary: Layout): seq<Layout> {
    [primary, Rfc3339Nano, Rfc3339, DateTime, DateOnly, TimeOnly]
  }

  function Flexible(s: string, primary: Layout): Option<Instant> {
    if s == "" then Some(ZERO_TIME) else FirstMatch(LayoutsTried(primary), s)
  }

  // The empty string is the zero time; else the first layout that parses wins.
  method ParseFlexibleTime(value: string, primary: Layout) returns (t: Option<Instant>)
    ensures t == Flexible(value, primary)
  {
    if value == "" {
      return Some(ZERO_TIME);
    }
    var layouts := LayoutsTried(primary);
    for i := 0 to |layouts|
      invariant FirstMatch(layouts, value) == FirstMatch(layouts[i..], value)
    {
      t := ParseInLocation(layouts[i], value);
      assert layouts[i..][1..] == layouts[i + 1..];
      if t.Some? {
        return;
      }
    }
    t := None;
  }

  // ---------- the layouts' languages ----------

  predicate StartsWithYear(s: string) {
    |s| >= 5 && AllDigits(s[..4]) && s[4] == '-'
  }

  predicate StartsWithHour(s: string) {
    |s| >= 3 && IsDigit(s[0]) && (s[1] == ':' || s[2] == ':')
  }

  lemma DateShape(s: string)
    ensures ParseDate(s).Some? ==> |s| >= 10 && StartsWithYear(s) && ParseDate(s).value.3 == s[10..]
  {
    if ParseDate(s).Some? {
      assert s[4..][1..] == s[5..] && s[5..][2..] == s[7..] && s[7..][1..] == s[8..] && s[8..][2..] == s[10..];
    }
  }

  lemma ClockShape(s: string)
    ensures ParseClock(s).Some? ==> StartsWithHour(s)
  {
    if ParseClock(s).Some? {
      var rest := ParseTwoDigits(s, false).value.1;
      assert rest == s[1..] || rest == s[2..];
    }
  }

  // The bytes that tell the layouts apart.
  predicate Shaped(layout: Layout, s: string) {
    match layout
    case TimeOnly => StartsWithHour(s)
    case DateOnly => StartsWithYear(s) && |s| == 10
    case DateTime => StartsWithYear(s) && |s| > 10 && s[10] == ' '
    case _ => StartsWithYear(s) && |s| > 10 && s[10] == 'T'
  }

  lemma ParseShape(layout: Layout, s: string)
    ensures Parse(layout, s).Some? ==> Shaped(layout, s)
  {
    if layout == TimeOnly {
      ClockShape(s);
    } else {
      DateShape(s);
    }
  }

  lemma YearIsNoHour(s: string)
    ensures !(StartsWithYear(s) && StartsWithHour(s))
  {
    if StartsWithYear(s) {
      assert s[..4][1] == s[1] && s[..4][2] == s[2];
    }
  }

  // No string is accepted by two layouts, except by the two RFC 3339 ones,
  // which give it the same meaning.
  lemma LayoutsDisjoint(a: Layout, b: Layout, s: string)
    requires Parse(a, s).Some? && Parse(b, s).Some?
    ensures a == b || (a.HasZone() && b.HasZone())
    ensures Parse(a, s) == Parse(b, s)
  {
    ParseShape(a, s);
    ParseShape(b, s);
    YearIsNoHour(s);
  }

  // So the first match is the only match.
  lemma {:induction false} FirstMatchIsAnyMatch(layouts: seq<Layout>, s: string, t: Instant)
    ensures FirstMatch(layouts, s) == Some(t) <==> exists l :: l in layouts && Parse(l, s) == Some(t)
  {
    if layouts != [] {
      FastPathRefinesParse(layouts[0], s);
      FirstMatchIsAnyMatch(layouts[1..], s, t);
      if Parse(layouts[0], s).Some? {
        forall l | l in layouts && Parse(l, s).Some?
          ensures Parse(l, s) == Parse(layouts[0], s)
        {
          LayoutsDisjoint(l, layouts[0], s);
        }
        assert layouts[0] in layouts;
      } else {
        assert forall l :: l in layouts && Parse(l, s).Some? ==> l in layouts[1..];
      }
    }
  }

  lemma ZonedLayoutsAgree(l: Layout, s: string)
    ensures l.HasZone() ==> Parse(l, s) == Parse(Rfc3339, s)
  {
  }

  lemma MatchTransfers(layouts: seq<Layout>, others: seq<Layout>, s: string)
    requires forall l :: l in layouts ==> l in others || (l.HasZone() && Rfc3339 in others)
    requires FirstMatch(layouts, s).Some?
    ensures FirstMatch(others, s) == FirstMatch(layouts, s)
  {
    var t := FirstMatch(layouts, s).value;
    FirstMatchIsAnyMatch(layouts, s, t);
    var l :| l in layouts && Parse(l, s) == Some(t);
    ZonedLayoutsAgree(l, s);
    var k := if l in others then l else Rfc3339;
    FirstMatchIsAnyMatch(others, s, t);
  }

  // Lists with the same members agree, whatever their order or repetitions;
  // one RFC 3339 layout may stand for the other.
  lemma OrderImmaterial(layouts: seq<Layout>, others: seq<Layout>, s: string)
    requires forall l :: l in layouts || (l.HasZone() && Rfc3339 in layouts) <==> l in others || (l.HasZone() && Rfc3339 in others)
    ensures FirstMatch(layouts, s) == FirstMatch(others, s)
  {
    var x, y := FirstMatch(layouts, s), FirstMatch(others, s);
    if x.Some? {
      MatchTransfers(layouts, others, s);
    } else if y.Some? {
      MatchTransfers(others, layouts, s);
    }
  }

  // The three stored types read the same strings to the same instants.
  lemma PrimaryImmaterial(p: Layout, q: Layout, s: string)
    ensures Flexible(s, p) == Flexible(s, q)
  {
    OrderImmaterial(LayoutsTried(p), LayoutsTried(q), s);
  }

  // What a text says, whatever order the layouts are tried in: the empty one is
  // the zero time, any other is what some layout makes of it.
  ghost predicate Says(s: string, t: Instant) {
    if s == "" then t == ZERO_TIME else exists l :: Parse(l, s) == Some(t)
  }

  lemma EveryLayoutTried(l: Layout, primary: Layout)
    ensures l in LayoutsTried(primary)
  {
  }

  lemma FlexibleExactly(s: string, primary: Layout, t: Instant)
    ensures Flexible(s, primary) == Some(t) <==> Says(s, t)
  {
    if s != "" {
      FirstMatchIsAnyMatch(LayoutsTried(primary), s, t);
      if l :| Parse(l, s) == Some(t) {
        EveryLayoutTried(l, primary);
      }
    }
  }

  lemma FlexibleFromParse(l: Layout, primary: Layout, s: string)
    requires s != ""
    ensures Parse(l, s).Some? ==> Flexible(s, primary) == Parse(l, s)
    ensures (forall k :: Parse(k, s).None?) ==> Flexible(s, primary).None?
  {
    if Parse(l, s).Some? {
      assert l in LayoutsTried(primary);
      FirstMatchIsAnyMatch(LayoutsTried(primary), s, Parse(l, s).value);
    } else if Flexible(s, primary).Some? {
      FirstMatchIsAnyMatch(LayoutsTried(primary), s, Flexible(s, primary).value);
    }
  }

  // ---------- round trips ----------

  lemma YearStartsWithDigit(s: string)
    ensures StartsWithYear(s) ==> IsDigit(s[0])
  {
    if StartsWithYear(s) {
      assert s[..4][0] == s[0];
    }
  }

  // A year outside 0..9999 prints text that no layout accepts.
  lemma UncoveredText(year: int, rest: string)
    requires !(0 <= year <= 9999)
    ensures !StartsWithYear(SignedPadded(year, 4) + rest) && !StartsWithHour(SignedPadded(year, 4) + rest)
  {
    var s := SignedPadded(year, 4) + rest;
    assert Pow10(4) == 100 * Pow10(2) == 10000;
    if year < 0 {
      assert s[0] == '-';
      YearStartsWithDigit(s);
    } else {
      PaddedLength(year, 4);
      assert forall i :: 0 <= i < 5 ==> s[i] == Padded(year, 4)[i];
    }
  }

  lemma UncoveredUnreadable(layout: Layout, l: Layout, t: Instant)
    requires !l.HasZone() && !l.Covers(t)
    ensures Parse(layout, Format(l, t)).None?
  {
    var c := FromSeconds(t.seconds);
    var rest := Format(l, t)[|SignedPadded(c.year, 4)|..];
    assert Format(l, t) == SignedPadded(c.year, 4) + rest;
    UncoveredText(c.year, rest);
    ParseShape(layout, Format(l, t));
  }

  // A printed time reads back as the part it shows, exactly when its UTC year
  // has four digits (always, for a clock time).
  lemma RoundTrip(l: Layout, t: Instant)
    requires !l.HasZone()
    ensures Flexible(Format(l, t), l) == if l.Covers(t) then Some(Shown(l, t)) else None
  {
    var s := Format(l, t);
    assert |s| > 0;
    if l.Covers(t) {
      ParseOfText(l, FromSeconds(t.seconds));
    } else {
      forall k ensures Parse(k, s).None? {
        UncoveredUnreadable(k, l, t);
      }
    }
    FlexibleFromParse(l, l, s);
  }

  lemma PrintedStable(l: Layout, c: Civil)
    requires Valid(c) && !l.HasZone()
    ensures Valid(Printed(l, c)) && Text(l, Printed(l, c)) == Text(l, c)
  {
  }

  lemma ShownFields(l: Layout, t: Instant)
    requires !l.HasZone()
    ensures FromSeconds(Shown(l, t).seconds) == Printed(l, FromSeconds(t.seconds))
  {
    PrintedStable(l, FromSeconds(t.seconds));
    FromSecondsInverts(Printed(l, FromSeconds(t.seconds)));
  }

  lemma FormatOfShown(l: Layout, t: Instant)
    requires !l.HasZone()
    ensures Format(l, Shown(l, t)) == Format(l, t)
  {
    PrintedStable(l, FromSeconds(t.seconds));
    ShownFields(l, t);
  }

  // Print after parse.
  function Normal(l: Layout, s: string): Option<string>
    requires !l.HasZone()
  {
    var t :- Flexible(s, l);
    Some(Format(l, t))
  }

  // Normal text is a fixed point of normalisation, for every accepted string
  // whose instant the layout covers; the other accepted strings normalise to
  // text that is not accepted.
  lemma NormalIsIdempotent(l: Layout, s: string)
    requires !l.HasZone() && Flexible(s, l).Some?
    ensures Normal(l, Normal(l, s).value)
            == if l.Covers(Flexible(s, l).value) then Normal(l, s) else None
  {
    var t := Flexible(s, l).value;
    RoundTrip(l, t);
    FormatOfShown(l, t);
  }

  function ZonedText(c: Civil, zone: string): string
    requires Valid(c)
  {
    DateText(c) + ("T" + (ClockText(c) + zone))
  }

  lemma OneMinuteEast(c: Civil, zone: string)
    requires Valid(c) && 0 <= c.year <= 9999 && zone == "+00:01"
    ensures Parse(Rfc3339, ZonedText(c, zone)) == Some(At(c, 0, 60))
  {
    assert zone[1..3] == "00" && zone[4..6] == "01" && zone[6..] == "";
    assert ParseZone(zone) == Some((60, ""));
    assert "" + zone == zone;
    ParseOfZonedText(Rfc3339, c, "", zone);
  }

  lemma YearZeroEast(c: Civil, zone: string)
    requires c == NewYear(0) && zone == "+00:01"
    ensures var t := Flexible(ZonedText(c, zone), DateTime);
            t.Some? && !DateTime.Covers(t.value)
  {
    OneMinuteEast(c, zone);
    FlexibleFromParse(Rfc3339, DateTime, ZonedText(c, zone));
    BeforeNewYear(At(c, 0, 60).seconds, 0);
  }

  lemma PaddedZero()
    ensures Padded(0, 2) == "00" && Padded(0, 4) == "0000" && Padded(1, 2) == "01"
  {
    assert Padded(0, 1) == "0" && Padded(0, 3) == Padded(0, 2) + "0";
    assert Padded(0, 2) == "0" + "0" && Padded(1, 2) == "0" + "1";
  }

  lemma YearZeroDate(c: Civil)
    requires c == NewYear(0)
    ensures DateText(c) == "0000-01-01"
  {
    PaddedZero();
  }

  lemma YearZeroClock(c: Civil)
    requires c == NewYear(0)
    ensures ClockText(c) == "00:00:00"
  {
    PaddedZero();
  }

  lemma YearZeroText(c: Civil, zone: string)
    requires c == NewYear(0) && zone == "+00:01"
    ensures ZonedText(c, zone) == "0000-01-01T00:00:00+00:01"
  {
    YearZeroDate(c);
    YearZeroClock(c);
  }

  lemma NotNormal(c: Civil, zone: string, s: string)
    requires c == NewYear(0) && zone == "+00:01" && s == ZonedText(c, zone)
    ensures Flexible(s, DateTime).Some? && Normal(DateTime, Normal(DateTime, s).value).None?
  {
    YearZeroEast(c, zone);
    NormalIsIdempotent(DateTime, s);
  }

  // An offset at the edge of the calendar names an instant outside it, so that
  // a text is accepted and what it prints as is not.
  lemma OffsetLeavesCalendar(s: string)
    requires s == "0000-01-01T00:00:00+00:01"
    ensures Flexible(s, DateTime).Some? && Normal(DateTime, Normal(DateTime, s).value).None?
  {
    var c, zone := NewYear(0), "+00:01";
    YearZeroText(c, zone);
    NotNormal(c, zone, s);
  }

  predicate IsMidnight(t: Instant) {
    var c := FromSeconds(t.seconds);
    c.hour == c.minute == c.second == 0
  }

  predicate OnFirstDayOfYearZero(t: Instant) {
    SameDate(FromSeconds(t.seconds), NewYear(0))
  }

  // The date of `day` with the time of day of `clock`.
  function Join(day: Instant, clock: Instant): Instant {
    var c := FromSeconds(clock.seconds);
    At(FromSeconds(day.seconds).(hour := c.hour, minute := c.minute, second := c.second), 0, 0)
  }

  predicate Recombines(day: Option<Instant>, clock: Option<Instant>, whole: Option<Instant>) {
    && day.Some? && clock.Some?
    && IsMidnight(day.value)
    && whole == Some(Join(day.value, clock.value))
  }

  lemma PrintedRecombines(c: Civil, day: Instant, clock: Instant, whole: Instant)
    requires Valid(c) && whole == At(c, 0, 0)
    requires FromSeconds(day.seconds) == Printed(DateOnly, c)
    requires FromSeconds(clock.seconds) == Printed(TimeOnly, c)
    ensures Recombines(Some(day), Some(clock), Some(whole))
  {
  }

  // What a layout's text reads back as.
  function ReadBack(l: Layout, t: Instant): Option<Instant>
    requires !l.HasZone()
  {
    Flexible(Format(l, t), l)
  }

  // The day from one stored type and the time of day from the other rebuild
  // the date and time.
  lemma PartsRecombine(t: Instant)
    requires DateTime.Covers(t)
    ensures Recombines(ReadBack(DateOnly, t), ReadBack(TimeOnly, t), ReadBack(DateTime, t))
  {
    RoundTrip(DateOnly, t);
    RoundTrip(TimeOnly, t);
    RoundTrip(DateTime, t);
    ShownFields(DateOnly, t);
    ShownFields(TimeOnly, t);
    PrintedRecombines(FromSeconds(t.seconds), Shown(DateOnly, t), Shown(TimeOnly, t), Shown(DateTime, t));
  }

  lemma ClockLayoutParse(s: string)
    ensures Parse(TimeOnly, s).Some? ==>
              ParseClock(s).Some? &&
              var (hour, minute, second, nanos, rest) := ParseClock(s).value;
              Parse(TimeOnly, s) == Some(At(Civil(0, 1, 1, hour, minute, second), nanos, 0))
  {
  }

  // Text in the clock layout, with any fraction and either width of hour, reads
  // as that time on 1 January of year 0.
  lemma ClockBase(s: string, primary: Layout)
    requires Parse(TimeOnly, s).Some?
    ensures Flexible(s, primary) == Parse(TimeOnly, s) && OnFirstDayOfYearZero(Flexible(s, primary).value)
  {
    ClockShape(s);
    ClockLayoutParse(s);
    FlexibleFromParse(TimeOnly, primary, s);
    var (hour, minute, second, nanos, rest) := ParseClock(s).value;
    FromSecondsInverts(Civil(0, 1, 1, hour, minute, second));
  }

  // In particular what a clock time prints as, whatever its date was.
  lemma PrintedClockBase(t: Instant)
    ensures ReadBack(TimeOnly, t).Some? && OnFirstDayOfYearZero(ReadBack(TimeOnly, t).value)
  {
    RoundTrip(TimeOnly, t);
    ShownFields(TimeOnly, t);
  }

  lemma YearZeroIsNotZeroTime(c: Civil, nanos: Nanos)
    requires Valid(c) && c.year == 0
    ensures At(c, nanos, 0) != ZERO_TIME
  {
    EarlierIsFewerSeconds(c, NewYear(1));
  }

  // No text in the clock layout is the zero time that IsZero tests for, not
  // even the one the zero time prints as: the years of the two bases differ.
  lemma ClockNeverZero(s: string)
    ensures Parse(TimeOnly, s) != Some(ZERO_TIME)
  {
    ClockLayoutParse(s);
    if Parse(TimeOnly, s).Some? {
      var (hour, minute, second, nanos, rest) := ParseClock(s).value;
      YearZeroIsNotZeroTime(Civil(0, 1, 1, hour, minute, second), nanos);
    }
  }

  // The texts read as the zero time, by any of the types: the empty one, and
  // dated ones that name that instant.
  lemma ReadsAsZeroExactly(s: string, primary: Layout)
    ensures Flexible(s, primary) == Some(ZERO_TIME)
            <==> s == "" || exists l: Layout :: l.HasDate() && Parse(l, s) == Some(ZERO_TIME)
  {
    FlexibleExactly(s, primary, ZERO_TIME);
    ClockNeverZero(s);
    assert forall l: Layout :: !l.HasDate() ==> l == TimeOnly;
    if s == "" {
      assert Flexible(s, primary) == Some(ZERO_TIME);
    }
  }
}
