/**
 The texts that each layout accepts, spelt out piece by piece, and what they
 mean: a grammar to hold the parser against, in both directions.
 */
module TimeGrammar {
  import opened Wrappers
  import opened Calendar
  import opened Decimal
  import opened TimeLayout

  // The pieces of a text; a layout uses those it has.
  datatype Parts = Parts(year: string, month: string, day: string, gap: string,
                         hour: string, minute: string, second: string, fraction: string, zone: string)

  predicate Digits(s: string, n: nat) {
    |s| == n && AllDigits(s)
  }

  predicate Spaces(s: string) {
    forall i :: 0 <= i < |s| ==> s[i] == ' '
  }

  predicate IsGap(layout: Layout, s: string) {
    if layout == DateTime then s != "" && Spaces(s) else s == "T"
  }

  // Z, or an hour and a minute east or west.
  predicate IsZone(s: string) {
    || s == "Z"
    || (&& |s| == 6 && (s[0] == '+' || s[0] == '-') && s[3] == ':'
        && Digits(s[1..3], 2) && Number(s[1..3]) <= 24
        && Digits(s[4..6], 2) && Number(s[4..6]) <= 60)
  }

  // Seconds east of UTC.
  function ZoneSeconds(s: string): int
    requires IsZone(s)
  {
    if s == "Z" then 0
    else (if s[0] == '+' then 1 else -1) * (3600 * Number(s[1..3]) + 60 * Number(s[4..6]))
  }

  predicate IsDate(p: Parts) {
    && Digits(p.year, 4) && Digits(p.month, 2) && Digits(p.day, 2)
    && ValidDate(Number(p.year), Number(p.month), Number(p.day))
  }

  // One or two digits for the hour, two for the others.
  predicate IsClock(p: Parts) {
    && (Digits(p.hour, 1) || Digits(p.hour, 2)) && Number(p.hour) <= 23
    && Digits(p.minute, 2) && Number(p.minute) <= 59
    && Digits(p.second, 2) && Number(p.second) <= 59
    && IsFraction(p.fraction)
  }

  predicate Fits(layout: Layout, p: Parts) {
    && (layout.HasDate() ==> IsDate(p))
    && (layout.HasClock() ==> IsClock(p))
    && (layout.HasDate() && layout.HasClock() ==> IsGap(layout, p.gap))
    && (layout.HasZone() ==> IsZone(p.zone))
  }

  function DateSpelt(p: Parts): string {
    p.year + ("-" + (p.month + ("-" + p.day)))
  }

  function ClockSpelt(p: Parts): string {
    p.hour + (":" + (p.minute + (":" + (p.second + p.fraction))))
  }

  function Spelt(layout: Layout, p: Parts): string {
    match layout
    case DateOnly => DateSpelt(p)
    case TimeOnly => ClockSpelt(p)
    case DateTime => DateSpelt(p) + (p.gap + ClockSpelt(p))
    case _ => DateSpelt(p) + (p.gap + (ClockSpelt(p) + p.zone))
  }

  // A missing date is 1 January of year 0, a missing clock midnight, a missing
  // zone UTC.
  predicate Means(layout: Layout, p: Parts, t: Instant)
    requires Fits(layout, p)
  {
    var day := if layout.HasDate() then Civil(Number(p.year), Number(p.month), Number(p.day), 0, 0, 0)
               else Civil(0, 1, 1, 0, 0, 0);
    var clock := if layout.HasClock() then 3600 * Number(p.hour) + 60 * Number(p.minute) + Number(p.second) else 0;
    var offset := if layout.HasZone() then ZoneSeconds(p.zone) else 0;
    && t.seconds == ToSeconds(day) + clock - offset
    && t.nanos == if layout.HasClock() && p.fraction != "" then FractionValue(p.fraction[1..]) else 0
  }

  // ---------- what is spelt right is accepted ----------

  lemma TwoRead(x: string, fixed: bool, rest: string)
    requires Digits(x, 2)
    ensures ParseTwoDigits(x + rest, fixed) == Some((Number(x), rest))
  {
    NumberOfTwo(x);
    assert (x + rest)[0] == x[0] && (x + rest)[1] == x[1] && (x + rest)[2..] == rest;
  }

  lemma OneRead(x: string, rest: string)
    requires Digits(x, 1) && rest != "" && rest[0] == ':'
    ensures ParseTwoDigits(x + rest, false) == Some((Number(x), rest))
  {
    assert x[..0] == "" && Number(x) == DigitValue(x[0]);
    assert (x + rest)[0] == x[0] && (x + rest)[1] == ':' && (x + rest)[1..] == rest;
  }

  lemma FieldRead(x: string, separator: char, rest: string)
    requires Digits(x, 2) && separator != ' '
    ensures ParseTwoDigits(x + ([separator] + rest), true) == Some((Number(x), [separator] + rest))
    ensures Skip([separator] + rest, separator) == Some(rest)
  {
    TwoRead(x, true, [separator] + rest);
    assert ([separator] + rest)[1..] == rest;
  }

  lemma YearRead(x: string, rest: string)
    requires Digits(x, 4)
    ensures ParseYear(x + rest) == Some((Number(x), rest))
  {
    assert (x + rest)[..4] == x && (x + rest)[4..] == rest;
  }

  lemma DateRead(p: Parts, rest: string)
    requires IsDate(p)
    ensures ParseDate(DateSpelt(p) + rest) == Some((Number(p.year), Number(p.month), Number(p.day), rest))
  {
    var days := p.day + rest;
    var months := p.month + ("-" + days);
    assert DateSpelt(p) + rest == p.year + ("-" + months);
    YearRead(p.year, "-" + months);
    assert ("-" + months)[1..] == months;
    FieldRead(p.month, '-', days);
    TwoRead(p.day, true, rest);
  }

  lemma HourRead(p: Parts, rest: string)
    requires IsClock(p)
    ensures ParseTwoDigits(p.hour + (":" + rest), false) == Some((Number(p.hour), ":" + rest))
    ensures Skip(":" + rest, ':') == Some(rest)
  {
    if |p.hour| == 1 {
      OneRead(p.hour, ":" + rest);
    } else {
      TwoRead(p.hour, false, ":" + rest);
    }
    assert (":" + rest)[1..] == rest;
  }

  lemma ClockJoins(s: string, p: Parts, rest: string, a: string, b: string, d: string)
    requires s == p.hour + a && a == ":" + b && b == p.minute + (":" + d) && d == p.second + (p.fraction + rest)
    ensures s == ClockSpelt(p) + rest
  {
    assert ClockSpelt(p) + rest == p.hour + (":" + (p.minute + (":" + (p.second + (p.fraction + rest)))));
  }

  lemma ClockRead(p: Parts, rest: string)
    requires IsClock(p) && (rest == "" || rest[0] in "Z+-")
    ensures ParseClock(ClockSpelt(p) + rest)
            == Some((Number(p.hour), Number(p.minute), Number(p.second), FractionNanos(p.fraction), rest))
  {
    var tail := p.fraction + rest;
    var seconds := p.second + tail;
    var minutes := p.minute + (":" + seconds);
    ClockJoins(p.hour + (":" + minutes), p, rest, ":" + minutes, minutes, seconds);
    HourRead(p, minutes);
    FieldRead(p.minute, ':', seconds);
    TwoRead(p.second, true, tail);
    FractionOfText(p.fraction, rest);
  }

  lemma {:induction false} SpacesCut(gap: string, rest: string)
    requires Spaces(gap) && (rest == "" || rest[0] != ' ')
    ensures CutSpaces(gap + rest) == rest
  {
    if gap == "" {
      assert gap + rest == rest;
    } else {
      assert (gap + rest)[1..] == gap[1..] + rest;
      SpacesCut(gap[1..], rest);
    }
  }

  lemma GapRead(layout: Layout, gap: string, rest: string)
    requires IsGap(layout, gap) && rest != "" && IsDigit(rest[0])
    requires layout.HasDate() && layout.HasClock()
    ensures Skip(gap + rest, layout.Separator()) == Some(rest)
  {
    if layout == DateTime {
      SpacesCut(gap, rest);
    } else {
      assert (gap + rest)[1..] == rest;
    }
  }

  lemma ZoneRead(zone: string)
    requires IsZone(zone)
    ensures ParseZone(zone) == Some((ZoneSeconds(zone), ""))
  {
    if zone == "Z" {
      assert zone[1..] == "";
    } else {
      NumberOfTwo(zone[1..3]);
      NumberOfTwo(zone[4..6]);
      assert zone[6..] == "";
    }
  }

  lemma ClockSeconds(c: Civil)
    requires 1 <= c.month <= 12
    ensures ToSeconds(c)
            == ToSeconds(c.(hour := 0, minute := 0, second := 0)) + 3600 * c.hour + 60 * c.minute + c.second
  {
  }

  lemma DatedRead(layout: Layout, p: Parts) returns (t: Instant)
    requires layout.HasDate() && layout.HasClock() && Fits(layout, p)
    ensures Parse(layout, Spelt(layout, p)) == Some(t) && Means(layout, p, t)
  {
    var zone := if layout.HasZone() then p.zone else "";
    var clock := ClockSpelt(p) + zone;
    assert Spelt(layout, p) == DateSpelt(p) + (p.gap + clock) by {
      assert ClockSpelt(p) + "" == ClockSpelt(p);
    }
    DateRead(p, p.gap + clock);
    assert clock[0] == p.hour[0];
    GapRead(layout, p.gap, clock);
    ClockRead(p, zone);
    var offset := 0;
    if layout.HasZone() {
      ZoneRead(zone);
      offset := ZoneSeconds(zone);
    }
    var c := Civil(Number(p.year), Number(p.month), Number(p.day), Number(p.hour), Number(p.minute), Number(p.second));
    ParseParts(layout, Spelt(layout, p), c, FractionNanos(p.fraction), offset, p.gap + clock, clock, zone);
    t := At(c, FractionNanos(p.fraction), offset);
    ClockSeconds(c);
  }

  lemma SpeltIsRead(layout: Layout, p: Parts) returns (t: Instant)
    requires Fits(layout, p)
    ensures Parse(layout, Spelt(layout, p)) == Some(t) && Means(layout, p, t)
  {
    if layout == DateOnly {
      DateRead(p, "");
      assert DateSpelt(p) + "" == DateSpelt(p);
      t := At(Civil(Number(p.year), Number(p.month), Number(p.day), 0, 0, 0), 0, 0);
    } else if layout == TimeOnly {
      ClockRead(p, "");
      assert ClockSpelt(p) + "" == ClockSpelt(p);
      var c := Civil(0, 1, 1, Number(p.hour), Number(p.minute), Number(p.second));
      t := At(c, FractionNanos(p.fraction), 0);
      ClockSeconds(c);
    } else {
      t := DatedRead(layout, p);
    }
  }

  // ---------- what is accepted is spelt right ----------

  lemma TwoSplit(s: string)
    requires ParseTwoDigits(s, true).Some?
    ensures |s| >= 2 && Digits(s[..2], 2) && ParseTwoDigits(s, true) == Some((Number(s[..2]), s[2..]))
    ensures s == s[..2] + s[2..]
  {
    NumberOfTwo(s[..2]);
  }

  lemma SkipSplit(s: string, separator: char)
    requires separator != ' ' && Skip(s, separator).Some?
    ensures s == [separator] + Skip(s, separator).value
  {
  }

  lemma DateSplit(s: string) returns (p: Parts, rest: string)
    requires ParseDate(s).Some?
    ensures s == DateSpelt(p) + rest
    ensures Digits(p.year, 4) && Digits(p.month, 2) && Digits(p.day, 2)
    ensures ParseDate(s) == Some((Number(p.year), Number(p.month), Number(p.day), rest))
    ensures 1 <= Number(p.month) <= 12
  {
    var a := s[4..];
    SkipSplit(a, '-');
    var b := a[1..];
    TwoSplit(b);
    SkipSplit(b[2..], '-');
    var d := b[2..][1..];
    TwoSplit(d);
    rest := d[2..];
    p := Parts(s[..4], b[..2], d[..2], "", "", "", "", "", "");
    assert s == s[..4] + a;
  }

  lemma HourSplit(s: string) returns (hour: string, rest: string)
    requires ParseTwoDigits(s, false).Some?
    ensures s == hour + rest && (Digits(hour, 1) || Digits(hour, 2))
    ensures ParseTwoDigits(s, false) == Some((Number(hour), rest))
  {
    if DigitAt(s, 1) {
      hour, rest := s[..2], s[2..];
      NumberOfTwo(hour);
    } else {
      hour, rest := s[..1], s[1..];
      assert hour[..0] == "" && Number(hour) == DigitValue(hour[0]);
    }
  }

  lemma FractionSplit(s: string) returns (fraction: string, rest: string)
    ensures s == fraction + rest && IsFraction(fraction)
    ensures ParseFraction(s) == (FractionNanos(fraction), rest)
  {
    if |s| >= 2 && (s[0] == '.' || s[0] == ',') && DigitAt(s, 1) {
      var n := DigitRun(s[1..]);
      fraction, rest := s[..1 + n], s[1..][n..];
      assert fraction[1..] == s[1..][..n];
      assert rest == s[1 + n..];
    } else {
      fraction, rest := "", s;
    }
  }

  lemma ClockSplit(s: string) returns (p: Parts, rest: string)
    requires ParseClock(s).Some?
    ensures s == ClockSpelt(p) + rest && IsClock(p)
    ensures ParseClock(s)
            == Some((Number(p.hour), Number(p.minute), Number(p.second), FractionNanos(p.fraction), rest))
  {
    var hour, a := HourSplit(s);
    SkipSplit(a, ':');
    var b := a[1..];
    TwoSplit(b);
    SkipSplit(b[2..], ':');
    var d := b[2..][1..];
    TwoSplit(d);
    var fraction, end := FractionSplit(d[2..]);
    p := Parts("", "", "", "", hour, b[..2], d[..2], fraction, "");
    rest := end;
    ClockJoins(s, p, rest, a, b, d);
  }

  lemma {:induction false} SpacesSplit(s: string) returns (gap: string)
    ensures s == gap + CutSpaces(s) && Spaces(gap)
  {
    if s != "" && s[0] == ' ' {
      var more := SpacesSplit(s[1..]);
      gap := " " + more;
    } else {
      gap := "";
    }
  }

  lemma GapSplit(layout: Layout, s: string, rest: string) returns (gap: string)
    requires layout.HasDate() && layout.HasClock()
    requires Skip(s, layout.Separator()) == Some(rest) && rest != ""
    ensures s == gap + rest && (IsGap(layout, gap) || rest[0] == ' ')
  {
    if layout == DateTime {
      gap := SpacesSplit(s);
    } else {
      gap := "T";
    }
  }

  lemma ZoneSplit(s: string)
    requires ParseZone(s).Some? && ParseZone(s).value.1 == ""
    ensures IsZone(s) && ParseZone(s).value.0 == ZoneSeconds(s)
  {
    if s[0] == 'Z' {
      assert s == "Z";
    } else {
      NumberOfTwo(s[1..3]);
      NumberOfTwo(s[4..6]);
    }
  }

  lemma DatedSplit(layout: Layout, s: string, t: Instant) returns (p: Parts)
    requires layout.HasDate() && layout.HasClock() && Parse(layout, s) == Some(t)
    ensures Fits(layout, p) && Spelt(layout, p) == s && Means(layout, p, t)
  {
    var d, a := DateSplit(s);
    var b := Skip(a, layout.Separator()).value;
    var c, zone := ClockSplit(b);
    var gap := GapSplit(layout, a, b);
    assert b[0] == c.hour[0];
    if layout.HasZone() {
      ZoneSplit(zone);
    }
    p := c.(year := d.year, month := d.month, day := d.day, gap := gap, zone := zone);
    assert ClockSpelt(p) + "" == ClockSpelt(p);
    ClockSeconds(Civil(Number(p.year), Number(p.month), Number(p.day), Number(p.hour), Number(p.minute), Number(p.second)));
  }

  lemma ReadIsSpelt(layout: Layout, s: string, t: Instant) returns (p: Parts)
    requires Parse(layout, s) == Some(t)
    ensures Fits(layout, p) && Spelt(layout, p) == s && Means(layout, p, t)
  {
    if layout == DateOnly {
      var d, rest := DateSplit(s);
      p := d;
      assert DateSpelt(p) + "" == DateSpelt(p);
    } else if layout == TimeOnly {
      var c, rest := ClockSplit(s);
      p := c;
      assert ClockSpelt(p) + "" == ClockSpelt(p);
      ClockSeconds(Civil(0, 1, 1, Number(p.hour), Number(p.minute), Number(p.second)));
    } else {
      p := DatedSplit(layout, s, t);
    }
  }

  // A layout accepts just the texts spelt by the grammar, and reads them as the
  // instant they mean.
  lemma ParsesExactly(layout: Layout, s: string, t: Instant)
    ensures Parse(layout, s) == Some(t) <==> exists p :: Fits(layout, p) && Spelt(layout, p) == s && Means(layout, p, t)
  {
    if Parse(layout, s) == Some(t) {
      var p := ReadIsSpelt(layout, s, t);
    }
    forall p | Fits(layout, p) && Spelt(layout, p) == s && Means(layout, p, t)
      ensures Parse(layout, s) == Some(t)
    {
      var u := SpeltIsRead(layout, p);
      assert u == t;
    }
  }
}
