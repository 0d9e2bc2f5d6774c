/**
 Printing and reading times in the layouts the platform stores
 (mongo/mongo.go:12-19) and in the two RFC 3339 layouts it also accepts.
 Printing and parsing follow the rules of Go's time package.
 */
module TimeLayout {
  import opened Wrappers
  import opened Calendar
  import opened Decimal

  const NANOS_PER_SECOND := 1_000_000_000

  type Nanos = n: int | 0 <= n < NANOS_PER_SECOND

  // A point in time: Unix seconds and the nanoseconds past them.
  datatype Instant = Instant(seconds: int, nanos: Nanos) {
    function Floor(): Instant {
      Instant(seconds, 0)
    }

    function Year(): int {
      FromSeconds(seconds).year
    }
  }

  // time.Time{}: midnight UTC on 1 January of year 1.
  const ZERO_TIME := Instant(ToSeconds(NewYear(1)), 0)

  // The zero time in seconds before 1970.
  lemma ZeroTimeSeconds()
    ensures ZERO_TIME.seconds == -62135596800
  {
    SecondsClosed(NewYear(1));
  }

  datatype Layout =
    | DateTime     // 2006-01-02 15:04:05
    | DateOnly     // 2006-01-02
    | TimeOnly     // 15:04:05
    | Rfc3339      // 2006-01-02T15:04:05Z07:00
    | Rfc3339Nano  // 2006-01-02T15:04:05.999999999Z07:00
  {
    predicate HasDate() {
      !TimeOnly?
    }

    predicate HasClock() {
      !DateOnly?
    }

    function Separator(): char {
      if DateTime? then ' ' else 'T'
    }

    predicate HasZone() {
      Rfc3339? || Rfc3339Nano?
    }

    // The year is the only field that can print wider than it is read.
    predicate Covers(t: Instant) {
      HasDate() ==> 0 <= t.Year() <= 9999
    }
  }

  // ---------- printing ----------

  function DateText(c: Civil): string
    requires Valid(c)
  {
    SignedPadded(c.year, 4) + ("-" + (Padded(c.month, 2) + ("-" + Padded(c.day, 2))))
  }

  function ClockText(c: Civil): string
    requires Valid(c)
  {
    Padded(c.hour, 2) + (":" + (Padded(c.minute, 2) + (":" + Padded(c.second, 2))))
  }

  function Text(layout: Layout, c: Civil): string
    requires Valid(c) && !layout.HasZone()
  {
    match layout
    case DateOnly => DateText(c)
    case TimeOnly => ClockText(c)
    case _ => DateText(c) + (" " + ClockText(c))
  }

  // t.UTC().Format(layout), for the three layouts that are written.
  function Format(layout: Layout, t: Instant): string
    requires !layout.HasZone()
  {
    Text(layout, FromSeconds(t.seconds))
  }

  // The columns of the date and time text, as 2006-01-02 15:04:05 lays them out.
  predicate Columns(s: string, c: Civil) {
    && |s| == 19 && s[4] == '-' && s[7] == '-' && s[10] == ' ' && s[13] == ':' && s[16] == ':'
    && AllDigits(s[..4]) && Number(s[..4]) == c.year
    && AllDigits(s[5..7]) && Number(s[5..7]) == c.month
    && AllDigits(s[8..10]) && Number(s[8..10]) == c.day
    && AllDigits(s[11..13]) && Number(s[11..13]) == c.hour
    && AllDigits(s[14..16]) && Number(s[14..16]) == c.minute
    && AllDigits(s[17..19]) && Number(s[17..19]) == c.second
  }

  lemma TwoDigits(n: int)
    requires 0 <= n < 100
    ensures |Padded(n, 2)| == 2 && Number(Padded(n, 2)) == n
  {
    assert Pow10(2) == 10 * Pow10(1) == 100;
    PaddedLength(n, 2);
    NumberOfPadded(n, 2);
  }

  lemma DateColumns(c: Civil)
    requires Valid(c) && 0 <= c.year <= 9999
    ensures var s := DateText(c);
            && |s| == 10 && s[4] == '-' && s[7] == '-'
            && s[..4] == Padded(c.year, 4) && s[5..7] == Padded(c.month, 2) && s[8..10] == Padded(c.day, 2)
            && Number(s[..4]) == c.year && Number(s[5..7]) == c.month && Number(s[8..10]) == c.day
  {
    assert Pow10(4) == 100 * Pow10(2) == 10000;
    PaddedLength(c.year, 4);
    NumberOfPadded(c.year, 4);
    TwoDigits(c.month);
    TwoDigits(c.day);
  }

  lemma ClockColumns(c: Civil)
    requires Valid(c)
    ensures var s := ClockText(c);
            && |s| == 8 && s[2] == ':' && s[5] == ':'
            && s[..2] == Padded(c.hour, 2) && s[3..5] == Padded(c.minute, 2) && s[6..8] == Padded(c.second, 2)
            && Number(s[..2]) == c.hour && Number(s[3..5]) == c.minute && Number(s[6..8]) == c.second
  {
    TwoDigits(c.hour);
    TwoDigits(c.minute);
    TwoDigits(c.second);
  }

  lemma Halved(date: string, clock: string)
    requires |date| == 10 && |clock| == 8
    ensures var s := date + (" " + clock);
            |s| == 19 && s[10] == ' ' && s[..10] == date && s[11..] == clock
  {
  }

  lemma Halves(c: Civil)
    requires Valid(c) && 0 <= c.year <= 9999
    ensures var s := Text(DateTime, c);
            |s| == 19 && s[10] == ' ' && s[..10] == DateText(c) && s[11..] == ClockText(c)
  {
    DateColumns(c);
    ClockColumns(c);
    Halved(DateText(c), ClockText(c));
  }

  // A stored date and time has its fields in their columns; the stored date and
  // the stored clock time are its two halves.
  lemma TextColumns(c: Civil)
    requires Valid(c) && 0 <= c.year <= 9999
    ensures Columns(Text(DateTime, c), c)
    ensures Text(DateOnly, c) == Text(DateTime, c)[..10]
    ensures Text(TimeOnly, c) == Text(DateTime, c)[11..]
  {
    var s := Text(DateTime, c);
    Halves(c);
    assert s[..4] == s[..10][..4] && s[5..7] == s[..10][5..7] && s[8..10] == s[..10][8..10];
    assert s[11..13] == s[11..][..2] && s[14..16] == s[11..][3..5] && s[17..19] == s[11..][6..8];
    DateColumns(c);
    ClockColumns(c);
  }

  // ---------- parsing ----------

  function CutSpaces(s: string): (r: string)
    ensures |r| <= |s|
  {
    if s != "" && s[0] == ' ' then CutSpaces(s[1..]) else s
  }

  // A space in a layout stands for any run of spaces; any other byte for itself.
  function Skip(s: string, prefix: char): Option<string> {
    if prefix == ' ' then
      if s != "" && s[0] != ' ' then None else Some(CutSpaces(s))
    else if s == "" || s[0] != prefix then None
    else Some(s[1..])
  }

  // Two digits, or one when the layout does not fix the width.
  function ParseTwoDigits(s: string, fixed: bool): Option<(int, string)> {
    if !DigitAt(s, 0) then None
    else if !DigitAt(s, 1) then
      if fixed then None else Some((DigitValue(s[0]), s[1..]))
    else Some((10 * DigitValue(s[0]) + DigitValue(s[1]), s[2..]))
  }

  function ParseYear(s: string): Option<(int, string)> {
    if |s| < 4 || !AllDigits(s[..4]) then None
    else Some((Number(s[..4]), s[4..]))
  }

  function ParseDate(s: string): Option<(int, int, int, string)> {
    var (year, s) :- ParseYear(s);
    var s :- Skip(s, '-');
    var (month, s) :- ParseTwoDigits(s, true);
    if month <= 0 || 12 < month then None else
    var s :- Skip(s, '-');
    var (day, s) :- ParseTwoDigits(s, true);
    Some((year, month, day, s))
  }

  function DigitRun(s: string): (n: nat)
    ensures n <= |s| && AllDigits(s[..n])
  {
    if DigitAt(s, 0) then 1 + DigitRun(s[1..]) else 0
  }

  lemma NineDigits(digits: string)
    requires AllDigits(digits) && |digits| == 9
    ensures 0 <= Number(digits) < NANOS_PER_SECOND
  {
    NumberBound(digits);
    assert Pow10(3) == 1000 && Pow10(6) == 1000 * Pow10(3) && Pow10(9) == 1000 * Pow10(6);
  }

  // Nanoseconds of a fraction's digits: those past the ninth are dropped, and
  // missing ones count as zeros.
  function NanosOf(digits: string): Nanos
    requires AllDigits(digits)
  {
    var kept := if |digits| > 9 then digits[..9] else digits;
    var nine := kept + seq(9 - |kept|, _ => '0');
    NineDigits(nine);
    Number(nine)
  }

  lemma TenTimes(n: nat, k: nat)
    ensures n * Pow10(k + 1) == 10 * (n * Pow10(k))
  {
  }

  lemma NumberThenZero(s: string)
    requires AllDigits(s)
    ensures Number(s + "0") == 10 * Number(s)
  {
    assert (s + "0")[..|s|] == s;
  }

  lemma {:induction false} NumberThenZeros(digits: string, k: nat)
    requires AllDigits(digits)
    ensures Number(digits + seq(k, _ => '0')) == Number(digits) * Pow10(k)
  {
    if k == 0 {
      assert digits + seq(0, _ => '0') == digits;
    } else {
      var fewer := digits + seq(k - 1, _ => '0');
      assert digits + seq(k, _ => '0') == fewer + "0";
      NumberThenZeros(digits, k - 1);
      NumberThenZero(fewer);
      TenTimes(Number(digits), k - 1);
    }
  }

  // What the digits of a fraction are worth: .5 is half a second.
  function FractionValue(digits: string): int
    requires AllDigits(digits)
  {
    if |digits| <= 9 then Number(digits) * Pow10(9 - |digits|) else Number(digits[..9])
  }

  lemma NanosAreFractions(digits: string)
    requires AllDigits(digits)
    ensures NanosOf(digits) == FractionValue(digits)
  {
    if |digits| <= 9 {
      NumberThenZeros(digits, 9 - |digits|);
    } else {
      assert digits[..9] + seq(0, _ => '0') == digits[..9];
    }
  }

  // An optional fraction after the seconds: a period or a comma, then digits.
  function ParseFraction(s: string): (Nanos, string) {
    if |s| >= 2 && (s[0] == '.' || s[0] == ',') && DigitAt(s, 1) then
      var n := DigitRun(s[1..]);
      (NanosOf(s[1..][..n]), s[1..][n..])
    else (0, s)
  }

  function ParseClockFields(s: string): Option<(int, int, int, string)> {
    var (hour, s) :- ParseTwoDigits(s, false);
    if 24 <= hour then None else
    var s :- Skip(s, ':');
    var (minute, s) :- ParseTwoDigits(s, true);
    if 60 <= minute then None else
    var s :- Skip(s, ':');
    var (second, s) :- ParseTwoDigits(s, true);
    if 60 <= second then None else Some((hour, minute, second, s))
  }

  function ParseClock(s: string): Option<(int, int, int, Nanos, string)> {
    var (hour, minute, second, s) :- ParseClockFields(s);
    var (nanos, s) := ParseFraction(s);
    Some((hour, minute, second, nanos, s))
  }

  // The offset in seconds east of UTC; hour 24 and minute 60 are let through.
  function ParseZone(s: string): Option<(int, string)> {
    if |s| >= 1 && s[0] == 'Z' then Some((0, s[1..]))
    else if |s| < 6 || s[3] != ':' then None
    else
      var (hours, _) :- ParseTwoDigits(s[1..3], true);
      var (minutes, _) :- ParseTwoDigits(s[4..6], true);
      if hours > 24 || minutes > 60 then None
      else if s[0] == '+' then Some(((hours * 60 + minutes) * 60, s[6..]))
      else if s[0] == '-' then Some((-(hours * 60 + minutes) * 60, s[6..]))
      else None
  }

  // The instant that local fields name at an offset east of UTC.
  function At(c: Civil, nanos: Nanos, offset: int): Instant
    requires 1 <= c.month <= 12
  {
    Instant(ToSeconds(c) - offset, nanos)
  }

  // time.ParseInLocation(layout, s, time.UTC), without its shortcut for RFC 3339.
  // The fraction is read with the seconds, or as a field of its own when the
  // layout has one: the same place.
  function Parse(layout: Layout, s: string): Option<Instant> {
    var (year, month, day, s) :- if layout.HasDate() then ParseDate(s) else Some((0, 1, 1, s));
    var s :- if layout.HasDate() && layout.HasClock() then Skip(s, layout.Separator()) else Some(s);
    var (hour, minute, second, nanos, s) :- if layout.HasClock() then ParseClock(s) else Some((0, 0, 0, 0, s));
    var (offset, s) :- if layout.HasZone() then ParseZone(s) else Some((0, s));
    if s == "" && ValidDate(year, month, day)
    then Some(At(Civil(year, month, day, hour, minute, second), nanos, offset)) else None
  }

  // ---------- printing then parsing ----------

  lemma TwoDigitsOfPadded(n: int, fixed: bool, rest: string)
    requires 0 <= n < 100
    ensures |Padded(n, 2)| == 2
    ensures ParseTwoDigits(Padded(n, 2) + rest, fixed) == Some((n, rest))
  {
    var s := Padded(n, 2) + rest;
    assert Padded(n, 2) == [Digit(n / 10), Digit(n % 10)];
    assert s[2..] == rest;
  }

  lemma YearOfPadded(year: int, rest: string)
    requires 0 <= year <= 9999
    ensures ParseYear(Padded(year, 4) + rest) == Some((year, rest))
  {
    assert Pow10(4) == 100 * Pow10(2) == 10000;
    PaddedLength(year, 4);
    NumberOfPadded(year, 4);
    var s := Padded(year, 4) + rest;
    assert s[..4] == Padded(year, 4) && s[4..] == rest;
  }

  lemma FieldOfPadded(n: int, fixed: bool, separator: char, rest: string)
    requires 0 <= n < 100 && separator != ' '
    ensures var r := ParseTwoDigits(Padded(n, 2) + ([separator] + rest), fixed);
            r == Some((n, [separator] + rest)) && Skip(r.value.1, separator) == Some(rest)
  {
    TwoDigitsOfPadded(n, fixed, [separator] + rest);
    assert ([separator] + rest)[1..] == rest;
  }

  lemma DateOfText(c: Civil, rest: string)
    requires Valid(c) && 0 <= c.year <= 9999
    ensures ParseDate(DateText(c) + rest) == Some((c.year, c.month, c.day, rest))
  {
    var days := Padded(c.day, 2) + rest;
    var months := Padded(c.month, 2) + ("-" + days);
    assert DateText(c) + rest == Padded(c.year, 4) + ("-" + months);
    YearOfPadded(c.year, "-" + months);
    assert ("-" + months)[1..] == months;
    FieldOfPadded(c.month, true, '-', days);
    TwoDigitsOfPadded(c.day, true, rest);
  }

  lemma ClockFieldsOfText(c: Civil, rest: string)
    requires Valid(c)
    ensures ParseClockFields(ClockText(c) + rest) == Some((c.hour, c.minute, c.second, rest))
  {
    var seconds := Padded(c.second, 2) + rest;
    var minutes := Padded(c.minute, 2) + (":" + seconds);
    assert ClockText(c) + rest == Padded(c.hour, 2) + (":" + minutes);
    FieldOfPadded(c.hour, false, ':', minutes);
    FieldOfPadded(c.minute, true, ':', seconds);
    TwoDigitsOfPadded(c.second, true, rest);
  }

  lemma ClockOfText(c: Civil, rest: string)
    requires Valid(c) && (rest == "" || rest[0] !in ".,")
    ensures ParseClock(ClockText(c) + rest) == Some((c.hour, c.minute, c.second, 0, rest))
  {
    ClockFieldsOfText(c, rest);
  }

  // The fields that a layout prints; the parser fills in the others like this.
  function Printed(layout: Layout, c: Civil): Civil {
    match layout
    case DateOnly => c.(hour := 0, minute := 0, second := 0)
    case TimeOnly => c.(year := 0, month := 1, day := 1)
    case _ => c
  }

  // The part of an instant that a layout prints, as the parser rebuilds it.
  function Shown(layout: Layout, t: Instant): Instant {
    At(Printed(layout, FromSeconds(t.seconds)), 0, 0)
  }

  lemma ParseParts(layout: Layout, s: string, c: Civil, nanos: Nanos, offset: int,
                   afterDate: string, clock: string, zone: string)
    requires layout.HasDate() && layout.HasClock() && Valid(c)
    requires ParseDate(s) == Some((c.year, c.month, c.day, afterDate))
    requires Skip(afterDate, layout.Separator()) == Some(clock)
    requires ParseClock(clock) == Some((c.hour, c.minute, c.second, nanos, zone))
    requires (if layout.HasZone() then ParseZone(zone) else Some((0, zone))) == Some((offset, ""))
    ensures Parse(layout, s) == Some(At(c, nanos, offset))
  {
  }

  lemma SkipSpaceBeforeClock(c: Civil)
    requires Valid(c)
    ensures Skip(" " + ClockText(c), ' ') == Some(ClockText(c))
  {
    var s := " " + ClockText(c);
    assert s[1..] == ClockText(c);
    TwoDigitsOfPadded(c.hour, false, "");
    assert ClockText(c)[0] == Padded(c.hour, 2)[0];
    assert IsDigit(Padded(c.hour, 2)[0]);
    assert CutSpaces(s) == CutSpaces(ClockText(c)) == ClockText(c);
  }

  lemma ParseOfDate(c: Civil)
    requires Valid(c) && 0 <= c.year <= 9999
    ensures Parse(DateOnly, DateText(c)) == Some(At(c.(hour := 0, minute := 0, second := 0), 0, 0))
  {
    DateOfText(c, "");
    assert DateText(c) + "" == DateText(c);
  }

  lemma ParseOfClock(c: Civil)
    requires Valid(c)
    ensures Parse(TimeOnly, ClockText(c)) == Some(At(c.(year := 0, month := 1, day := 1), 0, 0))
  {
    ClockOfText(c, "");
    assert ClockText(c) + "" == ClockText(c);
  }

  lemma ParseOfBoth(c: Civil)
    requires Valid(c) && 0 <= c.year <= 9999
    ensures Parse(DateTime, DateText(c) + (" " + ClockText(c))) == Some(At(c, 0, 0))
  {
    DateOfText(c, " " + ClockText(c));
    SkipSpaceBeforeClock(c);
    ClockOfText(c, "");
    assert ClockText(c) + "" == ClockText(c);
    ParseParts(DateTime, DateText(c) + (" " + ClockText(c)), c, 0, 0, " " + ClockText(c), ClockText(c), "");
  }

  lemma ParseOfText(layout: Layout, c: Civil)
    requires Valid(c) && !layout.HasZone()
    requires layout.HasDate() ==> 0 <= c.year <= 9999
    ensures Parse(layout, Text(layout, c)) == Some(At(Printed(layout, c), 0, 0))
  {
    match layout
    case DateOnly => ParseOfDate(c);
    case TimeOnly => ParseOfClock(c);
    case _ => ParseOfBoth(c);
  }

  // Nothing, or a period or a comma and digits.
  predicate IsFraction(s: string) {
    s == "" || (|s| >= 2 && (s[0] == '.' || s[0] == ',') && AllDigits(s[1..]))
  }

  function FractionNanos(s: string): (n: Nanos)
    requires IsFraction(s)
    ensures n == if s == "" then 0 else FractionValue(s[1..])
  {
    if s == "" then 0 else NanosAreFractions(s[1..]); NanosOf(s[1..])
  }

  lemma {:induction false} DigitRunOf(digits: string, rest: string)
    requires AllDigits(digits) && !DigitAt(rest, 0)
    ensures DigitRun(digits + rest) == |digits|
  {
    if digits == "" {
      assert digits + rest == rest;
    } else {
      assert (digits + rest)[1..] == digits[1..] + rest;
      DigitRunOf(digits[1..], rest);
    }
  }

  lemma FractionOfText(fraction: string, rest: string)
    requires IsFraction(fraction) && (rest == "" || rest[0] in "Z+-")
    ensures ParseFraction(fraction + rest) == (FractionNanos(fraction), rest)
  {
    if fraction == "" {
      assert fraction + rest == rest;
    } else {
      var digits := fraction[1..];
      assert (fraction + rest)[1..] == digits + rest;
      assert digits[0] == fraction[1];
      DigitRunOf(digits, rest);
      assert (digits + rest)[..|digits|] == digits && (digits + rest)[|digits|..] == rest;
    }
  }

  // RFC 3339 text names the instant its offset says, for every offset zone and
  // with any fraction of a second.
  lemma ParseOfZonedText(layout: Layout, c: Civil, fraction: string, zone: string)
    requires layout.HasZone() && Valid(c) && 0 <= c.year <= 9999 && IsFraction(fraction)
    requires ParseZone(zone).Some? && ParseZone(zone).value.1 == ""
    ensures Parse(layout, DateText(c) + ("T" + (ClockText(c) + (fraction + zone))))
            == Some(At(c, FractionNanos(fraction), ParseZone(zone).value.0))
    ensures FractionNanos(fraction) == if fraction == "" then 0 else FractionValue(fraction[1..])
  {
    var clock := ClockText(c) + (fraction + zone);
    DateOfText(c, "T" + clock);
    assert ("T" + clock)[1..] == clock;
    assert zone[0] in "Z+-";
    FractionOfText(fraction, zone);
    ClockFieldsOfText(c, fraction + zone);
    ParseParts(layout, DateText(c) + ("T" + clock), c, FractionNanos(fraction), ParseZone(zone).value.0,
               "T" + clock, clock, zone);
  }

  // ---------- the RFC 3339 fast path ----------

  // A field of fixed width whose digits must lie in a range.
  predicate InRange(s: string, low: int, high: int) {
    AllDigits(s) && low <= Number(s) <= high
  }

  predicate FastFields(s: string)
    requires |s| >= 19
  {
    && InRange(s[..4], 0, 9999) && InRange(s[5..7], 1, 12) && AllDigits(s[8..10])
    && ValidDate(Number(s[..4]), Number(s[5..7]), Number(s[8..10]))
    && InRange(s[11..13], 0, 23) && InRange(s[14..16], 0, 59) && InRange(s[17..19], 0, 59)
    && s[4] == '-' && s[7] == '-' && s[10] == 'T' && s[13] == ':' && s[16] == ':'
  }

  function FastZone(s: string): Option<int> {
    if s == "Z" then Some(0)
    else if |s| != 6 then None
    else if !InRange(s[1..3], 0, 23) || !InRange(s[4..6], 0, 59) || s[3] != ':' then None
    else
      var offset := (Number(s[1..3]) * 60 + Number(s[4..6])) * 60;
      if s[0] == '-' then Some(-offset) else if s[0] == '+' then Some(offset) else None
  }

  // The time package's shortcut for RFC 3339 text: fixed columns, no leniency.
  function FastParse(s: string): Option<Instant> {
    if |s| < 19 || !FastFields(s) then None
    else
      var c := Civil(Number(s[..4]), Number(s[5..7]), Number(s[8..10]),
                     Number(s[11..13]), Number(s[14..16]), Number(s[17..19]));
      var (nanos, rest) := if |s| > 19 && s[19] == '.' then ParseFraction(s[19..]) else (0, s[19..]);
      var offset :- FastZone(rest);
      Some(At(c, nanos, offset))
  }

  // ParseInLocation as called: the shortcut first, then the general parser.
  function ParseInLocation(layout: Layout, s: string): Option<Instant> {
    if layout.HasZone() && FastParse(s).Some? then FastParse(s) else Parse(layout, s)
  }

  lemma NumberOfTwo(s: string)
    requires |s| == 2 && AllDigits(s)
    ensures Number(s) == 10 * DigitValue(s[0]) + DigitValue(s[1])
  {
    var tens := s[..1];
    assert tens[..0] == "" && Number(tens) == DigitValue(s[0]);
  }

  // A two-digit column read in place is the two-digit field read from there on.
  lemma TwoDigitColumn(s: string, i: nat, fixed: bool)
    requires i + 2 <= |s| && AllDigits(s[i..i + 2])
    ensures ParseTwoDigits(s[i..], fixed) == Some((Number(s[i..i + 2]), s[i + 2..]))
  {
    NumberOfTwo(s[i..i + 2]);
    assert s[i..][0] == s[i..i + 2][0] && s[i..][1] == s[i..i + 2][1];
    assert s[i..][2..] == s[i + 2..];
  }

  lemma FastDate(s: string)
    requires |s| >= 19 && FastFields(s)
    ensures ParseDate(s) == Some((Number(s[..4]), Number(s[5..7]), Number(s[8..10]), s[10..]))
  {
    assert s[4..][1..] == s[5..] && s[7..][1..] == s[8..];
    TwoDigitColumn(s, 5, true);
    TwoDigitColumn(s, 8, true);
  }

  lemma FastClock(s: string)
    requires |s| >= 19 && FastFields(s)
    ensures ParseClock(s[11..]) ==
            Some((Number(s[11..13]), Number(s[14..16]), Number(s[17..19]),
                  ParseFraction(s[19..]).0, ParseFraction(s[19..]).1))
  {
    assert s[13..][1..] == s[14..] && s[16..][1..] == s[17..];
    TwoDigitColumn(s, 11, false);
    TwoDigitColumn(s, 14, true);
    TwoDigitColumn(s, 17, true);
  }

  lemma FastZoneIsZone(s: string)
    requires FastZone(s).Some?
    ensures ParseZone(s) == Some((FastZone(s).value, ""))
  {
    if s == "Z" {
      assert s[1..] == "";
    } else {
      assert s[6..] == "";
      var h, m := s[1..3], s[4..6];
      NumberOfTwo(h);
      NumberOfTwo(m);
    }
  }

  // Whatever the shortcut accepts, the general parser accepts with the same
  // meaning, so trying it first changes nothing.
  lemma FastPathRefinesParse(layout: Layout, s: string)
    ensures ParseInLocation(layout, s) == Parse(layout, s)
  {
    if layout.HasZone() && FastParse(s).Some? {
      FastDate(s);
      FastClock(s);
      assert s[10..][1..] == s[11..];
      var (nanos, rest) := if |s| > 19 && s[19] == '.' then ParseFraction(s[19..]) else (0, s[19..]);
      FastZoneIsZone(rest);
      var c := Civil(Number(s[..4]), Number(s[5..7]), Number(s[8..10]),
                     Number(s[11..13]), Number(s[14..16]), Number(s[17..19]));
      ParseParts(layout, s, c, nanos, FastZone(rest).value, s[10..], s[11..], rest);
    }
  }
}
