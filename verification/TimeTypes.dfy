/**
 The stored types DateTime, DateOnly and TimeOnly (mongo/datetime.go): one cell
 class, since they differ in their layout alone. A decode that fails leaves the
 receiver as it was.
 */
module TimeTypes {
  import opened Wrappers
  import opened Calendar
  import opened Decimal
  import opened TimeLayout
  import opened TimeCodec
  import Bson

  type StoredLayout = l: Layout | !l.HasZone() witness DateTime

  // ---------- BSON ----------

  // Go divides toward zero, so the rest of a negative number is negative.
  function GoQuotient(a: int, b: int): int
    requires b > 0
  {
    if a >= 0 then a / b else -(-a / b)
  }

  function GoRemainder(a: int, b: int): int
    requires b > 0
  {
    a - b * GoQuotient(a, b)
  }

  // time.Unix: a second is borrowed for a negative nanosecond count.
  function Unix(seconds: int, nanos: int): Instant
    requires -NANOS_PER_SECOND < nanos < NANOS_PER_SECOND
  {
    if nanos < 0 then Instant(seconds - 1, nanos + NANOS_PER_SECOND) else Instant(seconds, nanos)
  }

  function UnixMilli(ms: int): Instant {
    Unix(GoQuotient(ms, 1000), GoRemainder(ms, 1000) * 1_000_000)
  }

  // Before 1970 as after it, a BSON datetime is its floored second and the rest.
  lemma UnixMilliFloors(ms: int)
    ensures UnixMilli(ms).seconds == ms / 1000
    ensures UnixMilli(ms).nanos == ms % 1000 * 1_000_000
  {
  }

  function Encoded(layout: StoredLayout, t: Instant): Bson.Value {
    Bson.Str(Format(layout, t))
  }

  function Decoded(v: Bson.Value, layout: StoredLayout): Option<Instant> {
    match v
    case Null | Undefined => Some(ZERO_TIME)
    case DateTime(ms) => Some(UnixMilli(ms))
    case Str(s) => Flexible(s, layout)
    case _ => None
  }

  predicate IsTimeKind(v: Bson.Value) {
    v.Null? || v.Undefined? || v.DateTime? || v.Str?
  }

  lemma DecodedExactly(v: Bson.Value, layout: StoredLayout)
    ensures v.Null? || v.Undefined? ==> Decoded(v, layout) == Some(ZERO_TIME)
    ensures v.DateTime? ==>
              Decoded(v, layout) == Some(Instant(v.milliseconds / 1000, v.milliseconds % 1000 * 1_000_000))
    ensures v.Str? ==> forall t :: Says(v.text, t) <==> Decoded(v, layout) == Some(t)
    ensures !IsTimeKind(v) ==> Decoded(v, layout).None?
  {
    match v
    case DateTime(ms) =>
      UnixMilliFloors(ms);
    case Str(s) =>
      forall t ensures Says(s, t) <==> Decoded(v, layout) == Some(t) {
        FlexibleExactly(s, layout, t);
      }
    case _ =>
  }

  // A null is the zero time, a datetime its floored second and the rest, text
  // what it says; anything else, text that says nothing included, is an error.
  method DecodeTimeValue(v: Bson.Value, layout: StoredLayout) returns (t: Option<Instant>)
    ensures v.Null? || v.Undefined? ==> t == Some(ZERO_TIME)
    ensures v.DateTime? ==> t == Some(Instant(v.milliseconds / 1000, v.milliseconds % 1000 * 1_000_000))
    ensures v.Str? && t.Some? ==> Says(v.text, t.value)
    ensures v.Str? && t.None? ==> forall i :: !Says(v.text, i)
    ensures !IsTimeKind(v) ==> t.None?
    ensures t == Decoded(v, layout)
  {
    DecodedExactly(v, layout);
    match v
    case Null | Undefined =>
      t := Some(ZERO_TIME);
    case DateTime(ms) =>
      t := Some(UnixMilli(ms));
    case Str(s) =>
      t := ParseFlexibleTime(s, layout);
    case _ =>
      t := None;
  }

  // ---------- JSON ----------

  predicate Printable(s: string) {
    forall i :: 0 <= i < |s| ==> ' ' <= s[i] <= '~'
  }

  // The body of fmt's %q for printable ASCII: quotes and backslashes escaped.
  function Escaped(s: string): string
    requires Printable(s)
  {
    if s == "" then ""
    else (if s[0] == '"' || s[0] == '\\' then "\\" + [s[0]] else [s[0]]) + Escaped(s[1..])
  }

  function Quoted(s: string): string
    requires Printable(s)
  {
    "\"" + Escaped(s) + "\""
  }

  function TrimQuotes(data: string): string {
    if |data| >= 2 && data[0] == '"' && data[|data| - 1] == '"' then data[1..|data| - 1] else data
  }

  // One pair of quotes is taken off, and only a pair; data without is left alone.
  lemma TrimQuotesExactly(data: string, body: string)
    ensures TrimQuotes("\"" + body + "\"") == body
    ensures (forall inner :: data != "\"" + inner + "\"") ==> TrimQuotes(data) == data
  {
    var quoted := "\"" + body + "\"";
    assert quoted[1..|quoted| - 1] == body;
    if |data| >= 2 && data[0] == '"' && data[|data| - 1] == '"' {
      assert data == "\"" + data[1..|data| - 1] + "\"";
    }
  }

  // The bytes that times are printed with: none of them needs an escape.
  predicate Plain(s: string) {
    forall i :: 0 <= i < |s| ==> '0' <= s[i] <= '9' || s[i] == '-' || s[i] == ':' || s[i] == ' '
  }

  lemma FieldPlain(n: nat, width: nat, separator: char, rest: string)
    requires Plain([separator]) && Plain(rest)
    ensures Plain(Padded(n, width) + ([separator] + rest))
  {
  }

  lemma DatePlain(c: Civil)
    requires Valid(c)
    ensures Plain(DateText(c))
  {
    FieldPlain(c.month, 2, '-', Padded(c.day, 2));
    FieldPlain(if c.year < 0 then -c.year else c.year, 4, '-', Padded(c.month, 2) + ("-" + Padded(c.day, 2)));
  }

  lemma ClockPlain(c: Civil)
    requires Valid(c)
    ensures Plain(ClockText(c))
  {
    FieldPlain(c.minute, 2, ':', Padded(c.second, 2));
    FieldPlain(c.hour, 2, ':', Padded(c.minute, 2) + (":" + Padded(c.second, 2)));
  }

  lemma TextPlain(layout: StoredLayout, c: Civil)
    requires Valid(c)
    ensures Plain(Text(layout, c)) && Printable(Text(layout, c))
  {
    DatePlain(c);
    ClockPlain(c);
  }

  lemma FormatPlain(layout: StoredLayout, t: Instant)
    ensures Plain(Format(layout, t)) && Printable(Format(layout, t))
  {
    TextPlain(layout, FromSeconds(t.seconds));
  }

  lemma {:induction false} EscapedPlain(s: string)
    requires Plain(s)
    ensures Escaped(s) == s
  {
    if s != "" {
      EscapedPlain(s[1..]);
    }
  }

  function JSONText(layout: StoredLayout, t: Instant): string {
    FormatPlain(layout, t);
    Quoted(Format(layout, t))
  }

  // ---------- round trips ----------

  // The wire form of a time is its text, quoted in JSON; read back from either
  // it is the part of the time the type shows, exactly when the UTC year has
  // four digits (for a clock time: always).
  lemma WireRoundTrip(layout: StoredLayout, t: Instant)
    ensures Decoded(Encoded(layout, t), layout) == if layout.Covers(t) then Some(Shown(layout, t)) else None
    ensures Flexible(TrimQuotes(JSONText(layout, t)), layout)
            == if layout.Covers(t) then Some(Shown(layout, t)) else None
  {
    FormatPlain(layout, t);
    EscapedPlain(Format(layout, t));
    RoundTrip(layout, t);
  }

  // A stored DateTime is the instant floored to the second, nothing less.
  lemma DateTimeRoundTrip(t: Instant)
    ensures Decoded(Encoded(DateTime, t), DateTime) == Some(t.Floor()) <==> 0 <= t.Year() <= 9999
  {
    WireRoundTrip(DateTime, t);
  }

  // A JSON null is not the zero time, unlike a BSON null: it is rejected.
  lemma JSONNullRejected(layout: StoredLayout)
    ensures Flexible(TrimQuotes("null"), layout).None?
    ensures Decoded(Bson.Null, layout) == Some(ZERO_TIME)
  {
    forall k ensures Parse(k, "null").None? {
      ParseShape(k, "null");
    }
    FlexibleFromParse(DateTime, layout, "null");
  }

  // ---------- the receiver ----------

  class TimeValue {
    const layout: StoredLayout
    var time: Instant

    constructor (layout: StoredLayout, time: Instant)
      ensures this.layout == layout && this.time == time
    {
      this.layout, this.time := layout, time;
    }

    // The text decodes to the part of the time the type shows, exactly when the
    // year has four digits.
    method MarshalBSONValue() returns (v: Bson.Value)
      ensures v.Str? && v == Encoded(layout, time)
      ensures Decoded(v, layout) == if layout.Covers(time) then Some(Shown(layout, time)) else None
    {
      WireRoundTrip(layout, time);
      v := Bson.Str(Format(layout, time));
    }

    method UnmarshalBSONValue(v: Bson.Value) returns (ok: bool)
      modifies this
      ensures ok <==> Decoded(v, layout).Some?
      ensures time == if ok then Decoded(v, layout).value else old(time)
    {
      var t := DecodeTimeValue(v, layout);
      if t.None? {
        return false;
      }
      time := t.value;
      return true;
    }

    // The very text that BSON stores, in quotes, and it decodes likewise.
    method MarshalJSON() returns (data: string)
      ensures |data| >= 2 && data[0] == '"' && data[|data| - 1] == '"'
      ensures TrimQuotes(data) == Format(layout, time)
      ensures Flexible(TrimQuotes(data), layout) == if layout.Covers(time) then Some(Shown(layout, time)) else None
      ensures data == JSONText(layout, time)
    {
      FormatPlain(layout, time);
      EscapedPlain(Format(layout, time));
      WireRoundTrip(layout, time);
      data := JSONText(layout, time);
    }

    method UnmarshalJSON(data: string) returns (ok: bool)
      modifies this
      ensures ok <==> Flexible(TrimQuotes(data), layout).Some?
      ensures time == if ok then Flexible(TrimQuotes(data), layout).value else old(time)
    {
      var t := ParseFlexibleTime(TrimQuotes(data), layout);
      if t.None? {
        return false;
      }
      time := t.value;
      return true;
    }
  }

  // Writing a time to one cell's wire form and reading it into another.
  method Transfer(from: TimeValue, to: TimeValue) returns (ok: bool)
    requires from.layout == to.layout
    modifies to
    ensures ok <==> from.layout.Covers(old(from.time))
    ensures ok ==> to.time == Shown(from.layout, old(from.time))
    ensures !ok ==> to.time == old(to.time)
  {
    var v := from.MarshalBSONValue();
    ok := to.UnmarshalBSONValue(v);
  }
}
