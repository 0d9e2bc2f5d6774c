/**
 The registry's codec for time.Time (mongo/registry.go), written against a
 value writer and a value reader, and its agreement with the DateTime type.
 */
module Registry {
  import opened Wrappers
  import opened TimeLayout
  import opened TimeCodec
  import opened TimeTypes
  import Bson

  function Front(values: seq<Bson.Value>): Bson.Value
    requires values != []
  {
    values[0]
  }

  class ValueWriter {
    const broken: bool
    var written: seq<Bson.Value>

    constructor (broken: bool)
      ensures this.broken == broken && written == []
    {
      this.broken, written := broken, [];
    }

    method WriteString(s: string) returns (ok: bool)
      modifies this
      ensures ok == !broken
      ensures written == if ok then old(written) + [Bson.Str(s)] else old(written)
    {
      ok := !broken;
      if ok {
        written := written + [Bson.Str(s)];
      }
    }
  }

  // A reader standing before the values not yet read. A read of the wrong kind,
  // or of bytes that do not decode, fails and does not advance.
  class ValueReader {
    var rest: seq<Bson.Value>

    constructor (values: seq<Bson.Value>)
      ensures rest == values
    {
      rest := values;
    }

    method ReadNull() returns (ok: bool)
      requires rest != []
      modifies this
      ensures ok == Front(old(rest)).Null?
      ensures rest == if ok then old(rest)[1..] else old(rest)
    {
      ok := rest[0].Null?;
      if ok {
        rest := rest[1..];
      }
    }

    method ReadDateTime() returns (ms: Option<int>)
      requires rest != []
      modifies this
      ensures ms == if Front(old(rest)).DateTime? then Some(Front(old(rest)).milliseconds) else None
      ensures rest == if ms.Some? then old(rest)[1..] else old(rest)
    {
      ms := None;
      if rest[0].DateTime? {
        ms := Some(rest[0].milliseconds);
        rest := rest[1..];
      }
    }

    method ReadString() returns (s: Option<string>)
      requires rest != []
      modifies this
      ensures s == if Front(old(rest)).Str? then Some(Front(old(rest)).text) else None
      ensures rest == if s.Some? then old(rest)[1..] else old(rest)
    {
      s := None;
      if rest[0].Str? {
        s := Some(rest[0].text);
        rest := rest[1..];
      }
    }
  }

  // The time.Time variable a decode fills, which must be settable.
  class TimeSlot {
    const settable: bool
    var time: Instant

    constructor (settable: bool, time: Instant)
      ensures this.settable == settable && this.time == time
    {
      this.settable, this.time := settable, time;
    }
  }

  method EncodeTimeAsString(vw: ValueWriter, t: Instant) returns (ok: bool)
    modifies vw
    ensures ok == !vw.broken
    ensures vw.written == if ok then old(vw.written) + [Encoded(DateTime, t)] else old(vw.written)
  {
    ok := vw.WriteString(Format(DateTime, t));
  }

  // What a decode leaves behind: the new value of the slot, if it is set,
  // whether the call succeeds, and whether the value was consumed.
  datatype Outcome = Outcome(time: Option<Instant>, ok: bool, consumed: bool)

  function DecodeOutcome(v: Bson.Value): Outcome {
    match v
    case Null => Outcome(Some(ZERO_TIME), true, true)
    case Undefined => Outcome(Some(ZERO_TIME), false, false)
    case DateTime(ms) => Outcome(Some(UnixMilli(ms)), true, true)
    case Str(s) =>
      var t := if s == "" then Some(ZERO_TIME) else Flexible(s, DateTime);
      Outcome(t, t.Some?, true)
    case _ => Outcome(None, false, false)
  }

  method DecodeTimeFromString(vr: ValueReader, val: TimeSlot) returns (ok: bool)
    requires vr.rest != []
    modifies vr, val
    ensures !val.settable ==> !ok && val.time == old(val.time) && vr.rest == old(vr.rest)
    ensures val.settable ==>
              var o := DecodeOutcome(old(vr.rest)[0]);
              && ok == o.ok
              && val.time == (if o.time.Some? then o.time.value else old(val.time))
              && vr.rest == (if o.consumed then old(vr.rest)[1..] else old(vr.rest))
  {
    if !val.settable {
      return false;
    }
    match vr.rest[0].Type()
    case NullKind | UndefinedKind =>
      val.time := ZERO_TIME;
      ok := vr.ReadNull();
    case DateTimeKind =>
      var ms := vr.ReadDateTime();
      if ms.None? {
        return false;
      }
      val.time := UnixMilli(ms.value);
      return true;
    case StringKind =>
      var s := vr.ReadString();
      if s.None? {
        return false;
      }
      if s.value == "" {
        val.time := ZERO_TIME;
        return true;
      }
      var t := ParseFlexibleTime(s.value, DateTime);
      if t.None? {
        return false;
      }
      val.time := t.value;
      return true;
    case _ =>
      return false;
  }

  // Both codecs write the same text, and give every value the same meaning:
  // they part on an undefined value alone, which the registry's reader will
  // not read as a null, although the slot is set to the zero time by then.
  lemma CodecsAgree(v: Bson.Value)
    ensures DecodeOutcome(v).time == Decoded(v, DateTime)
    ensures (DecodeOutcome(v).ok <==> Decoded(v, DateTime).Some?) <==> !v.Undefined?
    ensures DecodeOutcome(v).consumed <==> v.Null? || v.DateTime? || v.Str?
  {
  }

  // A BSON datetime is stored again, through either codec, as the string of its
  // floored second, which decodes to that second if its year has four digits.
  lemma ReencodedDateTimeFloors(ms: int)
    ensures DecodeOutcome(Bson.DateTime(ms)).time == Some(UnixMilli(ms))
    ensures Encoded(DateTime, UnixMilli(ms)) == Encoded(DateTime, Instant(ms / 1000, 0))
    ensures DecodeOutcome(Encoded(DateTime, UnixMilli(ms)))
            == if DateTime.Covers(Instant(ms / 1000, 0)) then Outcome(Some(Instant(ms / 1000, 0)), true, true)
               else Outcome(None, false, true)
  {
    UnixMilliFloors(ms);
    var floor := Instant(ms / 1000, 0);
    assert Format(DateTime, UnixMilli(ms)) == Format(DateTime, floor);
    WireRoundTrip(DateTime, floor);
    assert Shown(DateTime, floor) == floor;
  }
}
