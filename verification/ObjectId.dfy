/**
 Identifiers as plain strings (mongo/objectid.go, mongo/bsonutil.go:11-26):
 24 hex digits are stored as an ObjectID, anything else as it is.
 */
module ObjectId {
  import opened Wrappers
  import Bson

  const NIL_OBJECT_ID: Bson.ObjectID := [0, 0, 0, 0, 0, 0, 0, 0, 0, 0, 0, 0]

  predicate IsHex(c: char) {
    '0' <= c <= '9' || 'a' <= c <= 'f' || 'A' <= c <= 'F'
  }

  function HexValue(c: char): (n: int)
    requires IsHex(c)
    ensures 0 <= n < 16
  {
    if '0' <= c <= '9' then c as int - '0' as int
    else if 'a' <= c <= 'f' then c as int - 'a' as int + 10
    else c as int - 'A' as int + 10
  }

  function HexDigit(n: int): (c: char)
    requires 0 <= n < 16
    ensures IsHex(c) && HexValue(c) == n
  {
    if n < 10 then ('0' as int + n) as char else ('a' as int + n - 10) as char
  }

  predicate IsObjectIDHex(s: string) {
    |s| == 24 && forall i :: 0 <= i < 24 ==> IsHex(s[i])
  }

  function ByteAt(s: string, i: int): Bson.Byte
    requires 0 <= 2 * i < |s| - 1 && IsHex(s[2 * i]) && IsHex(s[2 * i + 1])
  {
    16 * HexValue(s[2 * i]) + HexValue(s[2 * i + 1])
  }

  // bson.ObjectIDFromHex: digits of either case, exactly 24 of them.
  function FromHex(s: string): Option<Bson.ObjectID> {
    if IsObjectIDHex(s) then Some(seq(12, i requires 0 <= i < 12 => ByteAt(s, i))) else None
  }

  function DigitOf(id: Bson.ObjectID, i: int): (d: int)
    requires 0 <= i < 24
    ensures 0 <= d < 16
  {
    if i % 2 == 0 then id[i / 2] / 16 else id[i / 2] % 16
  }

  // Hex prints lower-case digits.
  function ToHex(id: Bson.ObjectID): (s: string)
    ensures |s| == 24
  {
    seq(24, i requires 0 <= i < 24 => HexDigit(DigitOf(id, i)))
  }

  // ---------- the codec ----------

  function IsZero(s: string): bool {
    s == "" || FromHex(s) == Some(NIL_OBJECT_ID)
  }

  function ToObjectID(s: string): Bson.ObjectID {
    if s == "" then NIL_OBJECT_ID
    else match FromHex(s) case None => NIL_OBJECT_ID case Some(id) => id
  }

  function IsObjectIDEmpty(s: string): bool {
    ToObjectID(s) == NIL_OBJECT_ID
  }

  function Marshal(s: string): Bson.Value {
    if s == "" then Bson.Null
    else match FromHex(s) case None => Bson.Str(s) case Some(id) => Bson.Oid(id)
  }

  function Unmarshal(v: Bson.Value): Option<string> {
    match v
    case Null | Undefined => Some("")
    case Oid(id) => Some(ToHex(id))
    case Str(s) => Some(s)
    case _ => None
  }

  // ---------- the normal form ----------

  function LowerHex(c: char): char {
    if 'A' <= c <= 'F' then (c as int - 'A' as int + 'a' as int) as char else c
  }

  function Lower(s: string): (t: string)
    ensures |t| == |s|
  {
    seq(|s|, i requires 0 <= i < |s| => LowerHex(s[i]))
  }

  function Normal(s: string): string {
    if IsObjectIDHex(s) then Lower(s) else s
  }

  lemma LowerIsDigit(c: char)
    requires IsHex(c)
    ensures LowerHex(c) == HexDigit(HexValue(c))
  {
  }

  lemma ByteDigits(s: string, i: int)
    requires 0 <= 2 * i < |s| - 1 && IsHex(s[2 * i]) && IsHex(s[2 * i + 1])
    ensures ByteAt(s, i) / 16 == HexValue(s[2 * i]) && ByteAt(s, i) % 16 == HexValue(s[2 * i + 1])
  {
  }

  lemma DigitOfParsed(s: string, i: int)
    requires IsObjectIDHex(s) && 0 <= i < 24
    ensures DigitOf(FromHex(s).value, i) == HexValue(s[i])
  {
    var half := i / 2;
    assert i == 2 * half + i % 2;
    ByteDigits(s, half);
  }

  // Printing a parsed identifier lower-cases it; parsing a printed one gives it back.
  lemma HexInverse(s: string)
    requires IsObjectIDHex(s)
    ensures ToHex(FromHex(s).value) == Lower(s)
  {
    forall i | 0 <= i < 24
      ensures ToHex(FromHex(s).value)[i] == Lower(s)[i]
    {
      LowerIsDigit(s[i]);
      DigitOfParsed(s, i);
    }
  }

  lemma HexOnto(id: Bson.ObjectID)
    ensures FromHex(ToHex(id)) == Some(id)
  {
    var s := ToHex(id);
    assert IsObjectIDHex(s);
    forall i | 0 <= i < 12
      ensures FromHex(s).value[i] == id[i]
    {
      assert 2 * i / 2 == i && (2 * i + 1) / 2 == i;
    }
    assert FromHex(s).value == id;
  }

  lemma HexDigitTable(n: int)
    requires 0 <= n < 16
    ensures HexDigit(n) == "0123456789abcdef"[n]
  {
  }

  // Printing, digit by digit: the high half of each byte, then the low half.
  lemma HexDigitsExactly(id: Bson.ObjectID, i: int)
    requires 0 <= i < 12
    ensures ToHex(id)[2 * i] == "0123456789abcdef"[id[i] / 16]
    ensures ToHex(id)[2 * i + 1] == "0123456789abcdef"[id[i] % 16]
  {
    assert 2 * i / 2 == i && (2 * i + 1) / 2 == i;
    HexDigitTable(id[i] / 16);
    HexDigitTable(id[i] % 16);
  }

  // What parses: 24 digits of either case, as the identifier that prints so.
  lemma FromHexExactly(s: string, id: Bson.ObjectID)
    ensures FromHex(s).Some? <==> |s| == 24 && forall i :: 0 <= i < 24 ==> s[i] in "0123456789abcdefABCDEF"
    ensures FromHex(s) == Some(id) ==> ToHex(id) == Lower(s)
    ensures FromHex(s).Some? && ToHex(id) == Lower(s) ==> FromHex(s) == Some(id)
  {
    if FromHex(s).Some? {
      HexInverse(s);
      HexOnto(id);
      HexOnto(FromHex(s).value);
    }
  }

  // Storing and loading lower-cases 24 hex digits and keeps anything else.
  lemma RoundTrip(s: string)
    ensures Unmarshal(Marshal(s)) == Some(Normal(s))
  {
    if IsObjectIDHex(s) {
      HexInverse(s);
    }
  }

  lemma MarshalOfNormal(s: string)
    ensures Marshal(Normal(s)) == Marshal(s)
    ensures Normal(Normal(s)) == Normal(s)
  {
    if IsObjectIDHex(s) {
      HexInverse(s);
      HexOnto(FromHex(s).value);
    }
  }

  // Two strings are stored alike if and only if their normal forms are equal.
  lemma SameStored(s: string, t: string)
    ensures Marshal(s) == Marshal(t) <==> Normal(s) == Normal(t)
  {
    RoundTrip(s);
    RoundTrip(t);
    MarshalOfNormal(s);
    MarshalOfNormal(t);
  }

  // Every stored form that loads is one that storing the loaded string gives
  // back, except an undefined, which becomes a null, and text that is empty or
  // looks like an identifier.
  lemma StoredAgain(v: Bson.Value)
    requires Unmarshal(v).Some?
    ensures Marshal(Unmarshal(v).value) == v
            <==> !v.Undefined? && (v.Str? ==> v.text != "" && !IsObjectIDHex(v.text))
  {
    if v.Oid? {
      HexOnto(v.id);
    }
  }

  // ToObjectID reads what ToHex prints, and anything malformed as the nil one.
  lemma ToObjectIDExactly(s: string, id: Bson.ObjectID)
    ensures ToObjectID(ToHex(id)) == id
    ensures !IsObjectIDHex(s) ==> ToObjectID(s) == seq(12, _ => 0)
  {
    HexOnto(id);
  }

  // The two notions of empty differ on malformed strings alone.
  lemma EmptyOrMalformed(s: string)
    ensures IsObjectIDEmpty(s) <==> IsZero(s) || !IsObjectIDHex(s)
  {
  }

  // ---------- the receiver ----------

  class StringObjectID {
    var value: string

    constructor (value: string)
      ensures this.value == value
    {
      this.value := value;
    }

    // A null, an ObjectID or text, as the string is empty, 24 hex digits or
    // neither; it loads as the string's normal form.
    method MarshalBSONValue() returns (v: Bson.Value)
      ensures v.Null? <==> value == ""
      ensures v.Oid? <==> IsObjectIDHex(value)
      ensures v.Str? <==> value != "" && !IsObjectIDHex(value)
      ensures Unmarshal(v) == Some(Normal(value))
      ensures v == Marshal(value)
    {
      RoundTrip(value);
      if value == "" {
        return Bson.Null;
      }
      var id := FromHex(value);
      if id.None? {
        return Bson.Str(value);
      }
      return Bson.Oid(id.value);
    }

    method UnmarshalBSONValue(v: Bson.Value) returns (ok: bool)
      modifies this
      ensures ok <==> v.Null? || v.Undefined? || v.Oid? || v.Str?
      ensures v.Null? || v.Undefined? ==> value == ""
      ensures v.Oid? ==> value == ToHex(v.id)
      ensures v.Str? ==> value == v.text
      ensures !ok ==> value == old(value)
      ensures ok == Unmarshal(v).Some? && (ok ==> value == Unmarshal(v).value)
    {
      match v
      case Null | Undefined =>
        value := "";
        return true;
      case Oid(id) =>
        value := ToHex(id);
        return true;
      case Str(s) =>
        value := s;
        return true;
      case _ =>
        return false;
    }
  }

  // ---------- zero ----------

  lemma NilHasNoDigits(id: Bson.ObjectID)
    ensures id == NIL_OBJECT_ID <==> forall i :: 0 <= i < 12 ==> id[i] == 0
  {
    assert forall i :: 0 <= i < 12 ==> NIL_OBJECT_ID[i] == 0;
  }

  predicate AllZeros(s: string) {
    |s| == 24 && forall i :: 0 <= i < 24 ==> s[i] == '0'
  }

  lemma ZerosParseToNil(s: string)
    requires AllZeros(s)
    ensures FromHex(s) == Some(NIL_OBJECT_ID)
  {
    NilHasNoDigits(FromHex(s).value);
  }

  lemma NilPrintsZeros(s: string)
    requires FromHex(s) == Some(NIL_OBJECT_ID)
    ensures AllZeros(s)
  {
    NilHasNoDigits(FromHex(s).value);
    forall i | 0 <= i < 24 ensures s[i] == '0' {
      DigitOfParsed(s, i);
    }
  }

  // Only the empty string and 24 zeros are zero.
  lemma ZeroIsZeros(s: string)
    ensures IsZero(s) <==> s == "" || AllZeros(s)
  {
    if AllZeros(s) {
      ZerosParseToNil(s);
    } else if FromHex(s) == Some(NIL_OBJECT_ID) {
      NilPrintsZeros(s);
    }
  }

  // The _id that ReplaceByID looks for, or nothing when it refuses to look.
  function ReplaceByIDFilter(id: string): Option<Bson.ObjectID> {
    if id == "" then None else FromHex(id)
  }

  // A document loaded and then replaced: the _id looked for is the one it was
  // stored under exactly when that is an ObjectID. A text _id of 24 hex digits
  // loads, and is then looked for as an ObjectID.
  lemma LoadedThenReplaced(v: Bson.Value)
    requires Unmarshal(v).Some?
    ensures (var found := ReplaceByIDFilter(Unmarshal(v).value); found.Some? && Bson.Oid(found.value) == v) <==> v.Oid?
    ensures v.Str? && IsObjectIDHex(v.text) ==> ReplaceByIDFilter(Unmarshal(v).value).Some?
  {
    if v.Oid? {
      HexOnto(v.id);
    }
  }

  // It finds what was stored under the same string when that is an ObjectID,
  // and refuses every other: a document stored under other text is out of reach.
  lemma ReplaceFindsStored(id: string)
    ensures ReplaceByIDFilter(id).Some? <==> Marshal(id).Oid?
    ensures ReplaceByIDFilter(id).Some? ==> Marshal(id) == Bson.Oid(ReplaceByIDFilter(id).value)
    ensures ReplaceByIDFilter(id).None? && id != "" ==> Marshal(id) == Bson.Str(id)
  {
  }
}
