/**
 The OpenTelemetry log bridge (logger/otel_handler.go) on values: how a chain
 of WithAttrs and WithGroup qualifies keys, and how slog values convert.
 */
module OtelHandler {

  // ---------- values ----------

  const TWO63 := 0x8000_0000_0000_0000
  const TWO64 := 0x1_0000_0000_0000_0000

  type Int64 = n: int | -TWO63 <= n < TWO63
  type Uint64 = n: int | 0 <= n < TWO64

  datatype Attr = Attr(key: string, value: Value)

  // Resolved slog values. A time, a duration and any other value carry the
  // text that their own String or Format gives.
  datatype Value =
    | Bool(bool)
    | Float(real)
    | Int(signed: Int64)
    | Uint(unsigned: Uint64)
    | String(string)
    | Time(string)
    | Duration(string)
    | Group(attrs: seq<Attr>)
    | Any(string)

  datatype KeyValue = KeyValue(key: string, value: OtelValue)

  datatype OtelValue =
    | OtelBool(bool)
    | OtelFloat(real)
    | OtelInt(Int64)
    | OtelString(string)
    | OtelMap(kvs: seq<KeyValue>)

  // int64(u) for a uint64: the same 64 bits read as a signed number.
  function Signed(u: Uint64): Int64 {
    if u < TWO63 then u else u - TWO64
  }

  function Convert(v: Value): OtelValue {
    match v
    case Bool(b) => OtelBool(b)
    case Float(x) => OtelFloat(x)
    case Int(n) => OtelInt(n)
    case Uint(u) => OtelInt(Signed(u))
    case String(s) => OtelString(s)
    case Time(text) => OtelString(text)
    case Duration(text) => OtelString(text)
    case Group(attrs) => OtelMap(ConvertAttrs(attrs))
    case Any(text) => OtelString(text)
  }

  function ConvertAttrs(attrs: seq<Attr>): (kvs: seq<KeyValue>)
    ensures |kvs| == |attrs|
  {
    if attrs == [] then []
    else ConvertAttrs(attrs[..|attrs| - 1]) + [KeyValue(attrs[|attrs| - 1].key, Convert(attrs[|attrs| - 1].value))]
  }

  method SlogValueToOtelValue(v: Value) returns (o: OtelValue)
    ensures o == Convert(v)
    decreases v
  {
    match v
    case Bool(b) => o := OtelBool(b);
    case Float(x) => o := OtelFloat(x);
    case Int(n) => o := OtelInt(n);
    case Uint(u) => o := OtelInt(Signed(u));
    case String(s) => o := OtelString(s);
    case Group(attrs) =>
      var kvs: seq<KeyValue> := [];
      for i := 0 to |attrs|
        invariant kvs == ConvertAttrs(attrs[..i])
      {
        var value := SlogValueToOtelValue(attrs[i].value);
        kvs := kvs + [KeyValue(attrs[i].key, value)];
        assert attrs[..i + 1][..i] == attrs[..i];
      }
      assert attrs[..|attrs|] == attrs;
      o := OtelMap(kvs);
    case Time(text) => o := OtelString(text);
    case Duration(text) => o := OtelString(text);
    case Any(text) => o := OtelString(text);
  }

  // Reading a converted value back as a slog value.
  function Back(o: OtelValue): Value {
    match o
    case OtelBool(b) => Bool(b)
    case OtelFloat(x) => Float(x)
    case OtelInt(n) => Int(n)
    case OtelString(s) => String(s)
    case OtelMap(kvs) => Group(BackAll(kvs))
  }

  function BackAll(kvs: seq<KeyValue>): seq<Attr> {
    if kvs == [] then []
    else BackAll(kvs[..|kvs| - 1]) + [Attr(kvs[|kvs| - 1].key, Back(kvs[|kvs| - 1].value))]
  }

  // What conversion may change, and at the leaves alone: a uint64 is known
  // modulo 2^64, and text has lost what it was the text of.
  predicate SameShape(v: Value, w: Value)
    decreases v
  {
    match v
    case Uint(u) => w.Int? && (w.signed - u) % TWO64 == 0
    case Time(text) => w == String(text)
    case Duration(text) => w == String(text)
    case Any(text) => w == String(text)
    case Group(attrs) =>
      && w.Group? && |w.attrs| == |attrs|
      && forall i :: 0 <= i < |attrs| ==> attrs[i].key == w.attrs[i].key && SameShape(attrs[i].value, w.attrs[i].value)
    case _ => w == v
  }

  // Values that lose nothing: booleans, floats, signed integers, strings, and
  // groups of them.
  predicate Lossless(v: Value) {
    match v
    case Uint(_) | Time(_) | Duration(_) | Any(_) => false
    case Group(attrs) => forall i :: 0 <= i < |attrs| ==> Lossless(attrs[i].value)
    case _ => true
  }

  lemma {:induction false} BackOfConvertAttrs(attrs: seq<Attr>)
    ensures |BackAll(ConvertAttrs(attrs))| == |attrs|
    ensures forall i :: 0 <= i < |attrs| ==>
              BackAll(ConvertAttrs(attrs))[i] == Attr(attrs[i].key, Back(Convert(attrs[i].value)))
  {
    if attrs != [] {
      var before := attrs[..|attrs| - 1];
      BackOfConvertAttrs(before);
      var kvs := ConvertAttrs(attrs);
      assert kvs[..|kvs| - 1] == ConvertAttrs(before);
    }
  }

  // Conversion keeps group shape, key order and every leaf, at every depth;
  // it can be undone exactly on the lossless values.
  lemma {:induction false} ConvertInverts(v: Value)
    ensures SameShape(v, Back(Convert(v)))
    ensures Back(Convert(v)) == v <==> Lossless(v)
  {
    if v.Group? {
      var attrs, back := v.attrs, BackAll(ConvertAttrs(v.attrs));
      BackOfConvertAttrs(attrs);
      forall i | 0 <= i < |attrs|
        ensures SameShape(attrs[i].value, back[i].value)
        ensures back[i] == attrs[i] <==> Lossless(attrs[i].value)
      {
        ConvertInverts(attrs[i].value);
      }
      assert (forall i :: 0 <= i < |attrs| ==> back[i] == attrs[i]) <==> back == attrs;
    }
  }

  // ---------- the handler ----------

  datatype Record = Record(time: int, level: int, message: string, attrs: seq<Attr>)

  datatype Severity = DebugSeverity | InfoSeverity | WarnSeverity | ErrorSeverity

  datatype OtelRecord = OtelRecord(scope: string, time: int, body: string, severity: Severity, attributes: seq<KeyValue>)

  // The fields of the Go struct.
  datatype Handler = Handler(scope: string, attrs: seq<Attr>, group: string)

  function New(scope: string): Handler {
    Handler(scope, [], "")
  }

  function SlogToOtelSeverity(level: int): Severity {
    if level >= 8 then ErrorSeverity
    else if level >= 4 then WarnSeverity
    else if level >= 0 then InfoSeverity
    else DebugSeverity
  }

  function Key(group: string, key: string): string {
    if group != "" then group + ("." + key) else key
  }

  function SlogAttrToKV(group: string, a: Attr): KeyValue {
    KeyValue(Key(group, a.key), Convert(a.value))
  }

  function Qualified(group: string, attrs: seq<Attr>): (kvs: seq<KeyValue>)
    ensures |kvs| == |attrs|
    ensures forall i :: 0 <= i < |attrs| ==> kvs[i] == SlogAttrToKV(group, attrs[i])
  {
    seq(|attrs|, i requires 0 <= i < |attrs| => SlogAttrToKV(group, attrs[i]))
  }

  function Emitted(h: Handler, r: Record): OtelRecord {
    OtelRecord(h.scope, r.time, r.message, SlogToOtelSeverity(r.level), Qualified(h.group, h.attrs) + Qualified(h.group, r.attrs))
  }

  // Error from 8 up, warning from 4, information from 0, debugging below; the
  // rest of the record is the handler's scope and what was logged.
  predicate Carries(o: OtelRecord, scope: string, r: Record) {
    && o.scope == scope && o.time == r.time && o.body == r.message
    && (o.severity == ErrorSeverity <==> 8 <= r.level)
    && (o.severity == WarnSeverity <==> 4 <= r.level < 8)
    && (o.severity == InfoSeverity <==> 0 <= r.level < 4)
    && (o.severity == DebugSeverity <==> r.level < 0)
  }

  // One derivation of a handler.
  datatype Op = WithAttrs(attrs: seq<Attr>) | WithGroup(name: string)

  function Derive(h: Handler, op: Op): Handler {
    match op
    case WithAttrs(attrs) => h.(attrs := h.attrs + attrs)
    case WithGroup(name) => h.(group := if h.group != "" then h.group + ("." + name) else name)
  }

  function DeriveAll(h: Handler, ops: seq<Op>): Handler {
    if ops == [] then h else Derive(DeriveAll(h, ops[..|ops| - 1]), ops[|ops| - 1])
  }

  // ---------- the closed form ----------

  function AttrsOf(ops: seq<Op>): seq<Attr> {
    if ops == [] then []
    else AttrsOf(ops[..|ops| - 1]) + if ops[|ops| - 1].WithAttrs? then ops[|ops| - 1].attrs else []
  }

  // The names of the groups opened, without the empty ones before the first other.
  function GroupsOf(ops: seq<Op>): seq<string> {
    if ops == [] then []
    else
      var names := GroupsOf(ops[..|ops| - 1]);
      var op := ops[|ops| - 1];
      if op.WithAttrs? || (names == [] && op.name == "") then names else names + [op.name]
  }

  function DotJoin(names: seq<string>): string {
    if names == [] then ""
    else if |names| == 1 then names[0]
    else DotJoin(names[..|names| - 1]) + ("." + names[|names| - 1])
  }

  lemma {:induction false} ChainState(scope: string, ops: seq<Op>)
    ensures DeriveAll(New(scope), ops) == Handler(scope, AttrsOf(ops), DotJoin(GroupsOf(ops)))
    ensures DotJoin(GroupsOf(ops)) == "" <==> GroupsOf(ops) == []
  {
    if ops != [] {
      var before, op := ops[..|ops| - 1], ops[|ops| - 1];
      ChainState(scope, before);
      var names := GroupsOf(before);
      if op.WithGroup? && GroupsOf(ops) != names {
        assert (names + [op.name])[..|names|] == names;
      }
    }
  }

  // All names of groups opened, the empty ones included.
  function NamesOf(ops: seq<Op>): seq<string> {
    if ops == [] then []
    else NamesOf(ops[..|ops| - 1]) + if ops[|ops| - 1].WithGroup? then [ops[|ops| - 1].name] else []
  }

  // The path of a handler that had one, or none, when the chain began.
  function PathAfter(group: string, ops: seq<Op>): string {
    if group == "" then DotJoin(GroupsOf(ops)) else DotJoin([group] + NamesOf(ops))
  }

  lemma JoinOneMore(names: seq<string>, name: string)
    requires names != []
    ensures DotJoin(names + [name]) == DotJoin(names) + ("." + name)
  {
    assert (names + [name])[..|names|] == names;
  }

  lemma {:induction false} SameGroup(h: Handler, k: Handler, ops: seq<Op>)
    requires h.group == k.group
    ensures DeriveAll(h, ops).group == DeriveAll(k, ops).group
  {
    if ops != [] {
      SameGroup(h, k, ops[..|ops| - 1]);
    }
  }

  lemma {:induction false} PathFrom(h: Handler, ops: seq<Op>)
    requires h.group != ""
    ensures DeriveAll(h, ops).group == PathAfter(h.group, ops) != ""
  {
    if ops == [] {
      assert [h.group] + NamesOf(ops) == [h.group];
    } else {
      var before, op := ops[..|ops| - 1], ops[|ops| - 1];
      PathFrom(h, before);
      if op.WithGroup? {
        JoinOneMore([h.group] + NamesOf(before), op.name);
        assert [h.group] + NamesOf(ops) == [h.group] + NamesOf(before) + [op.name];
      } else {
        assert [h.group] + NamesOf(ops) == [h.group] + NamesOf(before);
      }
    }
  }

  lemma {:induction false} AttrsFrom(h: Handler, ops: seq<Op>)
    ensures DeriveAll(h, ops).scope == h.scope && DeriveAll(h, ops).attrs == h.attrs + AttrsOf(ops)
  {
    if ops != [] {
      AttrsFrom(h, ops[..|ops| - 1]);
    }
  }

  // A chain from any handler: attributes are added in order, the path grows.
  lemma ChainFrom(h: Handler, ops: seq<Op>)
    ensures DeriveAll(h, ops) == Handler(h.scope, h.attrs + AttrsOf(ops), PathAfter(h.group, ops))
  {
    AttrsFrom(h, ops);
    if h.group == "" {
      SameGroup(h, New(h.scope), ops);
      ChainState(h.scope, ops);
    } else {
      PathFrom(h, ops);
    }
  }

  // Whatever the chain, a record goes out with its time, level and message, and
  // with all handler attributes and then all record attributes, in order, each
  // under the dotted path of all groups.
  lemma ChainEmits(scope: string, ops: seq<Op>, r: Record)
    ensures Carries(Emitted(DeriveAll(New(scope), ops), r), scope, r)
    ensures var group := DotJoin(GroupsOf(ops));
            var attrs := AttrsOf(ops) + r.attrs;
            var kvs := Emitted(DeriveAll(New(scope), ops), r).attributes;
            && |kvs| == |attrs|
            && forall i :: 0 <= i < |kvs| ==>
                             kvs[i] == KeyValue(if GroupsOf(ops) == [] then attrs[i].key else group + ("." + attrs[i].key),
                                                Convert(attrs[i].value))
  {
    ChainState(scope, ops);
  }

  // ---------- against the slog contract ----------

  // The contract of slog.Handler: an empty group name is ignored, and an
  // attribute is qualified by the groups opened before it alone.
  function ContractGroup(ops: seq<Op>): string {
    if ops == [] then ""
    else
      var group := ContractGroup(ops[..|ops| - 1]);
      var op := ops[|ops| - 1];
      if op.WithAttrs? || op.name == "" then group
      else if group != "" then group + ("." + op.name) else op.name
  }

  function ContractAttrs(ops: seq<Op>): seq<KeyValue> {
    if ops == [] then []
    else
      var before, op := ops[..|ops| - 1], ops[|ops| - 1];
      ContractAttrs(before) + if op.WithAttrs? then Qualified(ContractGroup(before), op.attrs) else []
  }

  function Contract(ops: seq<Op>, r: Record): seq<KeyValue> {
    ContractAttrs(ops) + Qualified(ContractGroup(ops), r.attrs)
  }

  predicate OpensGroup(op: Op) {
    op.WithGroup? && op.name != ""
  }

  predicate AddsAttrs(op: Op) {
    op.WithAttrs? && op.attrs != []
  }

  // No group is opened after attributes, and no empty group after a group.
  predicate GroupsFirst(ops: seq<Op>) {
    forall i, j :: 0 <= i < j < |ops| && ops[j].WithGroup? ==>
      if ops[j].name == "" then !OpensGroup(ops[i]) else !AddsAttrs(ops[i])
  }

  // The path used is never shorter than the contract's, and equal if as long.
  lemma {:induction false} PathsCompare(scope: string, ops: seq<Op>)
    ensures var used, due := DeriveAll(New(scope), ops).group, ContractGroup(ops);
            |due| <= |used| && (|due| == |used| ==> due == used)
    ensures DeriveAll(New(scope), ops).group == "" <==> forall i :: 0 <= i < |ops| ==> !OpensGroup(ops[i])
  {
    if ops != [] {
      PathsCompare(scope, ops[..|ops| - 1]);
    }
  }

  lemma KeyGrows(shorter: string, longer: string, key: string)
    requires |shorter| <= |longer|
    ensures |Key(shorter, key)| <= |Key(longer, key)|
    ensures |shorter| < |longer| ==> |Key(shorter, key)| < |Key(longer, key)|
  {
  }

  // No key is longer than the group would make it.
  ghost predicate KeysWithin(kvs: seq<KeyValue>, attrs: seq<Attr>, group: string) {
    && |kvs| == |attrs|
    && forall k :: 0 <= k < |kvs| ==> |kvs[k].key| <= |Key(group, attrs[k].key)|
  }

  lemma WithinLonger(kvs: seq<KeyValue>, attrs: seq<Attr>, shorter: string, longer: string)
    requires KeysWithin(kvs, attrs, shorter) && |shorter| <= |longer|
    ensures KeysWithin(kvs, attrs, longer)
  {
    forall k | 0 <= k < |kvs| ensures |kvs[k].key| <= |Key(longer, attrs[k].key)| {
      KeyGrows(shorter, longer, attrs[k].key);
    }
  }

  lemma WithinMore(kvs: seq<KeyValue>, attrs: seq<Attr>, more: seq<Attr>, group: string)
    requires KeysWithin(kvs, attrs, group)
    ensures KeysWithin(kvs + Qualified(group, more), attrs + more, group)
  {
  }

  lemma {:induction false} ContractKeysBounded(scope: string, ops: seq<Op>)
    ensures KeysWithin(ContractAttrs(ops), DeriveAll(New(scope), ops).attrs, ContractGroup(ops))
  {
    if ops != [] {
      var before, op := ops[..|ops| - 1], ops[|ops| - 1];
      var kvs, attrs := ContractAttrs(before), DeriveAll(New(scope), before).attrs;
      ContractKeysBounded(scope, before);
      match op
      case WithAttrs(more) =>
        WithinMore(kvs, attrs, more, ContractGroup(before));
      case WithGroup(_) =>
        WithinLonger(kvs, attrs, ContractGroup(before), ContractGroup(ops));
        assert ContractAttrs(ops) == kvs;
    }
  }

  lemma {:induction false} NoAttrsAdded(scope: string, ops: seq<Op>)
    ensures DeriveAll(New(scope), ops).attrs == [] <==> forall i :: 0 <= i < |ops| ==> !AddsAttrs(ops[i])
  {
    if ops != [] {
      NoAttrsAdded(scope, ops[..|ops| - 1]);
    }
  }

  lemma GroupsFirstLast(ops: seq<Op>)
    requires ops != []
    ensures var before, op := ops[..|ops| - 1], ops[|ops| - 1];
            GroupsFirst(ops) <==>
            && GroupsFirst(before)
            && (op.WithGroup? && op.name == "" ==> forall i :: 0 <= i < |before| ==> !OpensGroup(before[i]))
            && (OpensGroup(op) ==> forall i :: 0 <= i < |before| ==> !AddsAttrs(before[i]))
  {
    var before, op := ops[..|ops| - 1], ops[|ops| - 1];
    if GroupsFirst(ops) {
      forall i, j | 0 <= i < j < |before| && before[j].WithGroup?
        ensures if before[j].name == "" then !OpensGroup(before[i]) else !AddsAttrs(before[i])
      {
        assert ops[i] == before[i] && ops[j] == before[j];
      }
      forall i | 0 <= i < |before| ensures before[i] == ops[i] {}
    }
  }

  // The handler stands where the contract wants it: right group, right attributes.
  ghost predicate Met(h: Handler, ops: seq<Op>) {
    h.group == ContractGroup(ops) && ContractAttrs(ops) == Qualified(h.group, h.attrs)
  }

  lemma QualifiedAppend(group: string, a: seq<Attr>, b: seq<Attr>)
    ensures Qualified(group, a + b) == Qualified(group, a) + Qualified(group, b)
  {
  }

  lemma EmptyGroupKeepsMet(h: Handler, before: seq<Op>, ops: seq<Op>)
    requires ops == before + [WithGroup("")]
    requires |ContractGroup(before)| <= |h.group|
    ensures Met(Derive(h, WithGroup("")), ops) <==> Met(h, before) && h.group == ""
  {
    assert ops[..|ops| - 1] == before;
  }

  lemma AttrsKeepMet(h: Handler, before: seq<Op>, ops: seq<Op>, attrs: seq<Attr>)
    requires ops == before + [WithAttrs(attrs)] && |ContractAttrs(before)| == |h.attrs|
    ensures Met(Derive(h, WithAttrs(attrs)), ops) <==> Met(h, before)
  {
    assert ops[..|ops| - 1] == before;
    var own, new' := ContractAttrs(before), Qualified(ContractGroup(before), attrs);
    assert ContractAttrs(ops) == own + new';
    QualifiedAppend(h.group, h.attrs, attrs);
    assert (own + new')[..|own|] == own;
    assert (Qualified(h.group, h.attrs) + Qualified(h.group, attrs))[..|own|] == Qualified(h.group, h.attrs);
  }

  lemma GroupKeepsMet(h: Handler, before: seq<Op>, ops: seq<Op>, name: string)
    requires ops == before + [WithGroup(name)] && name != ""
    requires |ContractAttrs(before)| == |h.attrs|
    requires var due := ContractGroup(before); |due| <= |h.group| && (|due| == |h.group| ==> due == h.group)
    requires forall k :: 0 <= k < |h.attrs| ==> |ContractAttrs(before)[k].key| <= |Key(ContractGroup(before), h.attrs[k].key)|
    ensures Met(Derive(h, WithGroup(name)), ops) <==> Met(h, before) && h.attrs == []
  {
    assert ops[..|ops| - 1] == before;
    var t := Derive(h, WithGroup(name));
    assert ContractAttrs(ops) == ContractAttrs(before);
    if h.attrs != [] {
      KeyGrows(ContractGroup(before), h.group, h.attrs[0].key);
      KeyGrows(h.group, t.group, h.attrs[0].key);
      assert |ContractAttrs(ops)[0].key| < |Qualified(t.group, t.attrs)[0].key|;
    }
  }

  lemma {:induction false} MetExactly(scope: string, ops: seq<Op>)
    ensures Met(DeriveAll(New(scope), ops), ops) <==> GroupsFirst(ops)
  {
    if ops != [] {
      var before, op := ops[..|ops| - 1], ops[|ops| - 1];
      var h := DeriveAll(New(scope), before);
      assert ops == before + [op];
      MetExactly(scope, before);
      GroupsFirstLast(ops);
      PathsCompare(scope, before);
      ContractKeysBounded(scope, before);
      NoAttrsAdded(scope, before);
      if op.WithAttrs? {
        AttrsKeepMet(h, before, ops, op.attrs);
      } else if op.name == "" {
        EmptyGroupKeepsMet(h, before, ops);
      } else {
        GroupKeepsMet(h, before, ops, op.name);
      }
    }
  }

  lemma QualifiedDiffers(due: string, used: string, attrs: seq<Attr>)
    requires |due| <= |used| && attrs != []
    ensures Qualified(due, attrs) == Qualified(used, attrs) ==> |due| == |used|
  {
    KeyGrows(due, used, attrs[0].key);
    assert Qualified(due, attrs)[0] == SlogAttrToKV(due, attrs[0]);
    assert Qualified(used, attrs)[0] == SlogAttrToKV(used, attrs[0]);
  }

  // The bridge qualifies as the slog contract asks exactly when every group is
  // opened before the first attribute (and no empty name follows a group), or
  // when there is nothing to qualify.
  lemma ContractMetExactly(scope: string, ops: seq<Op>, r: Record)
    ensures Emitted(DeriveAll(New(scope), ops), r).attributes == Contract(ops, r)
            <==> GroupsFirst(ops) || (AttrsOf(ops) == [] && r.attrs == [])
  {
    ChainState(scope, ops);
    var h := DeriveAll(New(scope), ops);
    MetExactly(scope, ops);
    PathsCompare(scope, ops);
    ContractKeysBounded(scope, ops);
    var used, due := Qualified(h.group, h.attrs), ContractAttrs(ops);
    var usedTail, dueTail := Qualified(h.group, r.attrs), Qualified(ContractGroup(ops), r.attrs);
    if used + usedTail == due + dueTail {
      assert (used + usedTail)[..|used|] == used && (due + dueTail)[..|used|] == due;
      assert (used + usedTail)[|used|..] == usedTail && (due + dueTail)[|used|..] == dueTail;
      if r.attrs != [] {
        QualifiedDiffers(ContractGroup(ops), h.group, r.attrs);
      } else if h.attrs != [] {
        KeyGrows(ContractGroup(ops), h.group, h.attrs[0].key);
        assert used[0] == SlogAttrToKV(h.group, h.attrs[0]);
      }
    }
  }
}
