/**
 The handlers as heap objects: attribute slices with spare capacity, struct
 copies that share them, lists of children, and the loops of logger/fanout.go,
 proved against the values of OtelHandler and Fanout. Deriving a handler modifies
 nothing but what it allocates itself: parents and siblings cannot be disturbed.
 */
module HandlerHeap {
  import opened Wrappers
  import opened OtelHandler
  import opened Fanout

  // A Go slice of attributes: a length over a backing array that may be longer.
  datatype Slice = Slice(backing: array<Attr>, len: nat) {
    predicate Fits() {
      len <= backing.Length
    }

    function Contents(): seq<Attr>
      requires Fits()
      reads backing
    {
      backing[..len]
    }
  }

  // append: in place when the capacity suffices, else into a larger copy, with
  // as much room to spare as the runtime likes.
  method Append(s: Slice, xs: seq<Attr>) returns (r: Slice)
    requires s.Fits()
    modifies s.backing
    ensures r.Fits() && r.Contents() == old(s.Contents()) + xs
    ensures r.backing == s.backing || (fresh(r.backing) && s.backing[..] == old(s.backing[..]))
  {
    var n := s.len + |xs|;
    var a := s.backing;
    if n > a.Length {
      assert n >= n;
      var capacity :| capacity >= n;
      a := new Attr[capacity];
      for i := 0 to s.len
        invariant a[..i] == s.backing[..i] && s.backing[..] == old(s.backing[..])
      {
        a[i] := s.backing[i];
      }
    }
    for i := 0 to |xs|
      invariant a[..s.len + i] == old(s.Contents()) + xs[..i]
      invariant a != s.backing ==> s.backing[..] == old(s.backing[..])
    {
      a[s.len + i] := xs[i];
    }
    assert xs[..|xs|] == xs;
    r := Slice(a, n);
  }

  lemma QualifiedStep(group: string, attrs: seq<Attr>, i: nat)
    requires i < |attrs|
    ensures Qualified(group, attrs[..i + 1]) == Qualified(group, attrs[..i]) + [SlogAttrToKV(group, attrs[i])]
  {
  }

  class OtelNode {
    const scope: string
    const attrs: Slice
    const group: string

    constructor (scope: string, attrs: Slice, group: string)
      ensures this.scope == scope && this.attrs == attrs && this.group == group
    {
      this.scope, this.attrs, this.group := scope, attrs, group;
    }

    function Value(): Handler
      requires attrs.Fits()
      reads attrs.backing
    {
      Handler(scope, attrs.Contents(), group)
    }

    // The copy is built in a backing array of its own.
    method WithAttrs(xs: seq<Attr>) returns (cp: OtelNode)
      requires attrs.Fits()
      ensures fresh(cp) && cp.attrs.Fits() && fresh(cp.attrs.backing)
      ensures cp.Value() == Derive(Value(), Op.WithAttrs(xs))
    {
      var empty := new Attr[0];
      var own := Append(Slice(empty, 0), attrs.Contents());
      var all := Append(own, xs);
      cp := new OtelNode(scope, all, group);
    }

    // The copy shares its parent's attributes, which nobody writes to.
    method WithGroup(name: string) returns (cp: OtelNode)
      requires attrs.Fits()
      ensures fresh(cp) && cp.attrs == attrs
      ensures cp.Value() == Derive(Value(), Op.WithGroup(name))
    {
      cp := new OtelNode(scope, attrs, if group != "" then group + ("." + name) else name);
    }

    method Handle(r: Record) returns (rec: OtelRecord)
      requires attrs.Fits()
      ensures Carries(rec, scope, r)
      ensures rec == Emitted(Value(), r)
    {
      rec := OtelRecord(scope, r.time, r.message, SlogToOtelSeverity(r.level), []);
      var own := attrs.Contents();
      for i := 0 to |own|
        invariant rec == OtelRecord(scope, r.time, r.message, SlogToOtelSeverity(r.level), Qualified(group, own[..i]))
      {
        QualifiedStep(group, own, i);
        rec := rec.(attributes := rec.attributes + [SlogAttrToKV(group, own[i])]);
      }
      assert own[..|own|] == own;
      for i := 0 to |r.attrs|
        invariant rec == OtelRecord(scope, r.time, r.message, SlogToOtelSeverity(r.level),
                                    Qualified(group, own) + Qualified(group, r.attrs[..i]))
      {
        QualifiedStep(group, r.attrs, i);
        rec := rec.(attributes := rec.attributes + [SlogAttrToKV(group, r.attrs[i])]);
      }
      assert r.attrs[..|r.attrs|] == r.attrs;
    }
  }

  // A slog.Handler reference; handlers from elsewhere are known by their value.
  datatype Node =
    | External(name: string, accepts: int -> bool, chain: seq<Op>)
    | OtelRef(otel: OtelNode)
    | FanRef(fan: FanNode)

  class FanNode {
    const handlers: array<Node>
    ghost const height: nat
    ghost const footprint: set<object>

    constructor (handlers: array<Node>, ghost height: nat, ghost footprint: set<object>)
      ensures this.handlers == handlers && this.height == height && this.footprint == footprint
    {
      this.handlers, this.height, this.footprint := handlers, height, footprint;
    }
  }

  ghost function Height(n: Node): nat {
    if n.FanRef? then n.fan.height else 0
  }

  // The arrays a handler stands on: its attributes' backing, its list of children.
  ghost function Footprint(n: Node): set<object> {
    match n
    case External(_, _, _) => {}
    case OtelRef(o) => {o.attrs.backing}
    case FanRef(f) => f.footprint
  }

  // Handlers are built bottom up, from children that exist already.
  ghost predicate Built(n: Node)
    reads Footprint(n)
    decreases Height(n), 1
  {
    match n
    case External(_, _, _) => true
    case OtelRef(o) => o.attrs.Fits()
    case FanRef(f) => f.handlers in f.footprint && AllBuilt(f.handlers[..], f.height, f.footprint)
  }

  ghost predicate AllBuilt(ns: seq<Node>, height: nat, footprint: set<object>)
    reads footprint
    decreases height, 0
  {
    forall i :: 0 <= i < |ns| ==> Height(ns[i]) < height && Footprint(ns[i]) <= footprint && Built(ns[i])
  }

  // The tree of values a node stands for.
  ghost function View(n: Node): Tree
    requires Built(n)
    reads Footprint(n)
    decreases Height(n), 1, 0
  {
    match n
    case External(name, accepts, chain) => Only(SinkLeaf(name, accepts, chain))
    case OtelRef(o) => Only(OtelLeaf(o.Value()))
    case FanRef(f) => Fan(ViewAll(f.handlers[..], f.height, f.footprint))
  }

  ghost function ViewAll(ns: seq<Node>, height: nat, footprint: set<object>): (ts: seq<Tree>)
    requires AllBuilt(ns, height, footprint)
    reads footprint
    ensures |ts| == |ns|
    decreases height, 0, |ns|
  {
    if ns == [] then [] else [View(ns[0])] + ViewAll(ns[1..], height, footprint)
  }

  lemma {:induction false} ViewAt(ns: seq<Node>, height: nat, footprint: set<object>, i: nat)
    requires AllBuilt(ns, height, footprint) && i < |ns|
    ensures ViewAll(ns, height, footprint)[i] == View(ns[i])
  {
    if i > 0 {
      assert ns[1..][i - 1] == ns[i];
      ViewAt(ns[1..], height, footprint, i - 1);
    }
  }

  lemma {:induction false} DerivationAt(ts: seq<Tree>, op: Op, i: nat)
    requires i < |ts|
    ensures DerivationAll(ts, op)[i] == Derivation(ts[i], op)
  {
    if i > 0 {
      DerivationAt(ts[1..], op, i - 1);
    }
  }

  lemma ViewsDerived(ns: seq<Node>, height: nat, old': set<object>, out: seq<Node>, new': set<object>, op: Op)
    requires AllBuilt(ns, height, old') && AllBuilt(out, height, new') && |out| == |ns|
    requires forall j :: 0 <= j < |ns| ==> View(out[j]) == Derivation(View(ns[j]), op)
    ensures ViewAll(out, height, new') == DerivationAll(ViewAll(ns, height, old'), op)
  {
    var ts, us := ViewAll(ns, height, old'), ViewAll(out, height, new');
    forall i | 0 <= i < |us| ensures us[i] == DerivationAll(ts, op)[i] {
      ViewAt(out, height, new', i);
      ViewAt(ns, height, old', i);
      DerivationAt(ts, op, i);
    }
  }

  lemma ViewsWithin(ns: seq<Node>, height: nat, footprint: set<object>, height': nat, footprint': set<object>)
    requires AllBuilt(ns, height, footprint) && height <= height' && footprint <= footprint'
    ensures AllBuilt(ns, height', footprint') && ViewAll(ns, height', footprint') == ViewAll(ns, height, footprint)
  {
    var ts, us := ViewAll(ns, height, footprint), ViewAll(ns, height', footprint');
    forall i | 0 <= i < |ts| ensures us[i] == ts[i] {
      ViewAt(ns, height, footprint, i);
      ViewAt(ns, height', footprint', i);
    }
  }

  // newFanoutHandler: the children given, in their order.
  method NewFanout(handlers: array<Node>, ghost height: nat, ghost footprint: set<object>) returns (r: Node)
    requires AllBuilt(handlers[..], height, footprint)
    ensures r.FanRef? && fresh(r.fan) && r.fan.handlers == handlers
    ensures Built(r) && Height(r) == height && Footprint(r) == footprint + {handlers}
    ensures View(r) == Fan(ViewAll(handlers[..], height, footprint))
  {
    var fan := new FanNode(handlers, height, footprint + {handlers});
    r := FanRef(fan);
    ViewsWithin(handlers[..], height, footprint, height, fan.footprint);
  }

  // WithAttrs or WithGroup on any handler. What is derived writes to nothing
  // that was there before.
  method Derived(n: Node, op: Op) returns (r: Node)
    requires Built(n)
    ensures Built(r) && Height(r) == Height(n)
    ensures forall b :: b in Footprint(r) ==> fresh(b) || b in Footprint(n)
    ensures View(r) == Derivation(View(n), op)
    decreases Height(n), 1
  {
    match n
    case External(name, accepts, chain) =>
      r := External(name, accepts, chain + [op]);
    case OtelRef(o) =>
      var cp: OtelNode;
      match op {
        case WithAttrs(xs) => cp := o.WithAttrs(xs);
        case WithGroup(name) => cp := o.WithGroup(name);
      }
      r := OtelRef(cp);
    case FanRef(f) =>
      r := DerivedFan(f, op);
  }

  // The first of `out` are the derivations of the first of `ns`, in order.
  ghost predicate DerivedSoFar(ns: seq<Node>, height: nat, old': set<object>, op: Op, out: seq<Node>, new': set<object>)
    requires AllBuilt(ns, height, old')
    reads old', new'
  {
    && |out| <= |ns|
    && AllBuilt(out, height, new')
    && forall j :: 0 <= j < |out| ==> View(out[j]) == Derivation(View(ns[j]), op)
  }

  lemma DerivedOneMore(ns: seq<Node>, height: nat, old': set<object>, op: Op, out: seq<Node>, new': set<object>, child: Node)
    requires AllBuilt(ns, height, old') && DerivedSoFar(ns, height, old', op, out, new') && |out| < |ns|
    requires Built(child) && Height(child) < height && View(child) == Derivation(View(ns[|out|]), op)
    ensures DerivedSoFar(ns, height, old', op, out + [child], new' + Footprint(child))
  {
  }

  lemma DerivedFanNode(f: FanNode, op: Op, fan: FanNode, footprint: set<object>)
    requires Built(FanRef(f)) && fan.handlers.Length == f.handlers.Length && fan.height == f.height
    requires DerivedSoFar(f.handlers[..], f.height, f.footprint, op, fan.handlers[..], footprint)
    requires fan.footprint == footprint + {fan.handlers}
    ensures Built(FanRef(fan)) && View(FanRef(fan)) == Derivation(View(FanRef(f)), op)
  {
    ViewsDerived(f.handlers[..], f.height, f.footprint, fan.handlers[..], fan.footprint, op);
  }

  // The children's derivations fill a list of their own.
  method DerivedFan(f: FanNode, op: Op) returns (r: Node)
    requires Built(FanRef(f))
    ensures Built(r) && Height(r) == f.height
    ensures forall b :: b in Footprint(r) ==> fresh(b) || b in f.footprint
    ensures View(r) == Derivation(View(FanRef(f)), op)
    decreases f.height, 0, 1
  {
    var out := new Node[f.handlers.Length];
    ghost var footprint: set<object> := {};
    for i := 0 to f.handlers.Length
      invariant forall b :: b in footprint ==> (fresh(b) || b in f.footprint) && b != out
      invariant DerivedSoFar(f.handlers[..], f.height, f.footprint, op, out[..i], footprint)
    {
      footprint := DeriveChild(f, i, op, out, footprint);
    }
    assert out[..f.handlers.Length] == out[..];
    var fan := new FanNode(out, f.height, footprint + {out});
    r := FanRef(fan);
    DerivedFanNode(f, op, fan, footprint);
  }

  // out[i] = child.WithAttrs(attrs), or the like for WithGroup.
  method DeriveChild(f: FanNode, i: nat, op: Op, out: array<Node>, ghost footprint: set<object>)
    returns (ghost grown: set<object>)
    requires Built(FanRef(f)) && i < f.handlers.Length == out.Length && out !in f.footprint && out !in footprint
    requires DerivedSoFar(f.handlers[..], f.height, f.footprint, op, out[..i], footprint)
    modifies out
    ensures forall b :: b in grown ==> (fresh(b) || b in f.footprint || b in footprint) && b != out
    ensures DerivedSoFar(f.handlers[..], f.height, f.footprint, op, out[..i + 1], grown)
    decreases f.height, 0, 0
  {
    ghost var ns := f.handlers[..];
    assert f.handlers[i] == ns[i];
    var child := Derived(f.handlers[i], op);
    DerivedOneMore(ns, f.height, f.footprint, op, out[..i], footprint, child);
    ghost var all := out[..i] + [child];
    grown := footprint + Footprint(child);
    out[i] := child;
    assert out[..i + 1] == all;
  }

  method DerivedBy(n: Node, ops: seq<Op>) returns (r: Node)
    requires Built(n)
    ensures Built(r) && Height(r) == Height(n)
    ensures forall b :: b in Footprint(r) ==> fresh(b) || b in Footprint(n)
    ensures View(r) == Derivations(View(n), ops)
  {
    r := n;
    for i := 0 to |ops|
      invariant Built(r) && Height(r) == Height(n)
      invariant forall b :: b in Footprint(r) ==> fresh(b) || b in Footprint(n)
      invariant Derivations(View(n), ops) == Derivations(View(r), ops[i..])
    {
      assert ops[i..][0] == ops[i] && ops[i..][1..] == ops[i + 1..];
      r := Derived(r, ops[i]);
    }
    assert ops[|ops|..] == [];
  }

  // Each of `rs` stands for its own chain applied to the parent.
  ghost predicate StandApart(parent: Node, chains: seq<seq<Op>>, rs: seq<Node>, footprint: set<object>)
    requires Built(parent)
    reads Footprint(parent), footprint
  {
    && |rs| <= |chains|
    && AllBuilt(rs, Height(parent) + 1, footprint)
    && forall i :: 0 <= i < |rs| ==> View(rs[i]) == Derivations(View(parent), chains[i])
  }

  lemma OneMoreApart(parent: Node, chains: seq<seq<Op>>, rs: seq<Node>, footprint: set<object>, r: Node)
    requires Built(parent) && StandApart(parent, chains, rs, footprint) && |rs| < |chains|
    requires Built(r) && Height(r) == Height(parent) && View(r) == Derivations(View(parent), chains[|rs|])
    ensures StandApart(parent, chains, rs + [r], footprint + Footprint(r))
  {
  }

  // Any number of handlers derived from one parent, by any chains, one after
  // the other: in the end each stands for its own chain applied to the parent,
  // whatever was derived after it, and the parent is what it was.
  method Siblings(parent: Node, chains: seq<seq<Op>>) returns (rs: seq<Node>)
    requires Built(parent)
    ensures |rs| == |chains|
    ensures forall i :: 0 <= i < |rs| ==> Built(rs[i]) && View(rs[i]) == Derivations(old(View(parent)), chains[i])
    ensures View(parent) == old(View(parent))
  {
    rs := [];
    ghost var footprint: set<object> := {};
    for i := 0 to |chains|
      invariant |rs| == i && StandApart(parent, chains, rs, footprint)
    {
      var r := DerivedBy(parent, chains[i]);
      OneMoreApart(parent, chains, rs, footprint, r);
      rs := rs + [r];
      footprint := footprint + Footprint(r);
    }
  }

  // ---------- handling ----------

  method Enabled(n: Node, level: int) returns (b: bool)
    requires Built(n)
    ensures b == EnabledIn(View(n), level)
    decreases Height(n)
  {
    match n
    case OtelRef(o) => b := true;
    case External(_, accepts, _) => b := accepts(level);
    case FanRef(f) =>
      ghost var ts := ViewAll(f.handlers[..], f.height, f.footprint);
      for i := 0 to f.handlers.Length
        invariant AnyEnabled(ts, level) == AnyEnabled(ts[i..], level)
      {
        ViewAt(f.handlers[..], f.height, f.footprint, i);
        assert ts[i..][0] == ts[i] && ts[i..][1..] == ts[i + 1..];
        var on := Enabled(f.handlers[i], level);
        if on {
          return true;
        }
      }
      b := false;
  }

  // Where handlers' output goes, in order.
  class Backend {
    var calls: seq<Call>

    constructor ()
      ensures calls == []
    {
      calls := [];
    }
  }

  method Handle(n: Node, r: Record, env: Surroundings, out: Backend) returns (err: Option<Error>)
    requires Built(n) && out !in Footprint(n)
    modifies out
    ensures (out.calls, err) == Handled(View(n), r, env, old(out.calls))
    decreases Height(n), 1
  {
    match n
    case OtelRef(o) =>
      var rec := o.Handle(r);
      out.calls := out.calls + [Emit(rec)];
      err := None;
    case External(name, accepts, chain) =>
      out.calls := out.calls + [Write(SinkLeaf(name, accepts, chain), r)];
      err := env(out.calls);
    case FanRef(f) =>
      err := HandleAll(f, r, env, out);
  }

  // One turn of the loop: a child that is not enabled is passed over.
  method HandleChild(n: Node, r: Record, env: Surroundings, out: Backend, firstErr: Option<Error>) returns (err: Option<Error>)
    requires Built(n) && out !in Footprint(n)
    modifies out
    ensures !EnabledIn(View(n), r.level) ==> out.calls == old(out.calls) && err == firstErr
    ensures EnabledIn(View(n), r.level) ==>
              var (calls, e) := Handled(View(n), r, env, old(out.calls));
              out.calls == calls && err == First(firstErr, e)
    decreases Height(n), 2
  {
    err := firstErr;
    var on := Enabled(n, r.level);
    if on {
      var e := Handle(n, r, env, out);
      if e.Some? && firstErr.None? {
        err := e;
      }
    }
  }

  method HandleAll(f: FanNode, r: Record, env: Surroundings, out: Backend) returns (firstErr: Option<Error>)
    requires Built(FanRef(f)) && out !in f.footprint
    modifies out
    ensures (out.calls, firstErr) == HandledAll(ViewAll(f.handlers[..], f.height, f.footprint), r, env, old(out.calls))
    decreases f.height, 0
  {
    ghost var ts := ViewAll(f.handlers[..], f.height, f.footprint);
    firstErr := None;
    for i := 0 to f.handlers.Length
      invariant ViewAll(f.handlers[..], f.height, f.footprint) == ts
      invariant var (calls, e) := HandledAll(ts[i..], r, env, out.calls);
                HandledAll(ts, r, env, old(out.calls)) == (calls, First(firstErr, e))
    {
      ViewAt(f.handlers[..], f.height, f.footprint, i);
      HandledFrom(ts, i, r, env, out.calls);
      firstErr := HandleChild(f.handlers[i], r, env, out, firstErr);
    }
    assert ts[f.handlers.Length..] == [];
  }

  lemma ViewsAppend(ns: seq<Node>, height: nat, footprint: set<object>, n: Node)
    requires AllBuilt(ns, height, footprint) && Built(n) && Height(n) < height
    ensures AllBuilt(ns + [n], height, footprint + Footprint(n))
    ensures ViewAll(ns + [n], height, footprint + Footprint(n)) == ViewAll(ns, height, footprint) + [View(n)]
  {
    var all, more := ns + [n], footprint + Footprint(n);
    var ts := ViewAll(all, height, more);
    forall i | 0 <= i < |ts| ensures ts[i] == (ViewAll(ns, height, footprint) + [View(n)])[i] {
      ViewAt(all, height, more, i);
      if i < |ns| {
        ViewAt(ns, height, footprint, i);
      }
    }
  }

  // Logging through one handler: it is asked first.
  method LogThrough(n: Node, r: Record, env: Surroundings, out: Backend) returns (err: Option<Error>)
    requires Built(n) && out !in Footprint(n)
    modifies out
    ensures (out.calls, err) == Logged(View(n), r, env, old(out.calls))
  {
    err := None;
    var on := Enabled(n, r.level);
    if on {
      err := Handle(n, r, env, out);
    }
  }

  // The handlers of a session and what has come of it so far.
  ghost function Standing(live: seq<Node>, height: nat, footprint: set<object>, out: Backend,
                          results: seq<Option<Error>>): Session<Tree>
    requires AllBuilt(live, height, footprint)
    reads footprint, out
  {
    Session(ViewAll(live, height, footprint), out.calls, results)
  }

  method Perform(live: seq<Node>, results: seq<Option<Error>>, act: Act, env: Surroundings, out: Backend,
                 ghost height: nat, ghost footprint: set<object>)
    returns (live': seq<Node>, results': seq<Option<Error>>, ghost footprint': set<object>)
    requires AllBuilt(live, height, footprint) && out !in footprint
    modifies out
    ensures AllBuilt(live', height, footprint') && out !in footprint'
    ensures forall b :: b in footprint' ==> fresh(b) || b in footprint
    ensures Standing(live', height, footprint', out, results')
            == TreeAct(old(Standing(live, height, footprint, out, results)), act, env)
  {
    live', results', footprint' := live, results, footprint;
    if act.logger >= |live| {
      return;
    }
    ViewAt(live, height, footprint, act.logger);
    match act
    case DeriveFrom(i, op) =>
      var r := Derived(live[i], op);
      ViewsAppend(live, height, footprint, r);
      live', footprint' := live + [r], footprint + Footprint(r);
    case Log(i, record) =>
      var err := LogThrough(live[i], record, env, out);
      results' := results + [err];
  }

  // Deriving and logging through parents, siblings and their derivations, in
  // any order: what the session does on the heap is what it does on values, and
  // so what it does to the leaves one by one.
  method RunSession(handlers: seq<Node>, acts: seq<Act>, env: Surroundings, out: Backend,
                    ghost height: nat, ghost footprint: set<object>)
    returns (live: seq<Node>, results: seq<Option<Error>>, ghost grown: set<object>)
    requires AllBuilt(handlers, height, footprint) && out !in footprint
    modifies out
    ensures AllBuilt(live, height, grown)
    ensures Standing(live, height, grown, out, results)
            == TreeActs(old(Standing(handlers, height, footprint, out, [])), acts, env)
    ensures InLeaves(Standing(live, height, grown, out, results))
            == LeafActs(InLeaves(old(Standing(handlers, height, footprint, out, []))), acts, env)
  {
    ghost var start := Standing(handlers, height, footprint, out, []);
    SessionIsIndependent(start, acts, env);
    live, results, grown := handlers, [], footprint;
    for i := 0 to |acts|
      invariant AllBuilt(live, height, grown) && out !in grown
      invariant TreeActs(start, acts, env) == TreeActs(Standing(live, height, grown, out, results), acts[i..], env)
    {
      assert acts[i..][0] == acts[i] && acts[i..][1..] == acts[i + 1..];
      live, results, grown := Perform(live, results, acts[i], env, out, height, grown);
    }
    assert acts[|acts|..] == [];
  }

  // Deriving a fanout and logging through the result: each leaf of the original
  // gets the record as if it alone had been derived and asked.
  method DeriveAndHandle(f: FanNode, ops: seq<Op>, r: Record, env: Surroundings, out: Backend)
    returns (err: Option<Error>)
    requires Built(FanRef(f)) && out !in f.footprint
    modifies out
    ensures (out.calls, err) == Pipelines(MapDerived(Leaves(View(FanRef(f))), ops), r, env, old(out.calls))
    ensures out.calls == old(out.calls) + CallsAfterChain(Leaves(View(FanRef(f))), ops, r)
  {
    FanoutIsIndependent(ViewAll(f.handlers[..], f.height, f.footprint), ops, r, env, out.calls);
    FanoutCalls(ViewAll(f.handlers[..], f.height, f.footprint), ops, r, env, out.calls);
    var n := DerivedBy(FanRef(f), ops);
    err := Handle(n, r, env, out);
  }
}
