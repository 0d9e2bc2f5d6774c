/**
 Handler trees (logger/fanout.go) on values: a fanout is equivalent to its
 leaves run one by one as independent pipelines.
 */
module Fanout {
  import opened Wrappers
  import opened OtelHandler

  // A handler from elsewhere is known by the levels it accepts and its derivations.
  datatype Leaf =
    | OtelLeaf(handler: Handler)
    | SinkLeaf(name: string, accepts: int -> bool, chain: seq<Op>)
  {
    predicate Enabled(level: int) {
      OtelLeaf? || accepts(level)
    }

    function Derived(op: Op): Leaf {
      match this
      case OtelLeaf(h) => OtelLeaf(Derive(h, op))
      case SinkLeaf(name, accepts, chain) => SinkLeaf(name, accepts, chain + [op])
    }

    function DerivedAll(ops: seq<Op>): Leaf
      decreases |ops|
    {
      if ops == [] then this else Derived(ops[0]).DerivedAll(ops[1..])
    }
  }

  datatype Tree = Only(leaf: Leaf) | Fan(children: seq<Tree>)

  // What a leaf does with a record, in the order it happens.
  datatype Call =
    | Emit(emitted: OtelRecord)
    | Write(leaf: Leaf, record: Record)

  type Error = string

  // Whether a write fails may depend on everything that happened so far.
  type Surroundings = seq<Call> -> Option<Error>

  function HandleLeaf(l: Leaf, r: Record, env: Surroundings, past: seq<Call>): (seq<Call>, Option<Error>) {
    match l
    case OtelLeaf(h) => (past + [Emit(Emitted(h, r))], None)
    case SinkLeaf(_, _, _) => (past + [Write(l, r)], env(past + [Write(l, r)]))
  }

  // ---------- the tree, as the code walks it ----------

  predicate EnabledIn(t: Tree, level: int) {
    match t
    case Only(l) => l.Enabled(level)
    case Fan(children) => AnyEnabled(children, level)
  }

  predicate AnyEnabled(ts: seq<Tree>, level: int) {
    ts != [] && (EnabledIn(ts[0], level) || AnyEnabled(ts[1..], level))
  }

  function Handled(t: Tree, r: Record, env: Surroundings, past: seq<Call>): (seq<Call>, Option<Error>)
    decreases t, 0
  {
    match t
    case Only(l) => HandleLeaf(l, r, env, past)
    case Fan(children) => HandledAll(children, r, env, past)
  }

  function First(a: Option<Error>, b: Option<Error>): Option<Error> {
    if a.Some? then a else b
  }

  // Every enabled child in order, even after a failure; the first error is kept.
  function HandledAll(ts: seq<Tree>, r: Record, env: Surroundings, past: seq<Call>): (seq<Call>, Option<Error>)
    decreases ts, 1
  {
    if ts == [] then (past, None)
    else if !EnabledIn(ts[0], r.level) then HandledAll(ts[1..], r, env, past)
    else
      var (calls, e) := Handled(ts[0], r, env, past);
      var (rest, f) := HandledAll(ts[1..], r, env, calls);
      (rest, First(e, f))
  }

  // The walk over a list, from any place in it.
  lemma HandledFrom(ts: seq<Tree>, i: nat, r: Record, env: Surroundings, past: seq<Call>)
    requires i < |ts|
    ensures HandledAll(ts[i..], r, env, past) ==
            if !EnabledIn(ts[i], r.level) then HandledAll(ts[i + 1..], r, env, past)
            else
              var (calls, e) := Handled(ts[i], r, env, past);
              var (rest, f) := HandledAll(ts[i + 1..], r, env, calls);
              (rest, First(e, f))
  {
    assert ts[i..][0] == ts[i] && ts[i..][1..] == ts[i + 1..];
  }

  function Derivation(t: Tree, op: Op): Tree
    decreases t, 0
  {
    match t
    case Only(l) => Only(l.Derived(op))
    case Fan(children) => Fan(DerivationAll(children, op))
  }

  function DerivationAll(ts: seq<Tree>, op: Op): (us: seq<Tree>)
    ensures |us| == |ts|
    decreases ts, 1
  {
    if ts == [] then [] else [Derivation(ts[0], op)] + DerivationAll(ts[1..], op)
  }

  function Derivations(t: Tree, ops: seq<Op>): Tree
    decreases |ops|
  {
    if ops == [] then t else Derivations(Derivation(t, ops[0]), ops[1..])
  }

  // ---------- independent pipelines ----------

  function Leaves(t: Tree): seq<Leaf>
    decreases t, 0
  {
    match t
    case Only(l) => [l]
    case Fan(children) => LeavesOf(children)
  }

  function LeavesOf(ts: seq<Tree>): seq<Leaf>
    decreases ts, 1
  {
    if ts == [] then [] else Leaves(ts[0]) + LeavesOf(ts[1..])
  }

  // Each leaf alone behind its own Enabled test, one after the other.
  function Pipelines(ls: seq<Leaf>, r: Record, env: Surroundings, past: seq<Call>): (seq<Call>, Option<Error>) {
    if ls == [] then (past, None)
    else if !ls[0].Enabled(r.level) then Pipelines(ls[1..], r, env, past)
    else
      var (calls, e) := HandleLeaf(ls[0], r, env, past);
      var (rest, f) := Pipelines(ls[1..], r, env, calls);
      (rest, First(e, f))
  }

  // A leaf after a chain: a handler from elsewhere has been sent every step of
  // it, in order; the bridge has all the attributes, and the path of all groups.
  function AfterChain(l: Leaf, ops: seq<Op>): Leaf {
    match l
    case OtelLeaf(h) => OtelLeaf(Handler(h.scope, h.attrs + AttrsOf(ops), PathAfter(h.group, ops)))
    case SinkLeaf(name, accepts, chain) => SinkLeaf(name, accepts, chain + ops)
  }

  lemma {:induction false} DeriveAllFromFront(h: Handler, op: Op, ops: seq<Op>)
    ensures DeriveAll(h, [op] + ops) == DeriveAll(Derive(h, op), ops)
  {
    var all := [op] + ops;
    if ops == [] {
      assert all[..0] == [] && all == [op];
    } else {
      assert all[..|all| - 1] == [op] + ops[..|ops| - 1];
      DeriveAllFromFront(h, op, ops[..|ops| - 1]);
    }
  }

  lemma {:induction false} OtelAfterChain(h: Handler, ops: seq<Op>)
    ensures OtelLeaf(h).DerivedAll(ops) == OtelLeaf(DeriveAll(h, ops))
    decreases |ops|
  {
    if ops != [] {
      OtelAfterChain(Derive(h, ops[0]), ops[1..]);
      DeriveAllFromFront(h, ops[0], ops[1..]);
      assert [ops[0]] + ops[1..] == ops;
    }
  }

  // Step by step, that is where a chain leads.
  lemma {:induction false} DerivedAllIsAfterChain(l: Leaf, ops: seq<Op>)
    ensures l.DerivedAll(ops) == AfterChain(l, ops)
    decreases |ops|
  {
    match l
    case OtelLeaf(h) =>
      OtelAfterChain(h, ops);
      ChainFrom(h, ops);
    case SinkLeaf(name, accepts, chain) =>
      if ops == [] {
        assert chain + ops == chain;
      } else {
        DerivedAllIsAfterChain(l.Derived(ops[0]), ops[1..]);
        assert chain + [ops[0]] + ops[1..] == chain + ops;
      }
  }

  function MapDerived(ls: seq<Leaf>, ops: seq<Op>): (ms: seq<Leaf>)
    ensures |ms| == |ls|
    ensures forall i :: 0 <= i < |ls| ==> ms[i] == AfterChain(ls[i], ops)
  {
    seq(|ls|, i requires 0 <= i < |ls| => AfterChain(ls[i], ops))
  }

  lemma {:induction false} PipelinesAppend(a: seq<Leaf>, b: seq<Leaf>, r: Record, env: Surroundings, past: seq<Call>)
    ensures var (calls, e) := Pipelines(a, r, env, past);
            var (rest, f) := Pipelines(b, r, env, calls);
            Pipelines(a + b, r, env, past) == (rest, First(e, f))
  {
    if a == [] {
      assert a + b == b;
    } else {
      assert (a + b)[0] == a[0] && (a + b)[1..] == a[1..] + b;
      var next := if a[0].Enabled(r.level) then HandleLeaf(a[0], r, env, past).0 else past;
      PipelinesAppend(a[1..], b, r, env, next);
    }
  }

  // The bridge takes every level, a handler from elsewhere those it accepts.
  lemma {:induction false} EnabledIsAnyLeaf(t: Tree, level: int)
    ensures EnabledIn(t, level) <==> exists l :: l in Leaves(t) && l.Enabled(level)
    ensures EnabledIn(t, level) <==> exists l :: l in Leaves(t) && (l.OtelLeaf? || l.accepts(level))
    decreases t, 0
  {
    match t
    case Only(l) =>
      assert l in Leaves(t);
    case Fan(children) =>
      AnyEnabledIsAnyLeaf(children, level);
  }

  lemma {:induction false} AnyEnabledIsAnyLeaf(ts: seq<Tree>, level: int)
    ensures AnyEnabled(ts, level) <==> exists l :: l in LeavesOf(ts) && l.Enabled(level)
    decreases ts, 1
  {
    if ts != [] {
      EnabledIsAnyLeaf(ts[0], level);
      AnyEnabledIsAnyLeaf(ts[1..], level);
      assert forall l :: l in LeavesOf(ts) <==> l in Leaves(ts[0]) || l in LeavesOf(ts[1..]);
    }
  }

  lemma {:induction false} DisabledPipelines(ls: seq<Leaf>, r: Record, env: Surroundings, past: seq<Call>)
    requires forall l :: l in ls ==> !l.Enabled(r.level)
    ensures Pipelines(ls, r, env, past) == (past, None)
  {
    if ls != [] {
      DisabledPipelines(ls[1..], r, env, past);
    }
  }

  // A fanout, nested to any depth, does what its leaves do alone: the same
  // calls in the same order, and the first error among theirs.
  lemma {:induction false} FanIsPipelines(ts: seq<Tree>, r: Record, env: Surroundings, past: seq<Call>)
    ensures HandledAll(ts, r, env, past) == Pipelines(LeavesOf(ts), r, env, past)
    decreases ts, 1
  {
    if ts != [] {
      EnabledIsAnyLeaf(ts[0], r.level);
      if EnabledIn(ts[0], r.level) {
        EnabledTreeIsPipelines(ts[0], r, env, past);
        FanIsPipelines(ts[1..], r, env, Handled(ts[0], r, env, past).0);
      } else {
        DisabledPipelines(Leaves(ts[0]), r, env, past);
        FanIsPipelines(ts[1..], r, env, past);
      }
      PipelinesAppend(Leaves(ts[0]), LeavesOf(ts[1..]), r, env, past);
    }
  }

  lemma {:induction false} EnabledTreeIsPipelines(t: Tree, r: Record, env: Surroundings, past: seq<Call>)
    requires EnabledIn(t, r.level)
    ensures Handled(t, r, env, past) == Pipelines(Leaves(t), r, env, past)
    decreases t, 0
  {
    match t
    case Only(l) =>
      assert [l][1..] == [];
    case Fan(children) =>
      FanIsPipelines(children, r, env, past);
  }

  lemma DerivedOnce(l: Leaf, op: Op)
    ensures AfterChain(l, [op]) == l.Derived(op)
  {
    DerivedAllIsAfterChain(l, [op]);
    assert [op][1..] == [];
    assert l.DerivedAll([op]) == l.Derived(op).DerivedAll([]);
  }

  lemma ChainOnChain(l: Leaf, ops: seq<Op>)
    requires ops != []
    ensures AfterChain(AfterChain(l, [ops[0]]), ops[1..]) == AfterChain(l, ops)
  {
    DerivedOnce(l, ops[0]);
    DerivedAllIsAfterChain(l.Derived(ops[0]), ops[1..]);
    DerivedAllIsAfterChain(l, ops);
  }

  lemma EmptyChain(l: Leaf)
    ensures AfterChain(l, []) == l
  {
    DerivedAllIsAfterChain(l, []);
  }

  lemma {:induction false} LeavesOfDerivation(t: Tree, op: Op)
    ensures Leaves(Derivation(t, op)) == MapDerived(Leaves(t), [op])
    decreases t, 0
  {
    match t
    case Only(l) =>
      DerivedOnce(l, op);
    case Fan(children) =>
      LeavesOfDerivations(children, op);
  }

  lemma {:induction false} LeavesOfDerivations(ts: seq<Tree>, op: Op)
    ensures LeavesOf(DerivationAll(ts, op)) == MapDerived(LeavesOf(ts), [op])
    decreases ts, 1
  {
    if ts != [] {
      LeavesOfDerivation(ts[0], op);
      LeavesOfDerivations(ts[1..], op);
      var us := DerivationAll(ts, op);
      assert us[0] == Derivation(ts[0], op) && us[1..] == DerivationAll(ts[1..], op);
    }
  }

  // Deriving a tree derives each leaf, by the same chain and in place.
  lemma {:induction false} DerivationsReachLeaves(t: Tree, ops: seq<Op>)
    ensures Leaves(Derivations(t, ops)) == MapDerived(Leaves(t), ops)
    decreases |ops|
  {
    if ops == [] {
      forall i | 0 <= i < |Leaves(t)| ensures AfterChain(Leaves(t)[i], ops) == Leaves(t)[i] {
        EmptyChain(Leaves(t)[i]);
      }
    } else {
      var u := Derivation(t, ops[0]);
      LeavesOfDerivation(t, ops[0]);
      DerivationsReachLeaves(u, ops[1..]);
      forall i | 0 <= i < |Leaves(t)|
        ensures AfterChain(Leaves(u)[i], ops[1..]) == AfterChain(Leaves(t)[i], ops)
      {
        ChainOnChain(Leaves(t)[i], ops);
      }
    }
  }

  lemma {:induction false} FanStaysFan(t: Tree, ops: seq<Op>)
    requires t.Fan?
    ensures Derivations(t, ops).Fan?
    decreases |ops|
  {
    if ops != [] {
      FanStaysFan(Derivation(t, ops[0]), ops[1..]);
    }
  }

  // After any chain of derivations, handling a record through the tree is
  // running every leaf, derived by the same chain, as a pipeline of its own.
  lemma FanoutIsIndependent(children: seq<Tree>, ops: seq<Op>, r: Record, env: Surroundings, past: seq<Call>)
    ensures Handled(Derivations(Fan(children), ops), r, env, past)
            == Pipelines(MapDerived(LeavesOf(children), ops), r, env, past)
  {
    DerivationsReachLeaves(Fan(children), ops);
    FanStaysFan(Fan(children), ops);
    FanIsPipelines(Derivations(Fan(children), ops).children, r, env, past);
  }

  // ---------- sessions ----------

  // What a program does with loggers: derive one from another, or log through one.
  datatype Act = DeriveFrom(logger: nat, op: Op) | Log(logger: nat, record: Record)

  // The loggers there are, in order of their making, all calls, and what every
  // act of logging came to.
  datatype Session<T> = Session(live: seq<T>, calls: seq<Call>, results: seq<Option<Error>>)

  // A logger asks whether its handler is enabled before it hands a record over.
  function Logged(t: Tree, r: Record, env: Surroundings, past: seq<Call>): (seq<Call>, Option<Error>) {
    if EnabledIn(t, r.level) then Handled(t, r, env, past) else (past, None)
  }

  // An act on a logger that does not exist does nothing.
  function TreeAct(s: Session<Tree>, a: Act, env: Surroundings): Session<Tree> {
    if a.logger >= |s.live| then s
    else match a
      case DeriveFrom(i, op) => s.(live := s.live + [Derivation(s.live[i], op)])
      case Log(i, r) =>
        var (calls, e) := Logged(s.live[i], r, env, s.calls);
        s.(calls := calls, results := s.results + [e])
  }

  // The same on lists of leaves, none of which knows of the others.
  function LeafAct(s: Session<seq<Leaf>>, a: Act, env: Surroundings): Session<seq<Leaf>> {
    if a.logger >= |s.live| then s
    else match a
      case DeriveFrom(i, op) => s.(live := s.live + [MapDerived(s.live[i], [op])])
      case Log(i, r) =>
        var (calls, e) := Pipelines(s.live[i], r, env, s.calls);
        s.(calls := calls, results := s.results + [e])
  }

  function TreeActs(s: Session<Tree>, acts: seq<Act>, env: Surroundings): Session<Tree>
    decreases |acts|
  {
    if acts == [] then s else TreeActs(TreeAct(s, acts[0], env), acts[1..], env)
  }

  function LeafActs(s: Session<seq<Leaf>>, acts: seq<Act>, env: Surroundings): Session<seq<Leaf>>
    decreases |acts|
  {
    if acts == [] then s else LeafActs(LeafAct(s, acts[0], env), acts[1..], env)
  }

  function LeavesOfEach(ts: seq<Tree>): (lss: seq<seq<Leaf>>)
    ensures |lss| == |ts|
    ensures forall i :: 0 <= i < |ts| ==> lss[i] == Leaves(ts[i])
  {
    seq(|ts|, i requires 0 <= i < |ts| => Leaves(ts[i]))
  }

  function InLeaves(s: Session<Tree>): Session<seq<Leaf>> {
    Session(LeavesOfEach(s.live), s.calls, s.results)
  }

  lemma LoggedIsPipelines(t: Tree, r: Record, env: Surroundings, past: seq<Call>)
    ensures Logged(t, r, env, past) == Pipelines(Leaves(t), r, env, past)
  {
    EnabledIsAnyLeaf(t, r.level);
    if EnabledIn(t, r.level) {
      EnabledTreeIsPipelines(t, r, env, past);
    } else {
      DisabledPipelines(Leaves(t), r, env, past);
    }
  }

  // A fanout does not need to be asked first.
  lemma FanNeedsNoAsking(children: seq<Tree>, r: Record, env: Surroundings, past: seq<Call>)
    ensures Handled(Fan(children), r, env, past) == Logged(Fan(children), r, env, past)
  {
    LoggedIsPipelines(Fan(children), r, env, past);
    FanIsPipelines(children, r, env, past);
  }

  lemma ActIsIndependent(s: Session<Tree>, a: Act, env: Surroundings)
    ensures InLeaves(TreeAct(s, a, env)) == LeafAct(InLeaves(s), a, env)
  {
    if a.logger < |s.live| {
      match a
      case DeriveFrom(i, op) =>
        LeavesOfDerivation(s.live[i], op);
      case Log(i, r) =>
        LoggedIsPipelines(s.live[i], r, env, s.calls);
    }
  }

  // Any sequence of deriving and logging, through any handlers and what was
  // derived from them, does what it does to their leaves one by one: the same
  // calls in the same order and the same results.
  lemma {:induction false} SessionIsIndependent(s: Session<Tree>, acts: seq<Act>, env: Surroundings)
    ensures InLeaves(TreeActs(s, acts, env)) == LeafActs(InLeaves(s), acts, env)
    decreases |acts|
  {
    if acts != [] {
      ActIsIndependent(s, acts[0], env);
      SessionIsIndependent(TreeAct(s, acts[0], env), acts[1..], env);
    }
  }

  // ---------- what pipelines do ----------

  function EnabledLeaves(ls: seq<Leaf>, level: int): seq<Leaf> {
    if ls == [] then []
    else (if ls[0].Enabled(level) then [ls[0]] else []) + EnabledLeaves(ls[1..], level)
  }

  function CallOf(l: Leaf, r: Record): Call {
    match l
    case OtelLeaf(h) => Emit(Emitted(h, r))
    case SinkLeaf(_, _, _) => Write(l, r)
  }

  function CallsOf(ls: seq<Leaf>, r: Record): (calls: seq<Call>)
    ensures |calls| == |ls|
  {
    if ls == [] then [] else [CallOf(ls[0], r)] + CallsOf(ls[1..], r)
  }

  // How the k-th call went: only a write can fail.
  function OutcomeAt(calls: seq<Call>, k: nat, env: Surroundings): Option<Error>
    requires k < |calls|
  {
    if calls[k].Write? then env(calls[..k + 1]) else None
  }

  // Each enabled leaf makes one call, in order, whatever the calls before it did.
  lemma {:induction false} PipelinesCalls(ls: seq<Leaf>, r: Record, env: Surroundings, past: seq<Call>)
    ensures Pipelines(ls, r, env, past).0 == past + CallsOf(EnabledLeaves(ls, r.level), r)
  {
    if ls != [] {
      if ls[0].Enabled(r.level) {
        var next := HandleLeaf(ls[0], r, env, past).0;
        PipelinesCalls(ls[1..], r, env, next);
        var rest := EnabledLeaves(ls[1..], r.level);
        assert ([ls[0]] + rest)[1..] == rest;
        assert next == past + [CallOf(ls[0], r)];
      } else {
        PipelinesCalls(ls[1..], r, env, past);
        assert [] + EnabledLeaves(ls[1..], r.level) == EnabledLeaves(ls[1..], r.level);
      }
    }
  }

  // The calls that leaves make once a chain has reached them, in order: the
  // bridge always, a handler from elsewhere when it accepts the level.
  function CallsAfterChain(ls: seq<Leaf>, ops: seq<Op>, r: Record): seq<Call> {
    if ls == [] then []
    else (match ls[0]
          case OtelLeaf(h) => [Emit(Emitted(Handler(h.scope, h.attrs + AttrsOf(ops), PathAfter(h.group, ops)), r))]
          case SinkLeaf(name, accepts, chain) =>
            if accepts(r.level) then [Write(SinkLeaf(name, accepts, chain + ops), r)] else [])
         + CallsAfterChain(ls[1..], ops, r)
  }

  lemma {:induction false} CallsOfDerived(ls: seq<Leaf>, ops: seq<Op>, r: Record)
    ensures CallsOf(EnabledLeaves(MapDerived(ls, ops), r.level), r) == CallsAfterChain(ls, ops, r)
  {
    if ls != [] {
      var ms := MapDerived(ls, ops);
      assert ms[1..] == MapDerived(ls[1..], ops);
      CallsOfDerived(ls[1..], ops, r);
      var rest := EnabledLeaves(ms[1..], r.level);
      assert ([ms[0]] + rest)[1..] == rest && [] + rest == rest;
    }
  }

  // The result is the error of the first call that fails, if any does.
  lemma {:induction false} PipelinesFirstError(ls: seq<Leaf>, r: Record, env: Surroundings, past: seq<Call>)
    ensures var (calls, e) := Pipelines(ls, r, env, past);
            && past <= calls
            && (e.None? <==> forall k :: |past| <= k < |calls| ==> OutcomeAt(calls, k, env).None?)
            && (e.Some? ==> exists k :: |past| <= k < |calls| && OutcomeAt(calls, k, env) == e
                                        && forall j :: |past| <= j < k ==> OutcomeAt(calls, j, env).None?)
  {
    if ls != [] {
      if ls[0].Enabled(r.level) {
        var (next, e) := HandleLeaf(ls[0], r, env, past);
        PipelinesFirstError(ls[1..], r, env, next);
        var calls := Pipelines(ls, r, env, past).0;
        assert calls[..|next|] == next;
        assert OutcomeAt(calls, |past|, env) == e;
      } else {
        PipelinesFirstError(ls[1..], r, env, past);
      }
    }
  }

  // What an act of logging adds to a session: the calls of the leaves that take
  // the level, and one result, nil exactly when none of those calls failed.
  lemma LogAdds(s: Session<Tree>, i: nat, r: Record, env: Surroundings)
    requires i < |s.live|
    ensures var t := TreeAct(s, Log(i, r), env);
            var e := t.results[|t.results| - 1];
            && t.live == s.live && |t.results| == |s.results| + 1 && s.results <= t.results
            && t.calls == s.calls + CallsAfterChain(Leaves(s.live[i]), [], r)
            && (e.None? <==> forall k :: |s.calls| <= k < |t.calls| ==> OutcomeAt(t.calls, k, env).None?)
            && (e.Some? ==> exists k :: |s.calls| <= k < |t.calls| && OutcomeAt(t.calls, k, env) == e
                                        && forall j :: |s.calls| <= j < k ==> OutcomeAt(t.calls, j, env).None?)
  {
    var ls := Leaves(s.live[i]);
    LoggedIsPipelines(s.live[i], r, env, s.calls);
    PipelinesCalls(ls, r, env, s.calls);
    PipelinesFirstError(ls, r, env, s.calls);
    CallsOfDerived(ls, [], r);
    forall k | 0 <= k < |ls| ensures MapDerived(ls, [])[k] == ls[k] {
      EmptyChain(ls[k]);
    }
    assert MapDerived(ls, []) == ls;
  }

  lemma FanoutCalls(children: seq<Tree>, ops: seq<Op>, r: Record, env: Surroundings, past: seq<Call>)
    ensures Handled(Derivations(Fan(children), ops), r, env, past).0
            == past + CallsAfterChain(LeavesOf(children), ops, r)
  {
    FanoutIsIndependent(children, ops, r, env, past);
    PipelinesCalls(MapDerived(LeavesOf(children), ops), r, env, past);
    CallsOfDerived(LeavesOf(children), ops, r);
  }
}
