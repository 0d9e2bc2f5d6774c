/**
 The consumer loop (kafka/consumer.go:41-64) as a state machine: fetch, hand to
 the handler, commit, with a failure, a cancellation, a crash or a restart
 possible between any two steps. The broker is assumed to behave as a consumer
 group does: a session starts at the committed offsets, a fetch returns the
 message at the position and advances it, a commit of a message sets offset + 1.
 */
module KafkaConsumer {
  import opened Wrappers

  datatype Message = Message(key: string, value: seq<int>)

  datatype Delivery = Delivery(partition: nat, offset: nat, message: Message)

  // Where the loop stands; the message in hand is named by its coordinates.
  datatype Phase =
    | Fetching
    | Fetched(partition: nat, offset: nat)
    | InHandler(partition: nat, offset: nat)
    | Committing(partition: nat, offset: nat)
    | Stopped
  {
    predicate InHand(p: nat) {
      (Fetched? || InHandler? || Committing?) && partition == p
    }
  }

  datatype State = State(
    log: seq<seq<Message>>,       // per partition, the messages by offset
    position: seq<nat>,           // next offset to fetch
    committed: seq<nat>,          // next offset of a new session
    phase: Phase,
    cancelled: bool,
    delivered: seq<Delivery>,     // every call of the handler so far
    sessionStart: seq<nat>,       // committed offsets when this session began
    session: nat)                 // how many calls preceded this session

  datatype Event =
    | Produce(partition: nat, message: Message)
    | FetchOk(partition: nat)
    | FetchError
    | Dispatch
    | HandlerReturn(failed: bool)
    | Commit(applied: bool, failed: bool) // a failed commit may still have been applied
    | Cancel
    | StartAgain
    | Restart

  predicate Enabled(s: State, e: Event) {
    match e
    case Produce(p, _) => p < |s.log|
    case FetchOk(p) => s.phase.Fetching? && p < |s.log| == |s.position| && s.position[p] < |s.log[p]|
    case FetchError => s.phase.Fetching?
    case Dispatch => s.phase.Fetched? && s.phase.partition < |s.log| && s.phase.offset < |s.log[s.phase.partition]|
    case HandlerReturn(_) => s.phase.InHandler?
    case Commit(applied, failed) => s.phase.Committing? && s.phase.partition < |s.committed| && (applied || failed)
    case Cancel => true
    case StartAgain => s.phase.Stopped?
    case Restart => true
  }

  function Step(s: State, e: Event): State
    requires Enabled(s, e)
  {
    match e
    case Produce(p, m) => s.(log := s.log[p := s.log[p] + [m]])
    case FetchOk(p) => s.(position := s.position[p := s.position[p] + 1], phase := Fetched(p, s.position[p]))
    case FetchError => if s.cancelled then s.(phase := Stopped) else s
    case Dispatch =>
      var Fetched(p, o) := s.phase;
      s.(delivered := s.delivered + [Delivery(p, o, s.log[p][o])], phase := InHandler(p, o))
    case HandlerReturn(_) => s.(phase := Committing(s.phase.partition, s.phase.offset))
    case Commit(applied, _) =>
      var Committing(p, o) := s.phase;
      s.(committed := if applied then s.committed[p := o + 1] else s.committed, phase := Fetching)
    case Cancel => s.(cancelled := true)
    case StartAgain => s.(cancelled := false, phase := Fetching)
    case Restart =>
      s.(position := s.committed, phase := Fetching, cancelled := false,
         sessionStart := s.committed, session := |s.delivered|)
  }

  // The state after a run of events, if each of them was enabled in its turn.
  function Exec(s: State, events: seq<Event>): Option<State> {
    if events == [] then Some(s)
    else
      var before :- Exec(s, events[..|events| - 1]);
      var e := events[|events| - 1];
      if Enabled(before, e) then Some(Step(before, e)) else None
  }

  function Init(log: seq<seq<Message>>, base: seq<nat>): State {
    State(log, base, base, Fetching, false, [], base, 0)
  }

  predicate ValidBase(log: seq<seq<Message>>, base: seq<nat>) {
    |base| == |log| && forall p :: 0 <= p < |log| ==> base[p] <= |log[p]|
  }

  // ---------- what every step keeps ----------

  // The first offset of p not handed over in this session.
  function Frontier(s: State, p: nat): int
    requires p < |s.position|
  {
    var waiting: int := if s.phase.Fetched? && s.phase.partition == p then 1 else 0;
    s.position[p] - waiting
  }

  ghost predicate HandedIn(ds: seq<Delivery>, p: nat, o: nat) {
    exists i :: 0 <= i < |ds| && ds[i].partition == p && ds[i].offset == o
  }

  // One past the highest offset of p ever handed over, or the base if none.
  function High(ds: seq<Delivery>, p: nat, base: nat): nat {
    if ds == [] then base
    else
      var d := ds[|ds| - 1];
      var h := High(ds[..|ds| - 1], p, base);
      if d.partition == p && d.offset >= h then d.offset + 1 else h
  }

  // The offsets of p in a series of handler calls, in call order.
  function Offsets(ds: seq<Delivery>, p: nat): seq<nat> {
    if ds == [] then []
    else
      Offsets(ds[..|ds| - 1], p) + if ds[|ds| - 1].partition == p then [ds[|ds| - 1].offset] else []
  }

  function Range(low: int, high: int): seq<nat>
    requires 0 <= low <= high
  {
    if low == high then [] else Range(low, high - 1) + [high - 1]
  }

  predicate SameWidth(s: State) {
    |s.log| == |s.position| == |s.committed| == |s.sessionStart|
  }

  predicate OffsetsOrdered(s: State, base: seq<nat>, p: nat)
    requires SameWidth(s) && |base| == |s.log| && p < |s.log|
  {
    && base[p] <= s.sessionStart[p] <= s.committed[p] <= Frontier(s, p)
    && s.position[p] <= |s.log[p]|
    && (s.phase.InHand(p) ==> s.phase.offset + 1 == s.position[p] && s.committed[p] <= s.phase.offset)
  }

  // This session handed over a gapless run of offsets, in order, each once.
  predicate SessionExact(s: State, p: nat)
    requires SameWidth(s) && p < |s.log|
  {
    && s.session <= |s.delivered|
    && s.sessionStart[p] <= Frontier(s, p)
    && Offsets(s.delivered[s.session..], p) == Range(s.sessionStart[p], Frontier(s, p))
  }

  // All sessions together handed over exactly the offsets from the base to High.
  ghost predicate HandedIsInterval(ds: seq<Delivery>, p: nat, base: nat) {
    forall o: nat :: HandedIn(ds, p, o) <==> base <= o < High(ds, p, base)
  }

  ghost predicate PartitionInv(s: State, base: seq<nat>, p: nat)
    requires SameWidth(s) && |base| == |s.log| && p < |s.log|
  {
    && OffsetsOrdered(s, base, p)
    && SessionExact(s, p)
    && Frontier(s, p) <= High(s.delivered, p, base[p]) <= |s.log[p]|
    && HandedIsInterval(s.delivered, p, base[p])
  }

  predicate Genuine(s: State) {
    forall i :: 0 <= i < |s.delivered| ==>
      var d := s.delivered[i];
      d.partition < |s.log| && d.offset < |s.log[d.partition]| && d.message == s.log[d.partition][d.offset]
  }

  ghost predicate Inv(s: State, base: seq<nat>) {
    && SameWidth(s) && |base| == |s.log|
    && ((s.phase.Fetched? || s.phase.InHandler? || s.phase.Committing?) ==> s.phase.partition < |s.log|)
    && Genuine(s)
    && forall p: nat :: p < |s.log| ==> PartitionInv(s, base, p)
  }

  lemma InitInv(log: seq<seq<Message>>, base: seq<nat>)
    requires ValidBase(log, base)
    ensures Inv(Init(log, base), base)
  {
  }

  lemma HandedAppend(ds: seq<Delivery>, d: Delivery, p: nat, o: nat)
    ensures HandedIn(ds + [d], p, o) <==> HandedIn(ds, p, o) || (d.partition == p && d.offset == o)
  {
    var es := ds + [d];
    if HandedIn(ds, p, o) {
      var i :| 0 <= i < |ds| && ds[i].partition == p && ds[i].offset == o;
      assert es[i] == ds[i];
    }
    assert es[|ds|] == d;
  }

  // Handing over the message at the frontier extends the session's run by one.
  lemma DispatchExact(s: State, p: nat)
    requires SameWidth(s) && p < |s.log| && SessionExact(s, p) && Enabled(s, Dispatch)
    requires s.phase.partition == p ==> s.phase.offset + 1 == s.position[p]
    ensures SessionExact(Step(s, Dispatch), p)
  {
    var t := Step(s, Dispatch);
    var now, d := s.delivered[s.session..], t.delivered[|s.delivered|];
    assert t.delivered[t.session..] == now + [d];
    assert (now + [d])[..|now|] == now;
  }

  lemma DispatchInterval(ds: seq<Delivery>, d: Delivery, p: nat, base: nat)
    requires HandedIsInterval(ds, p, base)
    requires d.partition == p ==> base <= d.offset <= High(ds, p, base)
    ensures HandedIsInterval(ds + [d], p, base)
    ensures High(ds + [d], p, base) == if d.partition == p && d.offset == High(ds, p, base) then d.offset + 1 else High(ds, p, base)
  {
    assert (ds + [d])[..|ds|] == ds;
    forall o: nat
      ensures HandedIn(ds + [d], p, o) <==> base <= o < High(ds + [d], p, base)
    {
      HandedAppend(ds, d, p, o);
    }
  }

  lemma DispatchKeeps(s: State, base: seq<nat>, p: nat)
    requires SameWidth(s) && |base| == |s.log| && p < |s.log| && Enabled(s, Dispatch)
    requires PartitionInv(s, base, p)
    ensures PartitionInv(Step(s, Dispatch), base, p)
  {
    DispatchExact(s, p);
    DispatchInterval(s.delivered, Step(s, Dispatch).delivered[|s.delivered|], p, base[p]);
  }

  lemma RestartKeeps(s: State, base: seq<nat>, p: nat)
    requires SameWidth(s) && |base| == |s.log| && p < |s.log|
    requires PartitionInv(s, base, p)
    ensures PartitionInv(Step(s, Restart), base, p)
  {
    assert s.delivered[|s.delivered|..] == [];
  }

  lemma OthersKeep(s: State, e: Event, base: seq<nat>, p: nat)
    requires SameWidth(s) && |base| == |s.log| && p < |s.log| && Enabled(s, e) && !e.Dispatch? && !e.Restart?
    requires PartitionInv(s, base, p)
    ensures SameWidth(Step(s, e)) && PartitionInv(Step(s, e), base, p)
  {
    var t := Step(s, e);
    assert t.delivered == s.delivered && t.session == s.session && t.sessionStart == s.sessionStart;
    assert Frontier(t, p) == Frontier(s, p);
  }

  lemma StepGenuine(s: State, e: Event)
    requires Genuine(s) && Enabled(s, e)
    ensures Genuine(Step(s, e))
  {
  }

  lemma StepInv(s: State, e: Event, base: seq<nat>)
    requires Inv(s, base) && Enabled(s, e)
    ensures Inv(Step(s, e), base)
  {
    var t := Step(s, e);
    StepGenuine(s, e);
    forall p: nat | p < |s.log| ensures SameWidth(t) && PartitionInv(t, base, p) {
      assert PartitionInv(s, base, p);
      if e.Dispatch? {
        DispatchKeeps(s, base, p);
      } else if e.Restart? {
        RestartKeeps(s, base, p);
      } else {
        OthersKeep(s, e, base, p);
      }
    }
  }

  lemma {:induction false} RunInv(s: State, events: seq<Event>, base: seq<nat>)
    requires Inv(s, base) && Exec(s, events).Some?
    ensures Inv(Exec(s, events).value, base)
  {
    if events != [] {
      var before := events[..|events| - 1];
      RunInv(s, before, base);
      StepInv(Exec(s, before).value, events[|events| - 1], base);
    }
  }

  // ---------- guarantees over all runs ----------

  ghost predicate Reachable(log: seq<seq<Message>>, base: seq<nat>, events: seq<Event>, s: State) {
    ValidBase(log, base) && Exec(Init(log, base), events) == Some(s)
  }

  lemma ReachableInv(log: seq<seq<Message>>, base: seq<nat>, events: seq<Event>, s: State)
    requires Reachable(log, base, events, s)
    ensures Inv(s, base)
  {
    InitInv(log, base);
    RunInv(Init(log, base), events, base);
  }

  lemma {:induction false} RunWidth(s: State, events: seq<Event>)
    requires Exec(s, events).Some?
    ensures |Exec(s, events).value.log| == |s.log|
  {
    if events != [] {
      RunWidth(s, events[..|events| - 1]);
    }
  }

  // Every offset below the committed one was handed to the handler, with the
  // message the log holds there; no commit passes the fetch position.
  lemma AtLeastOnce(log: seq<seq<Message>>, base: seq<nat>, events: seq<Event>, s: State, p: nat)
    requires Reachable(log, base, events, s) && p < |log|
    ensures p < |s.log| == |s.committed| == |s.position|
    ensures base[p] <= s.committed[p] <= s.position[p] <= |s.log[p]|
    ensures forall o: nat :: base[p] <= o < s.committed[p] ==> Delivery(p, o, s.log[p][o]) in s.delivered
  {
    ReachableInv(log, base, events, s);
    RunWidth(Init(log, base), events);
    assert PartitionInv(s, base, p);
    forall o: nat | base[p] <= o < s.committed[p]
      ensures Delivery(p, o, s.log[p][o]) in s.delivered
    {
      assert HandedIn(s.delivered, p, o);
      var i :| 0 <= i < |s.delivered| && s.delivered[i].partition == p && s.delivered[i].offset == o;
      assert s.delivered[i] == Delivery(p, o, s.log[p][o]);
    }
  }

  // Within a session the messages of a partition are handed over in offset
  // order from where the session began, each once and none left out.
  lemma OncePerSession(log: seq<seq<Message>>, base: seq<nat>, events: seq<Event>, s: State, p: nat)
    requires Reachable(log, base, events, s) && p < |log|
    ensures p < |s.position| == |s.sessionStart| && s.session <= |s.delivered|
    ensures 0 <= s.sessionStart[p] <= Frontier(s, p)
    ensures Offsets(s.delivered[s.session..], p) == Range(s.sessionStart[p], Frontier(s, p))
  {
    ReachableInv(log, base, events, s);
    RunWidth(Init(log, base), events);
    assert PartitionInv(s, base, p);
  }

  predicate NoRestart(events: seq<Event>) {
    forall i :: 0 <= i < |events| ==> !events[i].Restart?
  }

  lemma StepGrows(s: State, e: Event, base: seq<nat>)
    requires Inv(s, base) && Enabled(s, e)
    ensures var t := Step(s, e);
            && |t.log| == |s.log| == |t.committed| == |s.committed|
            && s.delivered <= t.delivered
            && (forall p :: 0 <= p < |s.log| ==> s.committed[p] <= t.committed[p])
            && (!e.Restart? ==> t.session == s.session && t.sessionStart == s.sessionStart)
  {
    if e.Commit? {
      assert PartitionInv(s, base, s.phase.partition);
    }
  }

  // History only grows, committed offsets never fall, and a session lasts
  // until the next restart.
  lemma {:induction false} RunGrows(s: State, events: seq<Event>, base: seq<nat>)
    requires Inv(s, base) && Exec(s, events).Some?
    ensures var t := Exec(s, events).value;
            && |t.log| == |s.log| == |t.committed| == |s.committed|
            && s.delivered <= t.delivered
            && (forall p :: 0 <= p < |s.log| ==> s.committed[p] <= t.committed[p])
            && (NoRestart(events) ==> t.session == s.session && t.sessionStart == s.sessionStart)
  {
    if events != [] {
      var before, e := events[..|events| - 1], events[|events| - 1];
      RunGrows(s, before, base);
      RunInv(s, before, base);
      StepGrows(Exec(s, before).value, e, base);
    }
  }

  // What is committed is never handed over again: a commit that is applied
  // settles every earlier offset too, those whose own commit failed included.
  lemma {:induction false} CommittedIsFinal(s: State, events: seq<Event>, base: seq<nat>, p: nat)
    requires Inv(s, base) && p < |s.log| && Exec(s, events).Some?
    ensures var t := Exec(s, events).value;
            forall i :: |s.delivered| <= i < |t.delivered| && t.delivered[i].partition == p ==>
                          s.committed[p] <= t.delivered[i].offset
  {
    if events != [] {
      var before, e := events[..|events| - 1], events[|events| - 1];
      var u := Exec(s, before).value;
      CommittedIsFinal(s, before, base, p);
      RunInv(s, before, base);
      RunGrows(s, before, base);
      if e.Dispatch? {
        assert PartitionInv(u, base, u.phase.partition);
      }
    }
  }

  lemma {:induction false} ExecAppend(s: State, a: seq<Event>, b: seq<Event>)
    ensures Exec(s, a + b) == if Exec(s, a).Some? then Exec(Exec(s, a).value, b) else None
  {
    if b == [] {
      assert a + b == a;
    } else {
      assert (a + b)[..|a + b| - 1] == a + b[..|b| - 1];
      ExecAppend(s, a, b[..|b| - 1]);
    }
  }

  // A run that went to t goes on with any step enabled there.
  lemma Follow(s: State, es: seq<Event>, t: State, e: Event) returns (all: seq<Event>, u: State)
    requires Exec(s, es) == Some(t) && Enabled(t, e)
    ensures all == es + [e] && u == Step(t, e) && Exec(s, all) == Some(u)
  {
    all, u := es + [e], Step(t, e);
    assert all[..|es|] == es;
  }

  // At least once means handed over, not handled: when the handler fails and
  // the commit that follows is applied, the message is never handed over again.
  lemma FailedMessageIsNotRetried(s: State, base: seq<nat>, commitFailed: bool, more: seq<Event>)
    requires Inv(s, base) && s.phase.InHandler?
    requires Exec(s, [HandlerReturn(true), Commit(true, commitFailed)] + more).Some?
    ensures var t := Exec(s, [HandlerReturn(true), Commit(true, commitFailed)] + more).value;
            forall i :: |s.delivered| <= i < |t.delivered| && t.delivered[i].partition == s.phase.partition ==>
                          t.delivered[i].offset > s.phase.offset
  {
    var two := [HandlerReturn(true), Commit(true, commitFailed)];
    ExecAppend(s, two, more);
    assert two[..1] == [HandlerReturn(true)] && two[..1][..0] == [];
    var u := Exec(s, two).value;
    assert u == Step(Step(s, HandlerReturn(true)), Commit(true, commitFailed)) by {
      assert Exec(s, two[..1]) == Some(Step(s, HandlerReturn(true)));
    }
    RunInv(s, two, base);
    CommittedIsFinal(u, more, base, s.phase.partition);
  }

  lemma {:induction false} InRange(low: int, high: int, o: nat)
    requires 0 <= low <= high
    ensures o in Range(low, high) <==> low <= o < high
  {
    if low < high {
      InRange(low, high - 1, o);
    }
  }

  // After a restart the offsets of p are handed over from the committed one,
  // in order, each once; and the ones among them already handed over before
  // are exactly the suffix from the committed offset, as far as this session got.
  lemma Redelivery(log: seq<seq<Message>>, base: seq<nat>, before: seq<Event>, s: State,
                   after: seq<Event>, t: State, p: nat)
    requires Reachable(log, base, before, s) && p < |s.log|
    requires NoRestart(after) && Exec(Step(s, Restart), after) == Some(t)
    ensures |s.committed| == |t.position| == |base| == |s.log| && s.delivered <= t.delivered
    ensures s.committed[p] <= Frontier(t, p)
    ensures Offsets(t.delivered[|s.delivered|..], p) == Range(s.committed[p], Frontier(t, p))
    ensures forall o: nat ::
              o in Offsets(t.delivered[|s.delivered|..], p) && HandedIn(s.delivered, p, o)
              <==> s.committed[p] <= o < Frontier(t, p) && o < High(s.delivered, p, base[p])
  {
    ReachableInv(log, base, before, s);
    StepInv(s, Restart, base);
    RunInv(Step(s, Restart), after, base);
    RunGrows(Step(s, Restart), after, base);
    assert PartitionInv(t, base, p) && PartitionInv(s, base, p);
    forall o: nat
      ensures o in Offsets(t.delivered[|s.delivered|..], p) && HandedIn(s.delivered, p, o)
              <==> s.committed[p] <= o < Frontier(t, p) && o < High(s.delivered, p, base[p])
    {
      InRange(s.committed[p], Frontier(t, p), o);
    }
  }

  ghost predicate Repeats(s: State, t: State, p: nat) {
    s.delivered <= t.delivered &&
    exists o: nat :: HandedIn(s.delivered, p, o) && o in Offsets(t.delivered[|s.delivered|..], p)
  }

  ghost predicate RestartCanRepeat(s: State, p: nat) {
    exists after, t :: NoRestart(after) && Exec(Step(s, Restart), after) == Some(t) && Repeats(s, t, p)
  }

  lemma FetchAfterRestart(s: State, base: seq<nat>, p: nat) returns (after: seq<Event>, t: State)
    requires Inv(s, base) && p < |s.log| && s.committed[p] < High(s.delivered, p, base[p])
    ensures NoRestart(after) && Exec(Step(s, Restart), after) == Some(t)
    ensures |t.delivered| == |s.delivered| + 1 && s.delivered <= t.delivered
    ensures t.delivered[|s.delivered|].partition == p && t.delivered[|s.delivered|].offset == s.committed[p]
  {
    assert PartitionInv(s, base, p);
    var u := Step(s, Restart);
    after, t := Follow(u, [], u, FetchOk(p));
    after, t := Follow(u, after, t, Dispatch);
  }

  lemma CommittedCanRepeat(s: State, base: seq<nat>, p: nat)
    requires Inv(s, base) && p < |s.log| && s.committed[p] < High(s.delivered, p, base[p])
    ensures RestartCanRepeat(s, p)
  {
    var after, t := FetchAfterRestart(s, base, p);
    var o, d := s.committed[p], t.delivered[|s.delivered|];
    assert PartitionInv(s, base, p);
    assert HandedIn(s.delivered, p, o);
    assert t.delivered[|s.delivered|..] == [d] && [d][..0] == [];
    assert Offsets([d], p) == [o];
    assert Repeats(s, t, p);
  }

  // A restart can make a message of p be handed over again exactly when the
  // committed offset is behind the highest one handed over.
  lemma RestartRepeatsExactly(log: seq<seq<Message>>, base: seq<nat>, before: seq<Event>, s: State, p: nat)
    requires Reachable(log, base, before, s) && p < |s.log|
    ensures |s.committed| == |base| == |s.log|
    ensures RestartCanRepeat(s, p) <==> s.committed[p] < High(s.delivered, p, base[p])
  {
    ReachableInv(log, base, before, s);
    if s.committed[p] < High(s.delivered, p, base[p]) {
      CommittedCanRepeat(s, base, p);
    } else if RestartCanRepeat(s, p) {
      var after, t :| NoRestart(after) && Exec(Step(s, Restart), after) == Some(t) && Repeats(s, t, p);
      Redelivery(log, base, before, s, after, t, p);
    }
  }

  // ---------- when the loop stops ----------

  // The context was cancelled, and Start not called again since.
  predicate DoneAfter(events: seq<Event>) {
    events != [] &&
    match events[|events| - 1]
    case Cancel => true
    case StartAgain | Restart => false
    case _ => DoneAfter(events[..|events| - 1])
  }

  // A fetch failed with the context done, and Start was not called again since.
  predicate StoppedAfter(events: seq<Event>) {
    events != [] &&
    var before := events[..|events| - 1];
    match events[|events| - 1]
    case FetchError => DoneAfter(before)
    case StartAgain | Restart => false
    case _ => StoppedAfter(before)
  }

  // The loop has returned exactly when, since it was last started, a fetch
  // failed with the context done.
  lemma {:induction false} StopsExactly(log: seq<seq<Message>>, base: seq<nat>, events: seq<Event>, s: State)
    requires Exec(Init(log, base), events) == Some(s)
    ensures s.cancelled <==> DoneAfter(events)
    ensures s.phase.Stopped? <==> StoppedAfter(events)
    ensures s.phase.Stopped? ==> s.cancelled
  {
    if events != [] {
      StopsExactly(log, base, events[..|events| - 1], Exec(Init(log, base), events[..|events| - 1]).value);
    }
  }

  // With the context live a failed fetch changes nothing; with it done, the
  // loop stops and nothing else changes.
  lemma FetchErrorExactly(s: State)
    requires Enabled(s, FetchError)
    ensures !s.cancelled ==> Step(s, FetchError) == s
    ensures s.cancelled ==> Step(s, FetchError) == s.(phase := Stopped)
  {
  }

  // ---------- when nothing is handed over twice ----------

  predicate AllApplied(events: seq<Event>) {
    forall i :: 0 <= i < |events| && events[i].Commit? ==> events[i].applied
  }

  // A message has been handed over whose commit is still to come.
  predicate InProgress(s: State) {
    s.phase.InHandler? || s.phase.Committing?
  }

  // No restart falls between handing a message over and committing it.
  predicate RestartsBetween(s: State, events: seq<Event>) {
    events == [] ||
    var before := events[..|events| - 1];
    && RestartsBetween(s, before)
    && (events[|events| - 1].Restart? ==> Exec(s, before).Some? && !InProgress(Exec(s, before).value))
  }

  // All sessions together handed over a gapless run of offsets, in order, each
  // once, and all of it is committed but for a message in progress.
  ghost predicate OnceOverall(s: State, base: seq<nat>, p: nat)
    requires SameWidth(s) && |base| == |s.log| && p < |s.log|
  {
    && base[p] <= Frontier(s, p)
    && Offsets(s.delivered, p) == Range(base[p], Frontier(s, p))
    && s.committed[p] == Frontier(s, p) - if InProgress(s) && s.phase.partition == p then 1 else 0
  }

  lemma DispatchKeepsOnce(s: State, base: seq<nat>, p: nat)
    requires Inv(s, base) && p < |s.log| && Enabled(s, Dispatch) && OnceOverall(s, base, p)
    ensures OnceOverall(Step(s, Dispatch), base, p)
  {
    assert PartitionInv(s, base, p);
    var ds := Step(s, Dispatch).delivered;
    assert ds[..|ds| - 1] == s.delivered;
  }

  lemma CommitKeepsOnce(s: State, failed: bool, base: seq<nat>, p: nat)
    requires Inv(s, base) && p < |s.log| && Enabled(s, Commit(true, failed)) && OnceOverall(s, base, p)
    ensures OnceOverall(Step(s, Commit(true, failed)), base, p)
  {
    assert PartitionInv(s, base, p);
  }

  lemma RestartKeepsOnce(s: State, base: seq<nat>, p: nat)
    requires Inv(s, base) && p < |s.log| && OnceOverall(s, base, p) && !InProgress(s)
    ensures OnceOverall(Step(s, Restart), base, p)
  {
    assert PartitionInv(s, base, p);
  }

  lemma OthersKeepOnce(s: State, e: Event, base: seq<nat>, p: nat)
    requires Inv(s, base) && p < |s.log| && OnceOverall(s, base, p)
    requires Enabled(s, e) && !e.Dispatch? && !e.Commit? && !e.Restart?
    ensures SameWidth(Step(s, e)) && |Step(s, e).log| == |s.log| && OnceOverall(Step(s, e), base, p)
  {
    assert Frontier(Step(s, e), p) == Frontier(s, p);
  }

  lemma StepKeepsOnce(s: State, e: Event, base: seq<nat>, p: nat)
    requires Inv(s, base) && p < |s.log| && Enabled(s, e) && OnceOverall(s, base, p)
    requires e.Commit? ==> e.applied
    requires e.Restart? ==> !InProgress(s)
    ensures SameWidth(Step(s, e)) && |Step(s, e).log| == |s.log| && OnceOverall(Step(s, e), base, p)
  {
    match e
    case Dispatch => DispatchKeepsOnce(s, base, p);
    case Commit(_, failed) => CommitKeepsOnce(s, failed, base, p);
    case Restart => RestartKeepsOnce(s, base, p);
    case _ => OthersKeepOnce(s, e, base, p);
  }

  lemma {:induction false} RunKeepsOnce(s: State, events: seq<Event>, base: seq<nat>, p: nat)
    requires Inv(s, base) && p < |s.log| && OnceOverall(s, base, p)
    requires Exec(s, events).Some? && AllApplied(events) && RestartsBetween(s, events)
    ensures var t := Exec(s, events).value;
            SameWidth(t) && |t.log| == |base| && OnceOverall(t, base, p)
  {
    if events != [] {
      var before := events[..|events| - 1];
      RunKeepsOnce(s, before, base, p);
      RunInv(s, before, base);
      StepKeepsOnce(Exec(s, before).value, events[|events| - 1], base, p);
    }
  }

  lemma {:induction false} OffsetsAreHanded(ds: seq<Delivery>, p: nat, o: nat)
    ensures o in Offsets(ds, p) <==> HandedIn(ds, p, o)
  {
    if ds != [] {
      var before, d := ds[..|ds| - 1], ds[|ds| - 1];
      OffsetsAreHanded(before, p, o);
      assert ds == before + [d];
      HandedAppend(before, d, p, o);
    }
  }

  lemma OnceUpToFrontier(s: State, base: seq<nat>, p: nat)
    requires Inv(s, base) && p < |s.log| && OnceOverall(s, base, p)
    ensures High(s.delivered, p, base[p]) == Frontier(s, p)
  {
    assert PartitionInv(s, base, p);
    var high := High(s.delivered, p, base[p]);
    if high > Frontier(s, p) {
      assert HandedIn(s.delivered, p, high - 1);
      OffsetsAreHanded(s.delivered, p, high - 1);
      InRange(base[p], Frontier(s, p), high - 1);
    }
  }

  // If every commit is applied, and no restart falls between a handover and its
  // commit, each message is handed over exactly once, in order, over all
  // sessions and however many handler calls fail; and the committed offset is
  // one past the last of them, but for a message in progress.
  lemma ExactlyOnce(log: seq<seq<Message>>, base: seq<nat>, events: seq<Event>, s: State, p: nat)
    requires Reachable(log, base, events, s) && p < |log|
    requires AllApplied(events) && RestartsBetween(Init(log, base), events)
    ensures p < |s.position| == |s.committed| && base[p] <= Frontier(s, p)
    ensures Offsets(s.delivered, p) == Range(base[p], Frontier(s, p))
    ensures High(s.delivered, p, base[p]) == Frontier(s, p)
    ensures s.committed[p] == Frontier(s, p) - if InProgress(s) && s.phase.partition == p then 1 else 0
  {
    InitInv(log, base);
    RunKeepsOnce(Init(log, base), events, base, p);
    ReachableInv(log, base, events, s);
    OnceUpToFrontier(s, base, p);
  }

  // ---------- the loop ----------

  datatype CommitResult =
    | Applied
    | Rejected
    | Unconfirmed // applied, but the call reported an error
  {
    predicate IsApplied() {
      !Rejected?
    }

    predicate IsError() {
      !Applied?
    }
  }

  // What the surroundings do in one turn of the loop; the context may become
  // done while a fetch waits or while the handler runs.
  datatype Turn =
    | FetchFails(contextDone: bool)
    | Arrives(partition: nat, handlerFails: bool, contextDone: bool, commit: CommitResult)

  // A turn as steps; a partition with nothing to fetch makes the fetch fail.
  function TurnEvents(s: State, turn: Turn): seq<Event> {
    match turn
    case FetchFails(done) => if done then [Cancel, FetchError] else [FetchError]
    case Arrives(p, handlerFails, done, commit) =>
      if Enabled(s, FetchOk(p))
      then [FetchOk(p), Dispatch] + (if done then [Cancel] else [])
           + [HandlerReturn(handlerFails), Commit(commit.IsApplied(), commit.IsError())]
      else if done then [Cancel, FetchError] else [FetchError]
  }

  function AfterFetchError(s: State, contextDone: bool): State {
    var t := s.(cancelled := s.cancelled || contextDone);
    if t.cancelled then t.(phase := Stopped) else t
  }

  function AfterTurn(s: State, turn: Turn): State
    requires |s.log| == |s.position| == |s.committed| && s.phase.Fetching?
  {
    match turn
    case FetchFails(done) => AfterFetchError(s, done)
    case Arrives(p, _, done, commit) =>
      if !Enabled(s, FetchOk(p)) then AfterFetchError(s, done)
      else
        var o := s.position[p];
        s.(position := s.position[p := o + 1],
           delivered := s.delivered + [Delivery(p, o, s.log[p][o])],
           cancelled := s.cancelled || done,
           committed := if commit.IsApplied() then s.committed[p := o + 1] else s.committed)
  }

  lemma FetchErrorRun(s: State, contextDone: bool)
    requires s.phase.Fetching?
    ensures Exec(s, if contextDone then [Cancel, FetchError] else [FetchError]) == Some(AfterFetchError(s, contextDone))
  {
    if contextDone {
      var es, t := Follow(s, [], s, Cancel);
      var all, u := Follow(s, es, t, FetchError);
      assert all == [Cancel, FetchError];
    } else {
      var all, u := Follow(s, [], s, FetchError);
      assert all == [FetchError];
    }
  }

  // The steps of a turn that gets a message: up to the handler, and from it.
  lemma HandoverSteps(s: State, p: nat, done: bool) returns (t: State, u: State, v: State)
    requires |s.log| == |s.position| == |s.committed| && Enabled(s, FetchOk(p))
    ensures t == Step(s, FetchOk(p)) && Enabled(t, Dispatch)
    ensures u == Step(t, Dispatch)
    ensures v == if done then Step(u, Cancel) else u
    ensures var o := s.position[p];
            v == s.(position := s.position[p := o + 1], phase := InHandler(p, o), cancelled := s.cancelled || done,
                    delivered := s.delivered + [Delivery(p, o, s.log[p][o])])
  {
    t := Step(s, FetchOk(p));
    u := Step(t, Dispatch);
    v := if done then Step(u, Cancel) else u;
  }

  lemma HandoverRun(s: State, p: nat, done: bool) returns (es: seq<Event>, v: State)
    requires |s.log| == |s.position| == |s.committed| && Enabled(s, FetchOk(p))
    ensures es == [FetchOk(p), Dispatch] + if done then [Cancel] else []
    ensures Exec(s, es) == Some(v)
    ensures var o := s.position[p];
            v == s.(position := s.position[p := o + 1], phase := InHandler(p, o), cancelled := s.cancelled || done,
                    delivered := s.delivered + [Delivery(p, o, s.log[p][o])])
  {
    var t, u, w := HandoverSteps(s, p, done);
    v := w;
    var x: State;
    es, x := Follow(s, [], s, FetchOk(p));
    es, x := Follow(s, es, t, Dispatch);
    if done {
      es, x := Follow(s, es, u, Cancel);
    }
  }

  lemma CommitSteps(s: State, t: State, turn: Turn) returns (u: State)
    requires |s.log| == |s.position| == |s.committed| && s.phase.Fetching?
    requires turn.Arrives? && Enabled(s, FetchOk(turn.partition))
    requires var p := turn.partition;
             var o := s.position[p];
             t == s.(position := s.position[p := o + 1], phase := InHandler(p, o),
                     cancelled := s.cancelled || turn.contextDone,
                     delivered := s.delivered + [Delivery(p, o, s.log[p][o])])
    ensures u == Step(t, HandlerReturn(turn.handlerFails))
    ensures var last := Commit(turn.commit.IsApplied(), turn.commit.IsError());
            Enabled(u, last) && Step(u, last) == AfterTurn(s, turn)
  {
    u := Step(t, HandlerReturn(turn.handlerFails));
  }

  lemma MessageRun(s: State, turn: Turn)
    requires |s.log| == |s.position| == |s.committed| && s.phase.Fetching?
    requires turn.Arrives? && Enabled(s, FetchOk(turn.partition))
    ensures Exec(s, TurnEvents(s, turn)) == Some(AfterTurn(s, turn))
  {
    var Arrives(p, handlerFails, done, commit) := turn;
    var es, t := HandoverRun(s, p, done);
    var u := CommitSteps(s, t, turn);
    var some, x := Follow(s, es, t, HandlerReturn(handlerFails));
    var all, y := Follow(s, some, u, Commit(commit.IsApplied(), commit.IsError()));
    assert all == TurnEvents(s, turn);
  }

  // Every turn is a run of steps.
  lemma TurnRun(s: State, turn: Turn)
    requires |s.log| == |s.position| == |s.committed| && s.phase.Fetching?
    ensures Exec(s, TurnEvents(s, turn)) == Some(AfterTurn(s, turn))
  {
    if turn.Arrives? && Enabled(s, FetchOk(turn.partition)) {
      MessageRun(s, turn);
    } else {
      FetchErrorRun(s, turn.contextDone);
    }
  }

  predicate Idle(s: State) {
    |s.log| == |s.position| == |s.committed| && (s.phase.Fetching? || s.phase.Stopped?)
  }

  // What a stretch of turns leads to: the loop goes on until the context is done.
  function AfterTurns(s: State, turns: seq<Turn>): (t: State)
    requires Idle(s)
    ensures Idle(t)
    decreases |turns|
  {
    if turns == [] || s.phase.Stopped? then s else AfterTurns(AfterTurn(s, turns[0]), turns[1..])
  }

  predicate CommitsApplied(turns: seq<Turn>) {
    forall i :: 0 <= i < |turns| && turns[i].Arrives? ==> turns[i].commit.IsApplied()
  }

  lemma TurnEventsQuiet(s: State, turn: Turn)
    ensures NoRestart(TurnEvents(s, turn))
    ensures (turn.Arrives? ==> turn.commit.IsApplied()) ==> AllApplied(TurnEvents(s, turn))
  {
  }

  // The loop's turns are a run of the steps above, without a restart.
  lemma {:induction false} LoopIsRun(s: State, turns: seq<Turn>) returns (events: seq<Event>)
    requires Idle(s)
    ensures NoRestart(events) && Exec(s, events) == Some(AfterTurns(s, turns))
    ensures CommitsApplied(turns) ==> AllApplied(events)
    decreases |turns|
  {
    events := [];
    if turns != [] && !s.phase.Stopped? {
      var first := TurnEvents(s, turns[0]);
      TurnRun(s, turns[0]);
      TurnEventsQuiet(s, turns[0]);
      var more := LoopIsRun(AfterTurn(s, turns[0]), turns[1..]);
      ExecAppend(s, first, more);
      events := first + more;
    }
  }

  // Stretches of the loop, each ended by a restart.
  function AfterStretches(s: State, stretches: seq<seq<Turn>>): (t: State)
    requires Idle(s)
    ensures Idle(t)
    decreases |stretches|
  {
    if stretches == [] then s else AfterStretches(Step(AfterTurns(s, stretches[0]), Restart), stretches[1..])
  }

  lemma {:induction false} RestartsAppend(s: State, a: seq<Event>, b: seq<Event>)
    requires Exec(s, a).Some? && RestartsBetween(s, a) && RestartsBetween(Exec(s, a).value, b)
    ensures RestartsBetween(s, a + b)
  {
    if b == [] {
      assert a + b == a;
    } else {
      assert (a + b)[..|a + b| - 1] == a + b[..|b| - 1];
      RestartsAppend(s, a, b[..|b| - 1]);
      ExecAppend(s, a, b[..|b| - 1]);
    }
  }

  lemma {:induction false} NoRestartsBetween(s: State, events: seq<Event>)
    requires NoRestart(events)
    ensures RestartsBetween(s, events)
  {
    if events != [] {
      NoRestartsBetween(s, events[..|events| - 1]);
    }
  }

  lemma StretchIsRun(s: State, turns: seq<Turn>) returns (events: seq<Event>)
    requires Idle(s)
    ensures Exec(s, events) == Some(Step(AfterTurns(s, turns), Restart)) && RestartsBetween(s, events)
    ensures CommitsApplied(turns) ==> AllApplied(events)
  {
    var loop := LoopIsRun(s, turns);
    NoRestartsBetween(s, loop);
    var all, t := Follow(s, loop, AfterTurns(s, turns), Restart);
    events := all;
    assert all[..|all| - 1] == loop;
  }

  lemma {:induction false} StretchesAreRun(s: State, stretches: seq<seq<Turn>>) returns (events: seq<Event>)
    requires Idle(s)
    ensures Exec(s, events) == Some(AfterStretches(s, stretches)) && RestartsBetween(s, events)
    ensures (forall i :: 0 <= i < |stretches| ==> CommitsApplied(stretches[i])) ==> AllApplied(events)
    decreases |stretches|
  {
    events := [];
    if stretches != [] {
      var first := StretchIsRun(s, stretches[0]);
      var t := Step(AfterTurns(s, stretches[0]), Restart);
      var more := StretchesAreRun(t, stretches[1..]);
      ExecAppend(s, first, more);
      RestartsAppend(s, first, more);
      events := first + more;
    }
  }

  // When every commit is applied, the committed offsets keep up with the fetch
  // positions from turn to turn, however many handler calls fail.
  lemma {:induction false} AppliedCommitsKeepUp(s: State, turns: seq<Turn>)
    requires Idle(s) && s.committed == s.position && CommitsApplied(turns)
    ensures AfterTurns(s, turns).committed == AfterTurns(s, turns).position
    decreases |turns|
  {
    if turns != [] && !s.phase.Stopped? {
      AppliedCommitsKeepUp(AfterTurn(s, turns[0]), turns[1..]);
    }
  }

  // So however often the loop is restarted between its turns, nothing is handed
  // over twice: in all, each offset from the base to the position once, in order.
  lemma RestartsRepeatNothing(log: seq<seq<Message>>, base: seq<nat>, stretches: seq<seq<Turn>>, p: nat)
    requires ValidBase(log, base) && p < |log|
    requires forall i :: 0 <= i < |stretches| ==> CommitsApplied(stretches[i])
    ensures var t := AfterStretches(Init(log, base), stretches);
            && p < |t.position| == |t.committed| && base[p] <= t.position[p]
            && Offsets(t.delivered, p) == Range(base[p], t.position[p])
            && High(t.delivered, p, base[p]) == t.position[p] == t.committed[p]
  {
    var events := StretchesAreRun(Init(log, base), stretches);
    ExactlyOnce(log, base, events, AfterStretches(Init(log, base), stretches), p);
  }

  // ---------- what a stretch of the loop does ----------

  // How many turns offer a message of p.
  function Offered(turns: seq<Turn>, p: nat): nat {
    if turns == [] then 0
    else
      var last := turns[|turns| - 1];
      Offered(turns[..|turns| - 1], p) + if last.Arrives? && last.partition == p then 1 else 0
  }

  // The fetch after these turns fails: it is made to, or the log, begun at the
  // positions, holds nothing more of the partition.
  predicate Fails(log: seq<seq<Message>>, position: seq<nat>, before: seq<Turn>, turn: Turn)
    requires |log| == |position|
  {
    turn.FetchFails? ||
    turn.partition >= |log| ||
    position[turn.partition] + Offered(before, turn.partition) >= |log[turn.partition]|
  }

  predicate DoneWithin(done: bool, turns: seq<Turn>) {
    done || exists i :: 0 <= i < |turns| && turns[i].contextDone
  }

  // The loop returns in the turn k.
  predicate EndsAt(log: seq<seq<Message>>, position: seq<nat>, done: bool, turns: seq<Turn>, k: nat)
    requires |log| == |position| && k < |turns|
  {
    Fails(log, position, turns[..k], turns[k]) && DoneWithin(done, turns[..k + 1])
  }

  // What is handed over if no turn ends the loop: each message that a turn
  // offers and the log holds, in turn.
  function HandedBy(log: seq<seq<Message>>, position: seq<nat>, turns: seq<Turn>): seq<Delivery>
    requires |log| == |position|
  {
    if turns == [] then []
    else
      var before, last := turns[..|turns| - 1], turns[|turns| - 1];
      HandedBy(log, position, before) +
      if Fails(log, position, before, last) then []
      else
        var o := position[last.partition] + Offered(before, last.partition);
        [Delivery(last.partition, o, log[last.partition][o])]
  }

  function Reached(low: nat, offered: nat, high: nat): nat {
    if low + offered <= high then low + offered else if low <= high then high else low
  }

  ghost predicate LoopState(s: State, turns: seq<Turn>, t: State)
    requires |s.log| == |s.position|
  {
    && t.log == s.log && |t.position| == |s.log| && |t.committed| == |s.committed|
    && t.phase.Fetching?
    && (t.cancelled <==> DoneWithin(s.cancelled, turns))
    && t.delivered == s.delivered + HandedBy(s.log, s.position, turns)
    && forall p :: 0 <= p < |s.log| ==> t.position[p] == Reached(s.position[p], Offered(turns, p), |s.log[p]|)
  }

  lemma FailsExactly(s: State, before: seq<Turn>, u: State, turn: Turn)
    requires |s.log| == |s.position| == |s.committed| && LoopState(s, before, u)
    ensures Fails(s.log, s.position, before, turn) <==> turn.FetchFails? || !Enabled(u, FetchOk(turn.partition))
  {
  }

  lemma DoneOneMore(done: bool, before: seq<Turn>, turn: Turn)
    ensures DoneWithin(done, before + [turn]) <==> DoneWithin(done, before) || turn.contextDone
  {
    var turns := before + [turn];
    assert turns[|before|] == turn;
    assert forall i :: 0 <= i < |before| ==> turns[i] == before[i];
  }

  // One turn more, which may be the last.
  lemma OneTurn(s: State, before: seq<Turn>, u: State, turn: Turn)
    requires |s.log| == |s.position| == |s.committed| && LoopState(s, before, u)
    ensures var turns := before + [turn];
            var t := AfterTurn(u, turn);
            if Fails(s.log, s.position, before, turn) && DoneWithin(s.cancelled, turns)
            then t.phase.Stopped? && t.delivered == u.delivered
            else LoopState(s, turns, t)
  {
    var turns := before + [turn];
    assert turns[..|before|] == before;
    DoneOneMore(s.cancelled, before, turn);
    FailsExactly(s, before, u, turn);
  }

  lemma {:induction false} TurnsAppend(s: State, before: seq<Turn>, turn: Turn)
    requires Idle(s)
    ensures var u := AfterTurns(s, before);
            AfterTurns(s, before + [turn]) == if u.phase.Stopped? then u else AfterTurn(u, turn)
    decreases |before|
  {
    if before == [] {
      assert before + [turn] == [turn] && [turn][1..] == [];
    } else {
      assert (before + [turn])[1..] == before[1..] + [turn];
      if !s.phase.Stopped? {
        TurnsAppend(AfterTurn(s, before[0]), before[1..], turn);
      }
    }
  }

  // How many turns the loop takes to return, or all of them if it does not.
  function TurnsTaken(log: seq<seq<Message>>, position: seq<nat>, done: bool, turns: seq<Turn>): (n: nat)
    requires |log| == |position|
    ensures n <= |turns|
  {
    if turns == [] then 0
    else
      var n := TurnsTaken(log, position, done, turns[..|turns| - 1]);
      if n == |turns| - 1 && !EndsAt(log, position, done, turns, n) then |turns| else n
  }

  // It is the first turn, if any, in which a fetch fails with the context done.
  lemma {:induction false} TurnsTakenExactly(log: seq<seq<Message>>, position: seq<nat>, done: bool, turns: seq<Turn>)
    requires |log| == |position|
    ensures var n := TurnsTaken(log, position, done, turns);
            && (n < |turns| ==> EndsAt(log, position, done, turns, n))
            && forall k :: 0 <= k < n ==> !EndsAt(log, position, done, turns, k)
  {
    if turns != [] {
      var before := turns[..|turns| - 1];
      TurnsTakenExactly(log, position, done, before);
      forall k | 0 <= k < |before|
        ensures EndsAt(log, position, done, before, k) <==> EndsAt(log, position, done, turns, k)
      {
        assert turns[..k] == before[..k] && turns[..k + 1] == before[..k + 1] && turns[k] == before[k];
      }
    }
  }

  // A stretch in closed form: the loop goes on through failed fetches until one
  // fails with the context done, and until then has handed over every message
  // offered that the log holds.
  lemma {:induction false} LoopClosed(s: State, turns: seq<Turn>)
    requires Idle(s) && s.phase.Fetching?
    ensures var n := TurnsTaken(s.log, s.position, s.cancelled, turns);
            var t := AfterTurns(s, turns);
            && t.delivered == s.delivered + HandedBy(s.log, s.position, turns[..n])
            && (t.phase.Stopped? <==> n < |turns|)
            && (n == |turns| ==> LoopState(s, turns, t))
  {
    if turns == [] {
      assert turns[..0] == [];
    } else {
      var before, turn := turns[..|turns| - 1], turns[|turns| - 1];
      assert turns == before + [turn];
      LoopClosed(s, before);
      TurnsAppend(s, before, turn);
      var n := TurnsTaken(s.log, s.position, s.cancelled, before);
      assert turns[..|before|] == before && turns[..|turns|] == turns;
      if n == |before| {
        OneTurn(s, before, AfterTurns(s, before), turn);
      } else {
        assert before[..n] == turns[..n];
      }
    }
  }

  lemma StretchExactly(s: State, turns: seq<Turn>)
    requires Idle(s) && s.phase.Fetching?
    ensures var t := AfterTurns(s, turns);
            && (t.phase.Stopped? <==> exists k: nat :: k < |turns| && EndsAt(s.log, s.position, s.cancelled, turns, k))
            && t.delivered == s.delivered + HandedBy(s.log, s.position,
                                turns[..TurnsTaken(s.log, s.position, s.cancelled, turns)])
  {
    LoopClosed(s, turns);
    TurnsTakenExactly(s.log, s.position, s.cancelled, turns);
  }

  // ---------- which messages can come back ----------

  // (p, o) is handed over between s and t.
  ghost predicate HandedSince(s: State, t: State, p: nat, o: nat) {
    s.delivered <= t.delivered && HandedIn(t.delivered[|s.delivered|..], p, o)
  }

  ghost predicate CanComeBack(s: State, p: nat, o: nat) {
    exists events, t :: Exec(s, events) == Some(t) && HandedSince(s, t, p, o)
  }

  lemma HandedPrepend(d: Delivery, ds: seq<Delivery>, p: nat, o: nat)
    requires HandedIn(ds, p, o)
    ensures HandedIn([d] + ds, p, o)
  {
    var i :| 0 <= i < |ds| && ds[i].partition == p && ds[i].offset == o;
    assert ([d] + ds)[i + 1] == ds[i];
  }

  // One turn after the other gets to any offset the log has.
  lemma {:induction false} TurnsReach(s: State, p: nat, o: nat) returns (turns: seq<Turn>)
    requires |s.log| == |s.position| == |s.committed| && s.phase.Fetching?
    requires p < |s.log| && s.position[p] <= o < |s.log[p]|
    ensures HandedSince(s, AfterTurns(s, turns), p, o)
    decreases o - s.position[p]
  {
    var turn := Arrives(p, true, false, Rejected);
    var t := AfterTurn(s, turn);
    var d := t.delivered[|s.delivered|];
    if s.position[p] == o {
      turns := [turn];
      assert turns[1..] == [] && AfterTurns(s, turns) == t;
      assert t.delivered[|s.delivered|..][0] == d;
    } else {
      var more := TurnsReach(t, p, o);
      turns := [turn] + more;
      var u := AfterTurns(t, more);
      assert turns[1..] == more && AfterTurns(s, turns) == u;
      assert u.delivered[|s.delivered|..] == [d] + u.delivered[|t.delivered|..];
      HandedPrepend(d, u.delivered[|t.delivered|..], p, o);
    }
  }

  lemma RestartReaches(s: State, base: seq<nat>, p: nat, o: nat)
    requires Inv(s, base) && p < |s.log| && s.committed[p] <= o < |s.log[p]|
    ensures CanComeBack(s, p, o)
  {
    var es, u := Follow(s, [], s, Restart);
    var turns := TurnsReach(u, p, o);
    var more := LoopIsRun(u, turns);
    ExecAppend(s, es, more);
    var t := AfterTurns(u, turns);
    assert Exec(s, es + more) == Some(t) && HandedSince(s, t, p, o);
  }

  lemma CommittedStays(s: State, base: seq<nat>, events: seq<Event>, t: State, p: nat, o: nat)
    requires Inv(s, base) && p < |s.log| && Exec(s, events) == Some(t) && HandedSince(s, t, p, o)
    ensures s.committed[p] <= o
  {
    CommittedIsFinal(s, events, base, p);
    var rest := t.delivered[|s.delivered|..];
    var i :| 0 <= i < |rest| && rest[i].partition == p && rest[i].offset == o;
    assert t.delivered[|s.delivered| + i] == rest[i];
  }

  // A message that was handed over can be handed over again, by some run from
  // here, exactly when the committed offset has not passed it.
  lemma ComesBackExactly(s: State, base: seq<nat>, p: nat, o: nat)
    requires Inv(s, base) && p < |s.log| && HandedIn(s.delivered, p, o)
    ensures CanComeBack(s, p, o) <==> s.committed[p] <= o
  {
    assert PartitionInv(s, base, p);
    if s.committed[p] <= o {
      RestartReaches(s, base, p, o);
    } else if CanComeBack(s, p, o) {
      var events, t :| Exec(s, events) == Some(t) && HandedSince(s, t, p, o);
      CommittedStays(s, base, events, t, p, o);
    }
  }

  // So a message whose handler fails can come back exactly when the commit that
  // follows all the same is not applied.
  lemma FailedMessageReturnsExactly(s: State, base: seq<nat>, applied: bool, failed: bool)
    requires Inv(s, base) && s.phase.InHandler? && (applied || failed)
    ensures var u := Step(Step(s, HandlerReturn(true)), Commit(applied, failed));
            CanComeBack(u, s.phase.partition, s.phase.offset) <==> !applied
  {
    var p, o := s.phase.partition, s.phase.offset;
    assert PartitionInv(s, base, p);
    assert HandedIn(s.delivered, p, o);
    StepInv(s, HandlerReturn(true), base);
    var t := Step(s, HandlerReturn(true));
    StepInv(t, Commit(applied, failed), base);
    ComesBackExactly(Step(t, Commit(applied, failed)), base, p, o);
  }

  // ---------- the objects ----------

  class Reader {
    var log: seq<seq<Message>>
    var position: seq<nat>
    var committed: seq<nat>

    constructor (log: seq<seq<Message>>, committed: seq<nat>)
      ensures this.log == log && position == committed && this.committed == committed
    {
      this.log, position, this.committed := log, committed, committed;
    }

    method FetchMessage(partition: nat) returns (m: Option<Delivery>)
      modifies this
      ensures log == old(log) && committed == old(committed)
      ensures m.Some? <==> partition < |log| == |old(position)| && old(position)[partition] < |log[partition]|
      ensures m.Some? ==>
                var o := old(position)[partition];
                && m.value == Delivery(partition, o, log[partition][o])
                && position == old(position)[partition := o + 1]
      ensures m.None? ==> position == old(position)
    {
      if partition < |log| && |log| == |position| && position[partition] < |log[partition]| {
        var o := position[partition];
        m := Some(Delivery(partition, o, log[partition][o]));
        position := position[partition := o + 1];
      } else {
        m := None;
      }
    }

    method CommitMessages(m: Delivery, result: CommitResult) returns (ok: bool)
      requires m.partition < |committed|
      modifies this
      ensures log == old(log) && position == old(position)
      ensures ok == result.Applied?
      ensures committed == if result.Rejected? then old(committed) else old(committed)[m.partition := m.offset + 1]
    {
      if result.IsApplied() {
        committed := committed[m.partition := m.offset + 1];
      }
      ok := result.Applied?;
    }
  }

  class Consumer {
    const reader: Reader
    var handled: seq<Delivery>
    var contextDone: bool
    ghost var sessionStart: seq<nat>
    ghost var session: nat

    constructor (reader: Reader)
      ensures this.reader == reader
      ensures View(Fetching) == Init(reader.log, reader.committed).(position := reader.position)
    {
      this.reader := reader;
      handled, contextDone := [], false;
      sessionStart, session := reader.committed, 0;
    }

    ghost function View(phase: Phase): State
      reads this, reader
    {
      State(reader.log, reader.position, reader.committed, phase, contextDone, handled, sessionStart, session)
    }

    // Calling the handler; whether it fails, and whether the context is done by
    // the time it returns, is up to the surroundings.
    method Handle(m: Delivery, fails: bool, done: bool) returns (ok: bool)
      modifies this`handled, this`contextDone
      ensures ok == !fails && handled == old(handled) + [m] && contextDone == (old(contextDone) || done)
    {
      handled := handled + [m];
      contextDone := contextDone || done;
      ok := !fails;
    }

    // One turn of the loop; false when it returns.
    method RunTurn(turn: Turn) returns (goesOn: bool)
      requires |reader.log| == |reader.position| == |reader.committed|
      modifies this, reader
      ensures contextDone == (old(contextDone) || turn.contextDone)
      ensures var failed := turn.FetchFails? || turn.partition >= |old(reader.log)|
                            || old(reader.position)[turn.partition] >= |old(reader.log)[turn.partition]|;
              && (goesOn <==> !failed || !contextDone)
              && (failed ==> handled == old(handled) && reader.position == old(reader.position)
                             && reader.committed == old(reader.committed))
              && (!failed ==>
                    var p := turn.partition;
                    var o := old(reader.position)[p];
                    && handled == old(handled) + [Delivery(p, o, old(reader.log)[p][o])]
                    && reader.position == old(reader.position)[p := o + 1]
                    && reader.committed == if turn.commit.Rejected? then old(reader.committed)
                                           else old(reader.committed)[p := o + 1])
      ensures View(if goesOn then Fetching else Stopped) == AfterTurn(old(View(Fetching)), turn)
    {
      var m: Option<Delivery> := None;
      if turn.Arrives? {
        m := reader.FetchMessage(turn.partition);
      }
      if m.None? {
        contextDone := contextDone || turn.contextDone;
        return !contextDone;
      }
      var handled := Handle(m.value, turn.handlerFails, turn.contextDone);
      var committed := reader.CommitMessages(m.value, turn.commit);
      return true;
    }

    // The loop, over any finite stretch of turns; it returns within the stretch
    // exactly when a fetch fails with the context done, and has handed over every
    // message offered until then that the log holds.
    method Start(turns: seq<Turn>) returns (returned: bool)
      requires |reader.log| == |reader.position| == |reader.committed|
      modifies this, reader
      ensures returned <==> exists k: nat :: k < |turns| &&
                              EndsAt(old(reader.log), old(reader.position), old(contextDone), turns, k)
      ensures handled == old(handled) + HandedBy(old(reader.log), old(reader.position),
                           turns[..TurnsTaken(old(reader.log), old(reader.position), old(contextDone), turns)])
      ensures View(if returned then Stopped else Fetching) == AfterTurns(old(View(Fetching)), turns)
    {
      ghost var start := View(Fetching);
      StretchExactly(start, turns);
      for i := 0 to |turns|
        invariant |reader.log| == |reader.position| == |reader.committed|
        invariant AfterTurns(start, turns) == AfterTurns(View(Fetching), turns[i..])
      {
        assert turns[i..][0] == turns[i] && turns[i..][1..] == turns[i + 1..];
        var goesOn := RunTurn(turns[i]);
        if !goesOn {
          return true;
        }
      }
      return false;
    }
  }
}
