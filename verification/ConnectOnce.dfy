/**
 The lazily connected client (mongo/client.go:75-151) with any number of
 concurrent callers: a state machine whose steps are the reads, writes and
 outside calls of Connect, Database, Raw, Ping and Close. sync.Once lets one
 caller in and holds the others until it is done.
 */
module ConnectOnce {
  import opened Wrappers

  type Error = string

  datatype Op = Connect | Database | Raw | Ping

  datatype Thread =
    | Idle
    | Calling(op: Op)                // before once.Do
    | Dialing(op: Op)                // inside once.Do, at mongo.Connect
    | Pinging(op: Op, handle: nat)   // inside once.Do, at the first ping
    | Storing(op: Op, handle: nat)   // inside once.Do, c.client set and c.db not yet
    | Reading(op: Op)                // past once.Do, before reading connErr
    | Using                          // Ping, before calling through c.client
  {
    predicate Inside() {
      Dialing? || Pinging? || Storing?
    }
  }

  datatype Once = Fresh | Running(owner: nat) | Finished

  // What a call gives back.
  datatype Result =
    | Failed(error: Error)
    | Nil
    | GotDatabase(database: Option<nat>)
    | GotClient(client: Option<nat>)
    | Pinged(through: Option<nat>)   // None: a call through a nil client

  // A database belongs to the client of the same handle.
  datatype State = State(
    once: Once,
    connErr: Option<Error>,
    client: Option<nat>,
    db: Option<nat>,
    threads: seq<Thread>,
    dials: nat,                  // calls of mongo.Connect so far
    outcomes: seq<Option<Error>>, // what every Connect returned so far
    results: seq<Result>,        // what every call returned so far
    disconnected: set<nat>)

  datatype Event =
    | Call(thread: nat, op: Op)
    | Enter(thread: nat)
    | DialFails(thread: nat, error: Error)
    | DialOk(thread: nat, handle: nat)
    | PingFails(thread: nat, error: Error)
    | PingOk(thread: nat)
    | StoreDatabase(thread: nat)
    | Return(thread: nat)
    | UseClient(thread: nat)
    | Close(thread: nat)

  predicate Enabled(s: State, e: Event) {
    e.thread < |s.threads| &&
    var t := s.threads[e.thread];
    match e
    case Call(_, _) => t.Idle?
    case Enter(_) => t.Calling? && !s.once.Running?
    case DialFails(_, _) => t.Dialing?
    case DialOk(_, _) => t.Dialing?
    case PingFails(_, _) => t.Pinging?
    case PingOk(_) => t.Pinging?
    case StoreDatabase(_) => t.Storing?
    case Return(_) => t.Reading?
    case UseClient(_) => t.Using?
    case Close(_) => t.Idle?
  }

  function At(s: State, i: nat, t: Thread): State
    requires i < |s.threads|
  {
    s.(threads := s.threads[i := t])
  }

  function ResultOf(op: Op, s: State): Result {
    match op
    case Connect => Nil
    case Database => GotDatabase(s.db)
    case Raw => GotClient(s.client)
    case Ping => Pinged(s.client)
  }

  function Step(s: State, e: Event): State
    requires Enabled(s, e)
  {
    var i := e.thread;
    var t := s.threads[i];
    match e
    case Call(_, op) => At(s, i, Calling(op))
    case Enter(_) =>
      if s.once.Fresh? then At(s.(once := Running(i)), i, Dialing(t.op)) else At(s, i, Reading(t.op))
    case DialFails(_, error) =>
      At(s.(dials := s.dials + 1, connErr := Some(error), once := Finished), i, Reading(t.op))
    case DialOk(_, handle) => At(s.(dials := s.dials + 1), i, Pinging(t.op, handle))
    case PingFails(_, error) =>
      At(s.(connErr := Some(error), once := Finished, disconnected := s.disconnected + {t.handle}), i, Reading(t.op))
    case PingOk(_) => At(s.(client := Some(t.handle)), i, Storing(t.op, t.handle))
    case StoreDatabase(_) => At(s.(db := Some(t.handle), once := Finished), i, Reading(t.op))
    case Return(_) =>
      var s' := s.(outcomes := s.outcomes + [s.connErr]);
      if s.connErr.Some? then At(s'.(results := s.results + [Failed(s.connErr.value)]), i, Idle)
      else if t.op == Ping then At(s', i, Using)
      else At(s'.(results := s.results + [ResultOf(t.op, s)]), i, Idle)
    case UseClient(_) => At(s.(results := s.results + [ResultOf(Ping, s)]), i, Idle)
    case Close(_) =>
      s.(disconnected := s.disconnected + if s.client.Some? then {s.client.value} else {})
  }

  function Exec(s: State, events: seq<Event>): Option<State> {
    if events == [] then Some(s)
    else
      var before :- Exec(s, events[..|events| - 1]);
      var e := events[|events| - 1];
      if Enabled(before, e) then Some(Step(before, e)) else None
  }

  function Init(n: nat): State {
    State(Fresh, None, None, None, seq(n, _ => Idle), 0, [], [], {})
  }

  // ---------- what every step keeps ----------

  // The fields, by how far the one dial has got.
  predicate FieldsMatch(s: State) {
    match s.once
    case Fresh => s.connErr.None? && s.client.None? && s.db.None? && s.dials == 0 && s.disconnected == {}
    case Running(i) =>
      && (s.client.None? ==> s.disconnected == {})
      && i < |s.threads| && s.connErr.None? && s.db.None?
      && (s.threads[i].Dialing? || s.threads[i].Pinging? || s.threads[i].Storing?)
      && s.client == (if s.threads[i].Storing? then Some(s.threads[i].handle) else None)
      && s.dials == (if s.threads[i].Dialing? then 0 else 1)
    case Finished =>
      && s.dials == 1
      && s.client == s.db
      && (s.connErr.None? <==> s.client.Some?)
  }

  predicate ThreadsMatch(s: State) {
    forall i :: 0 <= i < |s.threads| ==>
      && (s.threads[i].Inside() ==> s.once == Running(i))
      && (s.threads[i].Reading? ==> s.once.Finished?)
      && (s.threads[i].Using? ==> s.once.Finished? && s.connErr.None? && s.outcomes != [])
  }

  predicate ResultMatches(s: State, r: Result) {
    match r
    case Failed(error) => s.connErr == Some(error)
    case Nil => s.connErr.None?
    case GotDatabase(d) => s.connErr.None? && d.Some? && d == s.db
    case GotClient(c) => s.connErr.None? && c.Some? && c == s.client
    case Pinged(c) => s.connErr.None? && c.Some? && c == s.client
  }

  predicate HistoryMatches(s: State) {
    && (!s.once.Finished? ==> s.outcomes == [])
    && (s.outcomes == [] ==> s.results == [])
    && (forall k :: 0 <= k < |s.outcomes| ==> s.outcomes[k] == s.connErr)
    && (forall k :: 0 <= k < |s.results| ==> ResultMatches(s, s.results[k]))
  }

  predicate Inv(s: State) {
    FieldsMatch(s) && ThreadsMatch(s) && HistoryMatches(s)
  }

  lemma InitInv(n: nat)
    ensures Inv(Init(n))
  {
  }

  lemma StepFields(s: State, e: Event)
    requires FieldsMatch(s) && ThreadsMatch(s) && Enabled(s, e)
    ensures FieldsMatch(Step(s, e))
  {
  }

  lemma StepThreads(s: State, e: Event)
    requires FieldsMatch(s) && ThreadsMatch(s) && Enabled(s, e)
    ensures ThreadsMatch(Step(s, e))
  {
  }

  lemma StepHistory(s: State, e: Event)
    requires Inv(s) && Enabled(s, e)
    ensures HistoryMatches(Step(s, e))
  {
  }

  lemma StepInv(s: State, e: Event)
    requires Inv(s) && Enabled(s, e)
    ensures Inv(Step(s, e))
  {
    StepFields(s, e);
    StepThreads(s, e);
    StepHistory(s, e);
  }

  lemma {:induction false} RunInv(s: State, events: seq<Event>)
    requires Inv(s) && Exec(s, events).Some?
    ensures Inv(Exec(s, events).value)
  {
    if events != [] {
      RunInv(s, events[..|events| - 1]);
      StepInv(Exec(s, events[..|events| - 1]).value, events[|events| - 1]);
    }
  }

  // ---------- guarantees over all interleavings ----------

  // One dial at most; one outcome for every caller; and a caller that is told
  // nothing went wrong is never given, nor made to use, a nil handle.
  lemma OneOutcome(n: nat, events: seq<Event>, s: State)
    requires Exec(Init(n), events) == Some(s)
    ensures s.dials <= 1
    ensures forall j, k :: 0 <= j < |s.outcomes| && 0 <= k < |s.outcomes| ==> s.outcomes[j] == s.outcomes[k]
    ensures None in s.outcomes ==> s.client.Some? && s.db == s.client
    ensures forall k :: 0 <= k < |s.results| ==>
              match s.results[k]
              case Failed(error) => s.outcomes != [] && s.outcomes[0] == Some(error)
              case Nil => s.client.Some?
              case GotDatabase(d) => d.Some? && d == s.db
              case GotClient(c) => c.Some? && c == s.client
              case Pinged(c) => c.Some? && c == s.client
  {
    InitInv(n);
    RunInv(Init(n), events);
    forall k | 0 <= k < |s.results| ensures ResultMatches(s, s.results[k]) {}
  }

  lemma StepKeepsFields(s: State, e: Event)
    requires Inv(s) && Enabled(s, e)
    ensures var t := Step(s, e);
            && (s.client.Some? ==> t.client == s.client)
            && (s.db.Some? ==> t.db == s.db)
            && (s.once.Finished? ==>
                  t.once.Finished? && t.connErr == s.connErr && t.client == s.client && t.db == s.db && t.dials == s.dials)
            && s.outcomes <= t.outcomes && s.results <= t.results && s.disconnected <= t.disconnected
  {
  }

  // Nothing unsets what was set: not a later call, and not Close. In
  // particular the first caller's error, its own expired context included,
  // is every later caller's error.
  lemma {:induction false} FieldsAreFinal(s: State, events: seq<Event>)
    requires Inv(s) && Exec(s, events).Some?
    ensures var t := Exec(s, events).value;
            && (s.client.Some? ==> t.client == s.client)
            && (s.db.Some? ==> t.db == s.db)
            && (s.once.Finished? ==>
                  t.once.Finished? && t.connErr == s.connErr && t.client == s.client && t.db == s.db && t.dials == s.dials)
            && s.outcomes <= t.outcomes && s.results <= t.results && s.disconnected <= t.disconnected
  {
    if events != [] {
      var before := events[..|events| - 1];
      FieldsAreFinal(s, before);
      RunInv(s, before);
      StepKeepsFields(Exec(s, before).value, events[|events| - 1]);
    }
  }

  // ---------- what a Close closes ----------

  // A run that went to t goes on with any step enabled there.
  lemma Follow(s: State, es: seq<Event>, t: State, e: Event) returns (all: seq<Event>, u: State)
    requires Exec(s, es) == Some(t) && Enabled(t, e)
    ensures all == es + [e] && u == Step(t, e) && Exec(s, all) == Some(u)
  {
    all, u := es + [e], Step(t, e);
    assert all[..|es|] == es;
  }

  ghost predicate Gives(r: Result, handle: nat) {
    r == GotDatabase(Some(handle)) || r == GotClient(Some(handle)) || r == Pinged(Some(handle))
  }

  // Every handle that any call has been given is a disconnected one.
  ghost predicate OnlyDisconnected(s: State) {
    forall k, handle :: 0 <= k < |s.results| && Gives(s.results[k], handle) ==> handle in s.disconnected
  }

  ghost predicate ClosedForGood(s: State) {
    forall events, t :: Exec(s, events) == Some(t) ==> OnlyDisconnected(t)
  }

  lemma DisconnectedForGood(s: State, events: seq<Event>, t: State)
    requires Inv(s) && Exec(s, events) == Some(t)
    requires s.client.Some? || s.once.Finished?
    requires s.client.Some? ==> s.client.value in s.disconnected
    ensures OnlyDisconnected(t)
  {
    RunInv(s, events);
    FieldsAreFinal(s, events);
    forall k, handle | 0 <= k < |t.results| && Gives(t.results[k], handle)
      ensures handle in t.disconnected
    {
      assert ResultMatches(t, t.results[k]);
    }
  }

  // The one dial of a machine that has no client yet can still succeed.
  lemma CanConnect(s: State, i: nat) returns (events: seq<Event>, t: State)
    requires Inv(s) && i < |s.threads| && s.threads[i].Idle? && s.client.None? && !s.once.Finished?
    ensures Exec(s, events) == Some(t) && t.once.Finished? && t.client.Some? && t.connErr.None? && t.disconnected == {}
    ensures i < |t.threads| && (t.threads[i].Idle? || t.threads[i] == Reading(Raw))
  {
    events, t := [], s;
    var j := if s.once.Running? then s.once.owner else i;
    if s.once.Fresh? {
      events, t := Follow(s, events, t, Call(i, Raw));
      events, t := Follow(s, events, t, Enter(i));
    }
    RunInv(s, events);
    if t.threads[j].Dialing? {
      events, t := Follow(s, events, t, DialOk(j, 0));
    }
    events, t := Follow(s, events, t, PingOk(j));
    events, t := Follow(s, events, t, StoreDatabase(j));
    RunInv(s, events);
  }

  lemma CanGetHandle(s: State, i: nat) returns (events: seq<Event>, t: State)
    requires Inv(s) && i < |s.threads| && s.threads[i].Idle? && s.client.None? && !s.once.Finished?
    ensures Exec(s, events) == Some(t) && !OnlyDisconnected(t)
  {
    events, t := CanConnect(s, i);
    RunInv(s, events);
    if t.threads[i].Idle? {
      events, t := Follow(s, events, t, Call(i, Raw));
      events, t := Follow(s, events, t, Enter(i));
    }
    var u := t;
    assert u.threads[i] == Reading(Raw) && u.connErr.None?;
    events, t := Follow(s, events, u, Return(i));
    assert t.results[|u.results|] == GotClient(u.client);
    assert Gives(t.results[|u.results|], u.client.value) && u.client.value !in t.disconnected;
  }

  // Whatever happens after a Close, nobody holds a handle that is not
  // disconnected: exactly when the client was set, or Connect had failed, by the
  // time of the Close. Otherwise the Close is lost.
  lemma CloseClosesExactly(n: nat, events: seq<Event>, s: State, i: nat)
    requires Exec(Init(n), events) == Some(s) && Enabled(s, Close(i))
    ensures ClosedForGood(Step(s, Close(i))) <==> s.client.Some? || s.once.Finished?
  {
    InitInv(n);
    RunInv(Init(n), events);
    var closed := Step(s, Close(i));
    StepInv(s, Close(i));
    if s.client.Some? || s.once.Finished? {
      forall more, t | Exec(closed, more) == Some(t) ensures OnlyDisconnected(t) {
        DisconnectedForGood(closed, more, t);
      }
    } else {
      var more, t := CanGetHandle(closed, i);
    }
  }

  lemma CloseThenDial(handle: nat) returns (events: seq<Event>, s: State)
    ensures events == [Close(0), Call(0, Raw), Enter(0), DialOk(0, handle)]
    ensures Exec(Init(1), events) == Some(s)
    ensures s == At(Init(1).(once := Running(0), dials := 1), 0, Pinging(Raw, handle))
  {
    var t := Init(1);
    events, s := Follow(Init(1), [], t, Close(0));
    assert s.disconnected == {};
    events, s := Follow(Init(1), events, t, Call(0, Raw));
    t := At(t, 0, Calling(Raw));
    events, s := Follow(Init(1), events, t, Enter(0));
    t := At(t.(once := Running(0)), 0, Dialing(Raw));
    events, s := Follow(Init(1), events, t, DialOk(0, handle));
  }

  // A Close before the first call: the pool that is then opened stays open.
  lemma CloseComesTooEarly(handle: nat) returns (events: seq<Event>, s: State)
    ensures events == [Close(0), Call(0, Raw), Enter(0), DialOk(0, handle)] + [PingOk(0), StoreDatabase(0), Return(0)]
    ensures Exec(Init(1), events) == Some(s)
    ensures s.results == [GotClient(Some(handle))] && s.disconnected == {}
  {
    events, s := CloseThenDial(handle);
    events, s := Follow(Init(1), events, s, PingOk(0));
    events, s := Follow(Init(1), events, s, StoreDatabase(0));
    events, s := Follow(Init(1), events, s, Return(0));
  }

  // ---------- every call returns ----------

  // No caller waits for ever on a machine that stands still: while a call is
  // pending, its thread or the one inside once.Do has a step to take.
  lemma PendingCallsMove(s: State, i: nat) returns (e: Event)
    requires Inv(s) && i < |s.threads| && !s.threads[i].Idle?
    ensures Enabled(s, e) && !e.Call? && !e.Close?
    ensures e.thread == i || s.once == Running(e.thread)
  {
    var j := if s.threads[i].Calling? && s.once.Running? then s.once.owner else i;
    var t := s.threads[j];
    e := if t.Calling? then Enter(j)
         else if t.Dialing? then DialOk(j, 0)
         else if t.Pinging? then PingOk(j)
         else if t.Storing? then StoreDatabase(j)
         else if t.Reading? then Return(j)
         else UseClient(j);
  }

  // How many steps a thread is from the end of its call, at most.
  function Remaining(t: Thread): nat {
    match t
    case Idle => 0
    case Using => 1
    case Reading(_) => 2
    case Storing(_, _) => 3
    case Pinging(_, _) => 4
    case Dialing(_) => 5
    case Calling(_) => 6
  }

  function Busy(t: Thread): nat {
    if t.Idle? then 0 else 1
  }

  function Total(weight: Thread -> nat, ts: seq<Thread>): nat {
    if ts == [] then 0 else weight(ts[0]) + Total(weight, ts[1..])
  }

  lemma {:induction false} TotalAfter(weight: Thread -> nat, ts: seq<Thread>, i: nat, t: Thread)
    requires i < |ts|
    ensures Total(weight, ts[i := t]) == Total(weight, ts) - weight(ts[i]) + weight(t)
  {
    if i == 0 {
      assert ts[0 := t][1..] == ts[1..];
    } else {
      assert ts[i := t][1..] == ts[1..][i - 1 := t];
      TotalAfter(weight, ts[1..], i - 1, t);
    }
  }

  lemma {:induction false} TotalNought(weight: Thread -> nat, ts: seq<Thread>)
    ensures Total(weight, ts) == 0 <==> forall i :: 0 <= i < |ts| ==> weight(ts[i]) == 0
  {
    if ts != [] {
      TotalNought(weight, ts[1..]);
      assert forall i :: 1 <= i < |ts| ==> ts[i] == ts[1..][i - 1];
    }
  }

  predicate IsMove(e: Event) {
    !e.Call? && !e.Close?
  }

  function Calls(events: seq<Event>): nat {
    if events == [] then 0 else Calls(events[..|events| - 1]) + if events[|events| - 1].Call? then 1 else 0
  }

  function Moves(events: seq<Event>): nat {
    if events == [] then 0 else Moves(events[..|events| - 1]) + if IsMove(events[|events| - 1]) then 1 else 0
  }

  // A step changes its own thread, towards the end of its call, and a call ends
  // with one result.
  lemma StepsTowardsEnd(s: State, e: Event)
    requires Enabled(s, e)
    ensures var t := Step(s, e);
            && |t.threads| == |s.threads| && t.threads == s.threads[e.thread := t.threads[e.thread]]
            && (if e.Call? then t.threads[e.thread] == Calling(e.op) && s.threads[e.thread].Idle?
                else if e.Close? then t.threads == s.threads
                else Remaining(t.threads[e.thread]) < Remaining(s.threads[e.thread]))
            && |t.results| + Busy(t.threads[e.thread])
               == |s.results| + Busy(s.threads[e.thread]) + if e.Call? then 1 else 0
  {
  }

  // Every call comes to one result, and there is a bound on the steps that all
  // the calls of a run can take together.
  lemma {:induction false} RunAccounts(s: State, events: seq<Event>, t: State)
    requires Exec(s, events) == Some(t)
    ensures |t.results| + Total(Busy, t.threads) == |s.results| + Total(Busy, s.threads) + Calls(events)
    ensures Moves(events) + Total(Remaining, t.threads) <= Total(Remaining, s.threads) + 6 * Calls(events)
  {
    if events != [] {
      var before, e := events[..|events| - 1], events[|events| - 1];
      var u := Exec(s, before).value;
      RunAccounts(s, before, u);
      StepsTowardsEnd(u, e);
      TotalAfter(Busy, u.threads, e.thread, t.threads[e.thread]);
      TotalAfter(Remaining, u.threads, e.thread, t.threads[e.thread]);
    }
  }

  ghost predicate Settled(s: State) {
    forall e :: Enabled(s, e) ==> !IsMove(e)
  }

  lemma SettledExactly(s: State)
    requires Inv(s)
    ensures Settled(s) <==> forall i :: 0 <= i < |s.threads| ==> s.threads[i].Idle?
  {
    if i :| 0 <= i < |s.threads| && !s.threads[i].Idle? {
      var e := PendingCallsMove(s, i);
      assert Enabled(s, e) && IsMove(e);
    }
  }

  lemma {:induction false} NobodyBusy(n: nat)
    ensures Total(Busy, seq(n, _ => Idle)) == 0 && Total(Remaining, seq(n, _ => Idle)) == 0
  {
    TotalNought(Busy, seq(n, _ => Idle));
    TotalNought(Remaining, seq(n, _ => Idle));
  }

  // Every call returns: no run makes more than six steps a call, and where it
  // can go no further each call has come to its one result.
  lemma EveryCallReturns(n: nat, events: seq<Event>, s: State)
    requires Exec(Init(n), events) == Some(s)
    ensures Moves(events) <= 6 * Calls(events) && |s.results| <= Calls(events)
    ensures Settled(s) <==> |s.results| == Calls(events)
  {
    NobodyBusy(n);
    RunAccounts(Init(n), events, s);
    InitInv(n);
    RunInv(Init(n), events);
    SettledExactly(s);
    TotalNought(Busy, s.threads);
    assert forall i :: 0 <= i < |s.threads| ==> (Busy(s.threads[i]) == 0 <==> s.threads[i].Idle?);
  }

  // ---------- the fields, from the history alone ----------

  // How the one attempt to connect has gone.
  datatype Attempt = NotYet | Dialed(handle: nat) | Up(handle: nat) | Down(error: Error)

  function AttemptOf(events: seq<Event>): Attempt {
    if events == [] then NotYet
    else
      var before := AttemptOf(events[..|events| - 1]);
      match events[|events| - 1]
      case DialFails(_, error) => Down(error)
      case DialOk(_, handle) => Dialed(handle)
      case PingFails(_, error) => Down(error)
      case PingOk(_) => if before.Dialed? then Up(before.handle) else before
      case _ => before
  }

  // What a failed first ping and the closes that found a client have closed.
  function ClosedBy(events: seq<Event>): set<nat> {
    if events == [] then {}
    else
      var before, e := events[..|events| - 1], events[|events| - 1];
      var a := AttemptOf(before);
      ClosedBy(before) + if (e.PingFails? && a.Dialed?) || (e.Close? && a.Up?) then {a.handle} else {}
  }

  function OpenedBy(events: seq<Event>): set<nat> {
    if events == [] then {}
    else
      var e := events[|events| - 1];
      OpenedBy(events[..|events| - 1]) + if e.DialOk? then {e.handle} else {}
  }

  function AttemptAt(t: Thread): Attempt {
    match t
    case Pinging(_, handle) => Dialed(handle)
    case Storing(_, handle) => Up(handle)
    case _ => NotYet
  }

  predicate AttemptMatches(s: State, a: Attempt) {
    && (s.once.Fresh? ==> a.NotYet?)
    && (s.once.Running? && s.once.owner < |s.threads| ==> a == AttemptAt(s.threads[s.once.owner]))
    && (s.once.Finished? ==> a.Up? || a.Down?)
  }

  function ErrorOf(a: Attempt): Option<Error> {
    if a.Down? then Some(a.error) else None
  }

  function ClientOf(a: Attempt): Option<nat> {
    if a.Up? then Some(a.handle) else None
  }

  predicate FollowsHistory(s: State, events: seq<Event>) {
    var a := AttemptOf(events);
    && s.client == ClientOf(a)
    && s.db == (if s.once.Finished? then ClientOf(a) else None)
    && s.connErr == ErrorOf(a)
    && s.disconnected == ClosedBy(events)
  }

  lemma HistoryStep(u: State, e: Event, before: seq<Event>, events: seq<Event>)
    requires Inv(u) && Enabled(u, e) && events == before + [e]
    requires AttemptMatches(u, AttemptOf(before)) && FollowsHistory(u, before)
    ensures AttemptMatches(Step(u, e), AttemptOf(events))
    ensures FollowsHistory(Step(u, e), events)
  {
    assert events[..|events| - 1] == before;
  }

  // Every field is what the history of outside calls says: the client and the
  // error are those of the one attempt, and just what should be closed is.
  lemma {:induction false} FieldsFromHistory(n: nat, events: seq<Event>, s: State)
    requires Exec(Init(n), events) == Some(s)
    ensures AttemptMatches(s, AttemptOf(events)) && FollowsHistory(s, events)
  {
    if events != [] {
      var before, e := events[..|events| - 1], events[|events| - 1];
      var u := Exec(Init(n), before).value;
      FieldsFromHistory(n, before, u);
      InitInv(n);
      RunInv(Init(n), before);
      HistoryStep(u, e, before, events);
    }
  }

  lemma OneAttempt(u: State, e: Event, a: Attempt)
    requires Inv(u) && Enabled(u, e) && AttemptMatches(u, a)
    ensures e.DialOk? || e.DialFails? ==> a == NotYet
    ensures e.PingOk? || e.PingFails? ==> a.Dialed?
  {
  }

  // No pool is lost: what was dialed is being tried, is the client, or is closed.
  lemma {:induction false} NoPoolIsLost(n: nat, events: seq<Event>, s: State, handle: nat)
    requires Exec(Init(n), events) == Some(s) && handle in OpenedBy(events)
    ensures AttemptOf(events) == Dialed(handle) || s.client == Some(handle) || handle in s.disconnected
  {
    var before, e := events[..|events| - 1], events[|events| - 1];
    var u := Exec(Init(n), before).value;
    FieldsFromHistory(n, events, s);
    FieldsFromHistory(n, before, u);
    InitInv(n);
    RunInv(Init(n), before);
    OneAttempt(u, e, AttemptOf(before));
    if handle in OpenedBy(before) {
      NoPoolIsLost(n, before, u, handle);
    }
  }

  // ---------- each call gets what it asks for ----------

  function KindOf(r: Result): Option<Op> {
    match r
    case Failed(_) => None
    case Nil => Some(Connect)
    case GotDatabase(_) => Some(Database)
    case GotClient(_) => Some(Raw)
    case Pinged(_) => Some(Ping)
  }

  function ResultsFor(op: Op, results: seq<Result>): nat {
    if results == [] then 0
    else ResultsFor(op, results[..|results| - 1]) + if KindOf(results[|results| - 1]) == Some(op) then 1 else 0
  }

  function CallsFor(op: Op, events: seq<Event>): nat {
    if events == [] then 0
    else
      var e := events[|events| - 1];
      CallsFor(op, events[..|events| - 1]) + if e.Call? && e.op == op then 1 else 0
  }

  function Serves(t: Thread, op: Op): nat {
    match t
    case Idle => 0
    case Using => if op == Ping then 1 else 0
    case _ => if t.op == op then 1 else 0
  }

  function Serving(op: Op): Thread -> nat {
    t => Serves(t, op)
  }

  lemma OneMoreResult(op: Op, results: seq<Result>, r: Result)
    ensures ResultsFor(op, results + [r]) == ResultsFor(op, results) + if KindOf(r) == Some(op) then 1 else 0
  {
    assert (results + [r])[..|results|] == results;
  }

  predicate Gained(s: State, t: State, i: nat, op: Op, calls: nat) {
    && |t.threads| == |s.threads| && i < |s.threads| && t.threads == s.threads[i := t.threads[i]]
    && ResultsFor(op, t.results) + Serves(t.threads[i], op)
       == ResultsFor(op, s.results) + Serves(s.threads[i], op) + calls
  }

  lemma ReturnServes(s: State, i: nat, op: Op)
    requires Enabled(s, Return(i)) && s.connErr.None?
    ensures Gained(s, Step(s, Return(i)), i, op, 0)
  {
    var asked, t := s.threads[i].op, Step(s, Return(i));
    if asked == Ping {
      assert t.results == s.results && t.threads[i] == Using;
    } else {
      OneMoreResult(op, s.results, ResultOf(asked, s));
      assert t.results == s.results + [ResultOf(asked, s)] && t.threads[i] == Idle;
    }
  }

  lemma UseServes(s: State, i: nat, op: Op)
    requires Enabled(s, UseClient(i))
    ensures Gained(s, Step(s, UseClient(i)), i, op, 0)
  {
    var t := Step(s, UseClient(i));
    OneMoreResult(op, s.results, ResultOf(Ping, s));
    assert t.results == s.results + [ResultOf(Ping, s)] && t.threads[i] == Idle;
    assert Serves(s.threads[i], op) == if op == Ping then 1 else 0;
  }

  lemma StepServes(s: State, e: Event, op: Op)
    requires Enabled(s, e) && Step(s, e).connErr.None?
    ensures s.connErr.None? && Gained(s, Step(s, e), e.thread, op, if e.Call? && e.op == op then 1 else 0)
  {
    match e
    case Return(i) => ReturnServes(s, i, op);
    case UseClient(i) => UseServes(s, i, op);
    case _ => assert Step(s, e).results == s.results;
  }

  // Without an error, every call of an operation comes to one result of its kind.
  lemma {:induction false} CallsGetTheirKind(n: nat, events: seq<Event>, s: State, op: Op)
    requires Exec(Init(n), events) == Some(s) && s.connErr.None?
    ensures ResultsFor(op, s.results) + Total(Serving(op), s.threads) == CallsFor(op, events)
  {
    if events == [] {
      TotalNought(Serving(op), s.threads);
    } else {
      var before, e := events[..|events| - 1], events[|events| - 1];
      var u := Exec(Init(n), before).value;
      StepServes(u, e, op);
      CallsGetTheirKind(n, before, u, op);
      TotalAfter(Serving(op), u.threads, e.thread, s.threads[e.thread]);
    }
  }

  // ---------- one caller at a time ----------

  // How the outside calls of a first Connect go.
  datatype Dial = NoClient(error: Error) | NoPing(handle: nat, error: Error) | Connected(handle: nat)

  function InsideEvents(i: nat, dial: Dial): seq<Event> {
    match dial
    case NoClient(error) => [DialFails(i, error)]
    case NoPing(handle, error) => [DialOk(i, handle), PingFails(i, error)]
    case Connected(handle) => [DialOk(i, handle), PingOk(i), StoreDatabase(i)]
  }

  // The events of a Connect that runs alone on thread i.
  function ConnectEvents(s: State, i: nat, op: Op, dial: Dial): seq<Event> {
    [Call(i, op), Enter(i)] + (if s.once.Fresh? then InsideEvents(i, dial) else []) + [Return(i)]
  }

  datatype Fields = Fields(connErr: Option<Error>, client: Option<nat>, db: Option<nat>, disconnected: set<nat>)

  function FieldsOf(s: State): Fields {
    Fields(s.connErr, s.client, s.db, s.disconnected)
  }

  // What Connect does to the fields when nobody else is inside.
  predicate Connects(first: bool, before: Fields, dial: Dial, after: Fields) {
    if !first then after == before
    else match dial
      case NoClient(e) => after == Fields(Some(e), None, None, before.disconnected)
      case NoPing(handle, e) => after == Fields(Some(e), None, None, before.disconnected + {handle})
      case Connected(handle) => after == Fields(None, Some(handle), Some(handle), before.disconnected)
  }

  lemma LoneEnter(s: State, i: nat, op: Op) returns (t: State)
    requires i < |s.threads| && s.threads[i].Idle? && !s.once.Running?
    ensures Exec(s, [Call(i, op), Enter(i)]) == Some(t)
    ensures t == if s.once.Fresh? then At(s.(once := Running(i)), i, Dialing(op)) else At(s, i, Reading(op))
  {
    t := Step(s, Call(i, op));
    var es, u := Follow(s, [], s, Call(i, op));
    assert es == [Call(i, op)];
    es, t := Follow(s, es, t, Enter(i));
    assert es == [Call(i, op), Enter(i)];
  }

  // The steps of a dial that succeeds, to the end of once.Do.
  lemma LoneSuccess(u: State, i: nat, op: Op, handle: nat) returns (v: State, w: State, t: State)
    requires i < |u.threads| && u.threads[i] == Dialing(op)
    ensures v == Step(u, DialOk(i, handle)) && Enabled(v, PingOk(i))
    ensures w == Step(v, PingOk(i)) && Enabled(w, StoreDatabase(i))
    ensures t == Step(w, StoreDatabase(i)) && i < |t.threads| && t.threads[i] == Reading(op) && t.once.Finished?
    ensures t.connErr == u.connErr && t.client == Some(handle) && t.db == Some(handle)
    ensures t.outcomes == u.outcomes && t.disconnected == u.disconnected
  {
    v := Step(u, DialOk(i, handle));
    w := Step(v, PingOk(i));
    t := Step(w, StoreDatabase(i));
  }

  lemma LoneSuccessRun(s: State, es: seq<Event>, u: State, i: nat, op: Op, handle: nat) returns (t: State, all: seq<Event>)
    requires Exec(s, es) == Some(u) && i < |u.threads| && u.threads[i] == Dialing(op)
    ensures all == es + [DialOk(i, handle), PingOk(i), StoreDatabase(i)] && Exec(s, all) == Some(t)
    ensures i < |t.threads| && t.threads[i] == Reading(op) && t.once.Finished?
    ensures t.connErr == u.connErr && t.client == Some(handle) && t.db == Some(handle)
    ensures t.outcomes == u.outcomes && t.disconnected == u.disconnected
  {
    var v, w, done := LoneSuccess(u, i, op, handle);
    all, t := Follow(s, es, u, DialOk(i, handle));
    all, t := Follow(s, all, v, PingOk(i));
    all, t := Follow(s, all, w, StoreDatabase(i));
  }

  // Past once.Do, ready to return.
  predicate Returning(t: State, i: nat, op: Op, u: State) {
    i < |t.threads| && t.threads[i] == Reading(op) && t.once.Finished? && t.outcomes == u.outcomes
  }

  lemma LoneNoClient(s: State, es: seq<Event>, u: State, i: nat, op: Op, error: Error) returns (t: State, all: seq<Event>)
    requires Exec(s, es) == Some(u) && i < |u.threads| && u.threads[i] == Dialing(op)
    ensures all == es + [DialFails(i, error)] && Exec(s, all) == Some(t) && Returning(t, i, op, u)
    ensures FieldsOf(t) == Fields(Some(error), u.client, u.db, u.disconnected)
  {
    all, t := Follow(s, es, u, DialFails(i, error));
  }

  lemma LoneNoPing(s: State, es: seq<Event>, u: State, i: nat, op: Op, handle: nat, error: Error)
    returns (t: State, all: seq<Event>)
    requires Exec(s, es) == Some(u) && i < |u.threads| && u.threads[i] == Dialing(op)
    ensures all == es + [DialOk(i, handle), PingFails(i, error)] && Exec(s, all) == Some(t) && Returning(t, i, op, u)
    ensures FieldsOf(t) == Fields(Some(error), u.client, u.db, u.disconnected + {handle})
  {
    var v := Step(u, DialOk(i, handle));
    all, t := Follow(s, es, u, DialOk(i, handle));
    all, t := Follow(s, all, v, PingFails(i, error));
  }

  // From inside once.Do to the return.
  lemma LoneDial(s: State, es: seq<Event>, u: State, i: nat, op: Op, dial: Dial) returns (t: State, all: seq<Event>)
    requires Exec(s, es) == Some(u) && i < |u.threads| && u.threads[i] == Dialing(op)
    requires u.connErr.None? && u.client.None? && u.db.None?
    ensures all == es + InsideEvents(i, dial) && Exec(s, all) == Some(t) && Returning(t, i, op, u)
    ensures Connects(true, FieldsOf(u), dial, FieldsOf(t))
  {
    match dial
    case NoClient(error) =>
      t, all := LoneNoClient(s, es, u, i, op, error);
    case NoPing(handle, error) =>
      t, all := LoneNoPing(s, es, u, i, op, handle, error);
    case Connected(handle) =>
      t, all := LoneSuccessRun(s, es, u, i, op, handle);
  }

  // The machine's run of a lone Connect, step by step.
  lemma LoneConnect(s: State, i: nat, op: Op, dial: Dial) returns (t: State)
    requires Inv(s) && i < |s.threads| && s.threads[i].Idle? && !s.once.Running?
    ensures Exec(s, ConnectEvents(s, i, op, dial)) == Some(t)
    ensures t.once.Finished? && t.outcomes == s.outcomes + [t.connErr]
    ensures Connects(s.once.Fresh?, FieldsOf(s), dial, FieldsOf(t))
  {
    t := LoneEnter(s, i, op);
    var all := [Call(i, op), Enter(i)];
    if s.once.Fresh? {
      t, all := LoneDial(s, all, t, i, op, dial);
    }
    assert ConnectEvents(s, i, op, dial) == all + [Return(i)];
    all, t := Follow(s, all, t, Return(i));
  }

  class Client {
    var done: bool
    var connErr: Option<Error>
    var client: Option<nat>
    var db: Option<nat>
    var disconnected: set<nat>

    function View(): Fields
      reads this
    {
      Fields(connErr, client, db, disconnected)
    }

    ghost predicate Valid()
      reads this
    {
      && (done ==> client == db && (connErr.None? <==> client.Some?))
      && (!done ==> connErr.None? && client.None? && db.None?)
    }

    constructor ()
      ensures Valid() && !done && disconnected == {}
    {
      done, connErr, client, db, disconnected := false, None, None, None, {};
    }

    method Connect(dial: Dial) returns (err: Option<Error>)
      requires Valid()
      modifies this
      ensures Valid() && done && err == connErr
      ensures Connects(!old(done), old(View()), dial, View())
    {
      if !done {
        match dial {
          case NoClient(e) =>
            connErr := Some(e);
          case NoPing(handle, e) =>
            connErr := Some(e);
            disconnected := disconnected + {handle};
          case Connected(handle) =>
            client := Some(handle);
            db := Some(handle);
        }
        done := true;
      }
      err := connErr;
    }

    // Database and Raw: a handle, or the error of the one Connect there ever was.
    method Database(dial: Dial) returns (database: Option<nat>, err: Option<Error>)
      requires Valid()
      modifies this
      ensures Valid() && done && err == connErr
      ensures err.None? <==> database.Some?
      ensures database.Some? ==> database == db
      ensures old(done) ==> connErr == old(connErr) && client == old(client) && db == old(db)
    {
      err := Connect(dial);
      database := if err.Some? then None else db;
    }

    method Raw(dial: Dial) returns (handle: Option<nat>, err: Option<Error>)
      requires Valid()
      modifies this
      ensures Valid() && done && err == connErr
      ensures err.None? <==> handle.Some?
      ensures handle.Some? ==> handle == client
      ensures old(done) ==> connErr == old(connErr) && client == old(client) && db == old(db)
    {
      err := Connect(dial);
      handle := if err.Some? then None else client;
    }

    // The handle pinged, so that a call through nil would show; `answer` is what
    // the server's reply makes of it.
    method Ping(dial: Dial, answer: Option<Error>) returns (through: Option<nat>, err: Option<Error>)
      requires Valid()
      modifies this
      ensures Valid() && done
      ensures connErr.Some? ==> err == connErr && through.None?
      ensures connErr.None? ==> err == answer && through.Some? && through == client
      ensures old(done) ==> connErr == old(connErr) && client == old(client) && db == old(db)
    {
      through := None;
      err := Connect(dial);
      if err.None? {
        through := client;
        err := answer;
      }
    }

    // Close disconnects what is connected and forgets nothing: calls after it
    // hand out the same handle, now disconnected. Before there is a client it
    // does nothing, and a later Connect goes ahead.
    method Close()
      requires Valid()
      modifies this`disconnected
      ensures Valid()
      ensures disconnected == old(disconnected) + if client.Some? then {client.value} else {}
    {
      if client.Some? {
        disconnected := disconnected + {client.value};
      }
    }
  }
}
