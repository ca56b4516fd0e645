/**
 The live subscription protocol as a state machine. Every task stops only where the source awaits, so
 a step is one locked body together with the provider call that follows it.
 */
module CoordinatorProtocol {
  import opened Wrappers

  datatype Key = Key(name: nat)

  datatype Phase = Subscribing | Subscribed | Rejected

  /** A future that is resolved once. */
  datatype Readiness = Pending | Ready | Failed

  /** A subscription entry. Listeners are queues, and a queue is known by the task that made it. */
  datatype Entry = Entry(key: Key, creator: nat, phase: Phase, listeners: set<Listener>, readiness: Readiness)

  datatype Listener = Listener(task: nat)

  datatype Outcome = Delivered | Refused | Cancelled

  /** Where a subscribing task stands; `entry` is the entry it holds a reference to. */
  datatype Position =
    | Calling(entry: nat)
    | Waiting(entry: nat)
    | Finished(outcome: Outcome)

  datatype Task = Task(key: Key, position: Position)

  /** Provider calls in the order they start, and the subscriptions that failed. */
  datatype Call = SubscribeStarted(key: Key) | SubscribeFailed(key: Key) | UnsubscribeStarted(key: Key)

  /** Entries stay addressable after they leave the map, as objects that tasks still refer to do. */
  datatype State = State(
    maxActive: nat,
    subscriptions: map<Key, nat>,
    entries: seq<Entry>,
    tasks: seq<Task>,
    trace: seq<Call>)

  datatype Event =
    | CallSubscribe(key: Key)
    | ProviderReturns(task: nat)
    | ProviderRaises(task: nat, cancelled: bool)
    | Resume(task: nat)
    | CancelWaiting(task: nat)
    | CallUnsubscribe(key: Key, queue: nat)

  // ---- The steps ----

  function ActiveCount(state: State): nat
    requires forall k <- state.subscriptions :: state.subscriptions[k] < |state.entries|
  {
    |set k <- state.subscriptions | state.entries[state.subscriptions[k]].phase != Rejected|
  }

  /** References in the map and in the tasks are to entries that exist. */
  predicate Linked(state: State) {
    && (forall k <- state.subscriptions :: state.subscriptions[k] < |state.entries|)
    && (forall t | 0 <= t < |state.tasks| ::
          state.tasks[t].position.Finished? || state.tasks[t].position.entry < |state.entries|)
  }

  function SetEntry(state: State, id: nat, entry: Entry): State
    requires id < |state.entries|
  {
    state.(entries := state.entries[id := entry])
  }

  function MoveTask(state: State, t: nat, position: Position): State
    requires t < |state.tasks|
  {
    state.(tasks := state.tasks[t := state.tasks[t].(position := position)])
  }

  function Record(state: State, call: Call): State {
    state.(trace := state.trace + [call])
  }

  /** The map without a key. */
  function Without(subscriptions: map<Key, nat>, key: Key): map<Key, nat> {
    map k <- subscriptions | k != key :: subscriptions[k]
  }

  /** A new task asks for a key: refused at capacity, first of its entry, or one more listener. */
  function SubscribeStep(state: State, key: Key): State
    requires Linked(state)
  {
    var t := |state.tasks|;
    if key !in state.subscriptions || state.entries[state.subscriptions[key]].phase == Rejected then
      if ActiveCount(state) >= state.maxActive then state.(tasks := state.tasks + [Task(key, Finished(Refused))])
      else
        var id := |state.entries|;
        state.(
          subscriptions := state.subscriptions[key := id],
          entries := state.entries + [Entry(key, t, Subscribing, {Listener(t)}, Pending)],
          tasks := state.tasks + [Task(key, Calling(id))],
          trace := state.trace + [SubscribeStarted(key)])
    else
      var id := state.subscriptions[key];
      var entry := state.entries[id];
      var joined := SetEntry(state, id, entry.(listeners := entry.listeners + {Listener(t)}));
      joined.(tasks := joined.tasks + [Task(key, AfterAwait(id, entry.readiness))])
  }

  /** Awaiting a future that is already resolved does not suspend. */
  function AfterAwait(id: nat, readiness: Readiness): Position {
    match readiness
    case Pending => Waiting(id)
    case Ready => Finished(Delivered)
    case Failed => Finished(Refused)
  }

  predicate IsCurrent(state: State, key: Key, id: nat) {
    key in state.subscriptions && state.subscriptions[key] == id
  }

  function ReturnStep(state: State, t: nat): State
    requires Linked(state) && t < |state.tasks| && state.tasks[t].position.Calling?
  {
    var key, id := state.tasks[t].key, state.tasks[t].position.entry;
    var entry := state.entries[id];
    var settled :=
      if IsCurrent(state, key, id) then
        entry.(phase := Subscribed, readiness := if entry.readiness == Pending then Ready else entry.readiness)
      else entry;
    MoveTask(SetEntry(state, id, settled), t, AfterAwait(id, settled.readiness))
  }

  /** The call failed or was cancelled: the entry is rejected and leaves the map. */
  function RaiseStep(state: State, t: nat, cancelled: bool): State
    requires Linked(state) && t < |state.tasks| && state.tasks[t].position.Calling?
  {
    var key, id := state.tasks[t].key, state.tasks[t].position.entry;
    var entry := state.entries[id];
    var current := IsCurrent(state, key, id);
    var settled :=
      if current then
        entry.(
          phase := Rejected, listeners := {},
          readiness := if entry.readiness == Pending then Failed else entry.readiness)
      else entry;
    var removed := if current then state.(subscriptions := Without(state.subscriptions, key)) else state;
    var position := if cancelled then Finished(Cancelled) else AfterAwait(id, settled.readiness);
    Record(MoveTask(SetEntry(removed, id, settled), t, position), SubscribeFailed(key))
  }

  function UnsubscribeStep(state: State, key: Key, queue: nat): State
    requires Linked(state)
  {
    if key !in state.subscriptions || Listener(queue) !in state.entries[state.subscriptions[key]].listeners then state
    else
      var id := state.subscriptions[key];
      var entry := state.entries[id];
      var left := entry.(listeners := entry.listeners - {Listener(queue)});
      var updated := SetEntry(state, id, left);
      if left.listeners != {} then updated
      else
        var removed := updated.(subscriptions := Without(state.subscriptions, key));
        if entry.phase == Subscribed then Record(removed, UnsubscribeStarted(key)) else removed
  }

  /** A waiting task that is cancelled gives its queue back first. */
  function CancelStep(state: State, t: nat): State
    requires Linked(state) && t < |state.tasks| && state.tasks[t].position.Waiting?
  {
    MoveTask(UnsubscribeStep(state, state.tasks[t].key, t), t, Finished(Cancelled))
  }

  /** What may happen next. A queue is only handed out when its task finishes, so only then can a caller return it. */
  predicate Enabled(state: State, event: Event)
    requires Linked(state)
  {
    match event
    case CallSubscribe(_) => true
    case ProviderReturns(t) => t < |state.tasks| && state.tasks[t].position.Calling?
    case ProviderRaises(t, _) => t < |state.tasks| && state.tasks[t].position.Calling?
    case Resume(t) =>
      t < |state.tasks| && state.tasks[t].position.Waiting?
        && state.entries[state.tasks[t].position.entry].readiness != Pending
    case CancelWaiting(t) => t < |state.tasks| && state.tasks[t].position.Waiting?
    case CallUnsubscribe(_, queue) => queue < |state.tasks| && state.tasks[queue].position.Finished?
  }

  function Step(state: State, event: Event): (after: State)
    requires Linked(state) && Enabled(state, event)
  {
    match event
    case CallSubscribe(key) => SubscribeStep(state, key)
    case ProviderReturns(t) => ReturnStep(state, t)
    case ProviderRaises(t, cancelled) => RaiseStep(state, t, cancelled)
    case Resume(t) =>
      var id := state.tasks[t].position.entry;
      MoveTask(state, t, AfterAwait(id, state.entries[id].readiness))
    case CancelWaiting(t) => CancelStep(state, t)
    case CallUnsubscribe(key, queue) => UnsubscribeStep(state, key, queue)
  }

  // ---- The invariant ----

  /** A mapped entry: it is active, somebody listens, and while it is subscribing its creator still does. */
  ghost predicate EntryInv(state: State, key: Key)
    requires Linked(state) && key in state.subscriptions
  {
    var entry := state.entries[state.subscriptions[key]];
    && entry.key == key
    && entry.listeners != {}
    && (forall l <- entry.listeners :: l.task < |state.tasks| && state.tasks[l.task].key == key)
    && (entry.phase == Subscribing ==>
          && entry.readiness == Pending
          && entry.creator < |state.tasks|
          && state.tasks[entry.creator].position == Calling(state.subscriptions[key])
          && Listener(entry.creator) in entry.listeners)
    && (entry.phase == Subscribed ==> entry.readiness == Ready)
    && entry.phase != Rejected
  }

  /** Every entry that still waits for its call is mapped; one that has left the map is resolved. */
  ghost predicate ResolvedInv(state: State, id: nat)
    requires Linked(state) && id < |state.entries|
  {
    state.entries[id].readiness == Pending ==>
        state.entries[id].phase == Subscribing && IsCurrent(state, state.entries[id].key, id)
  }

  /** A calling task made the entry it calls for, which is mapped; a waiting task listens while the entry is mapped. */
  ghost predicate TaskInv(state: State, t: nat)
    requires Linked(state) && t < |state.tasks|
  {
    var task := state.tasks[t];
    match task.position
    case Calling(id) =>
      && state.entries[id].creator == t && state.entries[id].key == task.key
      && state.entries[id].phase == Subscribing && IsCurrent(state, task.key, id)
    case Waiting(id) =>
      && state.entries[id].key == task.key
      && (IsCurrent(state, task.key, id) ==> Listener(t) in state.entries[id].listeners)
    case Finished(_) => true
  }

  function LastCall(trace: seq<Call>, key: Key): Option<Call> {
    if trace == [] then None
    else if trace[|trace| - 1].key == key then Some(trace[|trace| - 1])
    else LastCall(trace[..|trace| - 1], key)
  }

  /** A subscription to a key never starts while the last call about that key is a subscription that has not failed. */
  ghost predicate Alternating(trace: seq<Call>) {
    trace != [] ==>
      var n := |trace| - 1;
      && Alternating(trace[..n])
      && (trace[n].SubscribeStarted? ==> LastCall(trace[..n], trace[n].key) != Some(SubscribeStarted(trace[n].key)))
  }

  /** A key is mapped exactly when the last call about it is a subscription that has not failed. */
  ghost predicate TraceInv(state: State) {
    && Alternating(state.trace)
    && (forall key :: key in state.subscriptions <==> LastCall(state.trace, key) == Some(SubscribeStarted(key)))
  }

  ghost predicate Inv(state: State) {
    && Linked(state)
    && (forall key <- state.subscriptions :: EntryInv(state, key))
    && (forall id: nat | id < |state.entries| :: ResolvedInv(state, id))
    && (forall t: nat | t < |state.tasks| :: TaskInv(state, t))
    && |state.subscriptions| <= state.maxActive
    && TraceInv(state)
  }

  function Initial(maxActive: nat): State {
    State(maxActive, map[], [], [], [])
  }

  lemma InitialInv(maxActive: nat)
    ensures Inv(Initial(maxActive))
  {
  }

  // ---- Every step keeps it ----

  /** What a step does to the trace: nothing, or one more call. */
  lemma TraceGrows(state: State, after: State, call: Call)
    requires TraceInv(state) && after.trace == state.trace + [call]
    requires call.SubscribeStarted? ==> call.key !in state.subscriptions
    requires forall key :: key != call.key ==> (key in after.subscriptions <==> key in state.subscriptions)
    requires call.key in after.subscriptions <==> call.SubscribeStarted?
    ensures TraceInv(after)
  {
    assert after.trace[..|state.trace|] == state.trace;
    forall key ensures key in after.subscriptions <==> LastCall(after.trace, key) == Some(SubscribeStarted(key)) {
      assert LastCall(after.trace, key) == if key == call.key then Some(call) else LastCall(state.trace, key);
    }
  }

  lemma CountOne(subscriptions: map<Key, nat>, key: Key, id: nat)
    requires key !in subscriptions
    ensures |subscriptions[key := id]| == |subscriptions| + 1
  {
    assert subscriptions[key := id].Keys == subscriptions.Keys + {key};
  }

  lemma CountWithout(subscriptions: map<Key, nat>, key: Key)
    ensures |Without(subscriptions, key)| <= |subscriptions|
  {
    SubsetCount(Without(subscriptions, key).Keys, subscriptions.Keys);
  }

  /** Every mapped entry is active, so the capacity check counts the whole map. */
  lemma AllActive(state: State)
    requires Inv(state)
    ensures ActiveCount(state) == |state.subscriptions|
  {
    forall k <- state.subscriptions ensures state.entries[state.subscriptions[k]].phase != Rejected {
      assert EntryInv(state, k);
    }
    assert (set k <- state.subscriptions | state.entries[state.subscriptions[k]].phase != Rejected)
           == state.subscriptions.Keys;
  }

  /** The tasks after a step that moved or added task `t` only. */
  ghost predicate OnlyTask(state: State, after: State, t: nat) {
    && |state.tasks| <= |after.tasks| <= |state.tasks| + 1 && t < |after.tasks|
    && (|after.tasks| > |state.tasks| ==> t == |state.tasks|)
    && (forall u: nat | u < |state.tasks| && u != t :: after.tasks[u] == state.tasks[u])
    && (t < |state.tasks| ==> after.tasks[t].key == state.tasks[t].key)
  }

  /** What holds of everything but one entry's key and one task. */
  ghost predicate RestInv(after: State, key: Key, id: nat, t: nat)
    requires Linked(after)
  {
    && (forall k <- after.subscriptions :: k != key ==> EntryInv(after, k))
    && (forall i: nat | i < |after.entries| && i != id :: ResolvedInv(after, i))
    && (forall u: nat | u < |after.tasks| && u != t :: TaskInv(after, u))
  }

  /** A mapped entry changed in place, and one task moved. */
  ghost predicate Stayed(state: State, after: State, key: Key, changed: Entry, t: nat)
    requires Linked(state)
  {
    && Linked(after) && OnlyTask(state, after, t)
    && key in state.subscriptions && after.subscriptions == state.subscriptions
    && var id := state.subscriptions[key];
       var entry := state.entries[id];
       && after.entries == state.entries[id := changed]
       && changed.key == key && changed.creator == entry.creator
       && entry.listeners - {Listener(t)} <= changed.listeners
       && (changed.phase != entry.phase ==> t == entry.creator)
       && (t < |state.tasks| && state.tasks[t].position.Calling? ==> state.tasks[t].position.entry == id)
  }

  lemma StayKeepsEntry(state: State, after: State, key: Key, changed: Entry, t: nat, k: Key)
    requires Linked(state) && Stayed(state, after, key, changed, t)
    requires EntryInv(state, key) && k in state.subscriptions && k != key && EntryInv(state, k)
    ensures EntryInv(after, k)
  {
  }

  lemma StayKeepsTask(state: State, after: State, key: Key, changed: Entry, t: nat, u: nat)
    requires Linked(state) && Stayed(state, after, key, changed, t)
    requires EntryInv(state, key) && u < |state.tasks| && u != t && TaskInv(state, u)
    ensures TaskInv(after, u)
  {
  }

  /** A mapped entry that changes in place, with one task moved, disturbs nothing else. */
  lemma StayKeepsRest(state: State, after: State, key: Key, changed: Entry, t: nat)
    requires Inv(state) && Stayed(state, after, key, changed, t)
    ensures RestInv(after, key, state.subscriptions[key], t)
  {
    var id := state.subscriptions[key];
    forall k <- after.subscriptions | k != key ensures EntryInv(after, k) {
      StayKeepsEntry(state, after, key, changed, t, k);
    }
    forall i: nat | i < |after.entries| && i != id ensures ResolvedInv(after, i) {
      assert ResolvedInv(state, i);
    }
    forall u: nat | u < |after.tasks| && u != t ensures TaskInv(after, u) {
      StayKeepsTask(state, after, key, changed, t, u);
    }
  }

  /** A resolved entry left the map, and one task moved. */
  ghost predicate Left(state: State, after: State, key: Key, gone: Entry, t: nat)
    requires Linked(state)
  {
    && Linked(after) && OnlyTask(state, after, t)
    && key in state.subscriptions && after.subscriptions == Without(state.subscriptions, key)
    && var id := state.subscriptions[key];
       var entry := state.entries[id];
       && after.entries == state.entries[id := gone]
       && gone.key == key && gone.creator == entry.creator && gone.readiness != Pending
       && (entry.phase == Subscribing ==> t == entry.creator)
       && (t < |state.tasks| && state.tasks[t].position.Calling? ==> state.tasks[t].position.entry == id)
  }

  lemma LeaveKeepsEntry(state: State, after: State, key: Key, gone: Entry, t: nat, k: Key)
    requires Linked(state) && Left(state, after, key, gone, t)
    requires EntryInv(state, key) && k in state.subscriptions && k != key && EntryInv(state, k)
    ensures k in after.subscriptions && EntryInv(after, k)
  {
    var id := state.subscriptions[k];
    assert id != state.subscriptions[key] && after.entries[id] == state.entries[id];
    assert forall l <- after.entries[id].listeners :: after.tasks[l.task].key == state.tasks[l.task].key;
  }

  lemma LeaveKeepsTask(state: State, after: State, key: Key, gone: Entry, t: nat, u: nat)
    requires Linked(state) && Left(state, after, key, gone, t)
    requires EntryInv(state, key) && u < |state.tasks| && u != t && TaskInv(state, u)
    ensures TaskInv(after, u)
  {
  }

  /** A resolved entry that leaves the map disturbs nothing else. */
  lemma LeaveKeepsRest(state: State, after: State, key: Key, gone: Entry, t: nat)
    requires Inv(state) && Left(state, after, key, gone, t)
    ensures RestInv(after, key, state.subscriptions[key], t)
    ensures key !in after.subscriptions && |after.subscriptions| <= |state.subscriptions|
  {
    CountWithout(state.subscriptions, key);
    forall k <- after.subscriptions ensures EntryInv(after, k) {
      LeaveKeepsEntry(state, after, key, gone, t, k);
    }
    forall u: nat | u < |after.tasks| && u != t ensures TaskInv(after, u) {
      LeaveKeepsTask(state, after, key, gone, t, u);
    }
    forall i: nat | i < |after.entries| && i != state.subscriptions[key] ensures ResolvedInv(after, i) {
      assert ResolvedInv(state, i);
    }
  }

  /** The parts of the invariant put together. */
  lemma Together(after: State, key: Key, id: nat, t: nat)
    requires Linked(after) && RestInv(after, key, id, t) && |after.subscriptions| <= after.maxActive && TraceInv(after)
    requires key in after.subscriptions ==> EntryInv(after, key)
    requires id < |after.entries| ==> ResolvedInv(after, id)
    requires t < |after.tasks| ==> TaskInv(after, t)
    ensures Inv(after)
  {
  }

  /** A step that changes a mapped entry in place keeps the invariant, if it keeps that entry's and its task's. */
  lemma StayKeeps(state: State, after: State, key: Key, changed: Entry, t: nat)
    requires Inv(state) && Stayed(state, after, key, changed, t)
    requires after.trace == state.trace && after.maxActive == state.maxActive
    requires EntryInv(after, key) && ResolvedInv(after, state.subscriptions[key]) && TaskInv(after, t)
    ensures Inv(after)
  {
    StayKeepsRest(state, after, key, changed, t);
    Together(after, key, state.subscriptions[key], t);
  }

  /** A step that takes a resolved entry out of the map keeps the invariant, if it keeps that entry's and its task's. */
  lemma LeaveKeeps(state: State, after: State, key: Key, gone: Entry, t: nat, call: Call)
    requires Inv(state) && Left(state, after, key, gone, t)
    requires after.trace == state.trace + [call] && call.key == key && !call.SubscribeStarted?
    requires after.maxActive == state.maxActive
    requires ResolvedInv(after, state.subscriptions[key]) && TaskInv(after, t)
    ensures Inv(after)
  {
    LeaveKeepsRest(state, after, key, gone, t);
    TraceGrows(state, after, call);
    Together(after, key, state.subscriptions[key], t);
  }

  lemma JoinStays(state: State, key: Key)
    requires Linked(state) && key in state.subscriptions && EntryInv(state, key)
    ensures
      var after, t := SubscribeStep(state, key), |state.tasks|;
      var id := state.subscriptions[key];
      && Linked(after) && Stayed(state, after, key, after.entries[id], t)
      && after.trace == state.trace && after.maxActive == state.maxActive
      && EntryInv(after, key) && ResolvedInv(after, id) && TaskInv(after, t)
  {
  }

  lemma JoinKeeps(state: State, key: Key)
    requires Inv(state) && key in state.subscriptions
    ensures Inv(SubscribeStep(state, key))
  {
    JoinStays(state, key);
    var after := SubscribeStep(state, key);
    StayKeeps(state, after, key, after.entries[state.subscriptions[key]], |state.tasks|);
  }

  /** A new entry under a key that had none. */
  lemma FirstAdds(state: State, key: Key)
    requires Linked(state) && key !in state.subscriptions && ActiveCount(state) < state.maxActive
    ensures
      var after, id, t := SubscribeStep(state, key), |state.entries|, |state.tasks|;
      && Linked(after) && OnlyTask(state, after, t) && after.subscriptions == state.subscriptions[key := id]
      && |after.entries| == id + 1 && after.entries[..id] == state.entries
      && after.trace == state.trace + [SubscribeStarted(key)] && after.maxActive == state.maxActive
      && EntryInv(after, key) && ResolvedInv(after, id) && TaskInv(after, t)
  {
  }

  lemma FirstKeeps(state: State, key: Key)
    requires Inv(state) && key !in state.subscriptions && ActiveCount(state) < state.maxActive
    ensures Inv(SubscribeStep(state, key))
  {
    AllActive(state);
    FirstAdds(state, key);
    AddKeeps(state, SubscribeStep(state, key), key);
  }

  lemma AddKeeps(state: State, after: State, key: Key)
    requires Inv(state) && |state.subscriptions| < state.maxActive == after.maxActive
    requires Linked(after) && OnlyTask(state, after, |state.tasks|)
    requires key !in state.subscriptions && after.subscriptions == state.subscriptions[key := |state.entries|]
    requires |after.entries| == |state.entries| + 1 && after.entries[..|state.entries|] == state.entries
    requires after.trace == state.trace + [SubscribeStarted(key)]
    requires EntryInv(after, key) && ResolvedInv(after, |state.entries|)
    requires |state.tasks| < |after.tasks| && TaskInv(after, |state.tasks|)
    ensures Inv(after)
  {
    CountOne(state.subscriptions, key, |state.entries|);
    TraceGrows(state, after, SubscribeStarted(key));
    AddedKeepsRest(state, after, key);
    Together(after, key, |state.entries|, |state.tasks|);
  }

  lemma AddedKeepsRest(state: State, after: State, key: Key)
    requires Inv(state) && Linked(after) && OnlyTask(state, after, |state.tasks|)
    requires key !in state.subscriptions && after.subscriptions == state.subscriptions[key := |state.entries|]
    requires |after.entries| == |state.entries| + 1 && after.entries[..|state.entries|] == state.entries
    ensures RestInv(after, key, |state.entries|, |state.tasks|)
  {
    assert forall i: nat | i < |state.entries| :: after.entries[..|state.entries|][i] == after.entries[i];
    forall k <- after.subscriptions | k != key ensures EntryInv(after, k) {
      assert EntryInv(state, k);
    }
    forall i: nat | i < |after.entries| && i != |state.entries| ensures ResolvedInv(after, i) {
      assert ResolvedInv(state, i);
      assert state.entries[i].readiness == Pending ==> state.entries[i].key != key;
    }
    forall u: nat | u < |after.tasks| && u != |state.tasks| ensures TaskInv(after, u) {
      assert TaskInv(state, u);
    }
  }

  lemma RefusedKeeps(state: State, key: Key)
    requires Inv(state)
    ensures Inv(state.(tasks := state.tasks + [Task(key, Finished(Refused))]))
  {
    var after := state.(tasks := state.tasks + [Task(key, Finished(Refused))]);
    forall k <- after.subscriptions ensures EntryInv(after, k) {
      assert EntryInv(state, k);
    }
    forall i: nat | i < |after.entries| ensures ResolvedInv(after, i) {
      assert ResolvedInv(state, i);
    }
    forall u: nat | u < |after.tasks| ensures TaskInv(after, u) {
      assert u < |state.tasks| ==> TaskInv(state, u);
    }
  }

  lemma SubscribeKeeps(state: State, key: Key)
    requires Inv(state)
    ensures Inv(SubscribeStep(state, key))
  {
    if key in state.subscriptions {
      JoinKeeps(state, key);
    } else if ActiveCount(state) < state.maxActive {
      FirstKeeps(state, key);
    } else {
      RefusedKeeps(state, key);
    }
  }

  lemma ReturnStays(state: State, t: nat)
    requires Linked(state) && t < |state.tasks| && state.tasks[t].position.Calling? && TaskInv(state, t)
    requires EntryInv(state, state.tasks[t].key)
    ensures
      var key, id := state.tasks[t].key, state.tasks[t].position.entry;
      var after := ReturnStep(state, t);
      && state.subscriptions[key] == id && Stayed(state, after, key, after.entries[id], t)
      && after.trace == state.trace && after.maxActive == state.maxActive
      && EntryInv(after, key) && ResolvedInv(after, id) && TaskInv(after, t)
  {
  }

  lemma ReturnKeeps(state: State, t: nat)
    requires Inv(state) && t < |state.tasks| && state.tasks[t].position.Calling?
    ensures Inv(ReturnStep(state, t))
  {
    var key, id := state.tasks[t].key, state.tasks[t].position.entry;
    assert TaskInv(state, t);
    ReturnStays(state, t);
    StayKeeps(state, ReturnStep(state, t), key, ReturnStep(state, t).entries[id], t);
  }

  lemma RaiseLeaves(state: State, t: nat, cancelled: bool)
    requires Linked(state) && t < |state.tasks| && state.tasks[t].position.Calling? && TaskInv(state, t)
    requires EntryInv(state, state.tasks[t].key)
    ensures
      var key, id := state.tasks[t].key, state.tasks[t].position.entry;
      var after := RaiseStep(state, t, cancelled);
      && state.subscriptions[key] == id && Left(state, after, key, after.entries[id], t)
      && after.trace == state.trace + [SubscribeFailed(key)] && after.maxActive == state.maxActive
      && ResolvedInv(after, id) && TaskInv(after, t)
  {
  }

  lemma RaiseKeeps(state: State, t: nat, cancelled: bool)
    requires Inv(state) && t < |state.tasks| && state.tasks[t].position.Calling?
    ensures Inv(RaiseStep(state, t, cancelled))
  {
    var key, id := state.tasks[t].key, state.tasks[t].position.entry;
    assert TaskInv(state, t);
    RaiseLeaves(state, t, cancelled);
    var after := RaiseStep(state, t, cancelled);
    LeaveKeeps(state, after, key, after.entries[id], t, SubscribeFailed(key));
  }

  /** Giving a queue back keeps everything but possibly the task that gives it back, when that one still waits. */
  ghost predicate GivenBack(state: State, after: State, queue: nat)
    requires Linked(state)
  {
    && Linked(after) && after.tasks == state.tasks && queue < |state.tasks|
    && (forall k <- after.subscriptions :: EntryInv(after, k))
    && (forall id: nat | id < |after.entries| :: ResolvedInv(after, id))
    && (forall t: nat | t < |after.tasks| && t != queue :: TaskInv(after, t))
    && (state.tasks[queue].position.Finished? ==> TaskInv(after, queue))
    && |after.subscriptions| <= after.maxActive && TraceInv(after)
  }

  /** The last listener to leave is never that of a call in flight. */
  lemma LastListenerIsSubscribed(state: State, key: Key, queue: nat)
    requires Linked(state) && key in state.subscriptions && EntryInv(state, key)
    requires queue < |state.tasks| && !state.tasks[queue].position.Calling?
    requires state.entries[state.subscriptions[key]].listeners - {Listener(queue)} == {}
    ensures state.entries[state.subscriptions[key]].phase == Subscribed
  {
    var entry := state.entries[state.subscriptions[key]];
    assert entry.listeners <= (entry.listeners - {Listener(queue)}) + {Listener(queue)};
  }

  /** The listener is not the last of a mapped entry. */
  ghost predicate OthersListen(state: State, key: Key, queue: nat)
    requires Linked(state)
  {
    && key in state.subscriptions && Listener(queue) in state.entries[state.subscriptions[key]].listeners
    && state.entries[state.subscriptions[key]].listeners - {Listener(queue)} != {}
  }

  /** The listener is the only one of a mapped entry. */
  ghost predicate LastListens(state: State, key: Key, queue: nat)
    requires Linked(state)
  {
    && key in state.subscriptions && Listener(queue) in state.entries[state.subscriptions[key]].listeners
    && state.entries[state.subscriptions[key]].listeners - {Listener(queue)} == {}
  }

  lemma GiveBackStays(state: State, key: Key, queue: nat)
    requires Linked(state) && OthersListen(state, key, queue) && EntryInv(state, key)
    requires queue < |state.tasks| && !state.tasks[queue].position.Calling?
    ensures
      var after := UnsubscribeStep(state, key, queue);
      var id := state.subscriptions[key];
      && Stayed(state, after, key, after.entries[id], queue) && after.tasks == state.tasks
      && after.trace == state.trace && after.maxActive == state.maxActive
      && EntryInv(after, key) && ResolvedInv(after, id)
  {
  }

  lemma GiveBackLeaves(state: State, key: Key, queue: nat)
    requires Linked(state) && LastListens(state, key, queue) && EntryInv(state, key)
    requires queue < |state.tasks| && !state.tasks[queue].position.Calling?
    ensures
      var after := UnsubscribeStep(state, key, queue);
      var id := state.subscriptions[key];
      && Left(state, after, key, after.entries[id], queue) && after.tasks == state.tasks
      && after.trace == state.trace + [UnsubscribeStarted(key)] && after.maxActive == state.maxActive
      && ResolvedInv(after, id)
  {
    LastListenerIsSubscribed(state, key, queue);
  }

  lemma StayGivesBack(state: State, after: State, key: Key, changed: Entry, queue: nat)
    requires Inv(state) && Stayed(state, after, key, changed, queue) && queue < |state.tasks|
    requires after.tasks == state.tasks && after.trace == state.trace && after.maxActive == state.maxActive
    requires EntryInv(after, key) && ResolvedInv(after, state.subscriptions[key])
    ensures GivenBack(state, after, queue)
  {
    StayKeepsRest(state, after, key, changed, queue);
  }

  lemma LeaveGivesBack(state: State, after: State, key: Key, gone: Entry, queue: nat)
    requires Inv(state) && Left(state, after, key, gone, queue) && queue < |state.tasks|
    requires after.tasks == state.tasks && after.trace == state.trace + [UnsubscribeStarted(key)]
    requires after.maxActive == state.maxActive && ResolvedInv(after, state.subscriptions[key])
    ensures GivenBack(state, after, queue)
  {
    LeaveKeepsRest(state, after, key, gone, queue);
    TraceGrows(state, after, UnsubscribeStarted(key));
  }

  lemma UnsubscribeKeeps(state: State, key: Key, queue: nat)
    requires Inv(state) && queue < |state.tasks| && !state.tasks[queue].position.Calling?
    ensures GivenBack(state, UnsubscribeStep(state, key, queue), queue)
  {
    var after := UnsubscribeStep(state, key, queue);
    if OthersListen(state, key, queue) {
      GiveBackStays(state, key, queue);
      StayGivesBack(state, after, key, after.entries[state.subscriptions[key]], queue);
    } else if LastListens(state, key, queue) {
      GiveBackLeaves(state, key, queue);
      LeaveGivesBack(state, after, key, after.entries[state.subscriptions[key]], queue);
    } else {
      NothingGivenBack(state, key, queue);
    }
  }

  lemma NothingGivenBack(state: State, key: Key, queue: nat)
    requires Inv(state) && queue < |state.tasks|
    requires !OthersListen(state, key, queue) && !LastListens(state, key, queue)
    ensures GivenBack(state, UnsubscribeStep(state, key, queue), queue)
  {
    assert UnsubscribeStep(state, key, queue) == state;
    assert TaskInv(state, queue);
  }

  /** A task that finishes without calling leaves the rest as it was. */
  lemma FinishKeeps(state: State, t: nat, outcome: Outcome)
    requires Linked(state) && GivenBack(state, state, t) && !state.tasks[t].position.Calling?
    ensures Inv(MoveTask(state, t, Finished(outcome)))
  {
    var after := MoveTask(state, t, Finished(outcome));
    forall k <- after.subscriptions ensures EntryInv(after, k) {
      assert EntryInv(state, k);
    }
    forall id: nat | id < |after.entries| ensures ResolvedInv(after, id) {
      assert ResolvedInv(state, id);
    }
    forall u: nat | u < |after.tasks| ensures TaskInv(after, u) {
      assert u != t ==> TaskInv(state, u);
    }
  }

  lemma StepKeeps(state: State, event: Event)
    requires Inv(state) && Enabled(state, event)
    ensures Inv(Step(state, event))
  {
    match event
    case CallSubscribe(key) => SubscribeKeeps(state, key);
    case ProviderReturns(t) => ReturnKeeps(state, t);
    case ProviderRaises(t, cancelled) => RaiseKeeps(state, t, cancelled);
    case Resume(t) =>
      FinishKeeps(
        state, t, if state.entries[state.tasks[t].position.entry].readiness == Ready then Delivered else Refused);
    case CancelWaiting(t) =>
      UnsubscribeKeeps(state, state.tasks[t].key, t);
      FinishKeeps(UnsubscribeStep(state, state.tasks[t].key, t), t, Cancelled);
    case CallUnsubscribe(key, queue) =>
      UnsubscribeKeeps(state, key, queue);
  }

  // ---- Whole runs ----

  /** The states of a run: any interleaving of calls, provider answers, failures and cancellations. */
  ghost predicate IsRun(maxActive: nat, states: seq<State>, events: seq<Event>) {
    && |states| == |events| + 1 && states[0] == Initial(maxActive)
    && (forall i: nat | i < |events| ::
          Linked(states[i]) && Enabled(states[i], events[i]) && states[i + 1] == Step(states[i], events[i]))
  }

  lemma {:induction false} RunKeeps(maxActive: nat, states: seq<State>, events: seq<Event>, i: nat)
    requires IsRun(maxActive, states, events) && i < |states|
    ensures Inv(states[i]) && states[i].maxActive == maxActive
  {
    if i == 0 {
      InitialInv(maxActive);
    } else {
      RunKeeps(maxActive, states, events, i - 1);
      OneStep(states[i - 1], events[i - 1], states[i]);
    }
  }

  lemma CapacityStays(state: State, event: Event)
    requires Linked(state) && Enabled(state, event)
    ensures Step(state, event).maxActive == state.maxActive
  {
  }

  lemma OneStep(state: State, event: Event, after: State)
    requires Inv(state) && Enabled(state, event) && after == Step(state, event)
    ensures Inv(after) && after.maxActive == state.maxActive
  {
    assert Inv(after) by {
      StepKeeps(state, event);
    }
    CapacityStays(state, event);
  }

  /** What may be relied on in a state. */
  ghost predicate Safe(state: State) {
    && Linked(state)
    && |state.subscriptions| <= state.maxActive
    && (forall key <- state.subscriptions ::
          var entry := state.entries[state.subscriptions[key]];
          && entry.listeners != {} && entry.phase != Rejected
          && (entry.phase == Subscribing ==> Listener(entry.creator) in entry.listeners))
    && (forall t | 0 <= t < |state.tasks| ::
          state.tasks[t].position.Waiting? ==> Served(state, state.tasks[t].position.entry))
  }

  /** An unresolved entry still has its creator's call in flight. */
  ghost predicate Served(state: State, id: nat) {
    && id < |state.entries|
    && (state.entries[id].readiness == Pending ==>
          state.entries[id].creator < |state.tasks| && state.tasks[state.entries[id].creator].position == Calling(id))
  }

  lemma PendingIsServed(state: State, id: nat)
    requires Inv(state) && id < |state.entries|
    ensures Served(state, id)
  {
    assert ResolvedInv(state, id);
    if state.entries[id].readiness == Pending {
      assert EntryInv(state, state.entries[id].key);
    }
  }

  lemma InvIsSafe(state: State)
    requires Inv(state)
    ensures Safe(state)
  {
    forall key <- state.subscriptions
      ensures
        var entry := state.entries[state.subscriptions[key]];
        && entry.listeners != {} && entry.phase != Rejected
        && (entry.phase == Subscribing ==> Listener(entry.creator) in entry.listeners)
    {
      assert EntryInv(state, key);
    }
    forall t | 0 <= t < |state.tasks| && state.tasks[t].position.Waiting?
      ensures Served(state, state.tasks[t].position.entry)
    {
      PendingIsServed(state, state.tasks[t].position.entry);
    }
  }

  /** The last call about a key stands at or after any call about it. */
  lemma {:induction false} LastCallPosition(trace: seq<Call>, key: Key, i: nat) returns (m: nat)
    requires i < |trace| && trace[i].key == key
    ensures i <= m < |trace| && trace[m].key == key && LastCall(trace, key) == Some(trace[m])
  {
    var n := |trace| - 1;
    if trace[n].key == key {
      m := n;
    } else {
      m := LastCallPosition(trace[..n], key, i);
    }
  }

  lemma {:induction false} AlternatingPrefix(trace: seq<Call>, j: nat)
    requires Alternating(trace) && j < |trace|
    ensures trace[j].SubscribeStarted? ==> LastCall(trace[..j], trace[j].key) != Some(SubscribeStarted(trace[j].key))
  {
    var n := |trace| - 1;
    if j < n {
      AlternatingPrefix(trace[..n], j);
      assert trace[..n][..j] == trace[..j];
    }
  }

  /** Between two subscriptions to a key the first one failed, or the key was unsubscribed. */
  lemma SubscribesSeparated(trace: seq<Call>, key: Key, i: nat, j: nat) returns (m: nat)
    requires Alternating(trace) && i < j < |trace|
    requires trace[i] == SubscribeStarted(key) && trace[j] == SubscribeStarted(key)
    ensures i < m < j && (trace[m] == SubscribeFailed(key) || trace[m] == UnsubscribeStarted(key))
  {
    AlternatingPrefix(trace, j);
    m := LastCallPosition(trace[..j], key, i);
    assert trace[..j][m] == trace[m];
  }

  /**
   Every state of every run: an entry in phase subscribing still holds its creator's queue, every
   mapped entry has a listener, the map is within capacity, no task waits on an entry whose call has
   returned without resolving it, and two subscription calls for a key are always separated by a
   failure or an unsubscription.
   */
  lemma EveryRunIsSafe(maxActive: nat, states: seq<State>, events: seq<Event>, i: nat)
    requires IsRun(maxActive, states, events) && i < |states|
    ensures Safe(states[i]) && |states[i].subscriptions| <= maxActive
    ensures forall key, a: nat, b: nat |
              a < b < |states[i].trace| && states[i].trace[a] == SubscribeStarted(key)
                && states[i].trace[b] == SubscribeStarted(key) ::
              exists m | a < m < b ::
                  states[i].trace[m] == SubscribeFailed(key) || states[i].trace[m] == UnsubscribeStarted(key)
  {
    RunKeeps(maxActive, states, events, i);
    InvIsSafe(states[i]);
    var trace := states[i].trace;
    forall key, a: nat, b: nat | a < b < |trace| && trace[a] == SubscribeStarted(key)
      && trace[b] == SubscribeStarted(key)
      ensures exists m | a < m < b :: trace[m] == SubscribeFailed(key) || trace[m] == UnsubscribeStarted(key)
    {
      var m := SubscribesSeparated(trace, key, a, b);
    }
  }

  /** However a call ends, every task waiting on its entry may resume. */
  lemma CallEndsWaiting(maxActive: nat, states: seq<State>, events: seq<Event>, i: nat, waiter: nat)
    requires IsRun(maxActive, states, events) && i < |events| && waiter < |states[i].tasks|
    requires states[i].tasks[waiter].position.Waiting?
    requires events[i].ProviderReturns? || events[i].ProviderRaises?
    requires states[i].tasks[events[i].task].position.entry == states[i].tasks[waiter].position.entry
    ensures states[i + 1].tasks[waiter] == states[i].tasks[waiter]
    ensures Linked(states[i + 1]) && Enabled(states[i + 1], Resume(waiter))
  {
    RunKeeps(maxActive, states, events, i);
    RunKeeps(maxActive, states, events, i + 1);
    assert TaskInv(states[i], events[i].task);
  }

  /** With no call in flight nobody waits in vain, and every mapped entry is subscribed. */
  lemma QuietIsSettled(maxActive: nat, states: seq<State>, events: seq<Event>, i: nat)
    requires IsRun(maxActive, states, events) && i < |states|
    requires forall t | 0 <= t < |states[i].tasks| :: !states[i].tasks[t].position.Calling?
    ensures Linked(states[i])
    ensures forall t | 0 <= t < |states[i].tasks| :: states[i].tasks[t].position.Waiting? ==>
              Enabled(states[i], Resume(t))
    ensures forall key <- states[i].subscriptions :: states[i].entries[states[i].subscriptions[key]].phase == Subscribed
  {
    RunKeeps(maxActive, states, events, i);
    var state := states[i];
    forall t | 0 <= t < |state.tasks| && state.tasks[t].position.Waiting? ensures Enabled(state, Resume(t)) {
      PendingIsServed(state, state.tasks[t].position.entry);
    }
    forall key <- state.subscriptions ensures state.entries[state.subscriptions[key]].phase == Subscribed {
      assert EntryInv(state, key);
    }
  }
}
