/** What every interleaving of the subscription protocol gives its callers, told from the history of calls alone. */
module CoordinatorOutcomes {
  import opened CoordinatorProtocol

  // ---- How a call ended ----

  /** The event ends the provider call of an entry. */
  predicate EndsCall(state: State, event: Event, id: nat, returned: bool) {
    && (if returned then event.ProviderReturns? else event.ProviderRaises?)
    && event.task < |state.tasks| && state.tasks[event.task].position == Calling(id)
  }

  ghost predicate CallEnded(states: seq<State>, events: seq<Event>, i: nat, id: nat, returned: bool)
    requires i <= |events| < |states|
  {
    exists j: nat | j < i :: EndsCall(states[j], events[j], id, returned)
  }

  /** What a state says of the futures of the entries, compared with an earlier one. */
  ghost predicate Resolves(state: State, after: State, event: Event, id: nat)
    requires id < |after.entries|
  {
    && |state.entries| <= |after.entries|
    && (EndsCall(state, event, id, true) ==> after.entries[id].readiness == Ready)
    && (EndsCall(state, event, id, false) ==> after.entries[id].readiness == Failed)
    && (!EndsCall(state, event, id, true) && !EndsCall(state, event, id, false) ==>
          after.entries[id].readiness == if id < |state.entries| then state.entries[id].readiness else Pending)
  }

  lemma ReturnResolves(state: State, t: nat, id: nat)
    requires Inv(state) && Enabled(state, ProviderReturns(t)) && id < |ReturnStep(state, t).entries|
    ensures Resolves(state, ReturnStep(state, t), ProviderReturns(t), id)
  {
    assert TaskInv(state, t) && EntryInv(state, state.tasks[t].key);
  }

  lemma RaiseResolves(state: State, t: nat, cancelled: bool, id: nat)
    requires Inv(state) && Enabled(state, ProviderRaises(t, cancelled)) && id < |RaiseStep(state, t, cancelled).entries|
    ensures Resolves(state, RaiseStep(state, t, cancelled), ProviderRaises(t, cancelled), id)
  {
    assert TaskInv(state, t) && EntryInv(state, state.tasks[t].key);
  }

  lemma RequestResolvesNothing(state: State, key: Key, id: nat)
    requires Linked(state) && id < |SubscribeStep(state, key).entries|
    ensures Resolves(state, SubscribeStep(state, key), CallSubscribe(key), id)
  {
  }

  lemma GiveBackResolvesNothing(state: State, key: Key, queue: nat, event: Event, id: nat)
    requires Linked(state) && id < |UnsubscribeStep(state, key, queue).entries|
    requires !event.ProviderReturns? && !event.ProviderRaises?
    ensures Resolves(state, UnsubscribeStep(state, key, queue), event, id)
  {
  }

  /** How an entry's future is resolved by one event. */
  lemma ReadinessStep(state: State, event: Event, after: State, id: nat)
    requires Inv(state) && Enabled(state, event) && after == Step(state, event) && id < |after.entries|
    ensures Resolves(state, after, event, id)
  {
    match event
    case CallSubscribe(key) => RequestResolvesNothing(state, key, id);
    case ProviderReturns(t) => ReturnResolves(state, t, id);
    case ProviderRaises(t, cancelled) => RaiseResolves(state, t, cancelled, id);
    case Resume(_) =>
    case CancelWaiting(t) => GiveBackResolvesNothing(state, state.tasks[t].key, t, event, id);
    case CallUnsubscribe(key, queue) => GiveBackResolvesNothing(state, key, queue, event, id);
  }

  lemma {:induction false} EntriesStay(maxActive: nat, states: seq<State>, events: seq<Event>, j: nat, i: nat)
    requires IsRun(maxActive, states, events) && j <= i < |states|
    ensures |states[j].entries| <= |states[i].entries| && |states[j].tasks| <= |states[i].tasks|
  {
    if j == i {
    } else {
      EntriesStay(maxActive, states, events, j, i - 1);
      assert states[i] == Step(states[i - 1], events[i - 1]);
    }
  }

  /** A call that ends has not ended before, and is that of an entry. */
  ghost predicate EndsFirst(state: State, event: Event, id: nat) {
    EndsCall(state, event, id, true) || EndsCall(state, event, id, false) ==>
      id < |state.entries| && state.entries[id].readiness == Pending
  }

  lemma CallEndsOnce(state: State, event: Event, id: nat)
    requires Inv(state) && Enabled(state, event)
    ensures EndsFirst(state, event, id)
  {
    if EndsCall(state, event, id, true) || EndsCall(state, event, id, false) {
      assert TaskInv(state, event.task);
      assert EntryInv(state, state.tasks[event.task].key);
    }
  }

  /** One step of a run, as far as futures are concerned. */
  lemma RunResolves(maxActive: nat, states: seq<State>, events: seq<Event>, i: nat, id: nat)
    requires IsRun(maxActive, states, events) && i < |events|
    ensures EndsFirst(states[i], events[i], id)
    ensures |states[i].entries| <= |states[i + 1].entries|
    ensures id < |states[i + 1].entries| ==> Resolves(states[i], states[i + 1], events[i], id)
  {
    RunKeeps(maxActive, states, events, i);
    CallEndsOnce(states[i], events[i], id);
    EntriesStay(maxActive, states, events, i, i + 1);
    if id < |states[i + 1].entries| {
      ReadinessStep(states[i], events[i], states[i + 1], id);
    }
  }

  lemma EndedOneMore(states: seq<State>, events: seq<Event>, i: nat, id: nat, returned: bool)
    requires i < |events| < |states|
    ensures CallEnded(states, events, i + 1, id, returned)
            <==> CallEnded(states, events, i, id, returned) || EndsCall(states[i], events[i], id, returned)
  {
  }

  lemma {:induction false} NotEndedBefore(
    maxActive: nat, states: seq<State>, events: seq<Event>, i: nat, id: nat, returned: bool)
    requires IsRun(maxActive, states, events) && i < |states| && |states[i].entries| <= id
    ensures !CallEnded(states, events, i, id, returned)
  {
    if i == 0 {
    } else {
      RunResolves(maxActive, states, events, i - 1, id);
      NotEndedBefore(maxActive, states, events, i - 1, id, returned);
      EndedOneMore(states, events, i - 1, id, returned);
    }
  }

  lemma ResolvedNext(state: State, after: State, event: Event, id: nat, returned: bool, raised: bool)
    requires id < |after.entries| && Resolves(state, after, event, id) && EndsFirst(state, event, id)
    requires if id < |state.entries| then
               && (state.entries[id].readiness == Ready <==> returned)
               && (state.entries[id].readiness == Failed <==> raised)
             else !returned && !raised
    ensures after.entries[id].readiness == Ready <==> returned || EndsCall(state, event, id, true)
    ensures after.entries[id].readiness == Failed <==> raised || EndsCall(state, event, id, false)
  {
  }

  /** An entry's future is resolved exactly by the end of its call, and as that ended. */
  lemma {:induction false} ResolvedByItsCall(
    maxActive: nat, states: seq<State>, events: seq<Event>, i: nat, id: nat)
    requires IsRun(maxActive, states, events) && i < |states| && id < |states[i].entries|
    ensures states[i].entries[id].readiness == Ready <==> CallEnded(states, events, i, id, true)
    ensures states[i].entries[id].readiness == Failed <==> CallEnded(states, events, i, id, false)
  {
    if i == 0 {
    } else {
      RunResolves(maxActive, states, events, i - 1, id);
      EndedOneMore(states, events, i - 1, id, true);
      EndedOneMore(states, events, i - 1, id, false);
      var returned, raised := CallEnded(states, events, i - 1, id, true), CallEnded(states, events, i - 1, id, false);
      if id < |states[i - 1].entries| {
        ResolvedByItsCall(maxActive, states, events, i - 1, id);
      } else {
        NotEndedBefore(maxActive, states, events, i - 1, id, true);
        NotEndedBefore(maxActive, states, events, i - 1, id, false);
      }
      ResolvedNext(states[i - 1], states[i], events[i - 1], id, returned, raised);
    }
  }

  // ---- What a caller ends with ----

  /** The event settles a task: by capacity, by an entry that is subscribed, by its call, or by cancellation. */
  ghost predicate SettledAt(states: seq<State>, events: seq<Event>, j: nat, t: nat, outcome: Outcome)
    requires j < |events| < |states|
  {
    var state := states[j];
    match events[j]
    case CallSubscribe(key) =>
      && t == |state.tasks|
      && (if key in state.subscriptions then
            outcome == Delivered && CallEnded(states, events, j, state.subscriptions[key], true)
          else
            outcome == Refused && |state.subscriptions| >= state.maxActive)
    case ProviderReturns(caller) => t == caller && outcome == Delivered
    case ProviderRaises(caller, cancelled) => t == caller && outcome == if cancelled then Cancelled else Refused
    case Resume(waiter) =>
      && t == waiter < |state.tasks| && state.tasks[t].position.Waiting?
      && (outcome == Delivered || outcome == Refused)
      && CallEnded(states, events, j, state.tasks[t].position.entry, outcome == Delivered)
    case CancelWaiting(waiter) => t == waiter && outcome == Cancelled
    case CallUnsubscribe(_, _) => false
  }

  /** The task had the outcome before, or the event gives it that one. */
  ghost predicate FinishedBy(states: seq<State>, events: seq<Event>, i: nat, t: nat, outcome: Outcome)
    requires i < |events| < |states|
  {
    || (t < |states[i].tasks| && states[i].tasks[t].position == Finished(outcome))
    || SettledAt(states, events, i, t, outcome)
  }

  /** After an event the task has the outcome exactly when it is finished by it. */
  ghost predicate FinishesRight(states: seq<State>, events: seq<Event>, i: nat, t: nat, outcome: Outcome)
    requires i < |events| < |states|
  {
    t < |states[i + 1].tasks| ==>
      (states[i + 1].tasks[t].position == Finished(outcome) <==> FinishedBy(states, events, i, t, outcome))
  }

  lemma RequestSettles(maxActive: nat, states: seq<State>, events: seq<Event>, i: nat, t: nat, outcome: Outcome)
    requires IsRun(maxActive, states, events) && i < |events| && events[i].CallSubscribe?
    ensures FinishesRight(states, events, i, t, outcome)
  {
    RunKeeps(maxActive, states, events, i);
    var state, key := states[i], events[i].key;
    if key in state.subscriptions {
      ResolvedByItsCall(maxActive, states, events, i, state.subscriptions[key]);
      assert EntryInv(state, key);
    } else {
      AllActive(state);
    }
  }

  /** The tasks after one of them moved. */
  predicate MovedOnly(state: State, after: State, t: nat, position: Position) {
    t < |state.tasks| && after.tasks == state.tasks[t := Task(state.tasks[t].key, position)]
  }

  lemma ReturnDelivers(state: State, t: nat)
    requires Linked(state) && Enabled(state, ProviderReturns(t)) && TaskInv(state, t)
    requires EntryInv(state, state.tasks[t].key)
    ensures MovedOnly(state, ReturnStep(state, t), t, Finished(Delivered))
  {
  }

  lemma RaiseRefuses(state: State, t: nat, cancelled: bool)
    requires Linked(state) && Enabled(state, ProviderRaises(t, cancelled)) && TaskInv(state, t)
    requires EntryInv(state, state.tasks[t].key)
    ensures MovedOnly(
              state, RaiseStep(state, t, cancelled), t, Finished(if cancelled then Cancelled else Refused))
  {
  }

  lemma GiveBackSettlesNobody(state: State, key: Key, queue: nat)
    requires Linked(state)
    ensures UnsubscribeStep(state, key, queue).tasks == state.tasks
  {
  }

  lemma CancelSettles(state: State, waiter: nat)
    requires Linked(state) && Enabled(state, CancelWaiting(waiter))
    ensures MovedOnly(state, CancelStep(state, waiter), waiter, Finished(Cancelled))
  {
    GiveBackSettlesNobody(state, state.tasks[waiter].key, waiter);
  }

  lemma ResumeMoves(state: State, waiter: nat)
    requires Linked(state) && Enabled(state, Resume(waiter))
    ensures
      var id := state.tasks[waiter].position.entry;
      MovedOnly(
        state, Step(state, Resume(waiter)), waiter,
        Finished(if state.entries[id].readiness == Ready then Delivered else Refused))
  {
  }

  /** Where the task of an event ends, when it does; nobody else moves. */
  lemma EventMoves(maxActive: nat, states: seq<State>, events: seq<Event>, i: nat)
    requires IsRun(maxActive, states, events) && i < |events|
    ensures
      var state, after := states[i], states[i + 1];
      match events[i]
      case CallSubscribe(_) => true
      case ProviderReturns(caller) => MovedOnly(state, after, caller, Finished(Delivered))
      case ProviderRaises(caller, cancelled) =>
        MovedOnly(state, after, caller, Finished(if cancelled then Cancelled else Refused))
      case Resume(waiter) =>
        var id := state.tasks[waiter].position.entry;
        MovedOnly(
          state, after, waiter, Finished(if state.entries[id].readiness == Ready then Delivered else Refused))
      case CancelWaiting(waiter) => MovedOnly(state, after, waiter, Finished(Cancelled))
      case CallUnsubscribe(_, _) => after.tasks == state.tasks
  {
    CallerHasEntry(maxActive, states, events, i);
    var state := states[i];
    match events[i]
    case CallSubscribe(_) =>
    case ProviderReturns(caller) => ReturnDelivers(state, caller);
    case ProviderRaises(caller, cancelled) => RaiseRefuses(state, caller, cancelled);
    case Resume(waiter) => ResumeMoves(state, waiter);
    case CancelWaiting(waiter) => CancelSettles(state, waiter);
    case CallUnsubscribe(key, queue) => GiveBackSettlesNobody(state, key, queue);
  }

  lemma CallerHasEntry(maxActive: nat, states: seq<State>, events: seq<Event>, i: nat)
    requires IsRun(maxActive, states, events) && i < |events|
    ensures events[i].ProviderReturns? || events[i].ProviderRaises? ==>
              && TaskInv(states[i], events[i].task) && states[i].tasks[events[i].task].key in states[i].subscriptions
              && EntryInv(states[i], states[i].tasks[events[i].task].key)
  {
    RunKeeps(maxActive, states, events, i);
    if events[i].ProviderReturns? || events[i].ProviderRaises? {
      assert TaskInv(states[i], events[i].task);
    }
  }

  lemma ResumeSettles(maxActive: nat, states: seq<State>, events: seq<Event>, i: nat, t: nat, outcome: Outcome)
    requires IsRun(maxActive, states, events) && i < |events| && events[i].Resume?
    ensures FinishesRight(states, events, i, t, outcome)
  {
    EventMoves(maxActive, states, events, i);
    ResolvedByItsCall(maxActive, states, events, i, states[i].tasks[events[i].task].position.entry);
  }

  /** One event finishes exactly the task it settles, and a finished task keeps its outcome. */
  lemma FinishStep(maxActive: nat, states: seq<State>, events: seq<Event>, i: nat, t: nat, outcome: Outcome)
    requires IsRun(maxActive, states, events) && i < |events|
    ensures FinishesRight(states, events, i, t, outcome)
  {
    if events[i].CallSubscribe? {
      RequestSettles(maxActive, states, events, i, t, outcome);
    } else if events[i].Resume? {
      ResumeSettles(maxActive, states, events, i, t, outcome);
    } else {
      EventMoves(maxActive, states, events, i);
    }
  }

  lemma SettledTaskExists(maxActive: nat, states: seq<State>, events: seq<Event>, j: nat, t: nat, outcome: Outcome)
    requires IsRun(maxActive, states, events) && j < |events| && SettledAt(states, events, j, t, outcome)
    ensures t < |states[j + 1].tasks|
  {
    assert states[j + 1] == Step(states[j], events[j]);
  }

  ghost predicate Settled(states: seq<State>, events: seq<Event>, i: nat, t: nat, outcome: Outcome)
    requires i <= |events| < |states|
  {
    exists j: nat | j < i :: SettledAt(states, events, j, t, outcome)
  }

  lemma SettledOneMore(states: seq<State>, events: seq<Event>, i: nat, t: nat, outcome: Outcome)
    requires i < |events| < |states|
    ensures Settled(states, events, i + 1, t, outcome)
            <==> Settled(states, events, i, t, outcome) || SettledAt(states, events, i, t, outcome)
  {
  }

  /** One step of a run, as far as outcomes are concerned. */
  lemma RunSettles(maxActive: nat, states: seq<State>, events: seq<Event>, i: nat, t: nat, outcome: Outcome)
    requires IsRun(maxActive, states, events) && i < |events|
    ensures |states[i].tasks| <= |states[i + 1].tasks|
    ensures t < |states[i + 1].tasks| && states[i + 1].tasks[t].position == Finished(outcome)
            <==> FinishedBy(states, events, i, t, outcome)
  {
    EntriesStay(maxActive, states, events, i, i + 1);
    if SettledAt(states, events, i, t, outcome) {
      SettledTaskExists(maxActive, states, events, i, t, outcome);
    }
    FinishStep(maxActive, states, events, i, t, outcome);
  }

  /**
   In every interleaving a task has an outcome exactly when some event gave it that one: its queue when the call for
   its entry returned, a refusal when that raised or at capacity, a cancellation when it was cancelled.
   */
  lemma {:induction false} OutcomeExactlyWhenSettled(
    maxActive: nat, states: seq<State>, events: seq<Event>, i: nat, t: nat, outcome: Outcome)
    requires IsRun(maxActive, states, events) && i < |states|
    ensures t < |states[i].tasks| && states[i].tasks[t].position == Finished(outcome)
            <==> Settled(states, events, i, t, outcome)
  {
    if i == 0 {
    } else {
      RunSettles(maxActive, states, events, i - 1, t, outcome);
      SettledOneMore(states, events, i - 1, t, outcome);
      OutcomeExactlyWhenSettled(maxActive, states, events, i - 1, t, outcome);
    }
  }

  // ---- Who holds a queue ----

  /** The entry is the mapped one of its key, and the task's queue is among its listeners. */
  predicate HoldsQueue(state: State, t: nat, id: nat) {
    && id < |state.entries| && IsCurrent(state, state.entries[id].key, id)
    && Listener(t) in state.entries[id].listeners
  }

  /** The event is the task's own request, and it gets this entry: the one there is, or a new one within capacity. */
  predicate Joins(state: State, event: Event, t: nat, id: nat) {
    && event.CallSubscribe? && t == |state.tasks|
    && (if event.key in state.subscriptions then id == state.subscriptions[event.key]
        else |state.subscriptions| < state.maxActive && id == |state.entries|)
  }

  predicate GivesBack(state: State, event: Event, t: nat) {
    t < |state.tasks| && (event == CancelWaiting(t) || event == CallUnsubscribe(state.tasks[t].key, t))
  }

  /** After an event the queue is fed by the entry exactly when its task joins or goes on holding it. */
  predicate HoldsRight(state: State, event: Event, after: State, t: nat, id: nat) {
    HoldsQueue(after, t, id)
    <==> Joins(state, event, t, id)
         || (HoldsQueue(state, t, id) && !GivesBack(state, event, t) && !EndsCall(state, event, id, false))
  }

  lemma ReturnKeepsQueues(state: State, caller: nat, t: nat, id: nat)
    requires Inv(state) && Enabled(state, ProviderReturns(caller))
    ensures HoldsRight(state, ProviderReturns(caller), ReturnStep(state, caller), t, id)
  {
    assert TaskInv(state, caller);
  }

  /** The mapped entry is taken off the map, and the others are left as they are. */
  predicate Unmaps(state: State, after: State, called: nat) {
    && called < |state.entries| == |after.entries| && IsCurrent(state, state.entries[called].key, called)
    && after.subscriptions == Without(state.subscriptions, state.entries[called].key)
    && after.entries[called].key == state.entries[called].key
    && (forall id: nat | id < |state.entries| && id != called :: after.entries[id] == state.entries[id])
  }

  lemma RaiseUnmaps(state: State, caller: nat, cancelled: bool, called: nat)
    requires Inv(state) && Enabled(state, ProviderRaises(caller, cancelled))
    requires state.tasks[caller].position == Calling(called)
    ensures Unmaps(state, RaiseStep(state, caller, cancelled), called)
  {
    assert TaskInv(state, caller);
  }

  lemma UnmappedHolds(state: State, after: State, called: nat, t: nat, id: nat)
    requires Unmaps(state, after, called)
    ensures HoldsQueue(after, t, id) <==> HoldsQueue(state, t, id) && id != called
  {
  }

  lemma RaiseTakesItsQueues(state: State, caller: nat, cancelled: bool, t: nat, id: nat)
    requires Inv(state) && Enabled(state, ProviderRaises(caller, cancelled))
    ensures HoldsRight(state, ProviderRaises(caller, cancelled), RaiseStep(state, caller, cancelled), t, id)
  {
    var called := state.tasks[caller].position.entry;
    RaiseUnmaps(state, caller, cancelled, called);
    UnmappedHolds(state, RaiseStep(state, caller, cancelled), called, t, id);
    assert EndsCall(state, ProviderRaises(caller, cancelled), id, false) <==> id == called;
  }

  lemma CancelGivesBack(state: State, waiter: nat, t: nat, id: nat)
    requires Inv(state) && Enabled(state, CancelWaiting(waiter))
    ensures HoldsRight(state, CancelWaiting(waiter), CancelStep(state, waiter), t, id)
  {
    ReturnQueueStep(state, state.tasks[waiter].key, waiter, t, id);
    var left := UnsubscribeStep(state, state.tasks[waiter].key, waiter);
    assert HoldsQueue(CancelStep(state, waiter), t, id) <==> HoldsQueue(left, t, id);
  }

  lemma CallerGivesBack(state: State, key: Key, queue: nat, t: nat, id: nat)
    requires Inv(state) && Enabled(state, CallUnsubscribe(key, queue))
    ensures HoldsRight(state, CallUnsubscribe(key, queue), UnsubscribeStep(state, key, queue), t, id)
  {
    ReturnQueueStep(state, key, queue, t, id);
  }

  lemma QueueStep(state: State, event: Event, after: State, t: nat, id: nat)
    requires Inv(state) && Enabled(state, event) && after == Step(state, event)
    ensures HoldsRight(state, event, after, t, id)
  {
    match event
    case CallSubscribe(key) => RequestStep(state, key, t, id);
    case ProviderReturns(caller) => ReturnKeepsQueues(state, caller, t, id);
    case ProviderRaises(caller, cancelled) => RaiseTakesItsQueues(state, caller, cancelled, t, id);
    case Resume(_) =>
    case CancelWaiting(waiter) => CancelGivesBack(state, waiter, t, id);
    case CallUnsubscribe(key, queue) => CallerGivesBack(state, key, queue, t, id);
  }

  lemma RequestStep(state: State, key: Key, t: nat, id: nat)
    requires Inv(state)
    ensures HoldsRight(state, CallSubscribe(key), SubscribeStep(state, key), t, id)
  {
    if key in state.subscriptions {
      assert EntryInv(state, key);
      JoinHolds(state, key, t, id);
    } else {
      AllActive(state);
      if |state.subscriptions| < state.maxActive {
        if id < |state.entries| && IsCurrent(state, state.entries[id].key, id) {
          assert EntryInv(state, state.entries[id].key);
        }
        FirstHolds(state, key, t, id);
      }
    }
  }

  lemma JoinHolds(state: State, key: Key, t: nat, id: nat)
    requires Linked(state) && key in state.subscriptions && EntryInv(state, key)
    ensures HoldsRight(state, CallSubscribe(key), SubscribeStep(state, key), t, id)
  {
  }

  lemma FirstHolds(state: State, key: Key, t: nat, id: nat)
    requires Linked(state) && key !in state.subscriptions && ActiveCount(state) < state.maxActive
    requires |state.subscriptions| < state.maxActive
    ensures HoldsRight(state, CallSubscribe(key), SubscribeStep(state, key), t, id)
  {
    var after := SubscribeStep(state, key);
    assert after.subscriptions == state.subscriptions[key := |state.entries|];
    if id < |state.entries| {
      assert after.entries[id] == state.entries[id];
    }
  }

  /** One step of a run, as far as queues are concerned. */
  lemma RunHolds(maxActive: nat, states: seq<State>, events: seq<Event>, i: nat, t: nat, id: nat)
    requires IsRun(maxActive, states, events) && i < |events|
    ensures HoldsRight(states[i], events[i], states[i + 1], t, id)
  {
    RunKeeps(maxActive, states, events, i);
    QueueStep(states[i], events[i], states[i + 1], t, id);
  }

  lemma ReturnQueueStep(state: State, key: Key, queue: nat, t: nat, id: nat)
    requires Inv(state) && queue < |state.tasks|
    ensures HoldsQueue(UnsubscribeStep(state, key, queue), t, id)
            <==> HoldsQueue(state, t, id) && !(t == queue && key == state.tasks[queue].key)
  {
    if id < |state.entries| && IsCurrent(state, state.entries[id].key, id) {
      QueueOfKey(state, state.entries[id].key, queue);
    }
    if key in state.subscriptions {
      QueueOfKey(state, key, queue);
    }
    QueueLeaves(state, key, queue, t, id);
  }

  /** The mapped entry of a key is that key's, and only tasks of the key listen to it. */
  lemma QueueOfKey(state: State, key: Key, queue: nat)
    requires Inv(state) && queue < |state.tasks| && key in state.subscriptions
    ensures OwnQueue(state, key, queue)
  {
    assert EntryInv(state, key);
  }

  predicate OwnQueue(state: State, key: Key, queue: nat)
    requires Linked(state) && queue < |state.tasks| && key in state.subscriptions
  {
    var entry := state.entries[state.subscriptions[key]];
    entry.key == key && (Listener(queue) in entry.listeners ==> state.tasks[queue].key == key)
  }

  lemma QueueLeaves(state: State, key: Key, queue: nat, t: nat, id: nat)
    requires Linked(state) && queue < |state.tasks|
    requires id < |state.entries| && IsCurrent(state, state.entries[id].key, id) ==>
               OwnQueue(state, state.entries[id].key, queue)
    requires key in state.subscriptions ==> OwnQueue(state, key, queue)
    ensures HoldsQueue(UnsubscribeStep(state, key, queue), t, id)
            <==> HoldsQueue(state, t, id) && !(t == queue && key == state.tasks[queue].key)
  {
    if key in state.subscriptions {
      if id == state.subscriptions[key] {
        var listeners := state.entries[id].listeners;
        assert Listener(queue) in listeners ==>
            (Listener(t) in listeners - {Listener(queue)} <==> Listener(t) in listeners && t != queue);
        assert listeners - {Listener(queue)} == {} ==> Listener(t) !in listeners - {Listener(queue)};
      } else {
        assert HoldsQueue(UnsubscribeStep(state, key, queue), t, id) <==> HoldsQueue(state, t, id);
      }
    }
  }

  /** The task joined the entry, and since then neither gave its queue back nor saw the entry's call fail. */
  ghost predicate JoinedAt(states: seq<State>, events: seq<Event>, i: nat, j: nat, t: nat, id: nat)
    requires i <= |events| < |states|
  {
    && j < i && Joins(states[j], events[j], t, id)
    && (forall k: nat | j < k < i ::
          !GivesBack(states[k], events[k], t) && !EndsCall(states[k], events[k], id, false))
  }

  ghost predicate HeldSinceJoined(states: seq<State>, events: seq<Event>, i: nat, t: nat, id: nat)
    requires i <= |events| < |states|
  {
    exists j: nat | j < i :: JoinedAt(states, events, i, j, t, id)
  }

  /**
   In every interleaving a task's queue is fed by an entry exactly when the task joined that entry, has not given
   the queue back, and the entry's call has not failed. So nobody else's step takes a queue away.
   */
  lemma {:induction false} HeldExactlySinceJoined(
    maxActive: nat, states: seq<State>, events: seq<Event>, i: nat, t: nat, id: nat)
    requires IsRun(maxActive, states, events) && i < |states|
    ensures HoldsQueue(states[i], t, id) <==> HeldSinceJoined(states, events, i, t, id)
  {
    if i == 0 {
    } else {
      RunHolds(maxActive, states, events, i - 1, t, id);
      HeldExactlySinceJoined(maxActive, states, events, i - 1, t, id);
      HeldOneMore(states, events, i, t, id);
    }
  }

  lemma HeldOneMore(states: seq<State>, events: seq<Event>, i: nat, t: nat, id: nat)
    requires 0 < i <= |events| < |states| && HoldsRight(states[i - 1], events[i - 1], states[i], t, id)
    requires HoldsQueue(states[i - 1], t, id) <==> HeldSinceJoined(states, events, i - 1, t, id)
    ensures HoldsQueue(states[i], t, id) <==> HeldSinceJoined(states, events, i, t, id)
  {
    JoinedOneMore(states, events, i, t, id);
  }

  lemma JoinedOneMore(states: seq<State>, events: seq<Event>, i: nat, t: nat, id: nat)
    requires 0 < i <= |events| < |states|
    ensures HeldSinceJoined(states, events, i, t, id)
            <==> Joins(states[i - 1], events[i - 1], t, id)
                 || (HeldSinceJoined(states, events, i - 1, t, id)
                     && !GivesBack(states[i - 1], events[i - 1], t)
                     && !EndsCall(states[i - 1], events[i - 1], id, false))
  {
    var state, event, last := states[i - 1], events[i - 1], i - 1;
    if HeldSinceJoined(states, events, i, t, id) {
      var j: nat :| j < i && JoinedAt(states, events, i, j, t, id);
      if j < last {
        assert JoinedAt(states, events, last, j, t, id);
      }
    }
    if Joins(state, event, t, id) {
      assert JoinedAt(states, events, i, last, t, id);
    }
    if HeldSinceJoined(states, events, last, t, id) && !GivesBack(state, event, t)
      && !EndsCall(state, event, id, false)
    {
      var j: nat :| j < last && JoinedAt(states, events, last, j, t, id);
      assert JoinedAt(states, events, i, j, t, id);
    }
  }
}
