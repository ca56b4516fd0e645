/** The coordinator object: each method is one atomic step of the protocol. */
module Coordinator {
  import opened CoordinatorProtocol

  class MarketDataCoordinator {
    const maxActive: nat
    var subscriptions: map<Key, nat>
    var entries: seq<Entry>
    var tasks: seq<Task>
    var trace: seq<Call>

    ghost function Current(): State
      reads this
    {
      State(maxActive, subscriptions, entries, tasks, trace)
    }

    constructor (maxActive: nat)
      ensures Current() == Initial(maxActive) && Inv(Current())
    {
      this.maxActive := maxActive;
      subscriptions, entries, tasks, trace := map[], [], [], [];
    }

    /** The first locked body of a subscription, and the provider call when the entry is new. */
    method BeginSubscribe(key: Key) returns (task: nat)
      requires Inv(Current())
      modifies this
      ensures Current() == Step(old(Current()), CallSubscribe(key)) && Inv(Current())
      ensures task == |old(tasks)|
    {
      StepKeeps(Current(), CallSubscribe(key));
      task := AddListener(key);
    }

    /** Refuses at capacity, makes a new entry, or joins the one there is. */
    method AddListener(key: Key) returns (task: nat)
      requires Linked(Current())
      modifies this
      ensures Current() == SubscribeStep(old(Current()), key) && task == |old(tasks)|
    {
      task := |tasks|;
      if key !in subscriptions || entries[subscriptions[key]].phase == Rejected {
        var active := |set k <- subscriptions | entries[subscriptions[k]].phase != Rejected|;
        if active >= maxActive {
          tasks := tasks + [Task(key, Finished(Refused))];
          return;
        }
        var id := |entries|;
        entries := entries + [Entry(key, task, Subscribing, {Listener(task)}, Pending)];
        subscriptions := subscriptions[key := id];
        tasks := tasks + [Task(key, Calling(id))];
        trace := trace + [SubscribeStarted(key)];
      } else {
        var id := subscriptions[key];
        var entry := entries[id];
        entries := entries[id := entry.(listeners := entry.listeners + {Listener(task)})];
        tasks := tasks + [Task(key, AfterAwait(id, entry.readiness))];
      }
    }

    /** The provider accepted the subscription. */
    method CompleteSubscribe(task: nat)
      requires Inv(Current()) && Enabled(Current(), ProviderReturns(task))
      modifies this
      ensures Current() == Step(old(Current()), ProviderReturns(task)) && Inv(Current())
    {
      StepKeeps(Current(), ProviderReturns(task));
      SettleEntry(task);
    }

    /** Marks the entry a call was for subscribed, if it is still the mapped one, and moves its task on. */
    method SettleEntry(task: nat)
      requires Linked(Current()) && task < |tasks| && tasks[task].position.Calling?
      modifies this
      ensures Current() == ReturnStep(old(Current()), task)
    {
      var key, id := tasks[task].key, tasks[task].position.entry;
      if key in subscriptions && subscriptions[key] == id {
        var entry := entries[id].(phase := Subscribed);
        if entry.readiness == Pending {
          entry := entry.(readiness := Ready);
        }
        entries := entries[id := entry];
      }
      tasks := tasks[task := tasks[task].(position := AfterAwait(id, entries[id].readiness))];
    }

    /** The provider call failed, or its task was cancelled while calling. */
    method FailSubscribe(task: nat, cancelled: bool)
      requires Inv(Current()) && Enabled(Current(), ProviderRaises(task, cancelled))
      modifies this
      ensures Current() == Step(old(Current()), ProviderRaises(task, cancelled)) && Inv(Current())
    {
      StepKeeps(Current(), ProviderRaises(task, cancelled));
      RejectEntry(task, cancelled);
    }

    /** Rejects the entry a call was for, if it is still the mapped one, and moves its task on. */
    method RejectEntry(task: nat, cancelled: bool)
      requires Linked(Current()) && task < |tasks| && tasks[task].position.Calling?
      modifies this
      ensures Current() == RaiseStep(old(Current()), task, cancelled)
    {
      var key, id := tasks[task].key, tasks[task].position.entry;
      if key in subscriptions && subscriptions[key] == id {
        var entry := entries[id].(phase := Rejected, listeners := {});
        subscriptions := Without(subscriptions, key);
        if entry.readiness == Pending {
          entry := entry.(readiness := Failed);
        }
        entries := entries[id := entry];
      }
      trace := trace + [SubscribeFailed(key)];
      tasks := tasks[task :=
        tasks[task].(position := if cancelled then Finished(Cancelled) else AfterAwait(id, entries[id].readiness))];
    }

    /** The locked body of `unsubscribe`, and the provider call when the last listener of an active entry leaves. */
    method Unsubscribe(key: Key, queue: nat)
      requires Linked(Current())
      modifies this`subscriptions, this`entries, this`trace
      ensures Current() == UnsubscribeStep(old(Current()), key, queue)
    {
      if key !in subscriptions || Listener(queue) !in entries[subscriptions[key]].listeners {
        return;
      }
      var id := subscriptions[key];
      var entry := entries[id].(listeners := entries[id].listeners - {Listener(queue)});
      entries := entries[id := entry];
      if entry.listeners == {} {
        subscriptions := Without(subscriptions, key);
        if entry.phase == Subscribed {
          trace := trace + [UnsubscribeStarted(key)];
        }
      }
    }

    /** A caller returns the queue it was given. */
    method ReturnQueue(key: Key, queue: nat)
      requires Inv(Current()) && Enabled(Current(), CallUnsubscribe(key, queue))
      modifies this
      ensures Current() == Step(old(Current()), CallUnsubscribe(key, queue)) && Inv(Current())
    {
      StepKeeps(Current(), CallUnsubscribe(key, queue));
      Unsubscribe(key, queue);
    }

    /** A task is cancelled while it waits for the entry to be ready. */
    method CancelWaiter(task: nat)
      requires Inv(Current()) && Enabled(Current(), CancelWaiting(task))
      modifies this
      ensures Current() == Step(old(Current()), CancelWaiting(task)) && Inv(Current())
    {
      StepKeeps(Current(), CancelWaiting(task));
      Unsubscribe(tasks[task].key, task);
      tasks := tasks[task := tasks[task].(position := Finished(Cancelled))];
    }

    /** A task whose entry is resolved returns its queue or raises. */
    method ResumeWaiter(task: nat)
      requires Inv(Current()) && Enabled(Current(), Resume(task))
      modifies this
      ensures Current() == Step(old(Current()), Resume(task)) && Inv(Current())
    {
      StepKeeps(Current(), Resume(task));
      var id := tasks[task].position.entry;
      tasks := tasks[task := tasks[task].(position := AfterAwait(id, entries[id].readiness))];
    }
  }
}
