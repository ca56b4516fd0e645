/** Provider messages: quotes are numbered and stored, and listeners are told on bounded queues. */
module LiveFeed {
  import opened CoordinatorProtocol
  import opened LiveQuotes

  // ---- Bounded queues ----

  datatype Message = QuoteUpdated | MarketStatusChanged | FeedStatusChanged | ProviderError

  const QUEUE_CAPACITY: nat := 8

  /** A full queue drops its oldest message to take a new one. */
  function Offer(queue: seq<Message>, message: Message): seq<Message> {
    (if |queue| >= QUEUE_CAPACITY then queue[1..] else queue) + [message]
  }

  function OfferAll(queue: seq<Message>, messages: seq<Message>): seq<Message> {
    if messages == [] then queue else Offer(OfferAll(queue, messages[..|messages| - 1]), messages[|messages| - 1])
  }

  function LastOf(messages: seq<Message>, count: nat): seq<Message> {
    if |messages| <= count then messages else messages[|messages| - count..]
  }

  /** A queue nobody reads holds exactly the newest messages that fit, in order. */
  lemma {:induction false} QueueHoldsNewest(queue: seq<Message>, messages: seq<Message>)
    requires |queue| <= QUEUE_CAPACITY
    ensures OfferAll(queue, messages) == LastOf(queue + messages, QUEUE_CAPACITY)
    ensures |OfferAll(queue, messages)| <= QUEUE_CAPACITY
  {
    if messages == [] {
      assert queue + messages == queue;
    } else {
      var n := |messages| - 1;
      QueueHoldsNewest(queue, messages[..n]);
      assert queue + messages == queue + messages[..n] + [messages[n]];
    }
  }

  lemma {:induction false} OfferAllAppends(queue: seq<Message>, before: seq<Message>, after: seq<Message>)
    ensures OfferAll(queue, before + after) == OfferAll(OfferAll(queue, before), after)
  {
    if after == [] {
      assert before + after == before;
    } else {
      var n := |after| - 1;
      OfferAllAppends(queue, before, after[..n]);
      assert (before + after)[..|before + after| - 1] == before + after[..n];
    }
  }

  // ---- What the coordinator keeps of the feed ----

  datatype Segment = Segment(name: nat)

  datatype MarketStatus = MarketStatus(code: nat)

  /** A normalized quote before the coordinator numbers it. */
  datatype Candidate = Candidate(key: Key, price: nat)

  datatype Transport = Connected | Reconnecting | Disconnected | TransportFailed

  /** A provider message, or a change of the transport's state. */
  datatype Signal =
    | Payload(statuses: map<Segment, MarketStatus>, quotes: seq<Candidate>)
    | TransportChanged(transport: Transport)

  /** Stored sequences, the coordinator's own counters, the segment statuses and the queue of each task. */
  datatype Feed = Feed(
    stored: map<Key, nat>, counters: map<Key, nat>, statuses: map<Segment, MarketStatus>,
    queues: map<Listener, seq<Message>>)

  function Count(counters: map<Key, nat>, key: Key): nat {
    if key in counters then counters[key] else 0
  }

  function Publish(queues: map<Listener, seq<Message>>, listeners: set<Listener>, message: Message):
    map<Listener, seq<Message>>
  {
    map l <- queues :: if l in listeners then Offer(queues[l], message) else queues[l]
  }

  /** Who listens to a key. */
  function ListenersOf(state: State, key: Key): set<Listener>
    requires Linked(state)
  {
    if key in state.subscriptions then state.entries[state.subscriptions[key]].listeners else {}
  }

  /** Who listens to any of some keys. */
  ghost function ListenersOfAny(state: State, keys: set<Key>): set<Listener>
    requires Linked(state)
  {
    set k, l | k in keys && l in ListenersOf(state, k) :: l
  }

  /** The segments whose status a message changes. */
  function Changed(statuses: map<Segment, MarketStatus>, news: map<Segment, MarketStatus>): set<Segment> {
    set s <- news | s !in statuses || statuses[s] != news[s]
  }

  /** The subscribed keys of some segments. */
  function KeysIn(state: State, segmentOf: Key -> Segment, segments: set<Segment>): set<Key> {
    set k <- state.subscriptions | segmentOf(k) in segments
  }

  function ReceiveOne(feed: Feed, state: State, candidate: Candidate): Feed
    requires Linked(state)
  {
    var next := Count(feed.counters, candidate.key) + 1;
    if candidate.key in feed.stored && next <= feed.stored[candidate.key] then feed
    else
      feed.(
        stored := feed.stored[candidate.key := next],
        counters := feed.counters[candidate.key := next],
        queues := Publish(feed.queues, ListenersOf(state, candidate.key), QuoteUpdated))
  }

  /** Normalization keeps the quotes of subscribed keys. */
  function Requested(state: State, quotes: seq<Candidate>): seq<Candidate> {
    if quotes == [] then []
    else
      var n := |quotes| - 1;
      Requested(state, quotes[..n]) + if quotes[n].key in state.subscriptions then [quotes[n]] else []
  }

  function ReceiveAll(feed: Feed, state: State, candidates: seq<Candidate>): Feed
    requires Linked(state)
  {
    if candidates == [] then feed
    else ReceiveOne(ReceiveAll(feed, state, candidates[..|candidates| - 1]), state, candidates[|candidates| - 1])
  }

  ghost function ReceiveStatuses(
    feed: Feed, state: State, segmentOf: Key -> Segment, news: map<Segment, MarketStatus>): Feed
    requires Linked(state)
  {
    var told := ListenersOfAny(state, KeysIn(state, segmentOf, Changed(feed.statuses, news)));
    feed.(statuses := feed.statuses + news, queues := Publish(feed.queues, told, MarketStatusChanged))
  }

  function TransportMessage(transport: Transport): Message {
    if transport == TransportFailed then ProviderError else FeedStatusChanged
  }

  ghost function Receive(feed: Feed, state: State, segmentOf: Key -> Segment, signal: Signal): Feed
    requires Linked(state)
  {
    match signal
    case Payload(statuses, quotes) =>
      ReceiveAll(ReceiveStatuses(feed, state, segmentOf, statuses), state, Requested(state, quotes))
    case TransportChanged(transport) =>
      var told := ListenersOfAny(state, state.subscriptions.Keys);
      feed.(queues := Publish(feed.queues, told, TransportMessage(transport)))
  }

  /** The store holds the sequence the counter stands at. */
  predicate InStep(feed: Feed) {
    feed.stored == feed.counters
  }

  function Received(candidates: seq<Candidate>, key: Key): nat {
    if candidates == [] then 0
    else Received(candidates[..|candidates| - 1], key) + if candidates[|candidates| - 1].key == key then 1 else 0
  }

  function Updates(count: nat): (messages: seq<Message>)
    ensures |messages| == count
  {
    seq(count, _ => QuoteUpdated)
  }

  /** The listener's queue is there and is of this key alone. */
  ghost predicate ListensTo(feed: Feed, state: State, listener: Listener, key: Key)
    requires Linked(state)
  {
    && listener in feed.queues && key in state.subscriptions && listener in ListenersOf(state, key)
    && (forall k :: listener in ListenersOf(state, k) ==> k == key)
  }

  /** In the protocol a queue belongs to the task that made it, so it is of one key. */
  lemma ListenersAreOfOneKey(state: State, listener: Listener, j: Key, k: Key)
    requires Inv(state) && listener in ListenersOf(state, j) && listener in ListenersOf(state, k)
    ensures j == k
  {
    assert EntryInv(state, j) && EntryInv(state, k);
  }

  /** One quote: stored, counted and announced, if store and counters are in step. */
  lemma OneQuoteTells(feed: Feed, state: State, candidate: Candidate, key: Key, listener: Listener)
    requires InStep(feed) && Linked(state) && ListensTo(feed, state, listener, key)
    ensures
      var after, mine := ReceiveOne(feed, state, candidate), candidate.key == key;
      && InStep(after) && ListensTo(after, state, listener, key) && after.statuses == feed.statuses
      && Count(after.counters, key) == Count(feed.counters, key) + (if mine then 1 else 0)
      && after.queues[listener]
         == (if mine then Offer(feed.queues[listener], QuoteUpdated) else feed.queues[listener])
  {
  }

  /**
   While store and counters are in step no quote is ever refused: a key's sequence grows by one for each of its
   quotes, and its listeners are offered one update for each.
   */
  lemma {:induction false} SequencesIncrease(
    feed: Feed, state: State, candidates: seq<Candidate>, key: Key, listener: Listener)
    requires InStep(feed) && Linked(state) && ListensTo(feed, state, listener, key)
    ensures
      var after := ReceiveAll(feed, state, candidates);
      && InStep(after) && ListensTo(after, state, listener, key) && after.statuses == feed.statuses
      && Count(after.counters, key) == Count(feed.counters, key) + Received(candidates, key)
      && after.queues[listener] == OfferAll(feed.queues[listener], Updates(Received(candidates, key)))
  {
    if candidates == [] {
    } else {
      var n := |candidates| - 1;
      SequencesIncrease(feed, state, candidates[..n], key, listener);
      OneQuoteTells(ReceiveAll(feed, state, candidates[..n]), state, candidates[n], key, listener);
      OfferOneMore(feed.queues[listener], Received(candidates[..n], key));
    }
  }

  lemma OfferOneMore(queue: seq<Message>, count: nat)
    ensures OfferAll(queue, Updates(count + 1)) == Offer(OfferAll(queue, Updates(count)), QuoteUpdated)
  {
    assert Updates(count + 1)[..count] == Updates(count);
  }

  /** A key whose stored sequence is ahead of its counter: none of its quotes is ever stored or announced again. */
  lemma {:induction false} AheadIsStuck(feed: Feed, state: State, candidates: seq<Candidate>, key: Key)
    requires Linked(state) && key in feed.stored && Count(feed.counters, key) < feed.stored[key]
    ensures
      var after := ReceiveAll(feed, state, candidates);
      key in after.stored && after.stored[key] == feed.stored[key]
      && Count(after.counters, key) == Count(feed.counters, key)
  {
    if candidates == [] {
    } else {
      AheadIsStuck(feed, state, candidates[..|candidates| - 1], key);
    }
  }

  // ---- What a listener hears ----

  /** What one signal tells the listeners of a subscribed key. */
  function Told(statuses: map<Segment, MarketStatus>, segment: Segment, key: Key, signal: Signal): seq<Message> {
    match signal
    case Payload(news, quotes) =>
      var changed := segment in news && (segment in statuses ==> statuses[segment] != news[segment]);
      (if changed then [MarketStatusChanged] else []) + Updates(Received(quotes, key))
    case TransportChanged(transport) => [if transport.TransportFailed? then ProviderError else FeedStatusChanged]
  }

  function StatusesAfter(statuses: map<Segment, MarketStatus>, signal: Signal): map<Segment, MarketStatus> {
    if signal.Payload? then statuses + signal.statuses else statuses
  }

  function QuotesIn(signal: Signal, key: Key): nat {
    if signal.Payload? then Received(signal.quotes, key) else 0
  }

  lemma ReceivedAppends(candidates: seq<Candidate>, candidate: Candidate, key: Key)
    ensures Received(candidates + [candidate], key) == Received(candidates, key) + if candidate.key == key then 1 else 0
  {
    assert (candidates + [candidate])[..|candidates|] == candidates;
  }

  lemma {:induction false} RequestedKeepsKey(state: State, quotes: seq<Candidate>, key: Key)
    requires key in state.subscriptions
    ensures Received(Requested(state, quotes), key) == Received(quotes, key)
  {
    if quotes == [] {
    } else {
      var n := |quotes| - 1;
      var front := Requested(state, quotes[..n]);
      RequestedKeepsKey(state, quotes[..n], key);
      ReceivedAppends(front, quotes[n], key);
      assert front + [] == front;
    }
  }

  lemma PublishOffers(
    queues: map<Listener, seq<Message>>, listeners: set<Listener>, message: Message, listener: Listener)
    requires listener in queues
    ensures listener in Publish(queues, listeners, message)
    ensures Publish(queues, listeners, message)[listener]
            == OfferAll(queues[listener], if listener in listeners then [message] else [])
  {
    assert OfferAll(queues[listener], [message]) == Offer(OfferAll(queues[listener], []), message);
  }

  lemma ListenerOfAny(feed: Feed, state: State, keys: set<Key>, listener: Listener, key: Key)
    requires Linked(state) && ListensTo(feed, state, listener, key)
    ensures listener in ListenersOfAny(state, keys) <==> key in keys
  {
  }

  lemma StatusesTell(
    feed: Feed, state: State, segmentOf: Key -> Segment, news: map<Segment, MarketStatus>, key: Key, listener: Listener)
    requires Linked(state) && ListensTo(feed, state, listener, key)
    ensures
      var after := ReceiveStatuses(feed, state, segmentOf, news);
      && ListensTo(after, state, listener, key)
      && after.queues[listener]
         == OfferAll(
              feed.queues[listener],
              if segmentOf(key) in Changed(feed.statuses, news) then [MarketStatusChanged] else [])
  {
    var keys := KeysIn(state, segmentOf, Changed(feed.statuses, news));
    ListenerOfAny(feed, state, keys, listener, key);
    PublishOffers(feed.queues, ListenersOfAny(state, keys), MarketStatusChanged, listener);
  }

  /** What one signal does to the feed, as a listener of a key sees it. */
  lemma SignalTells(
    feed: Feed, state: State, segmentOf: Key -> Segment, signal: Signal, key: Key, listener: Listener)
    requires InStep(feed) && Linked(state) && ListensTo(feed, state, listener, key)
    ensures
      var after := Receive(feed, state, segmentOf, signal);
      && InStep(after) && ListensTo(after, state, listener, key)
      && after.statuses == StatusesAfter(feed.statuses, signal)
      && Count(after.counters, key) == Count(feed.counters, key) + QuotesIn(signal, key)
      && after.queues[listener]
         == OfferAll(feed.queues[listener], Told(feed.statuses, segmentOf(key), key, signal))
  {
    match signal
    case Payload(news, quotes) =>
      StatusesTell(feed, state, segmentOf, news, key, listener);
      var informed := ReceiveStatuses(feed, state, segmentOf, news);
      SequencesIncrease(informed, state, Requested(state, quotes), key, listener);
      RequestedKeepsKey(state, quotes, key);
      OfferAllAppends(
        feed.queues[listener],
        if segmentOf(key) in Changed(feed.statuses, news) then [MarketStatusChanged] else [],
        Updates(Received(quotes, key)));
    case TransportChanged(transport) =>
      var keys := state.subscriptions.Keys;
      ListenerOfAny(feed, state, keys, listener, key);
      PublishOffers(feed.queues, ListenersOfAny(state, keys), TransportMessage(transport), listener);
  }

  // ---- Whole feeds ----

  ghost function ReceiveSignals(feed: Feed, state: State, segmentOf: Key -> Segment, signals: seq<Signal>): Feed
    requires Linked(state)
  {
    if signals == [] then feed
    else
      var n := |signals| - 1;
      Receive(ReceiveSignals(feed, state, segmentOf, signals[..n]), state, segmentOf, signals[n])
  }

  function StatusesAfterAll(statuses: map<Segment, MarketStatus>, signals: seq<Signal>): map<Segment, MarketStatus> {
    if signals == [] then statuses
    else StatusesAfter(StatusesAfterAll(statuses, signals[..|signals| - 1]), signals[|signals| - 1])
  }

  function AllTold(
    statuses: map<Segment, MarketStatus>, segment: Segment, key: Key, signals: seq<Signal>): seq<Message>
  {
    if signals == [] then []
    else
      var n := |signals| - 1;
      AllTold(statuses, segment, key, signals[..n])
      + Told(StatusesAfterAll(statuses, signals[..n]), segment, key, signals[n])
  }

  function AllQuotes(signals: seq<Signal>, key: Key): nat {
    if signals == [] then 0
    else AllQuotes(signals[..|signals| - 1], key) + QuotesIn(signals[|signals| - 1], key)
  }

  /**
   Over any signals received while the subscriptions stand, a listener's queue holds the newest that fit of what
   it held and what it was told: for each message a status change if its segment's status changed, then one update
   for each quote of its key, and one message for each change of the transport. The key's sequence has grown by
   exactly the number of its quotes.
   */
  lemma {:induction false} ListenerHears(
    feed: Feed, state: State, segmentOf: Key -> Segment, signals: seq<Signal>, key: Key, listener: Listener)
    requires InStep(feed) && Linked(state) && ListensTo(feed, state, listener, key)
    requires |feed.queues[listener]| <= QUEUE_CAPACITY
    ensures
      var after := ReceiveSignals(feed, state, segmentOf, signals);
      && InStep(after) && ListensTo(after, state, listener, key)
      && after.statuses == StatusesAfterAll(feed.statuses, signals)
      && Count(after.counters, key) == Count(feed.counters, key) + AllQuotes(signals, key)
      && after.queues[listener]
         == LastOf(feed.queues[listener] + AllTold(feed.statuses, segmentOf(key), key, signals), QUEUE_CAPACITY)
  {
    HearsAll(feed, state, segmentOf, signals, key, listener);
    QueueHoldsNewest(feed.queues[listener], AllTold(feed.statuses, segmentOf(key), key, signals));
  }

  lemma {:induction false} HearsAll(
    feed: Feed, state: State, segmentOf: Key -> Segment, signals: seq<Signal>, key: Key, listener: Listener)
    requires InStep(feed) && Linked(state) && ListensTo(feed, state, listener, key)
    ensures
      var after := ReceiveSignals(feed, state, segmentOf, signals);
      && InStep(after) && ListensTo(after, state, listener, key)
      && after.statuses == StatusesAfterAll(feed.statuses, signals)
      && Count(after.counters, key) == Count(feed.counters, key) + AllQuotes(signals, key)
      && after.queues[listener]
         == OfferAll(feed.queues[listener], AllTold(feed.statuses, segmentOf(key), key, signals))
  {
    if signals == [] {
    } else {
      var n := |signals| - 1;
      HearsAll(feed, state, segmentOf, signals[..n], key, listener);
      var before := ReceiveSignals(feed, state, segmentOf, signals[..n]);
      SignalTells(before, state, segmentOf, signals[n], key, listener);
      OfferAllAppends(
        feed.queues[listener], AllTold(feed.statuses, segmentOf(key), key, signals[..n]),
        Told(before.statuses, segmentOf(key), key, signals[n]));
    }
  }

  /** From nothing, a subscribed key's stored sequence is the number of its quotes. */
  lemma FreshFeedCountsQuotes(
    feed: Feed, state: State, segmentOf: Key -> Segment, signals: seq<Signal>, key: Key, listener: Listener)
    requires feed.stored == feed.counters == map[] && Linked(state) && ListensTo(feed, state, listener, key)
    requires AllQuotes(signals, key) > 0
    ensures
      var after := ReceiveSignals(feed, state, segmentOf, signals);
      key in after.stored && after.stored[key] == AllQuotes(signals, key)
  {
    HearsAll(feed, state, segmentOf, signals, key, listener);
  }

  // ---- The object ----

  /** The quotes put for some candidates, in order, with their prices and one time of reception. */
  ghost predicate PutsOf(operations: seq<Operation>, candidates: seq<Candidate>, receivedAt: int) {
    && |operations| == |candidates|
    && (forall i: nat | i < |candidates| ::
          && operations[i].PutQuote? && operations[i].quote.key == candidates[i].key
          && operations[i].quote.price == candidates[i].price && operations[i].quote.receivedAt == receivedAt)
  }

  /** Publishing to two groups of listeners in turn is publishing to both. */
  lemma PublishTwice(queues: map<Listener, seq<Message>>, first: set<Listener>, second: set<Listener>, message: Message)
    requires first !! second
    ensures Publish(Publish(queues, first, message), second, message) == Publish(queues, first + second, message)
  {
  }

  lemma OthersListen(state: State, keys: set<Key>, key: Key)
    requires Inv(state) && key !in keys
    ensures ListenersOfAny(state, keys) !! ListenersOf(state, key)
  {
    forall l | l in ListenersOfAny(state, keys) ensures l !in ListenersOf(state, key) {
      var k :| k in keys && l in ListenersOf(state, k);
      if l in ListenersOf(state, key) {
        ListenersAreOfOneKey(state, l, k, key);
      }
    }
  }

  lemma ListenersOfOneMore(state: State, keys: set<Key>, key: Key)
    requires Linked(state)
    ensures ListenersOfAny(state, keys + {key}) == ListenersOfAny(state, keys) + ListenersOf(state, key)
  {
    forall l ensures l in ListenersOfAny(state, keys + {key}) <==>
                     l in ListenersOfAny(state, keys) || l in ListenersOf(state, key)
    {
      if l in ListenersOf(state, key) {
        assert key in keys + {key};
      }
      if l in ListenersOfAny(state, keys) {
        var k :| k in keys && l in ListenersOf(state, k);
        assert k in keys + {key};
      }
    }
  }

  lemma PublishToOneMore(queues: map<Listener, seq<Message>>, state: State, keys: set<Key>, key: Key, message: Message)
    requires Inv(state) && key !in keys
    ensures
      Publish(Publish(queues, ListenersOfAny(state, keys), message), ListenersOf(state, key), message)
      == Publish(queues, ListenersOfAny(state, keys + {key}), message)
  {
    OthersListen(state, keys, key);
    ListenersOfOneMore(state, keys, key);
    PublishTwice(queues, ListenersOfAny(state, keys), ListenersOf(state, key), message);
  }

  lemma PublishToNobody(queues: map<Listener, seq<Message>>, state: State, message: Message)
    requires Linked(state)
    ensures Publish(queues, ListenersOfAny(state, {}), message) == queues
  {
    assert ListenersOfAny(state, {}) == {};
  }

  method PickKey(keys: set<Key>) returns (key: Key)
    requires keys != {}
    ensures key in keys
  {
    key :| key in keys;
  }

  /** Tells the listeners of some keys, key by key. */
  method PublishKeys(queues: map<Listener, seq<Message>>, state: State, keys: set<Key>, message: Message)
    returns (told: map<Listener, seq<Message>>)
    requires Inv(state)
    ensures told == Publish(queues, ListenersOfAny(state, keys), message)
  {
    told := queues;
    ghost var done: set<Key> := {};
    var rest := keys;
    PublishToNobody(queues, state, message);
    while rest != {}
      invariant done == keys - rest && rest <= keys
      invariant told == Publish(queues, ListenersOfAny(state, done), message)
      decreases |rest|
    {
      var key := PickKey(rest);
      PublishToOneMore(queues, state, done, key, message);
      told := Publish(told, ListenersOf(state, key), message);
      rest := rest - {key};
      done := done + {key};
    }
    assert done == keys;
  }

  function Sequences(quotes: map<Key, Quote>): map<Key, nat> {
    map k <- quotes :: quotes[k].sequence
  }

  lemma SequencesUpdate(quotes: map<Key, Quote>, quote: Quote)
    ensures Sequences(quotes[quote.key := quote]) == Sequences(quotes)[quote.key := quote.sequence]
  {
  }

  /** The feed side of the coordinator: it numbers quotes, stores them and tells the listeners. */
  class FeedReceiver {
    const store: QuoteStore
    var counters: map<Key, nat>
    var statuses: map<Segment, MarketStatus>
    var queues: map<Listener, seq<Message>>

    ghost function Value(): Feed
      reads this, store
    {
      Feed(Sequences(store.quotes), counters, statuses, queues)
    }

    /** Counters start at nothing, so they are in step with the store exactly when it is empty. */
    constructor (store: QuoteStore)
      ensures this.store == store && queues == map[] && statuses == map[]
      ensures InStep(Value()) <==> store.quotes == map[]
    {
      this.store := store;
      counters, statuses, queues := map[], map[], map[];
    }

    method ReceiveMessage(
      state: State, segmentOf: Key -> Segment, news: map<Segment, MarketStatus>, quotes: seq<Candidate>,
      receivedAt: int)
      requires Inv(state) && store.Valid()
      modifies this, store
      ensures Value() == Receive(old(Value()), state, segmentOf, Payload(news, quotes)) && store.Valid()
      ensures old(store.history) <= store.history
      ensures PutsOf(store.history[|old(store.history)|..], Requested(state, quotes), receivedAt)
    {
      var candidates := Filter(state, quotes);
      var keys := KeysIn(state, segmentOf, Changed(statuses, news));
      statuses := statuses + news;
      queues := PublishKeys(queues, state, keys, MarketStatusChanged);
      ReceiveCandidates(state, candidates, receivedAt);
    }

    method Filter(state: State, quotes: seq<Candidate>) returns (candidates: seq<Candidate>)
      ensures candidates == Requested(state, quotes)
    {
      candidates := [];
      var i := 0;
      while i < |quotes|
        invariant 0 <= i <= |quotes|
        invariant candidates == Requested(state, quotes[..i])
      {
        assert quotes[..i + 1][..i] == quotes[..i];
        if quotes[i].key in state.subscriptions {
          candidates := candidates + [quotes[i]];
        }
        i := i + 1;
      }
      assert quotes[..i] == quotes;
    }

    method ReceiveCandidates(state: State, candidates: seq<Candidate>, receivedAt: int)
      requires Linked(state) && store.Valid()
      modifies this, store
      ensures Value() == ReceiveAll(old(Value()), state, candidates) && store.Valid()
      ensures old(store.history) <= store.history
      ensures PutsOf(store.history[|old(store.history)|..], candidates, receivedAt)
      ensures statuses == old(statuses)
    {
      var i := 0;
      while i < |candidates|
        invariant 0 <= i <= |candidates| && statuses == old(statuses)
        invariant Value() == ReceiveAll(old(Value()), state, candidates[..i]) && store.Valid()
        invariant old(store.history) <= store.history
        invariant PutsOf(store.history[|old(store.history)|..], candidates[..i], receivedAt)
      {
        assert candidates[..i + 1][..i] == candidates[..i];
        ReceiveCandidate(state, candidates[i], receivedAt);
        i := i + 1;
      }
      assert candidates[..i] == candidates;
    }

    method ReceiveCandidate(state: State, candidate: Candidate, receivedAt: int)
      requires Linked(state) && store.Valid()
      modifies this, store
      ensures Value() == ReceiveOne(old(Value()), state, candidate) && store.Valid()
      ensures statuses == old(statuses)
      ensures
        var number := if candidate.key in old(counters) then old(counters)[candidate.key] + 1 else 1;
        store.history
        == old(store.history) + [PutQuote(Quote(candidate.key, number, receivedAt, candidate.price))]
    {
      var next := Count(counters, candidate.key) + 1;
      var quote := Quote(candidate.key, next, receivedAt, candidate.price);
      SequencesUpdate(store.quotes, quote);
      var stored := store.Put(quote);
      if stored {
        counters := counters[candidate.key := next];
        queues := Publish(queues, ListenersOf(state, candidate.key), QuoteUpdated);
      }
    }

    /** A lost or resumed connection marks the quotes of every subscribed key stale, and everybody is told. */
    method ReceiveTransport(state: State, segmentOf: Key -> Segment, transport: Transport)
      requires Inv(state) && store.Valid()
      modifies this, store
      ensures Value() == Receive(old(Value()), state, segmentOf, TransportChanged(transport)) && store.Valid()
      ensures store.history
              == old(store.history) + if transport == Connected then [] else [MarkKeys(state.subscriptions.Keys)]
    {
      if transport != Connected {
        store.MarkStale(state.subscriptions.Keys);
      }
      queues := PublishKeys(queues, state, state.subscriptions.Keys, TransportMessage(transport));
    }
  }
}
