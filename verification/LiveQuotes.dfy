/** The store of the newest quote of each key, and what its whole history decides about a key. */
module LiveQuotes {
  import opened CoordinatorProtocol

  /** A quote with the sequence number the coordinator gave it; times are in seconds. */
  datatype Quote = Quote(key: Key, sequence: nat, receivedAt: int, price: nat)

  datatype Freshness = AwaitingFirstTick | Fresh | Stale

  datatype Operation = PutQuote(quote: Quote) | MarkKeys(keys: set<Key>)

  /** What the store holds. */
  datatype Quotes = Quotes(quotes: map<Key, Quote>, forcedStale: set<Key>)

  predicate Stores(held: Quotes, quote: Quote) {
    quote.key in held.quotes ==> held.quotes[quote.key].sequence < quote.sequence
  }

  function Apply(held: Quotes, operation: Operation): Quotes {
    match operation
    case PutQuote(quote) =>
      if Stores(held, quote) then Quotes(held.quotes[quote.key := quote], held.forcedStale - {quote.key}) else held
    case MarkKeys(keys) => held.(forcedStale := held.forcedStale + keys * held.quotes.Keys)
  }

  function Replay(history: seq<Operation>): Quotes {
    if history == [] then Quotes(map[], {}) else Apply(Replay(history[..|history| - 1]), history[|history| - 1])
  }

  // ---- What a history decides ----

  predicate PutsAt(history: seq<Operation>, key: Key, i: nat) {
    i < |history| && history[i].PutQuote? && history[i].quote.key == key
  }

  /** The put at `i` is the first of the greatest sequence ever put for the key. */
  ghost predicate NewestAt(history: seq<Operation>, key: Key, i: nat) {
    && PutsAt(history, key, i)
    && (forall j: nat | j < i && PutsAt(history, key, j) :: history[j].quote.sequence < history[i].quote.sequence)
    && (forall j: nat | i < j && PutsAt(history, key, j) :: history[j].quote.sequence <= history[i].quote.sequence)
  }

  /** The key was marked stale after operation `i`. */
  ghost predicate MarkedAfter(history: seq<Operation>, key: Key, i: nat) {
    exists j :: i < j < |history| && history[j].MarkKeys? && key in history[j].keys
  }

  /** The held quote of a key is its newest one, and it is forced stale exactly when it was marked since. */
  ghost predicate Decided(history: seq<Operation>, key: Key, i: nat) {
    var held := Replay(history);
    && NewestAt(history, key, i)
    && key in held.quotes && held.quotes[key] == history[i].quote
    && (key in held.forcedStale <==> MarkedAfter(history, key, i))
  }

  ghost predicate NeverPut(history: seq<Operation>, key: Key) {
    forall i: nat | i < |history| :: !PutsAt(history, key, i)
  }

  lemma NewestIsOne(history: seq<Operation>, key: Key, i: nat, j: nat)
    requires NewestAt(history, key, i) && NewestAt(history, key, j)
    ensures i == j
  {
  }

  /** An operation about another key, or one that stores nothing, leaves the newest put where it is. */
  lemma NewestStays(history: seq<Operation>, operation: Operation, key: Key, i: nat)
    requires NewestAt(history, key, i)
    requires operation.PutQuote? && operation.quote.key == key ==> operation.quote.sequence <= history[i].quote.sequence
    ensures NewestAt(history + [operation], key, i)
    ensures MarkedAfter(history + [operation], key, i)
            <==> MarkedAfter(history, key, i) || (operation.MarkKeys? && key in operation.keys)
  {
    var longer := history + [operation];
    assert forall j: nat | j < |history| :: longer[j] == history[j];
    if MarkedAfter(history, key, i) {
      var j :| i < j < |history| && history[j].MarkKeys? && key in history[j].keys;
      assert longer[j] == history[j];
    }
    if operation.MarkKeys? && key in operation.keys {
      assert longer[|history|] == operation;
    }
  }

  /** A put that is stored becomes the newest. */
  lemma NewestMoves(history: seq<Operation>, quote: Quote)
    requires NeverPut(history, quote.key)
             || exists i: nat :: NewestAt(history, quote.key, i) && history[i].quote.sequence < quote.sequence
    ensures NewestAt(history + [PutQuote(quote)], quote.key, |history|)
    ensures !MarkedAfter(history + [PutQuote(quote)], quote.key, |history|)
  {
    var longer := history + [PutQuote(quote)];
    forall j: nat | j < |history| && PutsAt(longer, quote.key, j)
      ensures longer[j].quote.sequence < quote.sequence
    {
      assert PutsAt(history, quote.key, j);
      if i: nat :| NewestAt(history, quote.key, i) && history[i].quote.sequence < quote.sequence {
        assert j != i ==> history[j].quote.sequence <= history[i].quote.sequence;
      }
    }
  }

  /**
   Over any history of puts and marks, a key holds the first quote of its greatest sequence, and is forced stale
   exactly when it was marked after that quote; a key without a put holds nothing and is never forced stale.
   */
  lemma {:induction false} HistoryDecides(history: seq<Operation>, key: Key)
    ensures NeverPut(history, key) ==> key !in Replay(history).quotes && key !in Replay(history).forcedStale
    ensures !NeverPut(history, key) ==> exists i: nat :: Decided(history, key, i)
  {
    if history == [] {
    } else {
      var n := |history| - 1;
      var front, operation := history[..n], history[n];
      assert history == front + [operation];
      HistoryDecides(front, key);
      HistoryGrows(front, operation, key);
    }
  }

  lemma HistoryGrows(front: seq<Operation>, operation: Operation, key: Key)
    requires NeverPut(front, key) ==> key !in Replay(front).quotes && key !in Replay(front).forcedStale
    requires !NeverPut(front, key) ==> exists i: nat :: Decided(front, key, i)
    ensures
      var history := front + [operation];
      && (NeverPut(history, key) ==> key !in Replay(history).quotes && key !in Replay(history).forcedStale)
      && (!NeverPut(history, key) ==> exists i: nat :: Decided(history, key, i))
  {
    var history, n := front + [operation], |front|;
    assert history[..n] == front && history[n] == operation;
    assert forall j: nat | j < n :: PutsAt(history, key, j) <==> PutsAt(front, key, j);
    if operation.PutQuote? && operation.quote.key == key && Stores(Replay(front), operation.quote) {
      NewestMoves(front, operation.quote);
      assert Decided(history, key, n);
    } else if !NeverPut(front, key) {
      var i: nat :| Decided(front, key, i);
      NewestStays(front, operation, key, i);
      assert history[i] == front[i];
      assert Decided(history, key, i);
    }
  }

  /** Whether a key is fresh: its newest quote is young enough and was not marked since. */
  lemma FreshExactlyWhen(history: seq<Operation>, key: Key, i: nat)
    requires NewestAt(history, key, i)
    ensures Decided(history, key, i)
  {
    HistoryDecides(history, key);
    var k: nat :| Decided(history, key, k);
    NewestIsOne(history, key, i, k);
  }

  // ---- The store ----

  class QuoteStore {
    const staleAfter: int
    var quotes: map<Key, Quote>
    var forcedStale: set<Key>
    ghost var history: seq<Operation>

    ghost predicate Valid()
      reads this
    {
      Quotes(quotes, forcedStale) == Replay(history)
    }

    constructor (staleAfter: int)
      ensures Valid() && history == [] && this.staleAfter == staleAfter
    {
      this.staleAfter := staleAfter;
      quotes, forcedStale, history := map[], {}, [];
    }

    method Put(quote: Quote) returns (stored: bool)
      requires Valid()
      modifies this
      ensures Valid() && history == old(history) + [PutQuote(quote)]
      ensures stored <==> (quote.key in old(quotes) ==> old(quotes)[quote.key].sequence < quote.sequence)
      ensures quotes == if stored then old(quotes)[quote.key := quote] else old(quotes)
    {
      assert (history + [PutQuote(quote)])[..|history|] == history;
      stored := quote.key !in quotes || quote.sequence > quotes[quote.key].sequence;
      history := history + [PutQuote(quote)];
      if stored {
        quotes := quotes[quote.key := quote];
        forcedStale := forcedStale - {quote.key};
      }
    }

    /** Only keys that have a quote become stale. */
    method MarkStale(keys: set<Key>)
      requires Valid()
      modifies this`forcedStale, this`history
      ensures Valid() && history == old(history) + [MarkKeys(keys)]
    {
      assert (history + [MarkKeys(keys)])[..|history|] == history;
      history := history + [MarkKeys(keys)];
      forcedStale := forcedStale + keys * quotes.Keys;
    }

    /** A key is fresh exactly when its newest quote is young enough and was not marked stale since. */
    method CheckFreshness(key: Key, now: int) returns (freshness: Freshness)
      requires Valid()
      ensures freshness == AwaitingFirstTick <==> NeverPut(history, key)
      ensures forall i: nat | NewestAt(history, key, i) ::
                freshness == Fresh
                <==> !MarkedAfter(history, key, i) && now - history[i].quote.receivedAt <= staleAfter
    {
      HistoryDecides(history, key);
      forall i: nat | NewestAt(history, key, i) ensures Decided(history, key, i) {
        FreshExactlyWhen(history, key, i);
      }
      if key !in quotes {
        return AwaitingFirstTick;
      }
      if key in forcedStale {
        return Stale;
      }
      freshness := if now - quotes[key].receivedAt <= staleAfter then Fresh else Stale;
    }
  }
}
