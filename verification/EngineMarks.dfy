/** What a run's book is worth at a market state, in terms of its fills and the prices of that state. */
module EngineMarks {
  import opened Money
  import opened Fills
  import opened Ledger
  import opened Engine
  import opened EngineSafety
  import opened EngineDecisions

  /** What so many contracts are worth at a price rounded to cents. */
  function Worth(quantity: int, multiplier: int, price: real): int {
    Round(price) * quantity * multiplier
  }

  /** The starting value, the cash of the fills, and what the fills left to hold at the prices of a state. */
  function MarkedValue(config: Config, state: MarketState, fills: seq<Fill>): int {
    Round(config.risk.startingNav) + FillCash(fills)
    + Worth(config.units, config.call.multiplier, config.model(config.call, state).price)
    + Worth(config.units, config.put.multiplier, config.model(config.put, state).price)
    + Worth(NetTraded(fills, config.futuresId), config.futuresMultiplier, state.futuresPrice)
  }

  /** Every position of the book is marked at the prices of a state. */
  ghost predicate MarkedAt(config: Config, state: MarketState, book: Book) {
    && config.call.id in book.positions
    && book.positions[config.call.id].mark == Round(config.model(config.call, state).price)
    && config.put.id in book.positions
    && book.positions[config.put.id].mark == Round(config.model(config.put, state).price)
    && (config.futuresId in book.positions ==>
          book.positions[config.futuresId].mark == Round(state.futuresPrice))
  }

  function HoldingOf(ids: seq<InstrumentId>, positions: map<InstrumentId, Positions.Position>, id: InstrumentId): int
    requires forall i <- ids :: i in positions
  {
    if id in ids then positions[id].MarketValue() else 0
  }

  lemma HoldingsAppend(
    front: seq<InstrumentId>, last: InstrumentId, positions: map<InstrumentId, Positions.Position>, id: InstrumentId)
    requires last in positions && last !in front && forall i <- front :: i in positions
    ensures HoldingOf(front + [last], positions, id)
            == if id == last then positions[last].MarketValue() else HoldingOf(front, positions, id)
  {
  }

  /** The holdings of at most three instruments, one by one. */
  lemma {:induction false} HoldingsOfThree(
    ids: seq<InstrumentId>, positions: map<InstrumentId, Positions.Position>,
    a: InstrumentId, b: InstrumentId, c: InstrumentId)
    requires (forall id <- ids :: id in positions && id in {a, b, c}) && a != b && a != c && b != c
    requires forall i, j :: 0 <= i < j < |ids| ==> ids[i] != ids[j]
    ensures HoldingsTotal(ids, positions)
            == HoldingOf(ids, positions, a) + HoldingOf(ids, positions, b) + HoldingOf(ids, positions, c)
  {
    if ids == [] {
    } else {
      var front, last := ids[..|ids| - 1], ids[|ids| - 1];
      assert ids == front + [last] && forall id <- front :: id in ids;
      HoldingsOfThree(front, positions, a, b, c);
      HoldingsAppend(front, last, positions, a);
      HoldingsAppend(front, last, positions, b);
      HoldingsAppend(front, last, positions, c);
      assert HoldingOf(front, positions, last) == 0;
    }
  }

  lemma MarketValueIsWorth(position: Positions.Position, price: real)
    requires position.mark == Round(price)
    ensures position.MarketValue() == Worth(position.quantity, position.multiplier, price)
  {
  }

  /** A marked book is worth the starting value, the cash of its fills, and what they left to hold. */
  lemma ValueOfMarked(config: Config, optionCash: int, run: RunState, state: MarketState)
    requires config.Valid() && config.DistinctInstruments() && BookInv(config, optionCash, run)
    requires MarkedAt(config, state, run.book)
    requires NetTraded(run.fills, config.futuresId) == Quantity(run.book, config.futuresId)
    ensures run.book.PortfolioValue() == MarkedValue(config, state, run.fills)
  {
    var book := run.book;
    ValueIsExact(book);
    HoldingsOfThree(book.ids, book.positions, config.call.id, config.put.id, config.futuresId);
    MarketValueIsWorth(book.positions[config.call.id], config.model(config.call, state).price);
    MarketValueIsWorth(book.positions[config.put.id], config.model(config.put, state).price);
    if config.futuresId in book.positions {
      MarketValueIsWorth(book.positions[config.futuresId], state.futuresPrice);
    } else {
      assert Worth(0, config.futuresMultiplier, state.futuresPrice) == 0;
    }
  }

  lemma ArriveMarks(config: Config, run: RunState, state: MarketState)
    requires config.DistinctInstruments() && Ready(config, run.book)
    ensures MarkedAt(config, state, Arrive(config, run, state).book)
  {
  }

  /** A hedge is filled at the futures price it is marked at. */
  lemma ExecuteMarks(config: Config, run: RunState, state: MarketState, requested: int)
    requires config.Valid() && config.DistinctInstruments() && state.Valid() && Ready(config, run.book)
    requires MarkedAt(config, state, run.book) && Execute(config, run, state, requested).1
    ensures MarkedAt(config, state, Execute(config, run, state, requested).0.book)
  {
    if requested != 0 {
      var fill := Simulate(HedgeIntent(config, requested), state.futuresPrice, config.futuresCosts).value;
      FillMarks(run.book, fill, HedgeEntryKind(requested));
    }
  }

  /** An accepted fill marks its own position at its reference price and no other. */
  lemma FillMarks(book: Book, fill: Fill, kind: EntryKind)
    requires fill.Valid() && Recorded(book, fill, kind).1
    ensures
      var after := Recorded(book, fill, kind).0;
      && fill.instrument in after.positions && after.positions[fill.instrument].mark == fill.referencePrice
      && (forall id :: id != fill.instrument ==>
            && (id in after.positions <==> id in book.positions)
            && (id in book.positions ==> after.positions[id] == book.positions[id]))
  {
  }
}
