/** The portfolio ledger: cash entries and positions, and the book value they add up to. */
module Ledger {
  import opened Wrappers
  import opened Money
  import opened Fills
  import opened Positions

  datatype EntryKind =
    | InitialCapital
    | OptionEntry
    | OptionExit
    | FuturesHedgeBuy
    | FuturesHedgeSell
    | FuturesClose
    | TransactionCost

  datatype Entry = Entry(
    kind: EntryKind, instrument: Option<InstrumentId>, quantityChange: int, cashChange: int, cost: int)

  /**
   What a ledger holds. Positions are a dictionary that remembers insertion order: `ids` lists its
   keys in the order they were first filled.
   */
  datatype Book = Book(
    startingNav: int, entries: seq<Entry>, ids: seq<InstrumentId>, positions: map<InstrumentId, Position>)
  {
    ghost predicate Valid() {
      && (forall id :: id in ids <==> id in positions)
      && (forall i, j :: 0 <= i < j < |ids| ==> ids[i] != ids[j])
    }

    function Cash(): int {
      Round(CashTotal(entries) as real)
    }

    function PortfolioValue(): int
      requires Valid()
    {
      Round((Cash() + HoldingsTotal(ids, positions)) as real)
    }

    function Position(id: InstrumentId): Option<Positions.Position> {
      if id in positions then Some(positions[id]) else None
    }
  }

  function CashTotal(entries: seq<Entry>): int {
    if entries == [] then 0 else CashTotal(entries[..|entries| - 1]) + entries[|entries| - 1].cashChange
  }

  function CostTotal(entries: seq<Entry>): int {
    if entries == [] then 0 else CostTotal(entries[..|entries| - 1]) + entries[|entries| - 1].cost
  }

  function HoldingsTotal(ids: seq<InstrumentId>, positions: map<InstrumentId, Positions.Position>): int
    requires forall id <- ids :: id in positions
  {
    if ids == [] then 0
    else HoldingsTotal(ids[..|ids| - 1], positions) + positions[ids[|ids| - 1]].MarketValue()
  }

  function Opened(startingNav: int): Book {
    Book(startingNav, [Entry(InitialCapital, None, 0, startingNav, 0)], [], map[])
  }

  function TradeEntry(fill: Fill, kind: EntryKind): Entry {
    var sign := if fill.side == Buy then -1 else 1;
    Entry(kind, Some(fill.instrument), fill.SignedQuantity(), Round((sign * fill.grossNotional) as real), 0)
  }

  function CostEntry(fill: Fill): Entry {
    Entry(TransactionCost, Some(fill.instrument), 0, -fill.totalCost, fill.totalCost)
  }

  /**
   The ledger after a fill and whether the call returned normally. Both entries are appended
   before the position is moved, so a refused multiplier leaves them behind.
   */
  function Recorded(book: Book, fill: Fill, kind: EntryKind): (result: (Book, bool))
    requires fill.Valid()
  {
    var entries := book.entries + [TradeEntry(fill, kind)] + [CostEntry(fill)];
    match ApplyFill(book.Position(fill.instrument), fill)
    case Err(_) => (book.(entries := entries), false)
    case Ok(position) =>
      (Book(
        book.startingNav,
        entries,
        if fill.instrument in book.positions then book.ids else book.ids + [fill.instrument],
        book.positions[fill.instrument := position]), true)
  }

  function Marked(book: Book, id: InstrumentId, price: real): Book
    requires id in book.positions
  {
    book.(positions := book.positions[id := book.positions[id].(mark := Round(price))])
  }

  /** `PortfolioLedger`: the fields its methods update in place. */
  class PortfolioLedger {
    const startingNav: int
    var entries: seq<Entry>
    var ids: seq<InstrumentId>
    var positions: map<InstrumentId, Positions.Position>

    function State(): Book
      reads this
    {
      Book(startingNav, entries, ids, positions)
    }

    constructor (nav: real)
      requires nav > 0.0
      ensures State() == Opened(Round(nav)) && State().Valid()
    {
      startingNav := Round(nav);
      entries := [Entry(InitialCapital, None, 0, Round(nav), 0)];
      ids := [];
      positions := map[];
    }

    method RecordFill(fill: Fill, kind: EntryKind) returns (ok: bool)
      requires fill.Valid() && State().Valid()
      modifies this
      ensures (State(), ok) == Recorded(old(State()), fill, kind)
      ensures State().Valid()
    {
      RecordedValid(State(), fill, kind);
      entries := entries + [TradeEntry(fill, kind)];
      entries := entries + [CostEntry(fill)];
      var current := if fill.instrument in positions then Some(positions[fill.instrument]) else None;
      var moved := ApplyFill(current, fill);
      if moved.Err? {
        return false;
      }
      if fill.instrument !in positions {
        ids := ids + [fill.instrument];
      }
      positions := positions[fill.instrument := moved.value];
      return true;
    }

    method Mark(id: InstrumentId, price: real)
      requires State().Valid() && id in positions
      modifies this`positions
      ensures State() == Marked(old(State()), id, price) && State().Valid()
    {
      var position := positions[id];
      positions := positions[id := position.(mark := Round(price))];
    }

    /** The value of the whole book, summed entry by entry and position by position. */
    method PortfolioValue() returns (value: int)
      requires State().Valid()
      ensures value == State().PortfolioValue()
    {
      var cash := 0;
      var i := 0;
      while i < |entries|
        invariant 0 <= i <= |entries|
        invariant cash == CashTotal(entries[..i])
      {
        assert entries[..i + 1][..i] == entries[..i];
        cash := cash + entries[i].cashChange;
        i := i + 1;
      }
      assert entries[..i] == entries;
      var holdings := 0;
      i := 0;
      while i < |ids|
        invariant 0 <= i <= |ids|
        invariant holdings == HoldingsTotal(ids[..i], positions)
      {
        assert ids[..i + 1][..i] == ids[..i];
        holdings := holdings + positions[ids[i]].MarketValue();
        i := i + 1;
      }
      assert ids[..i] == ids;
      value := Round((Round(cash as real) + holdings) as real);
    }
  }

  lemma RecordedValid(book: Book, fill: Fill, kind: EntryKind)
    requires fill.Valid() && book.Valid()
    ensures Recorded(book, fill, kind).0.Valid()
  {
  }

  lemma HoldingsFrame(
    ids: seq<InstrumentId>, before: map<InstrumentId, Positions.Position>, after: map<InstrumentId, Positions.Position>)
    requires forall id <- ids :: id in before && id in after && before[id] == after[id]
    ensures HoldingsTotal(ids, before) == HoldingsTotal(ids, after)
  {
  }

  /** Replacing one position changes the holdings by the change of that position's value. */
  lemma {:induction false} HoldingsUpdate(
    ids: seq<InstrumentId>, positions: map<InstrumentId, Positions.Position>, id: InstrumentId,
    position: Positions.Position)
    requires (forall i <- ids :: i in positions) && id in ids
    requires forall i, j :: 0 <= i < j < |ids| ==> ids[i] != ids[j]
    ensures HoldingsTotal(ids, positions[id := position])
            == HoldingsTotal(ids, positions) + position.MarketValue() - positions[id].MarketValue()
  {
    var last := |ids| - 1;
    if ids[last] == id {
      HoldingsFrame(ids[..last], positions, positions[id := position]);
    } else {
      HoldingsUpdate(ids[..last], positions, id, position);
    }
  }

  lemma CashAppend(entries: seq<Entry>, entry: Entry)
    ensures CashTotal(entries + [entry]) == CashTotal(entries) + entry.cashChange
    ensures CostTotal(entries + [entry]) == CostTotal(entries) + entry.cost
  {
    assert (entries + [entry])[..|entries|] == entries;
  }

  /** A fill moves cash by its notional and its costs, whether or not the position accepts it. */
  lemma RecordedCash(book: Book, fill: Fill, kind: EntryKind)
    requires fill.Valid()
    ensures
      var after := Recorded(book, fill, kind).0;
      && CashTotal(after.entries) == CashTotal(book.entries) + fill.SignedNotional() - fill.totalCost
      && CostTotal(after.entries) == CostTotal(book.entries) + fill.totalCost
  {
    CashAppend(book.entries, TradeEntry(fill, kind));
    CashAppend(book.entries + [TradeEntry(fill, kind)], CostEntry(fill));
  }

  /** A fill leaves the book either fully moved or untouched. */
  predicate AllOrNothing(book: Book, fill: Fill, kind: EntryKind)
    requires fill.Valid()
  {
    var (after, ok) := Recorded(book, fill, kind);
    ok || after == book
  }

  /** That is so exactly when the instrument is new or the fill keeps its multiplier. */
  lemma AllOrNothingExactlyWhen(book: Book, fill: Fill, kind: EntryKind)
    requires fill.Valid()
    ensures
      AllOrNothing(book, fill, kind)
      <==> fill.instrument !in book.positions || book.positions[fill.instrument].multiplier == fill.multiplier
  {
    var after := Recorded(book, fill, kind).0;
    assert |after.entries| == |book.entries| + 2;
  }

  /** One contract bought for 100 cents, of a multiplier of the caller's choice, without costs. */
  function PlainFill(multiplier: int): Fill {
    Fill(OpenStraddle, 0, Buy, 1, multiplier, 100, 100, 100, 0, 0, 0, 0, 0)
  }

  /** A refused fill leaves every position as it was, and its cash is gone all the same. */
  lemma RefusedFillMovesCash(book: Book, fill: Fill, kind: EntryKind)
    requires fill.Valid() && !Recorded(book, fill, kind).1
    ensures
      var after := Recorded(book, fill, kind).0;
      after.positions == book.positions && after.Cash() == book.Cash() + fill.SignedNotional() - fill.totalCost
  {
    RecordedCash(book, fill, kind);
  }

  /** A book that holds one contract, after one accepted fill. */
  function OneContract(): Book {
    Recorded(Opened(1000), PlainFill(1), OptionEntry).0
  }

  lemma OneContractHeld()
    ensures Recorded(Opened(1000), PlainFill(1), OptionEntry).1
    ensures 0 in OneContract().positions && OneContract().positions[0].multiplier == 1
  {
  }

  /** It refuses a second fill of the same instrument with another multiplier, and has paid for it. */
  lemma SecondMultiplierRefused()
    ensures !Recorded(OneContract(), PlainFill(2), OptionEntry).1
    ensures Recorded(OneContract(), PlainFill(2), OptionEntry).0.positions == OneContract().positions
    ensures Recorded(OneContract(), PlainFill(2), OptionEntry).0.Cash() == OneContract().Cash() - 100
  {
    OneContractHeld();
    MultiplierRefused(OneContract(), PlainFill(2), OptionEntry);
    RefusedFillMovesCash(OneContract(), PlainFill(2), OptionEntry);
  }

  lemma MultiplierRefused(book: Book, fill: Fill, kind: EntryKind)
    requires fill.Valid() && fill.instrument in book.positions
    requires book.positions[fill.instrument].multiplier != fill.multiplier
    ensures !Recorded(book, fill, kind).1
  {
  }

  /** The worth of a position before the fill, zero when there is none. */
  function HeldValue(current: Option<Positions.Position>): int {
    match current
    case None => 0
    case Some(p) => p.MarketValue()
  }

  /** Holdings after a dictionary assignment, whether it replaces a position or adds one. */
  lemma HoldingsAssign(book: Book, id: InstrumentId, position: Positions.Position)
    requires book.Valid()
    ensures
      var ids := if id in book.positions then book.ids else book.ids + [id];
      && (forall i <- ids :: i in book.positions[id := position])
      && HoldingsTotal(ids, book.positions[id := position])
         == HoldingsTotal(book.ids, book.positions) + position.MarketValue() - HeldValue(book.Position(id))
  {
    if id in book.positions {
      HoldingsUpdate(book.ids, book.positions, id, position);
    } else {
      assert (book.ids + [id])[..|book.ids|] == book.ids;
      HoldingsFrame(book.ids, book.positions, book.positions[id := position]);
    }
  }

  /**
   An accepted fill moves the portfolio value by its costs, its cash and the re-marking of the
   position to the reference price.
   */
  lemma RecordedValue(book: Book, fill: Fill, kind: EntryKind)
    requires fill.Valid() && book.Valid() && Recorded(book, fill, kind).1
    ensures Recorded(book, fill, kind).0.Valid()
    ensures
      var after := Recorded(book, fill, kind).0;
      after.PortfolioValue() - book.PortfolioValue()
      == fill.SignedNotional() - fill.totalCost
         + after.positions[fill.instrument].MarketValue() - HeldValue(book.Position(fill.instrument))
  {
    RecordedValid(book, fill, kind);
    RecordedCash(book, fill, kind);
    var after := Recorded(book, fill, kind).0;
    HoldingsAssign(book, fill.instrument, after.positions[fill.instrument]);
    ValueIsExact(book);
    ValueIsExact(after);
  }

  /** Cash and holdings are whole cents already, so valuing the book rounds nothing away. */
  lemma ValueIsExact(book: Book)
    requires book.Valid()
    ensures book.PortfolioValue() == CashTotal(book.entries) + HoldingsTotal(book.ids, book.positions)
  {
  }

  // ---- Conservation over whole histories ----

  datatype Operation = RecordOperation(fill: Fill, kind: EntryKind) | MarkOperation(id: InstrumentId, price: real)

  /** Fills that move a position and marks of positions that exist; a refused fill ends the history. */
  function Replay(startingNav: int, operations: seq<Operation>): Option<Book>
    requires forall o <- operations :: o.RecordOperation? ==> o.fill.Valid()
  {
    if operations == [] then Some(Opened(startingNav))
    else
      match Replay(startingNav, operations[..|operations| - 1])
      case None => None
      case Some(book) =>
        match operations[|operations| - 1]
        case RecordOperation(fill, kind) =>
          var (after, ok) := Recorded(book, fill, kind);
          if ok then Some(after) else None
        case MarkOperation(id, price) =>
          if id in book.positions then Some(Marked(book, id, price)) else None
  }

  function NetCash(operations: seq<Operation>): int {
    if operations == [] then 0
    else
      NetCash(operations[..|operations| - 1]) +
      match operations[|operations| - 1]
      case RecordOperation(fill, _) => fill.SignedNotional() - fill.totalCost
      case MarkOperation(_, _) => 0
  }

  /** The net quantity the history traded in one instrument. */
  function NetQuantity(operations: seq<Operation>, id: InstrumentId): int {
    if operations == [] then 0
    else
      NetQuantity(operations[..|operations| - 1], id) +
      match operations[|operations| - 1]
      case RecordOperation(fill, _) => if fill.instrument == id then fill.SignedQuantity() else 0
      case MarkOperation(_, _) => 0
  }

  function Quantity(book: Book, id: InstrumentId): int {
    if id in book.positions then book.positions[id].quantity else 0
  }

  /** What one accepted fill does to cash and to one quantity. */
  lemma FillConserves(book: Book, fill: Fill, kind: EntryKind, id: InstrumentId)
    requires fill.Valid() && book.Valid() && Recorded(book, fill, kind).1
    ensures
      var after := Recorded(book, fill, kind).0;
      && after.Valid() && after.startingNav == book.startingNav
      && after.Cash() == book.Cash() + fill.SignedNotional() - fill.totalCost
      && Quantity(after, id) == Quantity(book, id) + if fill.instrument == id then fill.SignedQuantity() else 0
  {
    RecordedValid(book, fill, kind);
    RecordedCash(book, fill, kind);
  }

  /** Double entry: cash is the capital plus the net cash of the fills, and each position is the net of its trades. */
  lemma {:induction false} CashAndQuantityConserved(startingNav: int, operations: seq<Operation>, id: InstrumentId)
    requires forall o <- operations :: o.RecordOperation? ==> o.fill.Valid()
    requires Replay(startingNav, operations).Some?
    ensures
      var book := Replay(startingNav, operations).value;
      && book.Valid()
      && book.startingNav == startingNav
      && book.Cash() == startingNav + NetCash(operations)
      && Quantity(book, id) == NetQuantity(operations, id)
  {
    if operations == [] {
      CashAppend([], Entry(InitialCapital, None, 0, startingNav, 0));
    } else {
      var earlier := operations[..|operations| - 1];
      CashAndQuantityConserved(startingNav, earlier, id);
      match operations[|operations| - 1]
      case RecordOperation(fill, kind) =>
        FillConserves(Replay(startingNav, earlier).value, fill, kind, id);
      case MarkOperation(_, _) =>
    }
  }

  /** The costs of the fills of a history. */
  function NetCosts(operations: seq<Operation>): int {
    if operations == [] then 0
    else
      NetCosts(operations[..|operations| - 1]) +
      match operations[|operations| - 1]
      case RecordOperation(fill, _) => fill.totalCost
      case MarkOperation(_, _) => 0
  }

  /** The costs in the journal are those of the fills. */
  lemma {:induction false} CostsConserved(startingNav: int, operations: seq<Operation>)
    requires forall o <- operations :: o.RecordOperation? ==> o.fill.Valid()
    requires Replay(startingNav, operations).Some?
    ensures CostTotal(Replay(startingNav, operations).value.entries) == NetCosts(operations)
  {
    if operations == [] {
      CashAppend([], Entry(InitialCapital, None, 0, startingNav, 0));
    } else {
      var earlier := operations[..|operations| - 1];
      CostsConserved(startingNav, earlier);
      match operations[|operations| - 1]
      case RecordOperation(fill, kind) => RecordedCash(Replay(startingNav, earlier).value, fill, kind);
      case MarkOperation(_, _) =>
    }
  }

  lemma {:induction false} FlatHoldings(ids: seq<InstrumentId>, positions: map<InstrumentId, Positions.Position>)
    requires forall id <- ids :: id in positions && positions[id].quantity == 0
    ensures HoldingsTotal(ids, positions) == 0
  {
    if ids == [] {
    } else {
      FlatHoldings(ids[..|ids| - 1], positions);
      NothingHeld(positions[ids[|ids| - 1]]);
    }
  }

  lemma NothingHeld(position: Positions.Position)
    requires position.quantity == 0
    ensures position.MarketValue() == 0
  {
    assert position.mark * position.quantity * position.multiplier == 0;
  }

  /** A history that ends flat earned exactly the net cash of its fills, whatever the marks were. */
  lemma FlatHistoryEarnsItsCash(startingNav: int, operations: seq<Operation>)
    requires forall o <- operations :: o.RecordOperation? ==> o.fill.Valid()
    requires Replay(startingNav, operations).Some?
    requires forall id :: NetQuantity(operations, id) == 0
    ensures Replay(startingNav, operations).value.Valid()
    ensures Replay(startingNav, operations).value.PortfolioValue() - startingNav == NetCash(operations)
  {
    var book := Replay(startingNav, operations).value;
    forall id ensures book.Valid() && book.Cash() == startingNav + NetCash(operations) && Quantity(book, id) == 0 {
      CashAndQuantityConserved(startingNav, operations, id);
    }
    CashAndQuantityConserved(startingNav, operations, 0);
    forall id | id in book.ids ensures book.positions[id].quantity == 0 {
      assert Quantity(book, id) == 0;
    }
    FlatHoldings(book.ids, book.positions);
  }

  // ---- Reconciliation ----

  datatype Reconciliation = Reconciliation(
    terminalPnl: int,
    optionPnl: int,
    futuresPnl: int,
    financing: int,
    optionCosts: int,
    futuresCosts: int,
    residual: int,
    reconciled: bool)

  function NotionalOf(fills: seq<Fill>, chosen: set<InstrumentId>): int {
    if fills == [] then 0
    else
      var fill := fills[|fills| - 1];
      NotionalOf(fills[..|fills| - 1], chosen) + (if fill.instrument in chosen then fill.SignedNotional() else 0)
  }

  function CostsOf(fills: seq<Fill>, chosen: set<InstrumentId>): int {
    if fills == [] then 0
    else
      var fill := fills[|fills| - 1];
      CostsOf(fills[..|fills| - 1], chosen) + (if fill.instrument in chosen then fill.totalCost else 0)
  }

  /** The cash of every fill, after costs. */
  function FillCash(fills: seq<Fill>): int {
    if fills == [] then 0
    else
      var fill := fills[|fills| - 1];
      FillCash(fills[..|fills| - 1]) + fill.SignedNotional() - fill.totalCost
  }

  function Reconcile(
    terminalPnl: int, fills: seq<Fill>, optionIds: set<InstrumentId>, futuresId: InstrumentId,
    tolerance: real): Reconciliation
  {
    var optionPnl := Round(NotionalOf(fills, optionIds) as real);
    var futuresPnl := Round(NotionalOf(fills, {futuresId}) as real);
    var optionCosts := Round(CostsOf(fills, optionIds) as real);
    var futuresCosts := Round(CostsOf(fills, {futuresId}) as real);
    var financing := 0;
    var residual := Round((terminalPnl - (optionPnl + futuresPnl + financing - optionCosts - futuresCosts)) as real);
    Reconciliation(
      terminalPnl, optionPnl, futuresPnl, financing, optionCosts, futuresCosts, residual,
      Abs(residual as real) <= tolerance)
  }

  /** The cash of fills that are counted neither as options nor as futures. */
  function UncountedCash(fills: seq<Fill>, optionIds: set<InstrumentId>, futuresId: InstrumentId): int {
    if fills == [] then 0
    else
      var fill := fills[|fills| - 1];
      UncountedCash(fills[..|fills| - 1], optionIds, futuresId)
      + (if fill.instrument !in optionIds && fill.instrument != futuresId then fill.SignedNotional() - fill.totalCost
         else 0)
  }

  /** The cash of fills that are counted as both. */
  function DoubleCountedCash(fills: seq<Fill>, optionIds: set<InstrumentId>, futuresId: InstrumentId): int {
    if fills == [] then 0
    else
      var fill := fills[|fills| - 1];
      DoubleCountedCash(fills[..|fills| - 1], optionIds, futuresId)
      + (if fill.instrument in optionIds && fill.instrument == futuresId then fill.SignedNotional() - fill.totalCost
         else 0)
  }

  lemma {:induction false} ReconcilePartition(fills: seq<Fill>, optionIds: set<InstrumentId>, futuresId: InstrumentId)
    ensures
      FillCash(fills)
      == NotionalOf(fills, optionIds) - CostsOf(fills, optionIds)
         + NotionalOf(fills, {futuresId}) - CostsOf(fills, {futuresId})
         + UncountedCash(fills, optionIds, futuresId) - DoubleCountedCash(fills, optionIds, futuresId)
  {
    if fills == [] {
    } else {
      ReconcilePartition(fills[..|fills| - 1], optionIds, futuresId);
    }
  }

  /**
   For a run whose terminal profit is the cash of its fills, the residual is exactly the cash of
   the fills no bucket counts less the cash of those both buckets count.
   */
  lemma ResidualIsMiscounted(fills: seq<Fill>, optionIds: set<InstrumentId>, futuresId: InstrumentId, tolerance: real)
    ensures
      Reconcile(FillCash(fills), fills, optionIds, futuresId, tolerance).residual
      == UncountedCash(fills, optionIds, futuresId) - DoubleCountedCash(fills, optionIds, futuresId)
  {
    ReconcilePartition(fills, optionIds, futuresId);
  }

  /** When every fill is counted exactly once the residual is zero, so any tolerance accepts it. */
  lemma {:induction false} EveryFillCountedOnce(fills: seq<Fill>, optionIds: set<InstrumentId>, futuresId: InstrumentId)
    requires futuresId !in optionIds
    requires forall f <- fills :: f.instrument in optionIds || f.instrument == futuresId
    ensures UncountedCash(fills, optionIds, futuresId) == 0 && DoubleCountedCash(fills, optionIds, futuresId) == 0
  {
    if fills == [] {
    } else {
      EveryFillCountedOnce(fills[..|fills| - 1], optionIds, futuresId);
    }
  }

  /** What a reconciliation derives from its sums. */
  ghost predicate Reconciles(terminalPnl: int, tolerance: real, r: Reconciliation) {
    && r.terminalPnl == terminalPnl && r.financing == 0
    && r.residual == terminalPnl - (r.optionPnl + r.futuresPnl - r.optionCosts - r.futuresCosts)
    && (r.reconciled <==> -tolerance <= r.residual as real <= tolerance)
  }

  /** Without fills every sum is zero, and the whole profit is residual. */
  lemma NothingReconciled(terminalPnl: int, optionIds: set<InstrumentId>, futuresId: InstrumentId, tolerance: real)
    ensures
      var r := Reconcile(terminalPnl, [], optionIds, futuresId, tolerance);
      && Reconciles(terminalPnl, tolerance, r)
      && r.optionPnl == r.futuresPnl == r.optionCosts == r.futuresCosts == 0
  {
  }

  /** One more fill adds its notional and its cost to the sums of its own instruments, and to no other. */
  lemma OneMoreReconciled(
    terminalPnl: int, fills: seq<Fill>, fill: Fill, optionIds: set<InstrumentId>, futuresId: InstrumentId,
    tolerance: real)
    ensures
      var before := Reconcile(terminalPnl, fills, optionIds, futuresId, tolerance);
      var after := Reconcile(terminalPnl, fills + [fill], optionIds, futuresId, tolerance);
      var option, futures := fill.instrument in optionIds, fill.instrument == futuresId;
      && Reconciles(terminalPnl, tolerance, after)
      && after.optionPnl == before.optionPnl + (if option then fill.SignedNotional() else 0)
      && after.futuresPnl == before.futuresPnl + (if futures then fill.SignedNotional() else 0)
      && after.optionCosts == before.optionCosts + (if option then fill.totalCost else 0)
      && after.futuresCosts == before.futuresCosts + (if futures then fill.totalCost else 0)
  {
    assert (fills + [fill])[..|fills|] == fills;
  }
}
