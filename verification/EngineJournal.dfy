/** What a run's ledger holds: a journal of exactly its fills, and positions that are their replay. */
module EngineJournal {
  import opened Wrappers
  import opened Money
  import opened Fills
  import Positions
  import opened Ledger
  import opened Hedging
  import opened Risk
  import opened Engine
  import opened EngineSafety

  // ---- The journal ----

  /** The kind of entry a fill is booked under. */
  function KindOf(fill: Fill): EntryKind {
    match fill.kind
    case OpenStraddle => OptionEntry
    case CloseOption => OptionExit
    case CloseFutures => FuturesClose
    case Hedge => if fill.side == Buy then FuturesHedgeBuy else FuturesHedgeSell
  }

  /** The opening entry, then for each fill its trade and its cost. */
  function Journal(startingNav: int, fills: seq<Fill>): seq<Entry> {
    if fills == [] then [Entry(InitialCapital, None, 0, startingNav, 0)]
    else
      var fill := fills[|fills| - 1];
      Journal(startingNav, fills[..|fills| - 1]) + [
        Entry(KindOf(fill), Some(fill.instrument), fill.SignedQuantity(), fill.SignedNotional(), 0),
        Entry(TransactionCost, Some(fill.instrument), 0, -fill.totalCost, fill.totalCost)]
  }

  // ---- Positions ----

  /** The fills of one instrument. */
  function Only(fills: seq<Fill>, id: InstrumentId): (chosen: seq<Fill>)
    ensures forall f <- chosen :: f in fills && f.instrument == id
  {
    if fills == [] then []
    else
      var fill := fills[|fills| - 1];
      Only(fills[..|fills| - 1], id) + (if fill.instrument == id then [fill] else [])
  }

  /** The positions agree but for the price they are marked at. */
  predicate SameButMark(a: Positions.Position, b: Positions.Position) {
    a.(mark := b.mark) == b
  }

  /** The position of an instrument is the replay of its own fills, marked at some price. */
  ghost predicate Replays(book: Book, fills: seq<Fill>, id: InstrumentId)
    requires forall f <- fills :: f.Valid()
  {
    match Positions.Replay(Only(fills, id))
    case Err(_) => false
    case Ok(None) => id !in book.positions
    case Ok(Some(replayed)) => id in book.positions && SameButMark(book.positions[id], replayed)
  }

  ghost predicate Booked(run: RunState) {
    && (forall f <- run.fills :: f.Valid())
    && run.book.entries == Journal(run.book.startingNav, run.fills)
    && (forall id :: Replays(run.book, run.fills, id))
  }

  lemma OnlyAppend(fills: seq<Fill>, fill: Fill, id: InstrumentId)
    ensures Only(fills + [fill], id) == Only(fills, id) + (if fill.instrument == id then [fill] else [])
  {
    assert (fills + [fill])[..|fills|] == fills;
  }

  lemma JournalAppend(startingNav: int, fills: seq<Fill>, fill: Fill)
    ensures
      Journal(startingNav, fills + [fill])
      == Journal(startingNav, fills) + [
           Entry(KindOf(fill), Some(fill.instrument), fill.SignedQuantity(), fill.SignedNotional(), 0),
           Entry(TransactionCost, Some(fill.instrument), 0, -fill.totalCost, fill.totalCost)]
  {
    assert (fills + [fill])[..|fills|] == fills;
  }

  /** A fill moves a position the same way whatever price it is marked at. */
  lemma MarkIsIgnored(a: Positions.Position, b: Positions.Position, fill: Fill)
    requires fill.Valid() && SameButMark(a, b)
    ensures Positions.ApplyFill(Some(a), fill) == Positions.ApplyFill(Some(b), fill)
  {
  }

  lemma ReplayOneMore(fills: seq<Fill>, fill: Fill)
    requires (forall f <- fills :: f.Valid()) && fill.Valid() && Positions.Replay(fills).Ok?
    ensures forall f <- fills + [fill] :: f.Valid()
    ensures
      Positions.Replay(fills + [fill])
      == match Positions.ApplyFill(Positions.Replay(fills).value, fill)
         case Err(message) => Err(message)
         case Ok(position) => Ok(Some(position))
  {
    assert (fills + [fill])[..|fills|] == fills;
  }

  /** An accepted fill keeps the replays: its own instrument's grows by it, the others stay. */
  lemma FillReplays(book: Book, fills: seq<Fill>, fill: Fill, kind: EntryKind, id: InstrumentId)
    requires (forall f <- fills :: f.Valid()) && fill.Valid() && Replays(book, fills, id)
    requires Recorded(book, fill, kind).1
    ensures forall f <- fills + [fill] :: f.Valid()
    ensures Replays(Recorded(book, fill, kind).0, fills + [fill], id)
  {
    OnlyAppend(fills, fill, id);
    var only := Only(fills, id);
    if fill.instrument == id {
      ReplayOneMore(only, fill);
      if id in book.positions {
        MarkIsIgnored(book.positions[id], Positions.Replay(only).value.value, fill);
      }
    } else {
      assert only + [] == only;
    }
  }

  lemma FillIsJournalled(book: Book, fills: seq<Fill>, fill: Fill)
    requires fill.Valid() && book.entries == Journal(book.startingNav, fills)
    ensures Recorded(book, fill, KindOf(fill)).0.entries == Journal(book.startingNav, fills + [fill])
  {
    JournalAppend(book.startingNav, fills, fill);
  }

  /** Posting a fill under its kind keeps the ledger booked. */
  lemma PostBooks(run: RunState, fill: Fill, kind: EntryKind)
    requires fill.Valid() && Sound(run.book) && Booked(run) && kind == KindOf(fill) && Post(run, fill, kind).1
    ensures Booked(Post(run, fill, kind).0)
  {
    var posted := Post(run, fill, kind).0;
    RecordedSound(run.book, fill, kind);
    FillIsJournalled(run.book, run.fills, fill);
    forall id ensures Replays(posted.book, posted.fills, id) {
      assert Replays(run.book, run.fills, id);
      FillReplays(run.book, run.fills, fill, kind, id);
    }
  }

  // ---- Along a run ----

  lemma MarkingBooks(config: Config, run: RunState, marked: RunState, state: MarketState)
    requires Booked(run) && Ready(config, run.book)
    requires marked.book == MarkState(config, state, run.book) && marked.fills == run.fills
    ensures Booked(marked)
  {
    forall id ensures Replays(marked.book, marked.fills, id) {
      assert Replays(run.book, run.fills, id);
    }
  }

  lemma ExecuteBooks(config: Config, run: RunState, state: MarketState, requested: int)
    requires config.Valid() && state.Valid() && Ready(config, run.book) && Booked(run)
    requires Execute(config, run, state, requested).1
    ensures Booked(Execute(config, run, state, requested).0)
  {
    if requested != 0 {
      var fill := Simulate(HedgeIntent(config, requested), state.futuresPrice, config.futuresCosts).value;
      PostBooks(run, fill, HedgeEntryKind(requested));
      OtherFieldsBook(Post(run, fill, HedgeEntryKind(requested)).0, Execute(config, run, state, requested).0);
    }
  }

  /** Only the ledger and the fills matter. */
  lemma OtherFieldsBook(run: RunState, other: RunState)
    requires Booked(run) && other.book == run.book && other.fills == run.fills
    ensures Booked(other)
  {
    forall id ensures Replays(other.book, other.fills, id) {
      assert Replays(run.book, run.fills, id);
    }
  }

  lemma ResolveBooks(config: Config, run: RunState, state: MarketState, control: Control)
    requires config.Valid() && state.Valid() && Ready(config, run.book) && Booked(run)
    requires !Resolve(config, run, state, control).Crash?
    ensures Booked(Resolve(config, run, state, control).run)
  {
    var after := Resolve(config, run, state, control).run;
    if control.GiveUp? {
      OtherFieldsBook(run, after);
    } else {
      ExecuteBooks(config, run, state, control.decision.requested);
      OtherFieldsBook(Execute(config, run, state, control.decision.requested).0, after);
    }
  }

  lemma StepBooks(config: Config, optionCash: int, run: RunState, state: MarketState, isFinal: bool)
    requires config.Valid() && config.DistinctInstruments() && state.Valid() && BookInv(config, optionCash, run)
    requires Booked(run)
    ensures !StepState(config, run, state, isFinal).Crash?
    ensures Booked(StepState(config, run, state, isFinal).run)
  {
    StepKeeps(config, optionCash, run, state, isFinal);
    var arrived := Arrive(config, run, state);
    ArriveKeeps(config, optionCash, run, state);
    MarkingBooks(config, run, arrived, state);
    match ExitAt(
      arrived.risk, config.risk, config.killSwitch, config.rule, state.timeToExpiry, state.sessionIndex, isFinal)
    case Some(reason) => StepExits(config, run, state, isFinal, reason);
    case None =>
      StepContinues(config, run, state, isFinal);
      var control := DeltaControl(
        config.policy, Observe(config, state, arrived.book), config.risk.maximumAbsoluteDelta);
      ResolveBooks(config, arrived, state, control);
  }

  lemma LoopBooks(config: Config, optionCash: int, states: seq<MarketState>, run: RunState)
    requires config.Valid() && config.DistinctInstruments() && (forall s <- states :: s.Valid()) && states != []
    requires BookInv(config, optionCash, run) && Booked(run)
    ensures Loop(config, states, 0, run).Ended? && Booked(Loop(config, states, 0, run).run)
  {
    var keeps := (j: nat, r: RunState) => Booked(r);
    var ends := (j: nat, r: RunState, reason: ExitReason) => Booked(r);
    forall j: nat, r: RunState ensures StepLeads(config, optionCash, states, keeps, ends, j, r) {
      if j < |states| && BookInv(config, optionCash, r) && Booked(r) {
        StepBooks(config, optionCash, r, states[j], j == |states| - 1);
      }
    }
    LoopInvariant(config, optionCash, states, 0, run, keeps, ends);
  }

  lemma EnterBooks(config: Config, initial: MarketState)
    requires config.Valid() && config.DistinctInstruments() && initial.Valid()
    ensures Enter(config, initial).1 && Booked(Enter(config, initial).0)
  {
    EnterEstablishes(config, initial);
    var callFill, putFill := EntryFill(config, config.call, initial), EntryFill(config, config.put, initial);
    var start := Fresh(config, initial.sessionDate);
    FreshExplained(config, initial.sessionDate);
    FreshIsBooked(config, initial.sessionDate);
    PostBooks(start, callFill, OptionEntry);
    var afterCall := Post(start, callFill, OptionEntry).0;
    PostBooks(afterCall, putFill, OptionEntry);
    OtherFieldsBook(Post(afterCall, putFill, OptionEntry).0, Enter(config, initial).0);
  }

  lemma FreshIsBooked(config: Config, sessionDate: int)
    ensures Booked(Fresh(config, sessionDate))
  {
  }

  lemma CloseOptionBooks(config: Config, run: RunState, contract: Contract, final: MarketState)
    requires config.Valid() && Ready(config, run.book) && contract in config.Contracts() && Booked(run)
    requires CloseOptionLeg(config, run, contract, final).1
    ensures Booked(CloseOptionLeg(config, run, contract, final).0)
  {
    var quantity := run.book.positions[contract.id].quantity;
    if quantity != 0 {
      PostBooks(run, CloseOptionFill(config, contract, quantity, final), OptionExit);
    }
  }

  lemma CloseFuturesBooks(config: Config, run: RunState, final: MarketState)
    requires config.Valid() && final.Valid() && Ready(config, run.book) && Booked(run)
    requires CloseFuturesLeg(config, run, final).1
    ensures Booked(CloseFuturesLeg(config, run, final).0)
  {
    if Quantity(run.book, config.futuresId) != 0 {
      var intent := CloseFuturesIntent(config, run.book.positions[config.futuresId]);
      PostBooks(run, Simulate(intent, final.futuresPrice, config.futuresCosts).value, FuturesClose);
    }
  }

  lemma CloseOutBooks(config: Config, run: RunState, final: MarketState)
    requires config.Valid() && final.Valid() && Ready(config, run.book) && Booked(run)
    requires CloseOut(config, run, final).Some?
    ensures Booked(CloseOut(config, run, final).value)
  {
    CloseOptionBooks(config, run, config.call, final);
    var callClosed := CloseOptionLeg(config, run, config.call, final).0;
    CloseOptionBooks(config, callClosed, config.put, final);
    CloseFuturesBooks(config, CloseOptionLeg(config, callClosed, config.put, final).0, final);
  }

  /**
   The ledger of every finished run: its journal has the opening entry and then, for each fill in order, the trade
   and its cost; and the position of each instrument is the replay of that instrument's fills.
   */
  lemma LedgerIsItsFills(config: Config, states: seq<MarketState>)
    requires config.Valid() && config.DistinctInstruments() && (forall s <- states :: s.Valid())
    ensures SimulationOf(config, states).Ok? ==>
              && Booked(SimulationOf(config, states).value.run)
              && SimulationOf(config, states).value.run.book.startingNav == Round(config.risk.startingNav)
  {
    LedgerNeverRefuses(config, states);
    var simulation := SimulationOf(config, states);
    if simulation.Ok? {
      var entered, optionCash := Enter(config, states[0]).0, EntryNotional(config, states[0]);
      EnterEstablishes(config, states[0]);
      EnterBooks(config, states[0]);
      LoopBooks(config, optionCash, states, entered);
      OutcomeCloses(config, optionCash, states, entered);
      var outcome := LoopOutcome(config, states, entered);
      CloseOutBooks(config, outcome.run, states[outcome.last]);
      CloseOutKeeps(config, optionCash, outcome.run, states[outcome.last]);
    }
  }

  /** What a finished run reports of its fills: both options reconciled against the futures, and its hedges. */
  ghost predicate SettledOn(config: Config, result: SimulationResult)
    requires result.run.book.Valid()
  {
    && result.reconciliation
       == Reconcile(
            result.terminalValue - Round(config.risk.startingNav), result.run.fills, {config.call.id, config.put.id},
            config.futuresId, config.tolerance)
    && (result.status == Status.Complete <==> result.reconciliation.reconciled)
    && (result.exitReason.Some? <==> result.reconciliation.reconciled)
    && result.terminalValue == result.run.book.PortfolioValue()
    && result.totalHedges == result.run.risk.totalHedges
  }

  lemma SettleReports(config: Config, run: RunState, last: nat, reason: ExitReason)
    requires run.book.Valid() && run.book.startingNav == Round(config.risk.startingNav)
    ensures SettledOn(config, Settle(config, run, last, reason))
  {
  }

  lemma RunIsSettled(config: Config, states: seq<MarketState>)
    requires config.Valid() && config.DistinctInstruments() && (forall s <- states :: s.Valid())
    ensures SimulationOf(config, states).Ok? ==>
              var result := SimulationOf(config, states).value;
              result.run.book.Valid() && SettledOn(config, result)
  {
    LedgerNeverRefuses(config, states);
    var simulation := SimulationOf(config, states);
    if simulation.Ok? {
      EnterEstablishes(config, states[0]);
      SettledRunReports(
        config, EntryNotional(config, states[0]), states, Enter(config, states[0]).0, simulation.value);
    }
  }

  lemma SettledRunReports(
    config: Config, optionCash: int, states: seq<MarketState>, entered: RunState, result: SimulationResult)
    requires config.Valid() && config.DistinctInstruments() && (forall s <- states :: s.Valid()) && states != []
    requires BookInv(config, optionCash, entered) && IsSettledRun(config, states, entered, result)
    ensures result.run.book.Valid() && SettledOn(config, result)
  {
    OutcomeCloses(config, optionCash, states, entered);
    var outcome := LoopOutcome(config, states, entered);
    CloseOutKeeps(config, optionCash, outcome.run, states[outcome.last]);
    SettleReports(config, CloseOut(config, outcome.run, states[outcome.last]).value, outcome.last, outcome.reason);
  }
}