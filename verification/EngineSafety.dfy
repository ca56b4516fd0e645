/** What every simulation run keeps, state by state, and what it ends with. */
module EngineSafety {
  import opened Wrappers
  import opened Money
  import opened Fills
  import opened Ledger
  import opened Hedging
  import opened Risk
  import opened Engine

  // ---- The book along the run ----

  function HedgeFills(fills: seq<Fill>): nat {
    if fills == [] then 0
    else HedgeFills(fills[..|fills| - 1]) + (if fills[|fills| - 1].kind == Hedge then 1 else 0)
  }

  /** The cash of both entry notionals at the first state, negative because they were bought. */
  function EntryNotional(config: Config, initial: MarketState): int
    requires config.Valid()
  {
    EntryFill(config, config.call, initial).SignedNotional() + EntryFill(config, config.put, initial).SignedNotional()
  }

  ghost predicate Holds(book: Book, contract: Contract, quantity: int) {
    && contract.id in book.positions
    && book.positions[contract.id].quantity == quantity
    && book.positions[contract.id].multiplier == contract.multiplier
  }

  /** Cash explained by the fills, and every fill on one of the three instruments. */
  ghost predicate Explained(config: Config, run: RunState) {
    && run.book.startingNav == Round(config.risk.startingNav)
    && CashTotal(run.book.entries) == run.book.startingNav + FillCash(run.fills)
    && run.book.positions.Keys <= {config.call.id, config.put.id, config.futuresId}
    && (forall f <- run.fills :: f.instrument in config.OptionIds() || f.instrument == config.futuresId)
    && (config.futuresId in run.book.positions ==>
         run.book.positions[config.futuresId].multiplier == config.futuresMultiplier)
    && run.risk.totalHedges == HedgeFills(run.fills)
  }

  /** Also both options as they were bought, and the option cash so far. */
  ghost predicate BookInv(config: Config, optionCash: int, run: RunState) {
    && Ready(config, run.book)
    && Explained(config, run)
    && Holds(run.book, config.call, config.units)
    && Holds(run.book, config.put, config.units)
    && NotionalOf(run.fills, config.OptionIds()) == optionCash
  }

  lemma FillsAppend(fills: seq<Fill>, fill: Fill, chosen: set<InstrumentId>)
    ensures NotionalOf(fills + [fill], chosen)
            == NotionalOf(fills, chosen) + (if fill.instrument in chosen then fill.SignedNotional() else 0)
    ensures FillCash(fills + [fill]) == FillCash(fills) + fill.SignedNotional() - fill.totalCost
    ensures HedgeFills(fills + [fill]) == HedgeFills(fills) + (if fill.kind == Hedge then 1 else 0)
  {
    assert (fills + [fill])[..|fills|] == fills;
  }

  /** Recording a fill of the position's own multiplier is never refused, and keeps the run explained. */
  lemma PostKeepsExplained(config: Config, run: RunState, fill: Fill, kind: EntryKind)
    requires fill.Valid() && Sound(run.book) && Explained(config, run)
    requires fill.instrument in config.OptionIds() || fill.instrument == config.futuresId
    requires fill.instrument == config.futuresId ==> fill.multiplier == config.futuresMultiplier
    requires fill.instrument in run.book.positions ==> run.book.positions[fill.instrument].multiplier == fill.multiplier
    requires fill.kind != Hedge
    ensures
      var (posted, ok) := Post(run, fill, kind);
      && ok && Explained(config, posted)
      && posted.book.positions.Keys == run.book.positions.Keys + {fill.instrument}
      && Quantity(posted.book, fill.instrument) == Quantity(run.book, fill.instrument) + fill.SignedQuantity()
      && posted.book.positions[fill.instrument].multiplier == fill.multiplier
      && (forall id <- run.book.positions :: id != fill.instrument ==>
           posted.book.positions[id] == run.book.positions[id])
      && posted.fills == run.fills + [fill]
      && posted.risk == run.risk && posted.decisions == run.decisions && posted.valuations == run.valuations
  {
    RecordedSound(run.book, fill, kind);
    RecordedCash(run.book, fill, kind);
    FillsAppend(run.fills, fill, {});
  }

  /** The first fill of a run that holds nothing yet. */
  lemma FirstFillOpens(config: Config, run: RunState, fill: Fill)
    requires fill.Valid() && Sound(run.book) && Explained(config, run) && run.fills == [] && run.book.positions == map[]
    requires fill.instrument == config.call.id && fill.kind == OpenStraddle && config.DistinctInstruments()
    ensures
      var (posted, ok) := Post(run, fill, OptionEntry);
      && ok && Sound(posted.book) && Explained(config, posted)
      && posted.book.positions.Keys == {config.call.id} && posted.fills == [fill]
      && Holds(posted.book, Contract(config.call.id, fill.multiplier), fill.SignedQuantity())
  {
    PostKeepsExplained(config, run, fill, OptionEntry);
    assert run.fills + [fill] == [fill];
  }

  /** And the second one, on the other option. */
  lemma SecondFillOpens(config: Config, run: RunState, first: Fill, fill: Fill)
    requires fill.Valid() && Sound(run.book) && Explained(config, run) && run.fills == [first]
    requires run.book.positions.Keys == {config.call.id} && config.DistinctInstruments()
    requires fill.instrument == config.put.id && fill.kind == OpenStraddle
    ensures
      var (posted, ok) := Post(run, fill, OptionEntry);
      && ok && Explained(config, posted) && posted.risk == run.risk
      && posted.book.positions.Keys == {config.call.id, config.put.id} && posted.fills == [first, fill]
      && posted.book.positions[config.call.id] == run.book.positions[config.call.id]
      && Holds(posted.book, Contract(config.put.id, fill.multiplier), fill.SignedQuantity())
  {
    PostKeepsExplained(config, run, fill, OptionEntry);
    assert run.fills + [fill] == [first, fill];
  }

  lemma TwoNotionals(config: Config, callFill: Fill, putFill: Fill)
    requires callFill.instrument == config.call.id && putFill.instrument == config.put.id
    ensures NotionalOf([callFill, putFill], config.OptionIds()) == callFill.SignedNotional() + putFill.SignedNotional()
  {
    FillsAppend([], callFill, config.OptionIds());
    FillsAppend([callFill], putFill, config.OptionIds());
    assert [] + [callFill] == [callFill] && [callFill] + [putFill] == [callFill, putFill];
  }

  /** The two entry fills, whatever their amounts, open the straddle. */
  lemma EnterWithEstablishes(config: Config, callFill: Fill, putFill: Fill, sessionDate: int)
    requires callFill.Valid() && putFill.Valid() && config.DistinctInstruments()
    requires callFill.instrument == config.call.id && putFill.instrument == config.put.id
    requires callFill.kind == putFill.kind == OpenStraddle
    ensures
      var (run, ok) := EnterWith(config, callFill, putFill, sessionDate);
      && ok && Explained(config, run)
      && run.book.positions.Keys == {config.call.id, config.put.id}
      && run.fills == [callFill, putFill]
      && NotionalOf(run.fills, config.OptionIds()) == callFill.SignedNotional() + putFill.SignedNotional()
      && Holds(run.book, Contract(config.call.id, callFill.multiplier), callFill.SignedQuantity())
      && Holds(run.book, Contract(config.put.id, putFill.multiplier), putFill.SignedQuantity())
  {
    var start := Fresh(config, sessionDate);
    FreshExplained(config, sessionDate);
    FirstFillOpens(config, start, callFill);
    var afterCall := Post(start, callFill, OptionEntry).0;
    SecondFillOpens(config, afterCall, callFill, putFill);
    TwoNotionals(config, callFill, putFill);
  }

  lemma FreshExplained(config: Config, sessionDate: int)
    ensures Sound(Fresh(config, sessionDate).book) && Explained(config, Fresh(config, sessionDate))
  {
    var entry := Entry(InitialCapital, None, 0, Round(config.risk.startingNav), 0);
    CashAppend([], entry);
    assert [] + [entry] == [entry];
  }

  lemma EnterEstablishes(config: Config, initial: MarketState)
    requires config.Valid() && initial.Valid() && config.DistinctInstruments()
    ensures Enter(config, initial).1
    ensures BookInv(config, EntryNotional(config, initial), Enter(config, initial).0)
  {
    var callFill, putFill := EntryFill(config, config.call, initial), EntryFill(config, config.put, initial);
    EnterWithEstablishes(config, callFill, putFill, initial.sessionDate);
  }

  /** Marking changes prices and nothing a fill decides. */
  lemma MarkStateFrame(config: Config, state: MarketState, book: Book)
    requires Ready(config, book)
    ensures
      var marked := MarkState(config, state, book);
      && marked.entries == book.entries && marked.startingNav == book.startingNav
      && marked.positions.Keys == book.positions.Keys
      && (forall id <- book.positions ::
            && marked.positions[id].quantity == book.positions[id].quantity
            && marked.positions[id].multiplier == book.positions[id].multiplier)
  {
  }

  lemma ArriveKeeps(config: Config, optionCash: int, run: RunState, state: MarketState)
    requires config.Valid() && BookInv(config, optionCash, run)
    ensures BookInv(config, optionCash, Arrive(config, run, state))
    ensures Quantity(Arrive(config, run, state).book, config.futuresId) == Quantity(run.book, config.futuresId)
  {
    MarkStateFrame(config, state, run.book);
  }

  /** The fill of a requested hedge. */
  lemma HedgeFill(config: Config, state: MarketState, requested: int)
    requires config.Valid() && state.Valid() && requested != 0
    ensures
      var simulated := Simulate(HedgeIntent(config, requested), state.futuresPrice, config.futuresCosts);
      && simulated.Ok? && simulated.value.Valid() && simulated.value.kind == Hedge
      && simulated.value.instrument == config.futuresId && simulated.value.multiplier == config.futuresMultiplier
      && simulated.value.SignedQuantity() == requested
  {
  }

  /** Recording a hedge and counting it. */
  lemma HedgePosts(config: Config, optionCash: int, run: RunState, fill: Fill, kind: EntryKind)
    requires config.DistinctInstruments() && BookInv(config, optionCash, run) && fill.Valid() && fill.kind == Hedge
    requires fill.instrument == config.futuresId && fill.multiplier == config.futuresMultiplier
    ensures
      var (posted, ok) := Post(run, fill, kind);
      var counted := posted.(risk := RecordHedge(posted.risk));
      && ok && BookInv(config, optionCash, counted) && posted.risk == run.risk
      && Quantity(counted.book, config.futuresId) == Quantity(run.book, config.futuresId) + fill.SignedQuantity()
      && counted.decisions == run.decisions && counted.valuations == run.valuations
  {
    RecordedSound(run.book, fill, kind);
    RecordedCash(run.book, fill, kind);
    FillsAppend(run.fills, fill, config.OptionIds());
  }

  lemma ExecuteKeeps(config: Config, optionCash: int, run: RunState, state: MarketState, requested: int)
    requires config.Valid() && config.DistinctInstruments() && state.Valid() && BookInv(config, optionCash, run)
    ensures
      var (traded, ok) := Execute(config, run, state, requested);
      && ok && BookInv(config, optionCash, traded)
      && Quantity(traded.book, config.futuresId) == Quantity(run.book, config.futuresId) + requested
      && traded.decisions == run.decisions && traded.valuations == run.valuations
      && traded.risk == (if requested == 0 then run.risk else RecordHedge(run.risk))
  {
    if requested != 0 {
      HedgeFill(config, state, requested);
      var fill := Simulate(HedgeIntent(config, requested), state.futuresPrice, config.futuresCosts).value;
      HedgePosts(config, optionCash, run, fill, HedgeEntryKind(requested));
    }
  }

  lemma CompleteKeeps(
    config: Config, optionCash: int, run: RunState, state: MarketState, accepted: Decision, forced: bool)
    requires config.Valid() && config.DistinctInstruments() && state.Valid() && BookInv(config, optionCash, run)
    ensures
      var step := CompleteDecision(config, run, state, accepted, forced);
      && step.Next? && BookInv(config, optionCash, step.run)
      && Quantity(step.run.book, config.futuresId) == Quantity(run.book, config.futuresId) + accepted.requested
      && |step.run.decisions| == |run.decisions| + 1
      && step.run.decisions[..|run.decisions|] == run.decisions
  {
    ExecuteKeeps(config, optionCash, run, state, accepted.requested);
  }

  lemma ResolveKeeps(config: Config, optionCash: int, run: RunState, state: MarketState, control: Control)
    requires config.Valid() && config.DistinctInstruments() && state.Valid() && BookInv(config, optionCash, run)
    ensures !Resolve(config, run, state, control).Crash?
    ensures BookInv(config, optionCash, Resolve(config, run, state, control).run)
  {
    match control
    case GiveUp(_) =>
    case Keep(decision) => CompleteKeeps(config, optionCash, run, state, decision, false);
    case Force(decision) => CompleteKeeps(config, optionCash, run, state, decision, true);
  }

  lemma StepKeeps(config: Config, optionCash: int, run: RunState, state: MarketState, isFinal: bool)
    requires config.Valid() && config.DistinctInstruments() && state.Valid() && BookInv(config, optionCash, run)
    ensures !StepState(config, run, state, isFinal).Crash?
    ensures BookInv(config, optionCash, StepState(config, run, state, isFinal).run)
  {
    ArriveKeeps(config, optionCash, run, state);
    var arrived := Arrive(config, run, state);
    var observed := Observe(config, state, arrived.book);
    ResolveKeeps(
      config, optionCash, arrived, state,
      DeltaControl(config.policy, observed, config.risk.maximumAbsoluteDelta));
  }

  /** A step without an exit carries out what delta control decides. */
  lemma StepContinues(config: Config, run: RunState, state: MarketState, isFinal: bool)
    requires config.Valid() && state.Valid() && Ready(config, run.book)
    requires
      ExitAt(
        Arrive(config, run, state).risk, config.risk, config.killSwitch, config.rule,
        state.timeToExpiry, state.sessionIndex, isFinal) == None
    ensures
      var arrived := Arrive(config, run, state);
      StepState(config, run, state, isFinal)
      == Resolve(
           config, arrived, state,
           DeltaControl(config.policy, Observe(config, state, arrived.book), config.risk.maximumAbsoluteDelta))
  {
  }

  /** A step with an exit stops as it arrived. */
  lemma StepExits(config: Config, run: RunState, state: MarketState, isFinal: bool, reason: ExitReason)
    requires config.Valid() && state.Valid() && Ready(config, run.book)
    requires
      ExitAt(
        Arrive(config, run, state).risk, config.risk, config.killSwitch, config.rule,
        state.timeToExpiry, state.sessionIndex, isFinal) == Some(reason)
    ensures StepState(config, run, state, isFinal) == Stop(Arrive(config, run, state), reason)
  {
  }

  /** A step stops for the reason its exit check gives, or because it gave up on the net delta. */
  lemma StepStops(config: Config, run: RunState, state: MarketState, isFinal: bool)
    requires config.Valid() && state.Valid() && Ready(config, run.book)
    ensures
      var step := StepState(config, run, state, isFinal);
      var exit := ExitAt(
        Arrive(config, run, state).risk, config.risk, config.killSwitch, config.rule,
        state.timeToExpiry, state.sessionIndex, isFinal);
      && (step.Stop? ==> exit == Some(step.reason) || step.reason == AbsoluteDeltaUnhedgeable)
      && (exit.Some? ==> step.Stop?)
  {
  }

  lemma FinalExits(
    risk: RiskState, policy: RiskPolicy, killSwitch: bool, rule: HoldingRule, timeToExpiry: real, sessionIndex: int)
    requires rule.Valid()
    ensures ExitAt(risk, policy, killSwitch, rule, timeToExpiry, sessionIndex, true).Some?
  {
  }

  /** The last state always exits, so the loop never runs off the end of the path. */
  lemma FinalStateStops(config: Config, run: RunState, state: MarketState)
    requires config.Valid() && state.Valid() && Ready(config, run.book)
    ensures StepState(config, run, state, true).Stop?
  {
    StepStops(config, run, state, true);
    FinalExits(
      Arrive(config, run, state).risk, config.risk, config.killSwitch, config.rule, state.timeToExpiry,
      state.sessionIndex);
  }

  /** One pass of the loop. */
  lemma LoopUnrolls(config: Config, states: seq<MarketState>, i: nat, run: RunState, step: Step)
    requires config.Valid() && (forall s <- states :: s.Valid()) && i < |states| && Ready(config, run.book)
    requires step == StepState(config, run, states[i], i == |states| - 1)
    ensures step.Stop? ==> Loop(config, states, i, run) == Ended(step.run, i, step.reason)
    ensures step.Next? ==> Loop(config, states, i, run) == Loop(config, states, i + 1, step.run)
  {
  }

  /** A step from state `j` that goes on with what is kept, or ends as it should. */
  ghost predicate Leads(step: Step, j: nat, keeps: (nat, RunState) -> bool, ends: (nat, RunState, ExitReason) -> bool) {
    && (step.Next? ==> keeps(j + 1, step.run))
    && (step.Stop? ==> ends(j, step.run, step.reason))
  }

  ghost predicate StepLeads(
    config: Config, optionCash: int, states: seq<MarketState>, keeps: (nat, RunState) -> bool,
    ends: (nat, RunState, ExitReason) -> bool, j: nat, run: RunState)
    requires config.Valid() && (forall s <- states :: s.Valid())
  {
    j < |states| && BookInv(config, optionCash, run) && keeps(j, run) ==>
      Leads(StepState(config, run, states[j], j == |states| - 1), j, keeps, ends)
  }

  /** A loop that ended at a state of its path, with its books in order. */
  ghost predicate EndsWell(
    config: Config, optionCash: int, count: nat, outcome: Outcome, ends: (nat, RunState, ExitReason) -> bool)
  {
    && outcome.Ended? && outcome.last < count && BookInv(config, optionCash, outcome.run)
    && ends(outcome.last, outcome.run, outcome.reason)
  }

  /**
   Induction over the loop: the book invariant holds throughout and nothing crashes, so what every step keeps and
   every last step ends with is what the loop ends with.
   */
  lemma {:induction false} LoopInvariant(
    config: Config, optionCash: int, states: seq<MarketState>, i: nat, run: RunState,
    keeps: (nat, RunState) -> bool, ends: (nat, RunState, ExitReason) -> bool)
    requires config.Valid() && config.DistinctInstruments() && (forall s <- states :: s.Valid()) && i < |states|
    requires BookInv(config, optionCash, run) && keeps(i, run)
    requires forall j: nat, r: RunState :: StepLeads(config, optionCash, states, keeps, ends, j, r)
    ensures EndsWell(config, optionCash, |states|, Loop(config, states, i, run), ends)
    decreases |states| - i
  {
    var step := StepState(config, run, states[i], i == |states| - 1);
    StepKeeps(config, optionCash, run, states[i], i == |states| - 1);
    assert StepLeads(config, optionCash, states, keeps, ends, i, run);
    LoopUnrolls(config, states, i, run, step);
    if i == |states| - 1 {
      FinalStateStops(config, run, states[i]);
    } else if step.Next? {
      LoopInvariant(config, optionCash, states, i + 1, step.run, keeps, ends);
    }
  }

  lemma LoopKeeps(config: Config, optionCash: int, states: seq<MarketState>, i: nat, run: RunState)
    requires config.Valid() && config.DistinctInstruments() && (forall s <- states :: s.Valid()) && i < |states|
    requires BookInv(config, optionCash, run)
    ensures Loop(config, states, i, run).Ended?
    ensures BookInv(config, optionCash, Loop(config, states, i, run).run)
  {
    LoopInvariant(
      config, optionCash, states, i, run, (j: nat, r: RunState) => true,
        (j: nat, r: RunState, reason: ExitReason) => true);
  }

  // ---- Close-out ----

  /** What closing one option at the last state brings in. */
  function ExitNotional(config: Config, contract: Contract, final: MarketState): int
    requires config.Valid()
  {
    CloseOptionFill(config, contract, config.units, final).SignedNotional()
  }

  /** One instrument closed, bringing in option cash, and nothing else changed. */
  ghost predicate LegClosed(config: Config, run: RunState, closed: RunState, id: InstrumentId, optionCash: int) {
    && Sound(closed.book) && Explained(config, closed)
    && closed.book.positions.Keys == run.book.positions.Keys
    && Quantity(closed.book, id) == 0
    && (forall other <- run.book.positions :: other != id ==> closed.book.positions[other] == run.book.positions[other])
    && NotionalOf(closed.fills, config.OptionIds()) == NotionalOf(run.fills, config.OptionIds()) + optionCash
    && closed.risk == run.risk && closed.decisions == run.decisions && closed.valuations == run.valuations
  }

  /** A fill that offsets an open position closes it, whatever its amounts. */
  lemma OffsettingFillCloses(config: Config, run: RunState, fill: Fill, kind: EntryKind)
    requires fill.Valid() && Sound(run.book) && Explained(config, run) && fill.kind != Hedge
    requires fill.instrument in config.OptionIds() || fill.instrument == config.futuresId
    requires fill.instrument in run.book.positions && config.futuresId !in config.OptionIds()
    requires run.book.positions[fill.instrument].multiplier == fill.multiplier
    requires run.book.positions[fill.instrument].quantity == -fill.SignedQuantity()
    ensures Post(run, fill, kind).1
    ensures LegClosed(
              config, run, Post(run, fill, kind).0, fill.instrument,
              if fill.instrument in config.OptionIds() then fill.SignedNotional() else 0)
  {
    PostKeepsExplained(config, run, fill, kind);
    FillsAppend(run.fills, fill, config.OptionIds());
  }

  lemma CloseOptionKeeps(config: Config, run: RunState, contract: Contract, final: MarketState)
    requires config.Valid() && config.DistinctInstruments() && contract in config.Contracts()
    requires Ready(config, run.book) && Explained(config, run) && Holds(run.book, contract, config.units)
    ensures CloseOptionLeg(config, run, contract, final).1
    ensures LegClosed(
              config, run, CloseOptionLeg(config, run, contract, final).0, contract.id,
              ExitNotional(config, contract, final))
  {
    OffsettingFillCloses(config, run, CloseOptionFill(config, contract, config.units, final), OptionExit);
  }

  lemma CloseFuturesKeeps(config: Config, run: RunState, final: MarketState)
    requires config.Valid() && config.DistinctInstruments() && final.Valid()
    requires Ready(config, run.book) && Explained(config, run)
    ensures CloseFuturesLeg(config, run, final).1
    ensures LegClosed(config, run, CloseFuturesLeg(config, run, final).0, config.futuresId, 0)
  {
    if Quantity(run.book, config.futuresId) != 0 {
      var position := run.book.positions[config.futuresId];
      var fill := Simulate(CloseFuturesIntent(config, position), final.futuresPrice, config.futuresCosts).value;
      assert fill.SignedQuantity() == -position.quantity;
      OffsettingFillCloses(config, run, fill, FuturesClose);
    }
  }

  ghost predicate Flat(book: Book) {
    forall id <- book.positions :: book.positions[id].quantity == 0
  }

  /** Close-out is never refused and leaves nothing open. */
  lemma CloseOutKeeps(config: Config, optionCash: int, run: RunState, final: MarketState)
    requires config.Valid() && config.DistinctInstruments() && final.Valid() && BookInv(config, optionCash, run)
    ensures CloseOut(config, run, final).Some?
    ensures
      var closed := CloseOut(config, run, final).value;
      && Explained(config, closed) && Flat(closed.book)
      && NotionalOf(closed.fills, config.OptionIds())
         == optionCash + ExitNotional(config, config.call, final) + ExitNotional(config, config.put, final)
      && closed.risk == run.risk && closed.decisions == run.decisions && closed.valuations == run.valuations
  {
    CloseOptionKeeps(config, run, config.call, final);
    var callClosed := CloseOptionLeg(config, run, config.call, final).0;
    CloseOptionKeeps(config, callClosed, config.put, final);
    var putClosed := CloseOptionLeg(config, callClosed, config.put, final).0;
    CloseFuturesKeeps(config, putClosed, final);
    var closed := CloseFuturesLeg(config, putClosed, final).0;
    LegsFlat(
      config, run, callClosed, putClosed, closed,
      ExitNotional(config, config.call, final), ExitNotional(config, config.put, final));
  }

  lemma LegsFlat(
    config: Config, run: RunState, callClosed: RunState, putClosed: RunState, closed: RunState,
    callCash: int, putCash: int)
    requires config.DistinctInstruments() && Ready(config, run.book) && Explained(config, run)
    requires LegClosed(config, run, callClosed, config.call.id, callCash)
    requires LegClosed(config, callClosed, putClosed, config.put.id, putCash)
    requires LegClosed(config, putClosed, closed, config.futuresId, 0)
    ensures Flat(closed.book)
  {
  }

  lemma FlatValueIsCash(config: Config, run: RunState)
    requires run.book.Valid() && Flat(run.book) && Explained(config, run)
    ensures run.book.PortfolioValue() - run.book.startingNav == FillCash(run.fills)
  {
    FlatHoldings(run.book.ids, run.book.positions);
  }

  lemma SettleReconciles(config: Config, run: RunState, last: nat, reason: ExitReason)
    requires config.Valid() && config.DistinctInstruments()
    requires run.book.Valid() && Flat(run.book) && Explained(config, run)
    ensures
      var result := Settle(config, run, last, reason);
      && result.status == Status.Complete && result.exitReason == Some(reason)
      && result.reconciliation.residual == 0
      && result.terminalValue == run.book.startingNav + FillCash(run.fills)
  {
    FlatValueIsCash(config, run);
    ResidualIsMiscounted(run.fills, config.OptionIds(), config.futuresId, config.tolerance);
    EveryFillCountedOnce(run.fills, config.OptionIds(), config.futuresId);
  }

  /** The state of a run when its loop ends. */
  function LoopOutcome(config: Config, states: seq<MarketState>, entered: RunState): Outcome
    requires config.Valid() && (forall s <- states :: s.Valid()) && states != [] && Ready(config, entered.book)
  {
    Loop(config, states, 0, entered)
  }

  /** The loop of a run never crashes, and its close-out is never refused. */
  lemma OutcomeCloses(config: Config, optionCash: int, states: seq<MarketState>, entered: RunState)
    requires config.Valid() && config.DistinctInstruments() && (forall s <- states :: s.Valid()) && states != []
    requires BookInv(config, optionCash, entered)
    ensures
      var outcome := LoopOutcome(config, states, entered);
      && outcome.Ended? && BookInv(config, optionCash, outcome.run)
      && CloseOut(config, outcome.run, states[outcome.last]).Some?
  {
    LoopKeeps(config, optionCash, states, 0, entered);
    var outcome := LoopOutcome(config, states, entered);
    CloseOutKeeps(config, optionCash, outcome.run, states[outcome.last]);
  }

  /** What a run returns from its entry on: its loop, closed out and settled. */
  ghost predicate IsSettledRun(config: Config, states: seq<MarketState>, entered: RunState, result: SimulationResult)
    requires config.Valid() && (forall s <- states :: s.Valid()) && states != [] && Ready(config, entered.book)
  {
    && LoopOutcome(config, states, entered).Ended?
    && var outcome := LoopOutcome(config, states, entered);
       var closed := CloseOut(config, outcome.run, states[outcome.last]);
       closed.Some? && result == Settle(config, closed.value, outcome.last, outcome.reason)
  }

  lemma RunFromIs(config: Config, states: seq<MarketState>, entered: RunState)
    requires config.Valid() && (forall s <- states :: s.Valid()) && states != [] && Ready(config, entered.book)
    requires Loop(config, states, 0, entered).Ended?
    requires var outcome := Loop(config, states, 0, entered); CloseOut(config, outcome.run, states[outcome.last]).Some?
    ensures
      var outcome := Loop(config, states, 0, entered);
      RunFrom(config, states, entered)
      == Ok(Settle(config, CloseOut(config, outcome.run, states[outcome.last]).value, outcome.last, outcome.reason))
  {
  }

  lemma RunFromSettles(config: Config, optionCash: int, states: seq<MarketState>, entered: RunState)
    requires config.Valid() && config.DistinctInstruments() && (forall s <- states :: s.Valid()) && states != []
    requires BookInv(config, optionCash, entered)
    ensures RunFrom(config, states, entered).Ok?
    ensures IsSettledRun(config, states, entered, RunFrom(config, states, entered).value)
  {
    OutcomeCloses(config, optionCash, states, entered);
    RunFromIs(config, states, entered);
  }

  /** What a run that passes the entry checks is: entered, then settled. */
  ghost predicate EntersAndSettles(config: Config, states: seq<MarketState>, result: SimulationResult)
    requires config.Valid() && (forall s <- states :: s.Valid())
  {
    && states != [] && Enter(config, states[0]).1
    && IsSettledRun(config, states, Enter(config, states[0]).0, result)
  }

  /** The ledger never refuses a fill of the run, so the only errors are an empty path and a refused entry. */
  lemma LedgerNeverRefuses(config: Config, states: seq<MarketState>)
    requires config.Valid() && config.DistinctInstruments() && (forall s <- states :: s.Valid())
    ensures SimulationOf(config, states) != Err(LedgerRefused)
    ensures SimulationOf(config, states).Ok? ==> EntersAndSettles(config, states, SimulationOf(config, states).value)
  {
    if states != [] {
      EnterEstablishes(config, states[0]);
      RunFromSettles(config, EntryNotional(config, states[0]), states, Enter(config, states[0]).0);
    }
  }

  lemma SettledRunIsFlat(
    config: Config, optionCash: int, states: seq<MarketState>, entered: RunState, result: SimulationResult)
    requires config.Valid() && config.DistinctInstruments() && (forall s <- states :: s.Valid()) && states != []
    requires BookInv(config, optionCash, entered) && IsSettledRun(config, states, entered, result)
    ensures
      && Flat(result.run.book)
      && result.reconciliation.residual == 0
      && result.status == Status.Complete && result.exitReason == Some(LoopOutcome(config, states, entered).reason)
      && result.terminalValue == Round(config.risk.startingNav) + FillCash(result.run.fills)
      && result.totalHedges == HedgeFills(result.run.fills)
  {
    OutcomeCloses(config, optionCash, states, entered);
    var outcome := LoopOutcome(config, states, entered);
    var final := states[outcome.last];
    CloseOutKeeps(config, optionCash, outcome.run, final);
    SettleReconciles(config, CloseOut(config, outcome.run, final).value, outcome.last, outcome.reason);
  }

  /** What every completed run is. */
  ghost predicate FlatAndReconciled(config: Config, result: SimulationResult) {
    && Flat(result.run.book)
    && result.reconciliation.residual == 0
    && result.status == Status.Complete && result.exitReason.Some?
    && result.terminalValue == Round(config.risk.startingNav) + FillCash(result.run.fills)
    && result.totalHedges == HedgeFills(result.run.fills)
  }

  /**
   Every run that passes the entry checks ends with nothing open and reconciles to the cent: its
   status is complete, its exit reason is the loop's, its terminal profit is the cash of its
   fills, and it counts its hedge fills.
   */
  lemma RunEndsFlatAndReconciled(config: Config, states: seq<MarketState>)
    requires config.Valid() && config.DistinctInstruments() && (forall s <- states :: s.Valid())
    ensures SimulationOf(config, states).Ok? ==> FlatAndReconciled(config, SimulationOf(config, states).value)
  {
    LedgerNeverRefuses(config, states);
    var simulation := SimulationOf(config, states);
    if simulation.Ok? {
      EnterEstablishes(config, states[0]);
      SettledRunIsFlat(
        config, EntryNotional(config, states[0]), states, Enter(config, states[0]).0, simulation.value);
    }
  }
}
