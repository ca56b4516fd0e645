/**
 The simulation run as a function of its inputs: one step for each executable market state,
 then the close-out. `SimulationRun` is the loop that computes it on a live ledger.
 */
module Engine {
  import opened Wrappers
  import opened Money
  import opened Fills
  import opened Ledger
  import opened Hedging
  import opened Risk

  datatype Contract = Contract(id: InstrumentId, multiplier: int)

  /** What the option model returns for one unit; theta is for a year. */
  datatype Valuation = Valuation(price: real, delta: real, gamma: real, theta: real, vega: real)

  datatype MarketState = MarketState(
    timestamp: int,
    sessionIndex: int,
    stepIndex: nat,
    sessionDate: int,
    spot: real,
    futuresPrice: real,
    impliedVolatility: real,
    timeToExpiry: real,
    stepYearFraction: real)
  {
    predicate Valid() {
      sessionIndex >= 0 && spot > 0.0 && futuresPrice > 0.0 && timeToExpiry >= 0.0
    }
  }

  /**
   Everything a run is given besides its market states. The option model is a parameter; all
   that is used of it is that a price is not negative.
   */
  datatype Config = Config(
    call: Contract,
    put: Contract,
    futuresId: InstrumentId,
    futuresMultiplier: int,
    deltaPerContract: real,
    units: int,
    policy: Policy,
    risk: RiskPolicy,
    rule: HoldingRule,
    optionCosts: CostParameters,
    futuresCosts: CostParameters,
    killSwitch: bool,
    tolerance: real,
    requireQuoteQuality: bool,
    requireLiquidity: bool,
    relativeSpread: real,
    volume: int,
    openInterest: int,
    model: (Contract, MarketState) -> Valuation)
  {
    ghost predicate Valid() {
      && call.multiplier > 0 && put.multiplier > 0 && futuresMultiplier > 0
      && deltaPerContract > 0.0 && units > 0
      && policy.Valid() && risk.Valid() && rule.Valid() && optionCosts.Valid() && futuresCosts.Valid()
      && tolerance > 0.0
      && (forall c: Contract, s: MarketState :: model(c, s).price >= 0.0)
    }

    /** The three instruments are pairwise different. */
    predicate DistinctInstruments() {
      call.id != put.id && call.id != futuresId && put.id != futuresId
    }

    function Contracts(): seq<Contract> {
      [call, put]
    }

    function OptionIds(): set<InstrumentId> {
      {call.id, put.id}
    }

    function Units(contract: Contract): int {
      units * contract.multiplier
    }
  }

  /** One option valued at one state, scaled to the position. */
  datatype ValuationRecord = ValuationRecord(
    contract: InstrumentId,
    timestamp: int,
    quantity: int,
    multiplier: int,
    unitPrice: real,
    delta: real,
    gamma: real,
    theta: real,
    vega: real)

  function Value(config: Config, contract: Contract, state: MarketState): ValuationRecord {
    var unit := config.model(contract, state);
    var scale := config.Units(contract) as real;
    ValuationRecord(
      contract.id, state.timestamp, config.units, contract.multiplier,
      unit.price, unit.delta * scale, unit.gamma * scale, unit.theta * scale, unit.vega * scale)
  }

  function ValuePair(config: Config, state: MarketState): seq<ValuationRecord> {
    [Value(config, config.call, state), Value(config, config.put, state)]
  }

  /** A completed hedge decision with what the run attaches to it. */
  datatype DecisionRecord = DecisionRecord(
    decision: Decision,
    sessionDate: int,
    forced: bool,
    valueBefore: int,
    valueAfter: int,
    sessionHedges: int,
    totalHedges: int)

  /** What the run accumulates. */
  datatype RunState = RunState(
    book: Book,
    risk: RiskState,
    valuations: seq<ValuationRecord>,
    decisions: seq<DecisionRecord>,
    fills: seq<Fill>)

  /** A consistent ledger whose multipliers are all positive. */
  ghost predicate Sound(book: Book) {
    book.Valid() && (forall id <- book.positions :: book.positions[id].multiplier > 0)
  }

  /** The ledger can be marked and closed: both options are in it. */
  ghost predicate Ready(config: Config, book: Book) {
    Sound(book) && config.call.id in book.positions && config.put.id in book.positions
  }

  lemma RecordedSound(book: Book, fill: Fill, kind: EntryKind)
    requires fill.Valid() && Sound(book)
    ensures
      var (after, ok) := Recorded(book, fill, kind);
      && Sound(after)
      && after.startingNav == book.startingNav
      && (ok ==> after.positions.Keys == book.positions.Keys + {fill.instrument})
      && (!ok ==> after.positions == book.positions)
      && (forall id <- book.positions :: id != fill.instrument ==> after.positions[id] == book.positions[id])
  {
    RecordedValid(book, fill, kind);
  }

  /** Records a fill in the run; false when the ledger refuses it. */
  function Post(run: RunState, fill: Fill, kind: EntryKind): (result: (RunState, bool))
    requires fill.Valid() && Sound(run.book)
    ensures Sound(result.0.book)
    ensures run.book.positions.Keys <= result.0.book.positions.Keys
    ensures result.1 ==> fill.instrument in result.0.book.positions
  {
    RecordedSound(run.book, fill, kind);
    var (book, ok) := Recorded(run.book, fill, kind);
    (run.(book := book, fills := run.fills + [fill]), ok)
  }

  // ---- Entry ----

  function EntryIntent(config: Config, contract: Contract): Intent {
    Intent(OpenStraddle, contract.id, Buy, config.units, contract.multiplier)
  }

  function EntryFill(config: Config, contract: Contract, state: MarketState): Fill
    requires config.model(contract, state).price >= 0.0
  {
    Simulate(EntryIntent(config, contract), config.model(contract, state).price, config.optionCosts).value
  }

  datatype EntryRejection =
    | PremiumAtRisk
    | OptionSpread
    | OptionVolume
    | OptionOpenInterest
    | StraddleIntegrity
    | DailyTheta

  /** The first entry rule that rejects. Strike and expiry agree because one pair holds both contracts. */
  function EntryRejected(config: Config, callFill: Fill, putFill: Fill, state: MarketState): Option<EntryRejection>
    requires config.rule.Valid()
  {
    var premium :=
      Round((callFill.grossNotional + callFill.totalCost + putFill.grossNotional + putFill.totalCost) as real);
    var annualTheta := Value(config, config.call, state).theta + Value(config, config.put, state).theta;
    var dailyTheta := Round(Abs(annualTheta) / config.rule.periodsPerYear as real);
    if premium > Round(config.risk.startingNav * config.risk.premiumFraction) then Some(PremiumAtRisk)
    else if config.requireQuoteQuality && config.relativeSpread > config.risk.maximumRelativeSpread then
      Some(OptionSpread)
    else if config.requireLiquidity && config.volume <= 0 then Some(OptionVolume)
    else if config.requireLiquidity && config.openInterest <= 0 then Some(OptionOpenInterest)
    else if config.call.multiplier != config.put.multiplier then Some(StraddleIntegrity)
    else if dailyTheta > Round(config.risk.startingNav * config.risk.thetaFraction) then Some(DailyTheta)
    else None
  }

  // ---- One market state ----

  function MarkState(config: Config, state: MarketState, book: Book): (marked: Book)
    requires Ready(config, book)
    ensures Ready(config, marked)
  {
    var afterCall := Marked(book, config.call.id, config.model(config.call, state).price);
    var afterPut := Marked(afterCall, config.put.id, config.model(config.put, state).price);
    if config.futuresId in afterPut.positions then Marked(afterPut, config.futuresId, state.futuresPrice) else afterPut
  }

  function Observe(config: Config, state: MarketState, book: Book): PolicyState {
    var call, put := Value(config, config.call, state), Value(config, config.put, state);
    var optionDelta := call.delta + put.delta;
    var hedgeDelta := HedgeDelta(Quantity(book, config.futuresId), config.deltaPerContract);
    PolicyState(
      state.stepIndex, optionDelta, hedgeDelta, optionDelta + hedgeDelta, call.gamma + put.gamma, state.spot,
      config.deltaPerContract)
  }

  function HedgeIntent(config: Config, requested: int): Intent
    requires requested != 0
  {
    Intent(Hedge, config.futuresId, if requested > 0 then Buy else Sell, AbsInt(requested), config.futuresMultiplier)
  }

  function HedgeEntryKind(requested: int): EntryKind {
    if requested > 0 then FuturesHedgeBuy else FuturesHedgeSell
  }

  /** The trade a decision asks for, at the state's futures price. */
  function Execute(config: Config, run: RunState, state: MarketState, requested: int): (result: (RunState, bool))
    requires config.Valid() && state.Valid() && Ready(config, run.book)
    ensures Ready(config, result.0.book)
  {
    if requested == 0 then (run, true)
    else
      var fill := Simulate(HedgeIntent(config, requested), state.futuresPrice, config.futuresCosts).value;
      var (booked, ok) := Post(run, fill, HedgeEntryKind(requested));
      (booked.(risk := RecordHedge(booked.risk)), ok)
  }

  datatype Step =
    | Next(run: RunState)
    | Stop(run: RunState, reason: ExitReason)
    | Crash

  /** The decision recorded when the run gives up: nothing is traded. */
  function FailedDecision(policyState: PolicyState): Decision
    requires policyState.Valid()
  {
    ForceDeltaReduction(policyState).(
      action := Hold, requested := 0, executed := 0,
      hedgeDeltaAfter := policyState.hedgeDelta,
      netDeltaAfter := policyState.netDelta,
      residual := policyState.netDelta,
      reason := Unhedgeable)
  }

  /** Marks, risk state and valuations of a state, before it is decided on. */
  function Arrive(config: Config, run: RunState, state: MarketState): (arrived: RunState)
    requires Ready(config, run.book)
    ensures Ready(config, arrived.book)
  {
    var book := MarkState(config, state, run.book);
    run.(
      book := book,
      risk := Mark(run.risk, book.PortfolioValue(), state.sessionDate),
      valuations := run.valuations + ValuePair(config, state))
  }

  /** An accepted decision with what it executed and left behind. */
  function Executed(config: Config, observed: PolicyState, accepted: Decision, executed: int): Decision {
    var hedgeDelta := observed.hedgeDelta + HedgeDelta(executed, config.deltaPerContract);
    var netDelta := observed.optionDelta + hedgeDelta;
    accepted.(
      executed := executed,
      optionDeltaAfter := observed.optionDelta,
      hedgeDeltaAfter := hedgeDelta,
      netDeltaAfter := netDelta,
      residual := netDelta - accepted.target)
  }

  /** Executes an accepted decision and records it. */
  function CompleteDecision(
    config: Config, run: RunState, state: MarketState, accepted: Decision, forced: bool): (step: Step)
    requires config.Valid() && state.Valid() && Ready(config, run.book)
    ensures step.Next? ==> Ready(config, step.run.book)
    ensures !step.Stop?
  {
    var observed := Observe(config, state, run.book);
    var valueBefore := run.book.PortfolioValue();
    var (traded, ok) := Execute(config, run, state, accepted.requested);
    if !ok then Crash
    else
      var valueAfter := traded.book.PortfolioValue();
      var record := DecisionRecord(
        Executed(config, observed, accepted, accepted.requested), state.sessionDate, forced, valueBefore, valueAfter,
        traded.risk.hedgesInSession, traded.risk.totalHedges);
      Next(traded.(
        risk := Mark(traded.risk, valueAfter, state.sessionDate),
        decisions := traded.decisions + [record]))
  }

  /** Carries out what delta control decided. */
  function Resolve(config: Config, run: RunState, state: MarketState, control: Control): (step: Step)
    requires config.Valid() && state.Valid() && Ready(config, run.book)
    ensures !step.Crash? ==> Ready(config, step.run.book)
  {
    match control
    case Keep(decision) => CompleteDecision(config, run, state, decision, false)
    case Force(decision) => CompleteDecision(config, run, state, decision, true)
    case GiveUp(_) =>
      var value := run.book.PortfolioValue();
      var record := DecisionRecord(
        FailedDecision(Observe(config, state, run.book)), state.sessionDate, true, value, value,
        run.risk.hedgesInSession, run.risk.totalHedges);
      Stop(run.(decisions := run.decisions + [record]), AbsoluteDeltaUnhedgeable)
  }

  function StepState(config: Config, run: RunState, state: MarketState, isFinal: bool): (step: Step)
    requires config.Valid() && state.Valid() && Ready(config, run.book)
    ensures !step.Crash? ==> Ready(config, step.run.book)
  {
    var arrived := Arrive(config, run, state);
    match ExitAt(
      arrived.risk, config.risk, config.killSwitch, config.rule, state.timeToExpiry, state.sessionIndex, isFinal)
    case Some(reason) => Stop(arrived, reason)
    case None =>
      var observed := Observe(config, state, arrived.book);
      Resolve(config, arrived, state, DeltaControl(config.policy, observed, config.risk.maximumAbsoluteDelta))
  }

  // ---- The loop over market states ----

  /** Where the loop ended: the run so far, the index of the last state processed and the reason. */
  datatype Outcome = Ended(run: RunState, last: nat, reason: ExitReason) | Crashed

  function Loop(config: Config, states: seq<MarketState>, i: nat, run: RunState): (outcome: Outcome)
    requires config.Valid() && (forall s <- states :: s.Valid()) && Ready(config, run.book)
    requires i <= |states| && 0 < |states|
    ensures outcome.Ended? ==> Ready(config, outcome.run.book) && outcome.last < |states|
    decreases |states| - i
  {
    if i == |states| then Ended(run, |states| - 1, SimulationEnd)
    else
      match StepState(config, run, states[i], i == |states| - 1)
      case Crash => Crashed
      case Stop(stopped, reason) => Ended(stopped, i, reason)
      case Next(next) => Loop(config, states, i + 1, next)
  }

  // ---- Close-out ----

  function CloseOptionFill(config: Config, contract: Contract, quantity: int, final: MarketState): Fill
    requires config.Valid()
  {
    var intent := Intent(CloseOption, contract.id, Sell, AbsInt(quantity), contract.multiplier);
    Simulate(intent, config.model(contract, final).price, config.optionCosts).value
  }

  function CloseFuturesIntent(config: Config, position: Positions.Position): Intent {
    Intent(
      CloseFutures, config.futuresId, if position.quantity > 0 then Sell else Buy, AbsInt(position.quantity),
      position.multiplier)
  }

  function CloseOptionLeg(
    config: Config, run: RunState, contract: Contract, final: MarketState): (result: (RunState, bool))
    requires config.Valid() && Ready(config, run.book) && contract in config.Contracts()
    ensures Ready(config, result.0.book)
  {
    var quantity := run.book.positions[contract.id].quantity;
    if quantity == 0 then (run, true)
    else
      Post(run, CloseOptionFill(config, contract, quantity, final), OptionExit)
  }

  function CloseFuturesLeg(config: Config, run: RunState, final: MarketState): (result: (RunState, bool))
    requires config.Valid() && final.Valid() && Ready(config, run.book)
    ensures Ready(config, result.0.book)
  {
    if Quantity(run.book, config.futuresId) == 0 then (run, true)
    else
      var intent := CloseFuturesIntent(config, run.book.positions[config.futuresId]);
      Post(run, Simulate(intent, final.futuresPrice, config.futuresCosts).value, FuturesClose)
  }

  /** Closing both options and then the hedge; none when the ledger refuses a fill. */
  function CloseOut(config: Config, run: RunState, final: MarketState): (closed: Option<RunState>)
    requires config.Valid() && final.Valid() && Ready(config, run.book)
    ensures closed.Some? ==> Ready(config, closed.value.book)
  {
    var (callClosed, callOk) := CloseOptionLeg(config, run, config.call, final);
    if !callOk then None
    else
      var (putClosed, putOk) := CloseOptionLeg(config, callClosed, config.put, final);
      if !putOk then None
      else
        var (closed, ok) := CloseFuturesLeg(config, putClosed, final);
        if ok then Some(closed) else None
  }

  // ---- The whole run ----

  datatype Status = Complete | Failed

  datatype SimulationResult = SimulationResult(
    status: Status,
    run: RunState,
    last: nat,
    terminalValue: int,
    exitReason: Option<ExitReason>,
    totalHedges: int,
    reconciliation: Reconciliation)

  datatype RunError = EmptyPath | EntryRefused(reason: EntryRejection) | LedgerRefused

  /** A run that holds nothing yet. */
  function Fresh(config: Config, sessionDate: int): RunState {
    var nav := Round(config.risk.startingNav);
    RunState(Opened(nav), Initialize(nav, nav, sessionDate), [], [], [])
  }

  /** The run after both entry fills, and whether the ledger accepted them. */
  function EnterWith(config: Config, callFill: Fill, putFill: Fill, sessionDate: int): (entered: (RunState, bool))
    requires callFill.Valid() && putFill.Valid()
    requires callFill.instrument == config.call.id && putFill.instrument == config.put.id
    ensures entered.1 ==> Ready(config, entered.0.book)
  {
    var (afterCall, callOk) := Post(Fresh(config, sessionDate), callFill, OptionEntry);
    var (afterPut, putOk) := Post(afterCall, putFill, OptionEntry);
    var risk := Initialize(Round(config.risk.startingNav), afterPut.book.PortfolioValue(), sessionDate);
    (afterPut.(risk := risk), callOk && putOk)
  }

  function Enter(config: Config, initial: MarketState): (entered: (RunState, bool))
    requires config.Valid() && initial.Valid()
    ensures entered.1 ==> Ready(config, entered.0.book)
  {
    EnterWith(
      config, EntryFill(config, config.call, initial), EntryFill(config, config.put, initial), initial.sessionDate)
  }

  function Settle(config: Config, run: RunState, last: nat, reason: ExitReason): SimulationResult
    requires run.book.Valid()
  {
    var terminal := run.book.PortfolioValue();
    var reconciliation := Reconcile(
      terminal - run.book.startingNav, run.fills, config.OptionIds(), config.futuresId, config.tolerance);
    SimulationResult(
      if reconciliation.reconciled then Complete else Failed,
      run, last, terminal,
      if reconciliation.reconciled then Some(reason) else None,
      run.risk.totalHedges, reconciliation)
  }

  /** The run from its entry on. */
  function RunFrom(config: Config, states: seq<MarketState>, entered: RunState): Result<SimulationResult, RunError>
    requires config.Valid() && (forall s <- states :: s.Valid()) && states != [] && Ready(config, entered.book)
  {
    match Loop(config, states, 0, entered)
    case Crashed => Err(LedgerRefused)
    case Ended(run, last, reason) =>
      match CloseOut(config, run, states[last])
      case None => Err(LedgerRefused)
      case Some(closed) => Ok(Settle(config, closed, last, reason))
  }

  function SimulationOf(config: Config, states: seq<MarketState>): Result<SimulationResult, RunError>
    requires config.Valid() && forall s <- states :: s.Valid()
  {
    if states == [] then Err(EmptyPath)
    else
      var callFill, putFill := EntryFill(config, config.call, states[0]), EntryFill(config, config.put, states[0]);
      match EntryRejected(config, callFill, putFill, states[0])
      case Some(reason) => Err(EntryRefused(reason))
      case None =>
        var (entered, ok) := Enter(config, states[0]);
        if ok then RunFrom(config, states, entered) else Err(LedgerRefused)
  }
}
