/** Which runs can exit because their net delta could not be hedged. */
module EngineControl {
  import opened Wrappers
  import opened Money
  import opened Fills
  import opened Ledger
  import opened Hedging
  import opened Hedgeability
  import opened Risk
  import opened Engine
  import opened EngineSafety

  // ---- Runs of a hedgeable policy ----

  /** A step of a hedgeable configuration never stops for its net delta. */
  lemma StepIsHedged(config: Config, run: RunState, state: MarketState, isFinal: bool)
    requires config.Valid() && state.Valid() && Ready(config, run.book)
    requires Hedgeable(config.policy, config.deltaPerContract, config.risk.maximumAbsoluteDelta)
    ensures
      var step := StepState(config, run, state, isFinal);
      step.Stop? ==> step.reason != AbsoluteDeltaUnhedgeable
  {
    var arrived := Arrive(config, run, state);
    HedgeableKeeps(config.policy, Observe(config, state, arrived.book), config.risk.maximumAbsoluteDelta);
  }

  lemma LoopIsHedged(config: Config, optionCash: int, states: seq<MarketState>, run: RunState)
    requires config.Valid() && config.DistinctInstruments() && (forall s <- states :: s.Valid()) && states != []
    requires BookInv(config, optionCash, run)
    requires Hedgeable(config.policy, config.deltaPerContract, config.risk.maximumAbsoluteDelta)
    ensures
      var outcome := Loop(config, states, 0, run);
      outcome.Ended? && outcome.reason != AbsoluteDeltaUnhedgeable
  {
    var keeps := (j: nat, r: RunState) => true;
    var ends := (j: nat, r: RunState, reason: ExitReason) => reason != AbsoluteDeltaUnhedgeable;
    forall j: nat, r: RunState ensures StepLeads(config, optionCash, states, keeps, ends, j, r) {
      if j < |states| && BookInv(config, optionCash, r) {
        StepIsHedged(config, r, states[j], j == |states| - 1);
      }
    }
    LoopInvariant(config, optionCash, states, 0, run, keeps, ends);
  }

  lemma RunIsHedged(config: Config, states: seq<MarketState>)
    requires config.Valid() && config.DistinctInstruments() && (forall s <- states :: s.Valid())
    requires Hedgeable(config.policy, config.deltaPerContract, config.risk.maximumAbsoluteDelta)
    ensures
      var simulation := SimulationOf(config, states);
      simulation.Ok? ==> simulation.value.exitReason != Some(AbsoluteDeltaUnhedgeable)
  {
    LedgerNeverRefuses(config, states);
    var simulation := SimulationOf(config, states);
    if simulation.Ok? {
      EnterEstablishes(config, states[0]);
      var entered, optionCash := Enter(config, states[0]).0, EntryNotional(config, states[0]);
      SettledRunIsFlat(config, optionCash, states, entered, simulation.value);
      LoopIsHedged(config, optionCash, states, entered);
    }
  }

  // ---- A run that gives up ----

  /** Options worth nothing whose deltas add up to `net`: all that matters of a market here. */
  function WitnessConfig(policy: Policy, d: real, limit: real, net: real): Config {
    var free := CostParameters(0.0, 0.0, 0.0, 0.0);
    Config(
      Contract(0, 1), Contract(1, 1), 2, 1, d, 1, policy,
      RiskPolicy(100.0, 1.0, 1.0, 1.0, 1.0, limit, 1, 1.0), HoldingRule(1, 0, 1), free, free, false, 1.0,
      false, false, 0.0, 0, 0,
      (c: Contract, s: MarketState) => Valuation(0.0, if c.id == 0 then net else 0.0, 0.0, 0.0, 0.0))
  }

  function WitnessState(step: nat): MarketState {
    MarketState(step, 0, step, 1, 1.0, 1.0, 0.0, 0.0, 0.0)
  }

  function WitnessPath(): (states: seq<MarketState>)
    ensures |states| == 2 && forall s <- states :: s.Valid()
  {
    [WitnessState(0), WitnessState(1)]
  }

  lemma WitnessFill(config: Config, contract: Contract, state: MarketState)
    requires config.Valid() && config.model(contract, state).price == 0.0
    requires config.optionCosts == CostParameters(0.0, 0.0, 0.0, 0.0)
    ensures EntryFill(config, contract, state).grossNotional == 0 && EntryFill(config, contract, state).totalCost == 0
  {
    var units := EntryIntent(config, contract).Units();
    assert Scaled(0.0, units) == 0.0 && Scaled(0.0, 0.0) == 0.0;
  }

  /** A book without cash flows, holding options that are worth nothing, is worth its starting value. */
  lemma WorthlessBook(config: Config, run: RunState, state: MarketState)
    requires config.Valid() && Ready(config, run.book) && Explained(config, run) && FillCash(run.fills) == 0
    requires config.model(config.call, state).price == 0.0 && config.model(config.put, state).price == 0.0
    requires run.book.positions.Keys == {config.call.id, config.put.id} && config.DistinctInstruments()
    ensures MarkState(config, state, run.book).PortfolioValue() == run.book.startingNav
  {
    var marked := MarkState(config, state, run.book);
    forall id | id in marked.ids ensures marked.positions[id].MarketValue() == 0 {
      assert marked.positions[id].mark == 0;
      ZeroMark(marked.positions[id]);
    }
    ZeroHoldings(marked.ids, marked.positions);
    ValueIsExact(marked);
  }

  lemma ZeroMark(position: Positions.Position)
    requires position.mark == 0
    ensures position.MarketValue() == 0
  {
    assert position.mark * position.quantity * position.multiplier == 0;
  }

  lemma {:induction false} ZeroHoldings(ids: seq<InstrumentId>, positions: map<InstrumentId, Positions.Position>)
    requires forall id <- ids :: id in positions && positions[id].MarketValue() == 0
    ensures HoldingsTotal(ids, positions) == 0
  {
    if ids == [] {
    } else {
      ZeroHoldings(ids[..|ids| - 1], positions);
    }
  }

  /** A run that has entered at no cost. */
  ghost predicate EnteredFree(config: Config, entered: RunState, state: MarketState) {
    && Ready(config, entered.book) && Explained(config, entered) && FillCash(entered.fills) == 0
    && entered.book.positions.Keys == {config.call.id, config.put.id}
    && entered.risk.sessionReference == entered.risk.positionReference == Round(config.risk.startingNav)
    && entered.risk.sessionDate == state.sessionDate && entered.risk.hedgesInSession == 0
  }

  lemma WitnessEnters(config: Config, state: MarketState)
    requires config.Valid() && config.DistinctInstruments() && state.Valid()
    requires config.model(config.call, state).price == 0.0 && config.model(config.put, state).price == 0.0
    requires config.optionCosts == CostParameters(0.0, 0.0, 0.0, 0.0)
    ensures Enter(config, state).1 && EnteredFree(config, Enter(config, state).0, state)
  {
    EnterEstablishes(config, state);
    var callFill, putFill := EntryFill(config, config.call, state), EntryFill(config, config.put, state);
    WitnessFill(config, config.call, state);
    WitnessFill(config, config.put, state);
    EnterWithEstablishes(config, callFill, putFill, state.sessionDate);
    FillsAppend([], callFill, {});
    FillsAppend([callFill], putFill, {});
    assert [] + [callFill] == [callFill] && [callFill] + [putFill] == [callFill, putFill];
  }

  /** Marked at its first state, the witness run has gained and lost nothing. */
  lemma WitnessArrives(config: Config, entered: RunState, state: MarketState)
    requires config.Valid() && config.DistinctInstruments() && EnteredFree(config, entered, state)
    requires config.model(config.call, state).price == 0.0 && config.model(config.put, state).price == 0.0
    ensures
      var arrived := Arrive(config, entered, state);
      && arrived.risk.sessionPnl == 0 && arrived.risk.positionPnl == 0 && arrived.risk.hedgesInSession == 0
      && config.futuresId !in arrived.book.positions
  {
    WorthlessBook(config, entered, state);
    MarkStateFrame(config, state, entered.book);
  }

  lemma WitnessObserves(config: Config, state: MarketState, book: Book, net: real)
    requires config.units == 1 && config.call.multiplier == 1 && config.put.multiplier == 1
    requires config.model(config.call, state).delta == net && config.model(config.put, state).delta == 0.0
    requires config.futuresId !in book.positions
    ensures Observe(config, state, book).netDelta == net
  {
    assert config.Units(config.call) as real == 1.0 && config.Units(config.put) as real == 1.0;
    assert HedgeDelta(0, config.deltaPerContract) == 0.0;
  }

  lemma NothingBreached(risk: RiskState, policy: RiskPolicy, rule: HoldingRule)
    requires policy.Valid() && rule == HoldingRule(1, 0, 1)
    requires risk.sessionPnl == 0 && risk.positionPnl == 0 && risk.hedgesInSession == 0
    ensures ExitAt(risk, policy, false, rule, 0.0, 0, false) == None
  {
    assert policy.startingNav * policy.dailyLossFraction > 0.0;
    assert policy.startingNav * policy.positionLossFraction > 0.0;
  }

  lemma StepGivesUp(config: Config, run: RunState, state: MarketState, observed: PolicyState)
    requires config.Valid() && state.Valid() && Ready(config, run.book) && observed.Valid()
    requires
      var arrived := Arrive(config, run, state);
      && observed == Observe(config, state, arrived.book)
      && ExitAt(
           arrived.risk, config.risk, config.killSwitch, config.rule, state.timeToExpiry, state.sessionIndex, false)
             == None
    requires DeltaControl(config.policy, observed, config.risk.maximumAbsoluteDelta).GiveUp?
    ensures StepState(config, run, state, false).Stop?
    ensures StepState(config, run, state, false).reason == AbsoluteDeltaUnhedgeable
  {
  }

  /** What of the witness matters: it is free, nothing about it breaches a limit and its first net delta is `net`. */
  ghost predicate IsWitness(config: Config, state: MarketState, net: real) {
    && config.Valid() && config.DistinctInstruments() && state.Valid()
    && config.optionCosts == CostParameters(0.0, 0.0, 0.0, 0.0)
    && config.model(config.call, state) == Valuation(0.0, net, 0.0, 0.0, 0.0)
    && config.model(config.put, state) == Valuation(0.0, 0.0, 0.0, 0.0, 0.0)
    && config.units == 1 && config.call.multiplier == 1 && config.put.multiplier == 1
    && !config.killSwitch && config.rule == HoldingRule(1, 0, 1)
    && !config.requireQuoteQuality && !config.requireLiquidity
    && state.stepIndex == 0 && state.timeToExpiry == 0.0 && state.sessionIndex == 0
  }

  lemma WitnessIsWitness(policy: Policy, d: real, limit: real, net: real)
    requires policy.Valid() && d > 0.0 && limit >= 0.0
    ensures IsWitness(WitnessConfig(policy, d, limit, net), WitnessState(0), net)
  {
  }

  lemma WitnessNetDelta(config: Config, entered: RunState, state: MarketState, net: real)
    requires IsWitness(config, state, net) && EnteredFree(config, entered, state)
    ensures
      var observed := Observe(config, state, Arrive(config, entered, state).book);
      observed.netDelta == net && observed.stepIndex == 0 && observed.deltaPerContract == config.deltaPerContract
  {
    WitnessArrives(config, entered, state);
    WitnessObserves(config, state, Arrive(config, entered, state).book, net);
  }

  /** The witness run gives up at its first state, whose net delta is `net`. */
  lemma WitnessStops(config: Config, entered: RunState, state: MarketState, net: real)
    requires IsWitness(config, state, net) && EnteredFree(config, entered, state)
    requires GivesUpAt(config.policy, config.deltaPerContract, config.risk.maximumAbsoluteDelta, net)
    ensures StepState(config, entered, state, false).Stop?
    ensures StepState(config, entered, state, false).reason == AbsoluteDeltaUnhedgeable
  {
    WitnessNetDelta(config, entered, state, net);
    WitnessArrives(config, entered, state);
    NothingBreached(Arrive(config, entered, state).risk, config.risk, config.rule);
    StepGivesUp(config, entered, state, Observe(config, state, Arrive(config, entered, state).book));
  }

  lemma WitnessAccepted(config: Config, state: MarketState, net: real)
    requires IsWitness(config, state, net)
    ensures EntryRejected(config, EntryFill(config, config.call, state), EntryFill(config, config.put, state), state)
            == None
  {
    WitnessFill(config, config.call, state);
    WitnessFill(config, config.put, state);
    assert Value(config, config.call, state).theta == 0.0 && Value(config, config.put, state).theta == 0.0;
    assert Abs(0.0) / config.rule.periodsPerYear as real == 0.0;
    assert config.risk.startingNav * config.risk.premiumFraction > 0.0;
    assert config.risk.startingNav * config.risk.thetaFraction > 0.0;
    HalfEvenSign(config.risk.startingNav * config.risk.premiumFraction);
    HalfEvenSign(config.risk.startingNav * config.risk.thetaFraction);
  }

  lemma SimulationIs(config: Config, states: seq<MarketState>)
    requires config.Valid() && (forall s <- states :: s.Valid()) && states != [] && Enter(config, states[0]).1
    requires
      var callFill, putFill := EntryFill(config, config.call, states[0]), EntryFill(config, config.put, states[0]);
      EntryRejected(config, callFill, putFill, states[0]) == None
    ensures SimulationOf(config, states) == RunFrom(config, states, Enter(config, states[0]).0)
  {
  }

  /** A run that stops at its first state exits with the reason it stopped for. */
  lemma StoppedRun(config: Config, optionCash: int, states: seq<MarketState>, entered: RunState)
    requires config.Valid() && config.DistinctInstruments() && (forall s <- states :: s.Valid()) && |states| > 1
    requires BookInv(config, optionCash, entered) && StepState(config, entered, states[0], false).Stop?
    ensures
      var run := RunFrom(config, states, entered);
      && run.Ok? && run.value.last == 0
      && run.value.exitReason == Some(StepState(config, entered, states[0], false).reason)
  {
    RunFromSettles(config, optionCash, states, entered);
    SettledRunIsFlat(config, optionCash, states, entered, RunFrom(config, states, entered).value);
  }

  /** The run exits as unhedgeable at its first state, where it observes the net delta `net`. */
  ghost predicate ExitsUnhedged(config: Config, states: seq<MarketState>, net: real) {
    && config.Valid() && config.DistinctInstruments() && (forall s <- states :: s.Valid())
    && states != [] && Enter(config, states[0]).1
    && Observe(config, states[0], Arrive(config, Enter(config, states[0]).0, states[0]).book).netDelta == net
    && SimulationOf(config, states).Ok? && SimulationOf(config, states).value.last == 0
    && SimulationOf(config, states).value.exitReason == Some(AbsoluteDeltaUnhedgeable)
  }

  /** A run that ends because its first net delta is given up on. */
  lemma WitnessRunGivesUp(config: Config, states: seq<MarketState>, net: real)
    requires (forall s <- states :: s.Valid()) && |states| > 1 && IsWitness(config, states[0], net)
    requires GivesUpAt(config.policy, config.deltaPerContract, config.risk.maximumAbsoluteDelta, net)
    ensures ExitsUnhedged(config, states, net)
  {
    WitnessEnters(config, states[0]);
    WitnessNetDelta(config, Enter(config, states[0]).0, states[0], net);
    WitnessStops(config, Enter(config, states[0]).0, states[0], net);
    WitnessAccepted(config, states[0], net);
    SimulationIs(config, states);
    EnterEstablishes(config, states[0]);
    StoppedRun(config, EntryNotional(config, states[0]), states, Enter(config, states[0]).0);
  }

  // ---- Exactly which ----

  /** No run under this policy, contract delta and limit exits as unhedgeable. */
  ghost predicate RunsAreHedged(policy: Policy, d: real, limit: real) {
    forall config: Config, states: seq<MarketState> ::
      && config.Valid() && config.DistinctInstruments() && (forall s <- states :: s.Valid())
      && config.policy == policy && config.deltaPerContract == d && config.risk.maximumAbsoluteDelta == limit
      && SimulationOf(config, states).Ok?
      ==> SimulationOf(config, states).value.exitReason != Some(AbsoluteDeltaUnhedgeable)
  }

  /** Runs can exit as unhedgeable exactly when the policy is not hedgeable within the limit. */
  lemma RunsAreHedgedExactlyWhen(policy: Policy, d: real, limit: real)
    requires policy.Valid() && d > 0.0 && limit >= 0.0
    ensures RunsAreHedged(policy, d, limit) <==> Hedgeable(policy, d, limit)
  {
    if Hedgeable(policy, d, limit) {
      forall config: Config, states: seq<MarketState>
        | && config.Valid() && config.DistinctInstruments() && (forall s <- states :: s.Valid())
          && config.policy == policy && config.deltaPerContract == d && config.risk.maximumAbsoluteDelta == limit
          && SimulationOf(config, states).Ok?
        ensures SimulationOf(config, states).value.exitReason != Some(AbsoluteDeltaUnhedgeable)
      {
        RunIsHedged(config, states);
      }
    } else {
      var net := GivesUpSomewhere(policy, d, limit);
      WitnessIsWitness(policy, d, limit, net);
      WitnessRunGivesUp(WitnessConfig(policy, d, limit, net), WitnessPath(), net);
    }
  }

  /**
   A run whose net delta is zero, well within its limit of one contract, exits as unhedgeable: its policy aims
   outside the limit, the forced hedge has nothing to reduce, and holding is not considered.
   */
  lemma RunGivesUpAtZeroDelta()
    ensures ExitsUnhedged(WitnessConfig(FixedInterval(1, 2.0), 1.0, 1.0, 0.0), WitnessPath(), 0.0)
  {
    AimedOutsideGivesUp();
    WitnessIsWitness(FixedInterval(1, 2.0), 1.0, 1.0, 0.0);
    WitnessRunGivesUp(WitnessConfig(FixedInterval(1, 2.0), 1.0, 1.0, 0.0), WitnessPath(), 0.0);
  }

  lemma AimedOutsideGivesUp()
    ensures GivesUpAt(FixedInterval(1, 2.0), 1.0, 1.0, 0.0)
  {
    var policy := FixedInterval(1, 2.0);
    forall state: PolicyState
      | state.Valid() && state.deltaPerContract == 1.0 && state.netDelta == 0.0 && state.stepIndex == 0
      ensures DeltaControl(policy, state, 1.0).GiveUp?
    {
      assert HedgeDelta(2, 1.0) == 2.0;
      Lands(state, 2.0, ScheduledRebalance, 2);
      GivesUpInside(policy, state, 1.0);
    }
  }
}
