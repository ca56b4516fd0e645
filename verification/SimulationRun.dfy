/**
 The run as the engine performs it: one loop over the market states, marking and filling a live
 ledger and appending to lists. Each method is proved against the step of the same name in `Engine`.
 */
module SimulationRun {
  import opened Wrappers
  import opened Money
  import opened Fills
  import opened Ledger
  import opened Hedging
  import opened Risk
  import opened Engine
  import opened EngineSafety

  /** Marks both options and, when it is held, the hedge. */
  method MarkPositions(config: Config, ledger: PortfolioLedger, state: MarketState)
    requires Ready(config, ledger.State())
    modifies ledger
    ensures ledger.State() == MarkState(config, state, old(ledger.State())) && Ready(config, ledger.State())
  {
    ledger.Mark(config.call.id, config.model(config.call, state).price);
    ledger.Mark(config.put.id, config.model(config.put, state).price);
    if config.futuresId in ledger.positions {
      ledger.Mark(config.futuresId, state.futuresPrice);
    }
  }

  /** Records a fill in the ledger and in the list of fills. */
  method RecordAndAppend(ledger: PortfolioLedger, fills: seq<Fill>, fill: Fill, kind: EntryKind, ghost run: RunState)
    returns (recorded: seq<Fill>, ok: bool)
    requires fill.Valid() && Sound(ledger.State()) && run.book == ledger.State() && run.fills == fills
    modifies ledger
    ensures Post(run, fill, kind) == (run.(book := ledger.State(), fills := recorded), ok)
  {
    ok := ledger.RecordFill(fill, kind);
    recorded := fills + [fill];
  }

  /** Fills the requested hedge, if any, and counts it. */
  method TradeHedge(
    config: Config, ledger: PortfolioLedger, state: MarketState, requested: int,
    risk: RiskState, fills: seq<Fill>, ghost run: RunState)
    returns (riskAfter: RiskState, fillsAfter: seq<Fill>, executed: int, ok: bool)
    requires config.Valid() && state.Valid() && Ready(config, ledger.State())
    requires run.book == ledger.State() && run.risk == risk && run.fills == fills
    modifies ledger
    ensures ok ==> Execute(config, run, state, requested)
                   == (run.(book := ledger.State(), risk := riskAfter, fills := fillsAfter), true)
    ensures !ok ==> !Execute(config, run, state, requested).1
    ensures ok ==> executed == requested
  {
    riskAfter, fillsAfter, executed, ok := risk, fills, 0, true;
    if requested != 0 {
      var fill := Simulate(HedgeIntent(config, requested), state.futuresPrice, config.futuresCosts).value;
      fillsAfter, ok := RecordAndAppend(ledger, fills, fill, HedgeEntryKind(requested), run);
      if !ok {
        return;
      }
      riskAfter := RecordHedge(riskAfter);
      executed := requested;
    }
  }

  /** Trades what the accepted decision asks for, re-values the book and appends the decision. */
  method CompleteHedge(
    config: Config, ledger: PortfolioLedger, state: MarketState, accepted: Decision, forced: bool,
    risk: RiskState, decisions: seq<DecisionRecord>, fills: seq<Fill>, ghost run: RunState)
    returns (riskAfter: RiskState, decisionsAfter: seq<DecisionRecord>, fillsAfter: seq<Fill>, ok: bool)
    requires config.Valid() && state.Valid() && Ready(config, ledger.State())
    requires run == RunState(ledger.State(), risk, run.valuations, decisions, fills)
    modifies ledger
    ensures
      CompleteDecision(config, run, state, accepted, forced)
      == if ok then Next(RunState(ledger.State(), riskAfter, run.valuations, decisionsAfter, fillsAfter)) else Crash
  {
    var observed := Observe(config, state, ledger.State());
    var valueBefore := ledger.PortfolioValue();
    var executed;
    decisionsAfter := decisions;
    riskAfter, fillsAfter, executed, ok := TradeHedge(config, ledger, state, accepted.requested, risk, fills, run);
    if !ok {
      return;
    }
    var valueAfter := ledger.PortfolioValue();
    decisionsAfter := decisions + [
      DecisionRecord(
        Executed(config, observed, accepted, executed), state.sessionDate, forced, valueBefore, valueAfter,
        riskAfter.hedgesInSession, riskAfter.totalHedges)];
    riskAfter := Mark(riskAfter, valueAfter, state.sessionDate);
  }

  /** One market state: mark, check for an exit, decide, control the net delta, trade. */
  method ProcessState(
    config: Config, ledger: PortfolioLedger, state: MarketState, isFinal: bool,
    risk: RiskState, valuations: seq<ValuationRecord>, decisions: seq<DecisionRecord>, fills: seq<Fill>)
    returns (
      riskAfter: RiskState, valuationsAfter: seq<ValuationRecord>, decisionsAfter: seq<DecisionRecord>,
      fillsAfter: seq<Fill>, exit: Option<ExitReason>, ok: bool)
    requires config.Valid() && state.Valid() && Ready(config, ledger.State())
    modifies ledger
    ensures
      StepState(config, RunState(old(ledger.State()), risk, valuations, decisions, fills), state, isFinal)
      == StepOf(RunState(ledger.State(), riskAfter, valuationsAfter, decisionsAfter, fillsAfter), exit, ok)
  {
    ghost var before := RunState(ledger.State(), risk, valuations, decisions, fills);
    decisionsAfter, fillsAfter, exit, ok := decisions, fills, None, true;
    valuationsAfter := valuations + ValuePair(config, state);
    MarkPositions(config, ledger, state);
    var value := ledger.PortfolioValue();
    riskAfter := Mark(risk, value, state.sessionDate);
    ghost var arrived := RunState(ledger.State(), riskAfter, valuationsAfter, decisions, fills);
    assert arrived == Arrive(config, before, state);
    var observed := Observe(config, state, ledger.State());
    exit := ExitAt(
      riskAfter, config.risk, config.killSwitch, config.rule, state.timeToExpiry, state.sessionIndex, isFinal);
    if exit.Some? {
      return;
    }
    StepContinues(config, before, state, isFinal);
    var limit := config.risk.maximumAbsoluteDelta;
    var accepted := Decide(config.policy, observed);
    var forced := false;
    if Abs(accepted.netDeltaAfter) > limit {
      var reduction := ForceDeltaReduction(observed);
      if reduction.requested == 0 || Abs(reduction.netDeltaAfter) >= Abs(observed.netDelta)
         || Abs(reduction.netDeltaAfter) > limit {
        exit := Some(AbsoluteDeltaUnhedgeable);
        decisionsAfter := decisions + [
          DecisionRecord(
            FailedDecision(observed), state.sessionDate, true, value, value,
            riskAfter.hedgesInSession, riskAfter.totalHedges)];
        return;
      }
      accepted, forced := reduction, true;
    }
    riskAfter, decisionsAfter, fillsAfter, ok :=
      CompleteHedge(config, ledger, state, accepted, forced, riskAfter, decisions, fills, arrived);
  }

  /** The step a state's outcome amounts to. */
  function StepOf(run: RunState, exit: Option<ExitReason>, ok: bool): Step {
    if !ok then Crash else if exit.Some? then Stop(run, exit.value) else Next(run)
  }

  /** Sells an option that is still held. */
  method CloseOption(
    config: Config, ledger: PortfolioLedger, contract: Contract, final: MarketState, fills: seq<Fill>,
    ghost run: RunState)
    returns (fillsAfter: seq<Fill>, ok: bool)
    requires config.Valid() && Ready(config, ledger.State()) && contract in config.Contracts()
    requires run.book == ledger.State() && run.fills == fills
    modifies ledger
    ensures CloseOptionLeg(config, run, contract, final) == (run.(book := ledger.State(), fills := fillsAfter), ok)
  {
    fillsAfter, ok := fills, true;
    var position := ledger.positions[contract.id];
    if position.quantity != 0 {
      fillsAfter, ok :=
        RecordAndAppend(ledger, fills, CloseOptionFill(config, contract, position.quantity, final), OptionExit, run);
    }
  }

  method CloseHedge(config: Config, ledger: PortfolioLedger, final: MarketState, fills: seq<Fill>, ghost run: RunState)
    returns (fillsAfter: seq<Fill>, ok: bool)
    requires config.Valid() && final.Valid() && Ready(config, ledger.State())
    requires run.book == ledger.State() && run.fills == fills
    modifies ledger
    ensures CloseFuturesLeg(config, run, final) == (run.(book := ledger.State(), fills := fillsAfter), ok)
  {
    fillsAfter, ok := fills, true;
    if config.futuresId in ledger.positions {
      var position := ledger.positions[config.futuresId];
      if position.quantity != 0 {
        var fill := Simulate(CloseFuturesIntent(config, position), final.futuresPrice, config.futuresCosts).value;
        fillsAfter, ok := RecordAndAppend(ledger, fills, fill, FuturesClose, run);
      }
    }
  }

  /** Closes both options and then the hedge. */
  method CloseAll(config: Config, ledger: PortfolioLedger, final: MarketState, fills: seq<Fill>, ghost run: RunState)
    returns (fillsAfter: seq<Fill>, ok: bool)
    requires config.Valid() && final.Valid() && Ready(config, ledger.State())
    requires run.book == ledger.State() && run.fills == fills
    modifies ledger
    ensures CloseOut(config, run, final) == if ok then Some(run.(book := ledger.State(), fills := fillsAfter)) else None
  {
    ghost var closed := run;
    fillsAfter, ok := CloseOption(config, ledger, config.call, final, fills, closed);
    if !ok {
      return;
    }
    closed := run.(book := ledger.State(), fills := fillsAfter);
    fillsAfter, ok := CloseOption(config, ledger, config.put, final, fillsAfter, closed);
    if !ok {
      return;
    }
    closed := run.(book := ledger.State(), fills := fillsAfter);
    fillsAfter, ok := CloseHedge(config, ledger, final, fillsAfter, closed);
  }

  /** Buys the straddle; the list of fills is empty before. */
  method OpenStraddle(config: Config, ledger: PortfolioLedger, initial: MarketState, callFill: Fill, putFill: Fill)
    returns (fills: seq<Fill>, risk: RiskState, ok: bool)
    requires callFill.Valid() && putFill.Valid()
    requires callFill.instrument == config.call.id && putFill.instrument == config.put.id
    requires ledger.State() == Opened(Round(config.risk.startingNav))
    modifies ledger
    ensures ok ==> EnterWith(config, callFill, putFill, initial.sessionDate)
                   == (RunState(ledger.State(), risk, [], [], fills), true)
    ensures !ok ==> !EnterWith(config, callFill, putFill, initial.sessionDate).1
  {
    ghost var run := Fresh(config, initial.sessionDate);
    fills, risk := [], Initialize(ledger.startingNav, ledger.startingNav, initial.sessionDate);
    fills, ok := RecordAndAppend(ledger, fills, callFill, OptionEntry, run);
    if !ok {
      return;
    }
    run := run.(book := ledger.State(), fills := fills);
    fills, ok := RecordAndAppend(ledger, fills, putFill, OptionEntry, run);
    if !ok {
      return;
    }
    var value := ledger.PortfolioValue();
    risk := Initialize(ledger.startingNav, value, initial.sessionDate);
  }

  /** The whole run computes exactly the simulation of its configuration and states. */
  method RunSimulation(config: Config, states: seq<MarketState>) returns (result: Result<SimulationResult, RunError>)
    requires config.Valid() && (forall s <- states :: s.Valid())
    ensures result == SimulationOf(config, states)
  {
    if |states| == 0 {
      return Err(EmptyPath);
    }
    var initial := states[0];
    var ledger := new PortfolioLedger(config.risk.startingNav);
    var callFill := EntryFill(config, config.call, initial);
    var putFill := EntryFill(config, config.put, initial);
    var rejection := EntryRejected(config, callFill, putFill, initial);
    if rejection.Some? {
      return Err(EntryRefused(rejection.value));
    }
    var fills, risk, ok := OpenStraddle(config, ledger, initial, callFill, putFill);
    if !ok {
      return Err(LedgerRefused);
    }
    result := RunEntered(config, states, ledger, risk, fills, RunState(ledger.State(), risk, [], [], fills));
  }

  /** The loop over the states and the close-out. */
  method RunEntered(
    config: Config, states: seq<MarketState>, ledger: PortfolioLedger, risk0: RiskState, fills0: seq<Fill>,
    ghost entered: RunState)
    returns (result: Result<SimulationResult, RunError>)
    requires config.Valid() && (forall s <- states :: s.Valid()) && states != []
    requires Ready(config, ledger.State()) && entered == RunState(ledger.State(), risk0, [], [], fills0)
    modifies ledger
    ensures result == RunFrom(config, states, entered)
  {
    var risk, valuations, decisions, fills, last, reason, ok :=
      ProcessAll(config, states, ledger, risk0, fills0, entered);
    if !ok {
      return Err(LedgerRefused);
    }
    ghost var ended := RunState(ledger.State(), risk, valuations, decisions, fills);
    fills, ok := CloseAll(config, ledger, states[last], fills, ended);
    if !ok {
      return Err(LedgerRefused);
    }
    result := Ok(Settle(config, RunState(ledger.State(), risk, valuations, decisions, fills), last, reason));
  }

  /** The loop over the states, until one of them exits. */
  method ProcessAll(
    config: Config, states: seq<MarketState>, ledger: PortfolioLedger, risk0: RiskState, fills0: seq<Fill>,
    ghost entered: RunState)
    returns (
      risk: RiskState, valuations: seq<ValuationRecord>, decisions: seq<DecisionRecord>, fills: seq<Fill>,
      last: nat, reason: ExitReason, ok: bool)
    requires config.Valid() && (forall s <- states :: s.Valid()) && states != []
    requires Ready(config, ledger.State()) && entered == RunState(ledger.State(), risk0, [], [], fills0)
    modifies ledger
    ensures Loop(config, states, 0, entered)
            == if ok then Ended(RunState(ledger.State(), risk, valuations, decisions, fills), last, reason) else Crashed
  {
    risk, valuations, decisions, fills := risk0, [], [], fills0;
    reason, ok, last := SimulationEnd, true, |states| - 1;
    ghost var whole, run := Loop(config, states, 0, entered), entered;
    var i := 0;
    while i < |states|
      invariant 0 <= i <= |states| && last == |states| - 1 && reason == SimulationEnd && ok
      invariant run == RunState(ledger.State(), risk, valuations, decisions, fills) && Ready(config, run.book)
      invariant whole == Loop(config, states, i, run)
    {
      var exit;
      risk, valuations, decisions, fills, exit, ok :=
        ProcessState(config, ledger, states[i], i == |states| - 1, risk, valuations, decisions, fills);
      ghost var after := RunState(ledger.State(), risk, valuations, decisions, fills);
      LoopStep(config, states, i, run, StepOf(after, exit, ok));
      run := after;
      if !ok {
        return;
      }
      if exit.Some? {
        reason, last := exit.value, i;
        return;
      }
      i := i + 1;
    }
  }

  lemma LoopStep(config: Config, states: seq<MarketState>, i: nat, run: RunState, step: Step)
    requires config.Valid() && (forall s <- states :: s.Valid()) && i < |states| && Ready(config, run.book)
    requires step == StepState(config, run, states[i], i == |states| - 1)
    ensures
      Loop(config, states, i, run)
      == match step
         case Crash => Crashed
         case Stop(stopped, reason) => Ended(stopped, i, reason)
         case Next(next) => Loop(config, states, i + 1, next)
    ensures step.Next? ==> Ready(config, step.run.book)
    ensures step.Stop? ==> Ready(config, step.run.book)
  {
  }
}
