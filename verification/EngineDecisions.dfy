/** What every decision of a run reports: the position it was taken on, and the one it left. */
module EngineDecisions {
  import opened Wrappers
  import opened Money
  import opened Fills
  import opened Ledger
  import opened Hedging
  import opened Risk
  import opened Engine
  import opened EngineSafety
  import opened EngineLimits

  /** Contracts of one instrument bought less contracts sold. */
  function NetTraded(fills: seq<Fill>, id: InstrumentId): int {
    if fills == [] then 0
    else
      var fill := fills[|fills| - 1];
      NetTraded(fills[..|fills| - 1], id) + (if fill.instrument == id then fill.SignedQuantity() else 0)
  }

  /** Decisions that traded. */
  function Trades(decisions: seq<DecisionRecord>): nat {
    if decisions == [] then 0
    else Trades(decisions[..|decisions| - 1]) + (if decisions[|decisions| - 1].decision.executed != 0 then 1 else 0)
  }

  /** The delta of the futures held after the two entry fills and some hedges. */
  function HeldDelta(config: Config, fills: seq<Fill>, hedges: nat): real
    requires 2 + hedges <= |fills|
  {
    HedgeDelta(NetTraded(fills[..2 + hedges], config.futuresId), config.deltaPerContract)
  }

  /**
   A decision is dated by its state, its option delta is that of the two valuations of its state, and its hedge
   delta is that of the futures traded by the fills up to it; the net deltas before and after add the two.
   */
  ghost predicate Reports(
    config: Config, states: seq<MarketState>, decisions: seq<DecisionRecord>, valuations: seq<ValuationRecord>,
    fills: seq<Fill>, i: nat)
    requires i < |decisions|
  {
    var record, hedges := decisions[i], Trades(decisions[..i + 1]);
    && i < |states| && 2 * i + 1 < |valuations| && Trades(decisions[..i]) <= hedges && 2 + hedges <= |fills|
    && record.sessionDate == states[i].sessionDate && record.totalHedges == hedges
    && record.decision.optionDeltaAfter == valuations[2 * i].delta + valuations[2 * i + 1].delta
    && record.decision.hedgeDeltaAfter == HeldDelta(config, fills, hedges)
    && record.decision.netDeltaAfter == record.decision.optionDeltaAfter + record.decision.hedgeDeltaAfter
    && record.decision.netDeltaBefore
       == record.decision.optionDeltaAfter + HeldDelta(config, fills, Trades(decisions[..i]))
  }

  ghost predicate AllReport(
    config: Config, states: seq<MarketState>, decisions: seq<DecisionRecord>, valuations: seq<ValuationRecord>,
    fills: seq<Fill>)
  {
    forall i: nat | i < |decisions| :: Reports(config, states, decisions, valuations, fills, i)
  }

  // ---- Appending ----

  lemma TradesAppend(decisions: seq<DecisionRecord>, record: DecisionRecord)
    ensures Trades(decisions + [record]) == Trades(decisions) + (if record.decision.executed != 0 then 1 else 0)
  {
    assert (decisions + [record])[..|decisions|] == decisions;
  }

  lemma NetTradedAppend(fills: seq<Fill>, fill: Fill, id: InstrumentId)
    ensures NetTraded(fills + [fill], id)
            == NetTraded(fills, id) + (if fill.instrument == id then fill.SignedQuantity() else 0)
  {
    assert (fills + [fill])[..|fills|] == fills;
  }

  /** What earlier decisions report does not depend on what is appended later. */
  lemma ReportsStay(
    config: Config, states: seq<MarketState>, decisions: seq<DecisionRecord>, valuations: seq<ValuationRecord>,
    fills: seq<Fill>, moreDecisions: seq<DecisionRecord>, moreValuations: seq<ValuationRecord>, moreFills: seq<Fill>)
    requires AllReport(config, states, decisions, valuations, fills)
    requires decisions <= moreDecisions && valuations <= moreValuations && fills <= moreFills
    ensures forall i: nat | i < |decisions| :: Reports(config, states, moreDecisions, moreValuations, moreFills, i)
  {
    forall i: nat | i < |decisions| ensures Reports(config, states, moreDecisions, moreValuations, moreFills, i) {
      assert Reports(config, states, decisions, valuations, fills, i);
      assert moreDecisions[..i + 1] == decisions[..i + 1] && moreDecisions[..i] == decisions[..i];
      var now, before := Trades(decisions[..i + 1]), Trades(decisions[..i]);
      assert moreFills[..2 + now] == fills[..2 + now] && moreFills[..2 + before] == fills[..2 + before];
    }
  }

  // ---- One state ----

  /** A run that has decided on exactly the first `n` states. */
  ghost predicate Traced(config: Config, states: seq<MarketState>, n: nat, run: RunState) {
    && |run.decisions| == n <= |states| && |run.valuations| == 2 * n
    && |run.fills| == 2 + Trades(run.decisions) && run.risk.totalHedges == Trades(run.decisions)
    && NetTraded(run.fills, config.futuresId) == Quantity(run.book, config.futuresId)
    && AllReport(config, states, run.decisions, run.valuations, run.fills)
  }

  lemma DecidesOnNetDelta(policy: Policy, state: PolicyState, limit: real)
    requires policy.Valid() && state.Valid()
    ensures
      var control := DeltaControl(policy, state, limit);
      !control.GiveUp? ==> control.decision.netDeltaBefore == state.netDelta
  {
  }

  lemma ExecuteTraces(config: Config, optionCash: int, run: RunState, state: MarketState, requested: int)
    requires config.Valid() && config.DistinctInstruments() && state.Valid() && BookInv(config, optionCash, run)
    requires NetTraded(run.fills, config.futuresId) == Quantity(run.book, config.futuresId)
    ensures
      var traded := Execute(config, run, state, requested).0;
      && run.fills <= traded.fills && |traded.fills| == |run.fills| + (if requested == 0 then 0 else 1)
      && NetTraded(traded.fills, config.futuresId) == NetTraded(run.fills, config.futuresId) + requested
      && NetTraded(traded.fills, config.futuresId) == Quantity(traded.book, config.futuresId)
  {
    ExecuteKeeps(config, optionCash, run, state, requested);
    if requested != 0 {
      var fill := Simulate(HedgeIntent(config, requested), state.futuresPrice, config.futuresCosts).value;
      assert fill.SignedQuantity() == requested;
      NetTradedAppend(run.fills, fill, config.futuresId);
    }
  }

  /** What one more decision must carry to be reported. */
  ghost predicate Carries(config: Config, run: RunState, after: RunState, state: MarketState, record: DecisionRecord) {
    var traded := record.decision.executed;
    && after.decisions == run.decisions + [record] && after.valuations == run.valuations
    && run.fills <= after.fills && |after.fills| == |run.fills| + (if traded == 0 then 0 else 1)
    && NetTraded(after.fills, config.futuresId) == NetTraded(run.fills, config.futuresId) + traded
    && NetTraded(after.fills, config.futuresId) == Quantity(after.book, config.futuresId)
    && after.risk.totalHedges == run.risk.totalHedges + (if traded == 0 then 0 else 1)
    && record.totalHedges == after.risk.totalHedges && record.sessionDate == state.sessionDate
    && record.decision.optionDeltaAfter
       == Value(config, config.call, state).delta + Value(config, config.put, state).delta
    && record.decision.hedgeDeltaAfter
       == HedgeDelta(NetTraded(run.fills, config.futuresId), config.deltaPerContract)
         + HedgeDelta(traded, config.deltaPerContract)
    && record.decision.netDeltaAfter == record.decision.optionDeltaAfter + record.decision.hedgeDeltaAfter
    && record.decision.netDeltaBefore
       == record.decision.optionDeltaAfter + HedgeDelta(NetTraded(run.fills, config.futuresId), config.deltaPerContract)
  }

  /** A run whose state has been valued, with all decisions before it traced. */
  ghost predicate Arrived(config: Config, states: seq<MarketState>, n: nat, run: RunState) {
    && n == |run.decisions| < |states| && |run.valuations| == 2 * n + 2
    && run.valuations[2 * n] == Value(config, config.call, states[n])
    && run.valuations[2 * n + 1] == Value(config, config.put, states[n])
    && |run.fills| == 2 + Trades(run.decisions) && run.risk.totalHedges == Trades(run.decisions)
    && NetTraded(run.fills, config.futuresId) == Quantity(run.book, config.futuresId)
    && AllReport(config, states, run.decisions, run.valuations, run.fills)
  }

  lemma CarriedReports(
    config: Config, states: seq<MarketState>, n: nat, run: RunState, after: RunState, record: DecisionRecord)
    requires Arrived(config, states, n, run) && Carries(config, run, after, states[n], record)
    ensures Traced(config, states, n + 1, after)
  {
    ReportsStay(
      config, states, run.decisions, run.valuations, run.fills, after.decisions, after.valuations, after.fills);
    TradesAppend(run.decisions, record);
    assert after.decisions[..n] == run.decisions && after.decisions[..n + 1] == after.decisions;
    assert after.fills[..|run.fills|] == run.fills && after.fills[..|after.fills|] == after.fills;
    HedgeDeltaAdds(NetTraded(run.fills, config.futuresId), record.decision.executed, config.deltaPerContract);
    assert Reports(config, states, after.decisions, after.valuations, after.fills, n);
  }

  lemma CompleteCarries(
    config: Config, optionCash: int, run: RunState, state: MarketState, accepted: Decision, forced: bool)
    requires config.Valid() && config.DistinctInstruments() && state.Valid() && BookInv(config, optionCash, run)
    requires NetTraded(run.fills, config.futuresId) == Quantity(run.book, config.futuresId)
    requires accepted.netDeltaBefore == Observe(config, state, run.book).netDelta
    ensures CompleteDecision(config, run, state, accepted, forced).Next?
    ensures
      var after := CompleteDecision(config, run, state, accepted, forced).run;
      && |after.decisions| == |run.decisions| + 1
      && Carries(config, run, after, state, after.decisions[|run.decisions|])
  {
    ExecuteKeeps(config, optionCash, run, state, accepted.requested);
    ExecuteTraces(config, optionCash, run, state, accepted.requested);
    CompleteKeeps(config, optionCash, run, state, accepted, forced);
    CompleteExecutes(config, run, state, accepted, forced);
    ObservedHedge(config, state, run.book);
  }

  lemma FailedCarries(config: Config, run: RunState, state: MarketState, predicted: real)
    requires config.Valid() && state.Valid() && Ready(config, run.book)
    requires NetTraded(run.fills, config.futuresId) == Quantity(run.book, config.futuresId)
    ensures
      var after := Resolve(config, run, state, GiveUp(predicted)).run;
      && |after.decisions| == |run.decisions| + 1
      && Carries(config, run, after, state, after.decisions[|run.decisions|])
  {
    ObservedHedge(config, state, run.book);
    assert HedgeDelta(0, config.deltaPerContract) == 0.0;
  }

  lemma ArriveTraces(config: Config, optionCash: int, states: seq<MarketState>, n: nat, run: RunState)
    requires config.Valid() && BookInv(config, optionCash, run) && Traced(config, states, n, run) && n < |states|
    ensures Arrived(config, states, n, Arrive(config, run, states[n]))
  {
    var arrived := Arrive(config, run, states[n]);
    ArriveKeeps(config, optionCash, run, states[n]);
    ReportsStay(
      config, states, run.decisions, run.valuations, run.fills, arrived.decisions, arrived.valuations, arrived.fills);
  }

  /** What a stopped run's decisions are: those of the states before its last one, and possibly of that one. */
  ghost predicate StoppedTraced(config: Config, states: seq<MarketState>, last: nat, run: RunState) {
    && last < |states| && last <= |run.decisions| <= last + 1 && |run.valuations| == 2 * last + 2
    && AllReport(config, states, run.decisions, run.valuations, run.fills)
  }

  lemma StepTraces(config: Config, optionCash: int, states: seq<MarketState>, n: nat, run: RunState, isFinal: bool)
    requires config.Valid() && config.DistinctInstruments() && n < |states| && states[n].Valid()
    requires BookInv(config, optionCash, run) && Traced(config, states, n, run)
    ensures
      var step := StepState(config, run, states[n], isFinal);
      && (step.Next? ==> Traced(config, states, n + 1, step.run))
      && (step.Stop? ==> StoppedTraced(config, states, n, step.run))
  {
    var state, arrived := states[n], Arrive(config, run, states[n]);
    ArriveKeeps(config, optionCash, run, state);
    ArriveTraces(config, optionCash, states, n, run);
    var exit := ExitAt(
      arrived.risk, config.risk, config.killSwitch, config.rule, state.timeToExpiry, state.sessionIndex, isFinal);
    if exit == None {
      ResolveTraces(config, optionCash, states, n, arrived);
    }
  }

  lemma ResolveTraces(config: Config, optionCash: int, states: seq<MarketState>, n: nat, run: RunState)
    requires config.Valid() && config.DistinctInstruments() && n < |states| && states[n].Valid()
    requires BookInv(config, optionCash, run) && Arrived(config, states, n, run)
    ensures
      var control := DeltaControl(
        config.policy, Observe(config, states[n], run.book), config.risk.maximumAbsoluteDelta);
      var step := Resolve(config, run, states[n], control);
      !step.Crash? && Traced(config, states, n + 1, step.run) && (step.Stop? <==> control.GiveUp?)
  {
    var observed := Observe(config, states[n], run.book);
    var control := DeltaControl(config.policy, observed, config.risk.maximumAbsoluteDelta);
    DecidesOnNetDelta(config.policy, observed, config.risk.maximumAbsoluteDelta);
    if control.GiveUp? {
      FailedCarries(config, run, states[n], control.predicted);
    } else {
      CompleteCarries(config, optionCash, run, states[n], control.decision, control.Force?);
    }
    var after := Resolve(config, run, states[n], control).run;
    CarriedReports(config, states, n, run, after, after.decisions[n]);
  }

  // ---- The whole run ----

  ghost function TracesKept(config: Config, states: seq<MarketState>): (nat, RunState) -> bool {
    (j: nat, run: RunState) => Traced(config, states, j, run)
  }

  ghost function TracesEnd(config: Config, states: seq<MarketState>): (nat, RunState, ExitReason) -> bool {
    (j: nat, run: RunState, reason: ExitReason) => StoppedTraced(config, states, j, run)
  }

  lemma TracesLead(config: Config, optionCash: int, states: seq<MarketState>, j: nat, run: RunState)
    requires config.Valid() && config.DistinctInstruments() && (forall s <- states :: s.Valid())
    ensures StepLeads(config, optionCash, states, TracesKept(config, states), TracesEnd(config, states), j, run)
  {
    if j < |states| && BookInv(config, optionCash, run) && TracesKept(config, states)(j, run) {
      StepTraces(config, optionCash, states, j, run, j == |states| - 1);
    }
  }

  lemma LoopTraces(config: Config, optionCash: int, states: seq<MarketState>, run: RunState)
    requires config.Valid() && config.DistinctInstruments() && (forall s <- states :: s.Valid()) && states != []
    requires BookInv(config, optionCash, run) && Traced(config, states, 0, run)
    ensures Loop(config, states, 0, run).Ended?
    ensures StoppedTraced(config, states, Loop(config, states, 0, run).last, Loop(config, states, 0, run).run)
  {
    forall j: nat, r: RunState
      ensures StepLeads(config, optionCash, states, TracesKept(config, states), TracesEnd(config, states), j, r)
    {
      TracesLead(config, optionCash, states, j, r);
    }
    LoopInvariant(config, optionCash, states, 0, run, TracesKept(config, states), TracesEnd(config, states));
  }

  lemma EnterIsTraced(config: Config, states: seq<MarketState>)
    requires config.Valid() && config.DistinctInstruments() && states != [] && states[0].Valid()
    ensures Enter(config, states[0]).1 && Traced(config, states, 0, Enter(config, states[0]).0)
  {
    EnterHasNoDecisions(config, states[0]);
    var callFill, putFill := EntryFill(config, config.call, states[0]), EntryFill(config, config.put, states[0]);
    EnterWithEstablishes(config, callFill, putFill, states[0].sessionDate);
    NetTradedAppend([], callFill, config.futuresId);
    NetTradedAppend([callFill], putFill, config.futuresId);
    assert [] + [callFill] == [callFill] && [callFill] + [putFill] == [callFill, putFill];
  }

  /** Close-out only appends fills. */
  lemma CloseOutAppends(config: Config, run: RunState, final: MarketState)
    requires config.Valid() && final.Valid() && Ready(config, run.book) && CloseOut(config, run, final).Some?
    ensures run.fills <= CloseOut(config, run, final).value.fills
  {
    var callClosed := CloseOptionLeg(config, run, config.call, final).0;
    assert run.fills <= callClosed.fills;
    var putClosed := CloseOptionLeg(config, callClosed, config.put, final).0;
    assert callClosed.fills <= putClosed.fills;
    assert putClosed.fills <= CloseFuturesLeg(config, putClosed, final).0.fills;
  }

  /** The decision that made the run give up: the last one, which trades nothing. */
  predicate Failed(result: SimulationResult, i: nat)
    requires i < |result.run.decisions|
  {
    result.exitReason == Some(AbsoluteDeltaUnhedgeable) && i == |result.run.decisions| - 1
  }

  /** Every decision reports the position, and every completed one leaves it within the limit. */
  ghost predicate DecisionsAreOfThePosition(config: Config, states: seq<MarketState>, result: SimulationResult) {
    && result.last < |states| && result.last <= |result.run.decisions| <= result.last + 1
    && AllReport(config, states, result.run.decisions, result.run.valuations, result.run.fills)
    && (forall i: nat | i < |result.run.decisions| ::
          var decision := result.run.decisions[i].decision;
          if Failed(result, i) then decision.executed == 0
          else Abs(decision.netDeltaAfter) <= config.risk.maximumAbsoluteDelta)
  }

  lemma OutcomeTraces(
    config: Config, optionCash: int, states: seq<MarketState>, entered: RunState, result: SimulationResult)
    requires config.Valid() && config.DistinctInstruments() && (forall s <- states :: s.Valid()) && states != []
    requires JustEntered(config, optionCash, entered) && Traced(config, states, 0, entered)
    requires IsSettledRun(config, states, entered, result)
    ensures DecisionsAreOfThePosition(config, states, result)
  {
    LoopTraces(config, optionCash, states, entered);
    OutcomeCloses(config, optionCash, states, entered);
    OutcomeCompleted(config, optionCash, states, entered);
    ResultKeepsOutcome(config, optionCash, states, entered, result);
    var outcome := LoopOutcome(config, states, entered);
    CloseOutAppends(config, outcome.run, states[outcome.last]);
    var run := outcome.run;
    ReportsStay(
      config, states, run.decisions, run.valuations, run.fills,
      result.run.decisions, result.run.valuations, result.run.fills);
    StoppedWithinLimit(config, result);
  }

  lemma StoppedWithinLimit(config: Config, result: SimulationResult)
    requires DecisionsWithinLimit(config, result)
    ensures
      forall i: nat | i < |result.run.decisions| ::
        var decision := result.run.decisions[i].decision;
        if Failed(result, i) then decision.executed == 0
        else Abs(decision.netDeltaAfter) <= config.risk.maximumAbsoluteDelta
  {
    var decisions := result.run.decisions;
    forall i: nat | i < |decisions|
      ensures if Failed(result, i) then decisions[i].decision.executed == 0
              else Abs(decisions[i].decision.netDeltaAfter) <= config.risk.maximumAbsoluteDelta
    {
      if result.exitReason == Some(AbsoluteDeltaUnhedgeable) {
        if i < |decisions| - 1 {
          assert Completed(config, decisions[..|decisions| - 1], i);
        }
      } else {
        assert Completed(config, decisions, i);
      }
    }
  }

  /**
   Over every run, each decision is taken on the option delta of its own state's valuations and on the delta of
   exactly the futures the fills so far have traded, and each completed one leaves their sum within the
   limit. Only a run that gave up has a decision that is not completed: its last, which trades nothing.
   */
  lemma EveryDecisionWithinLimit(config: Config, states: seq<MarketState>)
    requires config.Valid() && config.DistinctInstruments() && (forall s <- states :: s.Valid())
    ensures SimulationOf(config, states).Ok? ==>
              DecisionsAreOfThePosition(config, states, SimulationOf(config, states).value)
  {
    LedgerNeverRefuses(config, states);
    var simulation := SimulationOf(config, states);
    if simulation.Ok? {
      EnterHasNoDecisions(config, states[0]);
      EnterIsTraced(config, states);
      OutcomeTraces(config, EntryNotional(config, states[0]), states, Enter(config, states[0]).0, simulation.value);
    }
  }

  // ---- Hedges in a session ----

  /** Decisions that traded, taken at states of one session date. */
  function TradesOn(states: seq<MarketState>, decisions: seq<DecisionRecord>, date: int): nat
    requires |decisions| <= |states|
  {
    if decisions == [] then 0
    else
      var i := |decisions| - 1;
      TradesOn(states, decisions[..i], date)
      + (if states[i].sessionDate == date && decisions[i].decision.executed != 0 then 1 else 0)
  }

  lemma {:induction false} DatesAgree(states: seq<MarketState>, decisions: seq<DecisionRecord>, date: int)
    requires |decisions| <= |states|
    requires forall i: nat | i < |decisions| :: decisions[i].sessionDate == states[i].sessionDate
    ensures TradesOn(states, decisions, date) == HedgesOn(decisions, date)
  {
    if decisions == [] {
    } else {
      DatesAgree(states, decisions[..|decisions| - 1], date);
    }
  }

  /** On a path whose dates never go back, no session of its states ever has more hedges than the limit. */
  lemma HedgesPerSessionWithinLimit(config: Config, states: seq<MarketState>, date: int)
    requires config.Valid() && config.DistinctInstruments() && (forall s <- states :: s.Valid())
             && Chronological(states)
    ensures SimulationOf(config, states).Ok? ==>
              && |SimulationOf(config, states).value.run.decisions| <= |states|
              && TradesOn(states, SimulationOf(config, states).value.run.decisions, date)
                 <= config.risk.maximumHedgesPerSession
  {
    EveryDecisionWithinLimit(config, states);
    DatedHedgesWithinLimit(config, states, date);
    var simulation := SimulationOf(config, states);
    if simulation.Ok? {
      var run := simulation.value.run;
      forall i: nat | i < |run.decisions| ensures run.decisions[i].sessionDate == states[i].sessionDate {
        assert Reports(config, states, run.decisions, run.valuations, run.fills, i);
      }
      DatesAgree(states, run.decisions, date);
    }
  }
}
