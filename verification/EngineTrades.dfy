/** What a run trades and decides, state by state, in terms of its configuration and its market states. */
module EngineTrades {
  import opened Wrappers
  import opened Money
  import opened Fills
  import opened Ledger
  import opened Hedging
  import opened Risk
  import opened Engine
  import opened EngineSafety
  import opened EngineLimits
  import opened EngineDecisions

  // ---- The orders of a run ----

  function FillOf(order: Intent, price: real, costs: CostParameters): Fill
    requires price >= 0.0
  {
    Simulate(order, price, costs).value
  }

  /** An option of the straddle is bought at its price at the first state. */
  function Bought(config: Config, contract: Contract, state: MarketState): Fill
    requires config.Valid()
  {
    FillOf(
      Intent(OpenStraddle, contract.id, Buy, config.units, contract.multiplier), config.model(contract, state).price,
      config.optionCosts)
  }

  /** And sold at its price at the last one. */
  function Sold(config: Config, contract: Contract, state: MarketState): Fill
    requires config.Valid()
  {
    FillOf(
      Intent(CloseOption, contract.id, Sell, config.units, contract.multiplier), config.model(contract, state).price,
      config.optionCosts)
  }

  /** A futures order of a signed number of contracts, at the futures price of a state. */
  function Futures(config: Config, kind: OrderKind, contracts: int, state: MarketState): Fill
    requires state.Valid()
  {
    FillOf(
      Intent(kind, config.futuresId, if contracts > 0 then Buy else Sell, AbsInt(contracts), config.futuresMultiplier),
      state.futuresPrice, config.futuresCosts)
  }

  // ---- What a decision is ----

  /** An option valued at a state, with its Greeks scaled to the units and the multiplier held. */
  predicate Values(config: Config, contract: Contract, state: MarketState, record: ValuationRecord) {
    var unit, held := config.model(contract, state), (config.units * contract.multiplier) as real;
    && record.contract == contract.id && record.timestamp == state.timestamp
    && record.quantity == config.units && record.multiplier == contract.multiplier
    && record.unitPrice == unit.price && record.delta == unit.delta * held && record.gamma == unit.gamma * held
    && record.theta == unit.theta * held && record.vega == unit.vega * held
  }

  /** What the policy sees at a state: the valued options and the futures traded so far. */
  function Seen(
    config: Config, state: MarketState, call: ValuationRecord, put: ValuationRecord, fills: seq<Fill>): PolicyState
  {
    var hedgeDelta := HedgeDelta(NetTraded(fills, config.futuresId), config.deltaPerContract);
    PolicyState(
      state.stepIndex, call.delta + put.delta, hedgeDelta, call.delta + put.delta + hedgeDelta, call.gamma + put.gamma,
      state.spot, config.deltaPerContract)
  }

  /**
   A decision is what delta control makes of the position, forced when it was forced, and its trade is the fill of
   exactly the contracts it asks for. One that gives up holds, and leaves the position as it was.
   */
  ghost predicate DecidedOn(
    config: Config, state: MarketState, call: ValuationRecord, put: ValuationRecord, before: seq<Fill>,
    record: DecisionRecord)
    requires config.Valid() && state.Valid()
  {
    var seen := Seen(config, state, call, put, before);
    match DeltaControl(config.policy, seen, config.risk.maximumAbsoluteDelta)
    case Keep(decision) => record.decision == decision && !record.forced
    case Force(decision) => record.decision == decision && record.forced
    case GiveUp(_) =>
      var decision := record.decision;
      && record.forced && decision.reason == Unhedgeable && decision.action == Hold
      && decision.requested == decision.executed == 0 && decision.target == 0.0
      && decision.netDeltaBefore == decision.netDeltaAfter == decision.residual == seen.netDelta
      && decision.optionDeltaAfter == seen.optionDelta && decision.hedgeDeltaAfter == seen.hedgeDelta
  }

  /** The fills before a decision: the two of the entry and one for each earlier decision that traded. */
  function FillsBefore(decisions: seq<DecisionRecord>, fills: seq<Fill>, i: nat): seq<Fill>
    requires i <= |decisions| && 2 + Trades(decisions[..i]) <= |fills|
  {
    fills[..2 + Trades(decisions[..i])]
  }

  /** State `i` was valued, decided on and traded at. */
  ghost predicate DecidedAt(
    config: Config, states: seq<MarketState>, decisions: seq<DecisionRecord>, valuations: seq<ValuationRecord>,
    fills: seq<Fill>, i: nat)
    requires config.Valid() && (forall s <- states :: s.Valid()) && i < |decisions|
  {
    && i < |states| && 2 * i + 1 < |valuations| && 2 + Trades(decisions[..i]) <= |fills|
    && Values(config, config.call, states[i], valuations[2 * i])
    && Values(config, config.put, states[i], valuations[2 * i + 1])
    && var before, executed := FillsBefore(decisions, fills, i), decisions[i].decision.executed;
       && DecidedOn(config, states[i], valuations[2 * i], valuations[2 * i + 1], before, decisions[i])
       && (executed != 0 ==>
             |before| < |fills| && fills[|before|] == Futures(config, Hedge, executed, states[i]))
  }

  ghost predicate AllDecided(
    config: Config, states: seq<MarketState>, decisions: seq<DecisionRecord>, valuations: seq<ValuationRecord>,
    fills: seq<Fill>)
    requires config.Valid() && forall s <- states :: s.Valid()
  {
    forall i: nat | i < |decisions| :: DecidedAt(config, states, decisions, valuations, fills, i)
  }

  lemma DecidedStays(
    config: Config, states: seq<MarketState>, decisions: seq<DecisionRecord>, valuations: seq<ValuationRecord>,
    fills: seq<Fill>, moreDecisions: seq<DecisionRecord>, moreValuations: seq<ValuationRecord>, moreFills: seq<Fill>)
    requires config.Valid() && forall s <- states :: s.Valid()
    requires AllDecided(config, states, decisions, valuations, fills)
    requires decisions <= moreDecisions && valuations <= moreValuations && fills <= moreFills
    ensures forall i: nat | i < |decisions| ::
              DecidedAt(config, states, moreDecisions, moreValuations, moreFills, i)
  {
    forall i: nat | i < |decisions|
      ensures DecidedAt(config, states, moreDecisions, moreValuations, moreFills, i)
    {
      assert DecidedAt(config, states, decisions, valuations, fills, i);
      assert moreDecisions[..i] == decisions[..i];
      assert FillsBefore(moreDecisions, moreFills, i) == FillsBefore(decisions, fills, i);
    }
  }

  // ---- One decision ----

  lemma ValueIsOfState(config: Config, contract: Contract, state: MarketState)
    ensures Values(config, contract, state, Value(config, contract, state))
  {
  }

  /** What is executed of an accepted decision is the decision itself. */
  lemma ExecutedIsAccepted(policy: Policy, observed: PolicyState, limit: real, d: real, config: Config)
    requires policy.Valid() && observed.Valid() && config.deltaPerContract == observed.deltaPerContract == d
    ensures
      var control := DeltaControl(policy, observed, limit);
      !control.GiveUp? ==>
        Executed(config, observed, control.decision, control.decision.requested) == control.decision
  {
    DecisionAccounts(policy, observed);
    var control := DeltaControl(policy, observed, limit);
    if !control.GiveUp? {
      ControlAccounts(policy, observed, limit);
    }
  }

  lemma ControlAccounts(policy: Policy, observed: PolicyState, limit: real)
    requires policy.Valid() && observed.Valid() && !DeltaControl(policy, observed, limit).GiveUp?
    ensures Accounts(DeltaControl(policy, observed, limit).decision, observed)
    ensures DeltaControl(policy, observed, limit).decision.optionDeltaAfter == observed.optionDelta
  {
    DecisionAccounts(policy, observed);
  }

  /** What the run observes is what is seen from its valuations and its fills. */
  lemma ObservesSeen(config: Config, states: seq<MarketState>, n: nat, run: RunState)
    requires Arrived(config, states, n, run)
    ensures Observe(config, states[n], run.book)
            == Seen(config, states[n], run.valuations[2 * n], run.valuations[2 * n + 1], run.fills)
  {
    ObservedHedge(config, states[n], run.book);
  }

  lemma ExecuteTrades(config: Config, optionCash: int, run: RunState, state: MarketState, requested: int)
    requires config.Valid() && config.DistinctInstruments() && state.Valid() && BookInv(config, optionCash, run)
    ensures Execute(config, run, state, requested).0.fills
            == if requested == 0 then run.fills else run.fills + [Futures(config, Hedge, requested, state)]
  {
  }

  /** A new decision on a state that has been valued. */
  lemma NewDecision(
    config: Config, states: seq<MarketState>, n: nat, run: RunState, after: RunState, record: DecisionRecord)
    requires config.Valid() && (forall s <- states :: s.Valid()) && Arrived(config, states, n, run)
    requires AllDecided(config, states, run.decisions, run.valuations, run.fills)
    requires after.decisions == run.decisions + [record] && after.valuations == run.valuations
    requires
      DecidedOn(config, states[n], run.valuations[2 * n], run.valuations[2 * n + 1], run.fills, record)
    requires
      var executed := record.decision.executed;
      after.fills
      == if executed == 0 then run.fills else run.fills + [Futures(config, Hedge, executed, states[n])]
    ensures AllDecided(config, states, after.decisions, after.valuations, after.fills)
  {
    DecidedStays(
      config, states, run.decisions, run.valuations, run.fills, after.decisions, after.valuations, after.fills);
    assert after.decisions[..n] == run.decisions;
    assert FillsBefore(after.decisions, after.fills, n) == run.fills;
    ValueIsOfState(config, config.call, states[n]);
    ValueIsOfState(config, config.put, states[n]);
    assert DecidedAt(config, states, after.decisions, after.valuations, after.fills, n);
  }

  lemma CompleteDecides(config: Config, optionCash: int, states: seq<MarketState>, n: nat, run: RunState)
    requires config.Valid() && config.DistinctInstruments() && (forall s <- states :: s.Valid())
    requires n < |states| && states[n].Valid()
    requires BookInv(config, optionCash, run) && Arrived(config, states, n, run)
    requires AllDecided(config, states, run.decisions, run.valuations, run.fills)
    ensures
      var control := DeltaControl(
        config.policy, Observe(config, states[n], run.book), config.risk.maximumAbsoluteDelta);
      !control.GiveUp? ==>
        var step := CompleteDecision(config, run, states[n], control.decision, control.Force?);
        && step.Next?
        && AllDecided(config, states, step.run.decisions, step.run.valuations, step.run.fills)
  {
    var state := states[n];
    var observed := Observe(config, state, run.book);
    var control := DeltaControl(config.policy, observed, config.risk.maximumAbsoluteDelta);
    if !control.GiveUp? {
      ObservesSeen(config, states, n, run);
      CompleteKeeps(config, optionCash, run, state, control.decision, control.Force?);
      CompleteExecutes(config, run, state, control.decision, control.Force?);
      ExecuteTrades(config, optionCash, run, state, control.decision.requested);
      ExecutedIsAccepted(
        config.policy, observed, config.risk.maximumAbsoluteDelta, config.deltaPerContract, config);
      var after := CompleteDecision(config, run, state, control.decision, control.Force?).run;
      CompleteRecords(config, run, state, control.decision, control.Force?);
      NewDecision(config, states, n, run, after, after.decisions[n]);
    }
  }

  /** The record of a completed decision, and the fills and valuations after it. */
  lemma CompleteRecords(config: Config, run: RunState, state: MarketState, accepted: Decision, forced: bool)
    requires config.Valid() && state.Valid() && Ready(config, run.book)
    requires CompleteDecision(config, run, state, accepted, forced).Next?
    ensures
      var after := CompleteDecision(config, run, state, accepted, forced).run;
      && |after.decisions| == |run.decisions| + 1
      && after.decisions[|run.decisions|].forced == forced
      && after.decisions[|run.decisions|].decision
         == Executed(config, Observe(config, state, run.book), accepted, accepted.requested)
      && after.fills == Execute(config, run, state, accepted.requested).0.fills
      && after.valuations == Execute(config, run, state, accepted.requested).0.valuations
      && Execute(config, run, state, accepted.requested).0.valuations == run.valuations
  {
  }

  lemma GiveUpDecides(config: Config, states: seq<MarketState>, n: nat, run: RunState, predicted: real)
    requires config.Valid() && (forall s <- states :: s.Valid()) && n < |states| && states[n].Valid()
    requires Arrived(config, states, n, run) && Ready(config, run.book)
    requires AllDecided(config, states, run.decisions, run.valuations, run.fills)
    requires DeltaControl(
               config.policy, Observe(config, states[n], run.book), config.risk.maximumAbsoluteDelta).GiveUp?
    ensures
      var after := Resolve(config, run, states[n], GiveUp(predicted)).run;
      AllDecided(config, states, after.decisions, after.valuations, after.fills)
  {
    ObservesSeen(config, states, n, run);
    var after := Resolve(config, run, states[n], GiveUp(predicted)).run;
    NewDecision(config, states, n, run, after, after.decisions[n]);
  }

  // ---- The whole run ----

  /** The two options were valued at each of the first `n` states. */
  ghost predicate AllValues(config: Config, states: seq<MarketState>, valuations: seq<ValuationRecord>, n: nat) {
    && n <= |states| && |valuations| == 2 * n
    && (forall i: nat | i < n ::
          && Values(config, config.call, states[i], valuations[2 * i])
          && Values(config, config.put, states[i], valuations[2 * i + 1]))
  }

  lemma ArriveValues(config: Config, states: seq<MarketState>, n: nat, run: RunState)
    requires config.Valid() && Ready(config, run.book)
    requires n < |states| && AllValues(config, states, run.valuations, n)
    ensures AllValues(config, states, Arrive(config, run, states[n]).valuations, n + 1)
  {
    ValueIsOfState(config, config.call, states[n]);
    ValueIsOfState(config, config.put, states[n]);
  }

  /** The run entered, and has valued, decided on and traded at its first `n` states. */
  ghost predicate Follows(config: Config, states: seq<MarketState>, n: nat, run: RunState) {
    && config.Valid() && (forall s <- states :: s.Valid()) && states != [] && Traced(config, states, n, run)
    && run.fills[0] == Bought(config, config.call, states[0]) && run.fills[1] == Bought(config, config.put, states[0])
    && AllValues(config, states, run.valuations, n)
    && AllDecided(config, states, run.decisions, run.valuations, run.fills)
  }

  /** The run stopped at a state: without a decision there, or with the one that gave up. */
  ghost predicate FollowedTo(
    config: Config, states: seq<MarketState>, last: nat, run: RunState, reason: ExitReason)
  {
    && config.Valid() && (forall s <- states :: s.Valid()) && last < |states|
    && |run.fills| == 2 + Trades(run.decisions)
    && run.fills[0] == Bought(config, config.call, states[0]) && run.fills[1] == Bought(config, config.put, states[0])
    && AllValues(config, states, run.valuations, last + 1)
    && AllDecided(config, states, run.decisions, run.valuations, run.fills)
    && |run.decisions| == last + (if reason == AbsoluteDeltaUnhedgeable then 1 else 0)
    && NetTraded(run.fills, config.futuresId) == Quantity(run.book, config.futuresId)
  }

  ghost predicate FollowsAfter(config: Config, states: seq<MarketState>, n: nat, step: Step) {
    && (step.Next? ==> Follows(config, states, n + 1, step.run))
    && (step.Stop? ==> FollowedTo(config, states, n, step.run, step.reason))
  }

  /** A run that has arrived at a state, with its entry and all before it in order. */
  ghost predicate Reaches(config: Config, states: seq<MarketState>, n: nat, run: RunState) {
    && config.Valid() && (forall s <- states :: s.Valid()) && n < |states| && Arrived(config, states, n, run)
    && run.fills[0] == Bought(config, config.call, states[0]) && run.fills[1] == Bought(config, config.put, states[0])
    && AllValues(config, states, run.valuations, n + 1)
    && AllDecided(config, states, run.decisions, run.valuations, run.fills)
  }

  lemma GiveUpFollows(config: Config, states: seq<MarketState>, n: nat, run: RunState, predicted: real)
    requires Reaches(config, states, n, run) && states[n].Valid() && Ready(config, run.book)
    requires DeltaControl(
               config.policy, Observe(config, states[n], run.book), config.risk.maximumAbsoluteDelta).GiveUp?
    ensures FollowedTo(
              config, states, n, Resolve(config, run, states[n], GiveUp(predicted)).run, AbsoluteDeltaUnhedgeable)
  {
    GiveUpDecides(config, states, n, run, predicted);
    var after := Resolve(config, run, states[n], GiveUp(predicted)).run;
    TradesAppend(run.decisions, after.decisions[n]);
  }

  lemma CompleteFollows(
    config: Config, states: seq<MarketState>, n: nat, run: RunState, after: RunState)
    requires Reaches(config, states, n, run) && Traced(config, states, n + 1, after)
    requires AllDecided(config, states, after.decisions, after.valuations, after.fills)
    requires after.valuations == run.valuations && run.fills <= after.fills
    ensures Follows(config, states, n + 1, after)
  {
  }

  lemma ResolveFollows(config: Config, optionCash: int, states: seq<MarketState>, n: nat, run: RunState)
    requires config.Valid() && config.DistinctInstruments() && Reaches(config, states, n, run) && states[n].Valid()
    requires BookInv(config, optionCash, run)
    ensures
      var control := DeltaControl(
        config.policy, Observe(config, states[n], run.book), config.risk.maximumAbsoluteDelta);
      FollowsAfter(config, states, n, Resolve(config, run, states[n], control))
  {
    var state := states[n];
    var control := DeltaControl(config.policy, Observe(config, state, run.book), config.risk.maximumAbsoluteDelta);
    if control.GiveUp? {
      GiveUpFollows(config, states, n, run, control.predicted);
    } else {
      KeepFollows(config, optionCash, states, n, run);
    }
  }

  lemma KeepFollows(config: Config, optionCash: int, states: seq<MarketState>, n: nat, run: RunState)
    requires config.Valid() && config.DistinctInstruments() && Reaches(config, states, n, run) && states[n].Valid()
    requires BookInv(config, optionCash, run)
    requires !DeltaControl(
               config.policy, Observe(config, states[n], run.book), config.risk.maximumAbsoluteDelta).GiveUp?
    ensures
      var control := DeltaControl(
        config.policy, Observe(config, states[n], run.book), config.risk.maximumAbsoluteDelta);
      var step := CompleteDecision(config, run, states[n], control.decision, control.Force?);
      step.Next? && Follows(config, states, n + 1, step.run)
  {
    var state := states[n];
    var control := DeltaControl(config.policy, Observe(config, state, run.book), config.risk.maximumAbsoluteDelta);
    ResolveTraces(config, optionCash, states, n, run);
    CompleteDecides(config, optionCash, states, n, run);
    CompleteRecords(config, run, state, control.decision, control.Force?);
    ExecuteTrades(config, optionCash, run, state, control.decision.requested);
    CompleteFollows(
      config, states, n, run, CompleteDecision(config, run, state, control.decision, control.Force?).run);
  }

  lemma StepFollows(config: Config, optionCash: int, states: seq<MarketState>, n: nat, run: RunState)
    requires config.Valid() && config.DistinctInstruments() && (forall s <- states :: s.Valid()) && n < |states|
    requires BookInv(config, optionCash, run) && Follows(config, states, n, run)
    ensures FollowsAfter(config, states, n, StepState(config, run, states[n], n == |states| - 1))
  {
    var state, arrived, isFinal := states[n], Arrive(config, run, states[n]), n == |states| - 1;
    ArriveKeeps(config, optionCash, run, state);
    ArriveTraces(config, optionCash, states, n, run);
    ArriveValues(config, states, n, run);
    DecidedStays(
      config, states, run.decisions, run.valuations, run.fills,
      arrived.decisions, arrived.valuations, arrived.fills);
    ExitIsNotForDelta(
      arrived.risk, config.risk, config.killSwitch, config.rule, state.timeToExpiry, state.sessionIndex, isFinal);
    match ExitAt(
      arrived.risk, config.risk, config.killSwitch, config.rule, state.timeToExpiry, state.sessionIndex, isFinal)
    case Some(reason) => StepExits(config, run, state, isFinal, reason);
    case None =>
      StepContinues(config, run, state, isFinal);
      ResolveFollows(config, optionCash, states, n, arrived);
  }

  ghost function FollowsKept(config: Config, states: seq<MarketState>): (nat, RunState) -> bool {
    (j: nat, run: RunState) => Follows(config, states, j, run)
  }

  ghost function FollowsEnd(config: Config, states: seq<MarketState>): (nat, RunState, ExitReason) -> bool {
    (j: nat, run: RunState, reason: ExitReason) => FollowedTo(config, states, j, run, reason)
  }

  lemma FollowsAfterLeads(config: Config, states: seq<MarketState>, n: nat, step: Step)
    requires FollowsAfter(config, states, n, step)
    ensures Leads(step, n, FollowsKept(config, states), FollowsEnd(config, states))
  {
  }

  lemma FollowsLead(config: Config, optionCash: int, states: seq<MarketState>, j: nat, run: RunState)
    requires config.Valid() && config.DistinctInstruments() && (forall s <- states :: s.Valid())
    ensures StepLeads(config, optionCash, states, FollowsKept(config, states), FollowsEnd(config, states), j, run)
  {
    if j < |states| && BookInv(config, optionCash, run) && FollowsKept(config, states)(j, run) {
      StepFollows(config, optionCash, states, j, run);
      FollowsAfterLeads(config, states, j, StepState(config, run, states[j], j == |states| - 1));
    }
  }

  lemma LoopFollows(config: Config, optionCash: int, states: seq<MarketState>, run: RunState)
    requires config.Valid() && config.DistinctInstruments() && (forall s <- states :: s.Valid()) && states != []
    requires BookInv(config, optionCash, run) && Follows(config, states, 0, run)
    ensures
      var outcome := Loop(config, states, 0, run);
      outcome.Ended? && FollowedTo(config, states, outcome.last, outcome.run, outcome.reason)
  {
    forall j: nat, r: RunState
      ensures StepLeads(config, optionCash, states, FollowsKept(config, states), FollowsEnd(config, states), j, r)
    {
      FollowsLead(config, optionCash, states, j, r);
    }
    LoopInvariant(config, optionCash, states, 0, run, FollowsKept(config, states), FollowsEnd(config, states));
  }

  lemma EnterFollows(config: Config, states: seq<MarketState>)
    requires config.Valid() && config.DistinctInstruments() && (forall s <- states :: s.Valid()) && states != []
    ensures Enter(config, states[0]).1 && Follows(config, states, 0, Enter(config, states[0]).0)
  {
    EnterIsTraced(config, states);
    var callFill, putFill := EntryFill(config, config.call, states[0]), EntryFill(config, config.put, states[0]);
    EnterWithEstablishes(config, callFill, putFill, states[0].sessionDate);
    EnterHasNoDecisions(config, states[0]);
  }

  // ---- The close-out ----

  /** The futures order that closes what is held, if anything is. */
  function FuturesClosed(config: Config, held: int, state: MarketState): seq<Fill>
    requires state.Valid()
  {
    if held == 0 then [] else [Futures(config, CloseFutures, -held, state)]
  }

  lemma SellsOption(config: Config, run: RunState, contract: Contract, final: MarketState)
    requires config.Valid() && config.DistinctInstruments() && contract in config.Contracts()
    requires Ready(config, run.book) && Holds(run.book, contract, config.units)
    ensures CloseOptionLeg(config, run, contract, final).0.fills == run.fills + [Sold(config, contract, final)]
  {
  }

  lemma ClosesFutures(config: Config, run: RunState, final: MarketState)
    requires config.Valid() && final.Valid() && Ready(config, run.book) && Explained(config, run)
    ensures CloseFuturesLeg(config, run, final).0.fills
            == run.fills + FuturesClosed(config, Quantity(run.book, config.futuresId), final)
  {
    var held := Quantity(run.book, config.futuresId);
    if held != 0 {
      var intent := CloseFuturesIntent(config, run.book.positions[config.futuresId]);
      assert FillOf(intent, final.futuresPrice, config.futuresCosts) == Futures(config, CloseFutures, -held, final);
    }
  }

  lemma CloseOutIsItsLegs(config: Config, run: RunState, final: MarketState)
    requires config.Valid() && final.Valid() && Ready(config, run.book)
    requires
      var call := CloseOptionLeg(config, run, config.call, final);
      var put := CloseOptionLeg(config, call.0, config.put, final);
      call.1 && put.1 && CloseFuturesLeg(config, put.0, final).1
    ensures
      var callClosed := CloseOptionLeg(config, run, config.call, final).0;
      var putClosed := CloseOptionLeg(config, callClosed, config.put, final).0;
      CloseOut(config, run, final) == Some(CloseFuturesLeg(config, putClosed, final).0)
  {
  }

  /** Both options sold, one after the other. */
  lemma OptionsSold(config: Config, optionCash: int, run: RunState, final: MarketState)
    requires config.Valid() && config.DistinctInstruments() && final.Valid() && BookInv(config, optionCash, run)
    ensures
      var call := CloseOptionLeg(config, run, config.call, final);
      var put := CloseOptionLeg(config, call.0, config.put, final);
      && call.1 && put.1 && Ready(config, put.0.book) && Explained(config, put.0)
      && put.0.fills == run.fills + [Sold(config, config.call, final), Sold(config, config.put, final)]
      && Quantity(put.0.book, config.futuresId) == Quantity(run.book, config.futuresId)
  {
    CloseOptionKeeps(config, run, config.call, final);
    SellsOption(config, run, config.call, final);
    var callClosed := CloseOptionLeg(config, run, config.call, final).0;
    CloseOptionKeeps(config, callClosed, config.put, final);
    SellsOption(config, callClosed, config.put, final);
    SoldOneByOne(run.fills, Sold(config, config.call, final), Sold(config, config.put, final));
  }

  lemma SoldOneByOne(fills: seq<Fill>, call: Fill, put: Fill)
    ensures fills + [call] + [put] == fills + [call, put]
  {
  }

  lemma CloseOutTrades(config: Config, optionCash: int, run: RunState, final: MarketState)
    requires config.Valid() && config.DistinctInstruments() && final.Valid() && BookInv(config, optionCash, run)
    ensures CloseOut(config, run, final).Some?
    ensures CloseOut(config, run, final).value.fills
            == run.fills + [Sold(config, config.call, final), Sold(config, config.put, final)]
               + FuturesClosed(config, Quantity(run.book, config.futuresId), final)
  {
    OptionsSold(config, optionCash, run, final);
    var callClosed := CloseOptionLeg(config, run, config.call, final).0;
    var putClosed := CloseOptionLeg(config, callClosed, config.put, final).0;
    CloseFuturesKeeps(config, putClosed, final);
    ClosesFutures(config, putClosed, final);
    CloseOutIsItsLegs(config, run, final);
  }

  /**
   Everything a finished run did. It bought the straddle at the first state; at every state it valued both options
   and, but for an exit, carried out what delta control makes of the position; and at the last state it sold
   both options and closed the futures that its hedges left. There are no other fills.
   */
  ghost predicate DidExactly(config: Config, states: seq<MarketState>, result: SimulationResult)
    requires config.Valid() && forall s <- states :: s.Valid()
  {
    var decisions, valuations, fills := result.run.decisions, result.run.valuations, result.run.fills;
    var traded := 2 + Trades(decisions);
    && result.last < |states| && traded <= |fills|
    && fills[0] == Bought(config, config.call, states[0]) && fills[1] == Bought(config, config.put, states[0])
    && AllValues(config, states, valuations, result.last + 1)
    && AllDecided(config, states, decisions, valuations, fills)
    && |decisions| == result.last + (if result.exitReason == Some(AbsoluteDeltaUnhedgeable) then 1 else 0)
    && fills[traded..]
       == [Sold(config, config.call, states[result.last]), Sold(config, config.put, states[result.last])]
          + FuturesClosed(config, NetTraded(fills[..traded], config.futuresId), states[result.last])
  }

  lemma ResultFills(
    config: Config, optionCash: int, states: seq<MarketState>, entered: RunState, result: SimulationResult)
    requires config.Valid() && config.DistinctInstruments() && (forall s <- states :: s.Valid()) && states != []
    requires BookInv(config, optionCash, entered) && IsSettledRun(config, states, entered, result)
    ensures
      var outcome := LoopOutcome(config, states, entered);
      var final := states[outcome.last];
      result.run.fills
      == outcome.run.fills + [Sold(config, config.call, final), Sold(config, config.put, final)]
         + FuturesClosed(config, Quantity(outcome.run.book, config.futuresId), final)
  {
    OutcomeCloses(config, optionCash, states, entered);
    var outcome := LoopOutcome(config, states, entered);
    CloseOutTrades(config, optionCash, outcome.run, states[outcome.last]);
  }

  /** What followed to the end of the loop, with the close-out, is all that was done. */
  lemma FollowedIsDone(
    config: Config, states: seq<MarketState>, run: RunState, result: SimulationResult, reason: ExitReason)
    requires config.Valid() && (forall s <- states :: s.Valid())
    requires result.last < |states| && states[result.last].Valid()
    requires FollowedTo(config, states, result.last, run, reason) && result.exitReason == Some(reason)
    requires result.run.decisions == run.decisions && result.run.valuations == run.valuations
    requires
      var final := states[result.last];
      result.run.fills
      == run.fills + [Sold(config, config.call, final), Sold(config, config.put, final)]
         + FuturesClosed(config, Quantity(run.book, config.futuresId), final)
    ensures DidExactly(config, states, result)
  {
    DecidedStays(
      config, states, run.decisions, run.valuations, run.fills,
      result.run.decisions, result.run.valuations, result.run.fills);
    assert result.run.fills[..|run.fills|] == run.fills;
  }

  lemma OutcomeDid(
    config: Config, optionCash: int, states: seq<MarketState>, entered: RunState, result: SimulationResult)
    requires config.Valid() && config.DistinctInstruments() && (forall s <- states :: s.Valid()) && states != []
    requires BookInv(config, optionCash, entered) && Follows(config, states, 0, entered)
    requires IsSettledRun(config, states, entered, result)
    ensures DidExactly(config, states, result)
  {
    LoopFollows(config, optionCash, states, entered);
    ResultKeepsOutcome(config, optionCash, states, entered, result);
    ResultFills(config, optionCash, states, entered, result);
    var outcome := LoopOutcome(config, states, entered);
    assert states[outcome.last] in states;
    FollowedIsDone(config, states, outcome.run, result, outcome.reason);
  }

  /** Every run does exactly what its configuration and its market states say. */
  lemma EveryRunDoesExactly(config: Config, states: seq<MarketState>)
    requires config.Valid() && config.DistinctInstruments() && (forall s <- states :: s.Valid())
    ensures SimulationOf(config, states).Ok? ==> DidExactly(config, states, SimulationOf(config, states).value)
  {
    LedgerNeverRefuses(config, states);
    var simulation := SimulationOf(config, states);
    if simulation.Ok? {
      EnterEstablishes(config, states[0]);
      EnterFollows(config, states);
      OutcomeDid(config, EntryNotional(config, states[0]), states, Enter(config, states[0]).0, simulation.value);
    }
  }
}
