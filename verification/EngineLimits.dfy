/** Limits every simulation run keeps: net delta, hedges in a session, and the hedge it tracks. */
module EngineLimits {
  import opened Wrappers
  import opened Money
  import opened Ledger
  import opened Hedging
  import opened Risk
  import opened Engine
  import opened EngineSafety

  /** Contracts traded by the decisions so far. */
  function ExecutedTotal(decisions: seq<DecisionRecord>): int {
    if decisions == [] then 0
    else ExecutedTotal(decisions[..|decisions| - 1]) + decisions[|decisions| - 1].decision.executed
  }

  /** Decisions that traded on one session date. */
  function HedgesOn(decisions: seq<DecisionRecord>, sessionDate: int): nat {
    if decisions == [] then 0
    else
      var last := decisions[|decisions| - 1];
      HedgesOn(decisions[..|decisions| - 1], sessionDate)
      + (if last.sessionDate == sessionDate && last.decision.executed != 0 then 1 else 0)
  }

  /**
   A completed decision: its net delta is within the limit and is the option delta plus the delta of
   all the contracts traded up to and including it.
   */
  ghost predicate Completed(config: Config, decisions: seq<DecisionRecord>, i: nat)
    requires i < |decisions|
  {
    var decision := decisions[i].decision;
    && decision.reason != Unhedgeable
    && Abs(decision.netDeltaAfter) <= config.risk.maximumAbsoluteDelta
    && decision.netDeltaAfter == decision.optionDeltaAfter + decision.hedgeDeltaAfter
    && decision.hedgeDeltaAfter == HedgeDelta(ExecutedTotal(decisions[..i + 1]), config.deltaPerContract)
  }

  ghost predicate AllCompleted(config: Config, decisions: seq<DecisionRecord>) {
    forall i: nat | i < |decisions| :: Completed(config, decisions, i)
  }

  ghost predicate DecisionInv(config: Config, run: RunState) {
    && AllCompleted(config, run.decisions)
    && Quantity(run.book, config.futuresId) == ExecutedTotal(run.decisions)
    && 0 <= run.risk.hedgesInSession <= config.risk.maximumHedgesPerSession
  }

  lemma DecisionsAppend(decisions: seq<DecisionRecord>, record: DecisionRecord)
    ensures ExecutedTotal(decisions + [record]) == ExecutedTotal(decisions) + record.decision.executed
    ensures forall date :: HedgesOn(decisions + [record], date)
              == HedgesOn(decisions, date)
                + (if record.sessionDate == date && record.decision.executed != 0 then 1 else 0)
  {
    assert (decisions + [record])[..|decisions|] == decisions;
  }

  lemma CompletedPrefix(config: Config, decisions: seq<DecisionRecord>, record: DecisionRecord)
    requires AllCompleted(config, decisions)
    ensures forall i: nat | i < |decisions| :: Completed(config, decisions + [record], i)
  {
    forall i: nat | i < |decisions| ensures Completed(config, decisions + [record], i) {
      assert Completed(config, decisions, i);
      assert (decisions + [record])[..i + 1] == decisions[..i + 1];
    }
  }

  lemma HedgeDeltaAdds(x: int, y: int, d: real)
    ensures HedgeDelta(x, d) + HedgeDelta(y, d) == HedgeDelta(x + y, d)
  {
  }

  /** A policy never gives the reason the run keeps for itself. */
  lemma DecideReason(policy: Policy, state: PolicyState)
    requires policy.Valid() && state.Valid()
    ensures Decide(policy, state).reason != Unhedgeable
  {
  }

  lemma AppendCompleted(config: Config, decisions: seq<DecisionRecord>, record: DecisionRecord)
    requires AllCompleted(config, decisions)
    requires Extends(config, ExecutedTotal(decisions), record)
    ensures AllCompleted(config, decisions + [record])
  {
    DecisionsAppend(decisions, record);
    CompletedPrefix(config, decisions, record);
    HedgeDeltaAdds(ExecutedTotal(decisions), record.decision.executed, config.deltaPerContract);
    assert (decisions + [record])[..|decisions| + 1] == decisions + [record];
    assert Completed(config, decisions + [record], |decisions|);
  }

  lemma CompleteHedgeCount(
    config: Config, optionCash: int, run: RunState, state: MarketState, accepted: Decision, forced: bool)
    requires config.Valid() && config.DistinctInstruments() && state.Valid() && BookInv(config, optionCash, run)
    ensures CompleteDecision(config, run, state, accepted, forced).Next?
    ensures
      var risk := CompleteDecision(config, run, state, accepted, forced).run.risk;
      && risk.sessionDate == state.sessionDate
      && risk.hedgesInSession
         == if run.risk.sessionDate != state.sessionDate then 0
            else run.risk.hedgesInSession + (if accepted.requested == 0 then 0 else 1)
  {
    CompleteKeeps(config, optionCash, run, state, accepted, forced);
    ExecuteKeeps(config, optionCash, run, state, accepted.requested);
  }

  /** A record that extends a run whose futures hold `held` contracts. */
  ghost predicate Extends(config: Config, held: int, record: DecisionRecord) {
    && record.decision.reason != Unhedgeable && Abs(record.decision.netDeltaAfter) <= config.risk.maximumAbsoluteDelta
    && record.decision.netDeltaAfter == record.decision.optionDeltaAfter + record.decision.hedgeDeltaAfter
    && record.decision.hedgeDeltaAfter
       == HedgeDelta(held, config.deltaPerContract) + HedgeDelta(record.decision.executed, config.deltaPerContract)
  }

  /** A record that executes what an accepted decision asked for. */
  ghost predicate CarriesOut(record: DecisionRecord, accepted: Decision, observed: PolicyState) {
    && record.decision.executed == accepted.requested && record.decision.reason == accepted.reason
    && record.decision.optionDeltaAfter == observed.optionDelta
    && record.decision.hedgeDeltaAfter
       == observed.hedgeDelta + HedgeDelta(accepted.requested, observed.deltaPerContract)
    && record.decision.netDeltaAfter == observed.optionDelta + record.decision.hedgeDeltaAfter
  }

  lemma CompleteExecutes(config: Config, run: RunState, state: MarketState, accepted: Decision, forced: bool)
    requires config.Valid() && state.Valid() && Ready(config, run.book)
    requires CompleteDecision(config, run, state, accepted, forced).Next?
    ensures
      var next := CompleteDecision(config, run, state, accepted, forced).run;
      && |next.decisions| == |run.decisions| + 1
      && next.decisions == run.decisions + [next.decisions[|run.decisions|]]
      && next.decisions[|run.decisions|].sessionDate == state.sessionDate
      && CarriesOut(next.decisions[|run.decisions|], accepted, Observe(config, state, run.book))
  {
  }

  lemma CarriedExtends(config: Config, held: int, record: DecisionRecord, accepted: Decision, observed: PolicyState)
    requires CarriesOut(record, accepted, observed) && Accounts(accepted, observed)
    requires observed.hedgeDelta == HedgeDelta(held, config.deltaPerContract)
    requires observed.netDelta == observed.optionDelta + observed.hedgeDelta
    requires observed.deltaPerContract == config.deltaPerContract
    requires accepted.reason != Unhedgeable && Abs(accepted.netDeltaAfter) <= config.risk.maximumAbsoluteDelta
    ensures Extends(config, held, record)
  {
  }

  lemma CompleteExtends(config: Config, run: RunState, state: MarketState, accepted: Decision, forced: bool)
    requires config.Valid() && state.Valid() && Ready(config, run.book)
    requires CompleteDecision(config, run, state, accepted, forced).Next?
    requires accepted.reason != Unhedgeable && Abs(accepted.netDeltaAfter) <= config.risk.maximumAbsoluteDelta
    requires Accounts(accepted, Observe(config, state, run.book))
    ensures
      var next := CompleteDecision(config, run, state, accepted, forced).run;
      && |next.decisions| == |run.decisions| + 1
      && next.decisions == run.decisions + [next.decisions[|run.decisions|]]
      && Extends(config, Quantity(run.book, config.futuresId), next.decisions[|run.decisions|])
      && next.decisions[|run.decisions|].decision.executed == accepted.requested
  {
    CompleteExecutes(config, run, state, accepted, forced);
    ObservedHedge(config, state, run.book);
    var record := CompleteDecision(config, run, state, accepted, forced).run.decisions[|run.decisions|];
    CarriedExtends(
      config, Quantity(run.book, config.futuresId), record, accepted, Observe(config, state, run.book));
  }

  /** Completing a decision that delta control accepted keeps the limits, if a hedge was still allowed. */
  lemma CompleteKeepsLimits(
    config: Config, optionCash: int, run: RunState, state: MarketState, accepted: Decision, forced: bool)
    requires config.Valid() && config.DistinctInstruments() && state.Valid()
    requires BookInv(config, optionCash, run) && DecisionInv(config, run)
    requires run.risk.hedgesInSession < config.risk.maximumHedgesPerSession
    requires accepted.reason != Unhedgeable && Abs(accepted.netDeltaAfter) <= config.risk.maximumAbsoluteDelta
    requires Accounts(accepted, Observe(config, state, run.book))
    ensures CompleteDecision(config, run, state, accepted, forced).Next?
    ensures DecisionInv(config, CompleteDecision(config, run, state, accepted, forced).run)
  {
    CompleteKeeps(config, optionCash, run, state, accepted, forced);
    CompleteHedgeCount(config, optionCash, run, state, accepted, forced);
    CompleteExtends(config, run, state, accepted, forced);
    var next := CompleteDecision(config, run, state, accepted, forced).run;
    ExtendedInv(config, run, next, next.decisions[|run.decisions|]);
  }

  /** A run extended by one decision within the limit. */
  lemma ExtendedInv(config: Config, run: RunState, next: RunState, record: DecisionRecord)
    requires DecisionInv(config, run) && next.decisions == run.decisions + [record]
    requires Extends(config, Quantity(run.book, config.futuresId), record)
    requires Quantity(next.book, config.futuresId) == Quantity(run.book, config.futuresId) + record.decision.executed
    requires 0 <= next.risk.hedgesInSession <= config.risk.maximumHedgesPerSession
    ensures DecisionInv(config, next)
  {
    DecisionsAppend(run.decisions, record);
    AppendCompleted(config, run.decisions, record);
  }

  lemma ObservedHedge(config: Config, state: MarketState, book: Book)
    ensures
      var observed := Observe(config, state, book);
      && observed.hedgeDelta == HedgeDelta(Quantity(book, config.futuresId), config.deltaPerContract)
      && observed.netDelta == observed.optionDelta + observed.hedgeDelta
      && observed.deltaPerContract == config.deltaPerContract
  {
  }

  /** What a stopped run's decisions look like: all completed, except a failed last one when it gave up. */
  ghost predicate StoppedDecisions(config: Config, decisions: seq<DecisionRecord>, reason: ExitReason) {
    if reason == AbsoluteDeltaUnhedgeable then
      && decisions != []
      && AllCompleted(config, decisions[..|decisions| - 1])
      && decisions[|decisions| - 1].decision.reason == Unhedgeable
      && decisions[|decisions| - 1].decision.executed == 0
    else AllCompleted(config, decisions)
  }

  lemma ArriveKeepsLimits(config: Config, optionCash: int, run: RunState, state: MarketState)
    requires config.Valid() && BookInv(config, optionCash, run) && DecisionInv(config, run)
    ensures BookInv(config, optionCash, Arrive(config, run, state)) && DecisionInv(config, Arrive(config, run, state))
    ensures Arrive(config, run, state).decisions == run.decisions
  {
    ArriveKeeps(config, optionCash, run, state);
  }

  lemma ResolveKeepsLimits(config: Config, optionCash: int, run: RunState, state: MarketState)
    requires config.Valid() && config.DistinctInstruments() && state.Valid()
    requires BookInv(config, optionCash, run) && DecisionInv(config, run)
    requires run.risk.hedgesInSession < config.risk.maximumHedgesPerSession
    ensures
      var control := DeltaControl(config.policy, Observe(config, state, run.book), config.risk.maximumAbsoluteDelta);
      var step := Resolve(config, run, state, control);
      && (step.Next? ==> DecisionInv(config, step.run))
      && (step.Stop? ==>
           step.reason == AbsoluteDeltaUnhedgeable && StoppedDecisions(config, step.run.decisions, step.reason))
  {
    var observed := Observe(config, state, run.book);
    var limit := config.risk.maximumAbsoluteDelta;
    var control := DeltaControl(config.policy, observed, limit);
    if control.GiveUp? {
      var stopped := Resolve(config, run, state, control).run;
      assert stopped.decisions[..|run.decisions|] == run.decisions;
    } else {
      ControlledDeltaWithinLimit(config.policy, observed, limit);
      ControlReason(config.policy, observed, limit);
      CompleteKeepsLimits(config, optionCash, run, state, control.decision, control.Force?);
    }
  }

  lemma ControlReason(policy: Policy, state: PolicyState, limit: real)
    requires policy.Valid() && state.Valid() && !DeltaControl(policy, state, limit).GiveUp?
    ensures DeltaControl(policy, state, limit).decision.reason != Unhedgeable
  {
    DecideReason(policy, state);
  }

  /** What a step leaves of the limits. */
  ghost predicate LimitsAfter(config: Config, step: Step) {
    && (step.Next? ==> DecisionInv(config, step.run))
    && (step.Stop? ==> StoppedDecisions(config, step.run.decisions, step.reason))
  }

  /** An exit that its check gives is never for the net delta. */
  lemma ExitIsNotForDelta(
    risk: RiskState, policy: RiskPolicy, killSwitch: bool, rule: HoldingRule, timeToExpiry: real, sessionIndex: int,
    isFinal: bool)
    requires rule.Valid()
    ensures ExitAt(risk, policy, killSwitch, rule, timeToExpiry, sessionIndex, isFinal)
            != Some(AbsoluteDeltaUnhedgeable)
    ensures ExitAt(risk, policy, killSwitch, rule, timeToExpiry, sessionIndex, isFinal) == None ==>
              risk.hedgesInSession < policy.maximumHedgesPerSession
  {
  }

  lemma StepKeepsLimits(config: Config, optionCash: int, run: RunState, state: MarketState, isFinal: bool)
    requires config.Valid() && config.DistinctInstruments() && state.Valid()
    requires BookInv(config, optionCash, run) && DecisionInv(config, run)
    ensures LimitsAfter(config, StepState(config, run, state, isFinal))
  {
    ArriveKeepsLimits(config, optionCash, run, state);
    var arrived := Arrive(config, run, state);
    var exit := ExitAt(
      arrived.risk, config.risk, config.killSwitch, config.rule, state.timeToExpiry, state.sessionIndex, isFinal);
    ExitIsNotForDelta(
      arrived.risk, config.risk, config.killSwitch, config.rule, state.timeToExpiry, state.sessionIndex, isFinal);
    match exit
    case Some(reason) => StepExits(config, run, state, isFinal, reason);
    case None =>
      StepContinues(config, run, state, isFinal);
      ResolveKeepsLimits(config, optionCash, arrived, state);
  }

  ghost function LimitsKept(config: Config): (nat, RunState) -> bool {
    (j: nat, run: RunState) => DecisionInv(config, run)
  }

  ghost function LimitsMet(config: Config): (nat, RunState, ExitReason) -> bool {
    (j: nat, run: RunState, reason: ExitReason) => StoppedDecisions(config, run.decisions, reason)
  }

  lemma LimitsLead(config: Config, optionCash: int, states: seq<MarketState>, j: nat, run: RunState)
    requires config.Valid() && config.DistinctInstruments() && (forall s <- states :: s.Valid())
    ensures StepLeads(config, optionCash, states, LimitsKept(config), LimitsMet(config), j, run)
  {
    if j < |states| && BookInv(config, optionCash, run) && LimitsKept(config)(j, run) {
      StepKeepsLimits(config, optionCash, run, states[j], j == |states| - 1);
    }
  }

  lemma LoopKeepsLimits(config: Config, optionCash: int, states: seq<MarketState>, run: RunState)
    requires config.Valid() && config.DistinctInstruments() && (forall s <- states :: s.Valid()) && states != []
    requires BookInv(config, optionCash, run) && DecisionInv(config, run)
    ensures
      var outcome := Loop(config, states, 0, run);
      outcome.Ended? && StoppedDecisions(config, outcome.run.decisions, outcome.reason)
  {
    forall j: nat, r: RunState
      ensures StepLeads(config, optionCash, states, LimitsKept(config), LimitsMet(config), j, r)
    {
      LimitsLead(config, optionCash, states, j, r);
    }
    LoopInvariant(config, optionCash, states, 0, run, LimitsKept(config), LimitsMet(config));
  }

  /** A run that has entered and decided nothing yet. */
  ghost predicate JustEntered(config: Config, optionCash: int, entered: RunState) {
    && BookInv(config, optionCash, entered) && DecisionInv(config, entered)
    && entered.decisions == [] && entered.valuations == [] && entered.risk.hedgesInSession == 0
  }

  lemma EnterHasNoDecisions(config: Config, initial: MarketState)
    requires config.Valid() && initial.Valid() && config.DistinctInstruments()
    ensures Enter(config, initial).1
    ensures JustEntered(config, EntryNotional(config, initial), Enter(config, initial).0)
    ensures Enter(config, initial).0.risk.sessionDate == initial.sessionDate
  {
    EnterEstablishes(config, initial);
    var callFill, putFill := EntryFill(config, config.call, initial), EntryFill(config, config.put, initial);
    EnterWithEstablishes(config, callFill, putFill, initial.sessionDate);
  }

  lemma OutcomeCompleted(config: Config, optionCash: int, states: seq<MarketState>, entered: RunState)
    requires config.Valid() && config.DistinctInstruments() && (forall s <- states :: s.Valid()) && states != []
    requires JustEntered(config, optionCash, entered)
    ensures
      var outcome := LoopOutcome(config, states, entered);
      outcome.Ended? && StoppedDecisions(config, outcome.run.decisions, outcome.reason)
  {
    LoopKeepsLimits(config, optionCash, states, entered);
  }

  /** What a finished run's decisions look like. */
  ghost predicate DecisionsWithinLimit(config: Config, result: SimulationResult) {
    result.exitReason.Some? && StoppedDecisions(config, result.run.decisions, result.exitReason.value)
  }

  // ---- Hedges in a session ----

  /** Session dates never go back along the path. */
  ghost predicate Chronological(states: seq<MarketState>) {
    forall i, j :: 0 <= i <= j < |states| ==> states[i].sessionDate <= states[j].sessionDate
  }

  ghost predicate SessionsWithin(config: Config, decisions: seq<DecisionRecord>) {
    forall date :: HedgesOn(decisions, date) <= config.risk.maximumHedgesPerSession
  }

  /** The risk state's counter is the number of hedging decisions on its date, and no decision is later. */
  ghost predicate SessionInv(config: Config, decisions: seq<DecisionRecord>, risk: RiskState) {
    && (forall record <- decisions :: record.sessionDate <= risk.sessionDate)
    && HedgesOn(decisions, risk.sessionDate) == risk.hedgesInSession
    && SessionsWithin(config, decisions)
  }

  lemma {:induction false} NoHedgesLater(decisions: seq<DecisionRecord>, date: int)
    requires forall record <- decisions :: record.sessionDate < date
    ensures HedgesOn(decisions, date) == 0
  {
    if decisions == [] {
    } else {
      NoHedgesLater(decisions[..|decisions| - 1], date);
    }
  }

  lemma MarkKeepsSession(config: Config, decisions: seq<DecisionRecord>, risk: RiskState, value: int, date: int)
    requires SessionInv(config, decisions, risk) && risk.sessionDate <= date
    ensures SessionInv(config, decisions, Mark(risk, value, date))
  {
    if risk.sessionDate < date {
      NoHedgesLater(decisions, date);
    }
  }

  lemma AppendKeepsSession(
    config: Config, decisions: seq<DecisionRecord>, record: DecisionRecord, before: RiskState, after: RiskState)
    requires SessionInv(config, decisions, before) && record.sessionDate == before.sessionDate == after.sessionDate
    requires after.hedgesInSession == before.hedgesInSession + (if record.decision.executed == 0 then 0 else 1)
    requires after.hedgesInSession <= config.risk.maximumHedgesPerSession
    ensures SessionInv(config, decisions + [record], after)
  {
    DecisionsAppend(decisions, record);
  }

  /** A step that did not crash, with its sessions in order up to its own date. */
  ghost predicate SessionsAfter(config: Config, step: Step, date: int) {
    && !step.Crash? && SessionInv(config, step.run.decisions, step.run.risk)
    && step.run.risk.sessionDate == date
  }

  lemma ArriveKeepsSession(config: Config, optionCash: int, run: RunState, state: MarketState)
    requires config.Valid() && BookInv(config, optionCash, run)
    requires SessionInv(config, run.decisions, run.risk) && run.risk.sessionDate <= state.sessionDate
    ensures
      var arrived := Arrive(config, run, state);
      && arrived.decisions == run.decisions && arrived.risk.sessionDate == state.sessionDate
      && SessionInv(config, arrived.decisions, arrived.risk)
  {
    var arrived := Arrive(config, run, state);
    MarkKeepsSession(config, run.decisions, run.risk, arrived.book.PortfolioValue(), state.sessionDate);
  }

  lemma StepKeepsSession(config: Config, optionCash: int, run: RunState, state: MarketState, isFinal: bool)
    requires config.Valid() && config.DistinctInstruments() && state.Valid() && BookInv(config, optionCash, run)
    requires SessionInv(config, run.decisions, run.risk) && run.risk.sessionDate <= state.sessionDate
    ensures SessionsAfter(config, StepState(config, run, state, isFinal), state.sessionDate)
  {
    ArriveKeeps(config, optionCash, run, state);
    ArriveKeepsSession(config, optionCash, run, state);
    var arrived := Arrive(config, run, state);
    var exit := ExitAt(
      arrived.risk, config.risk, config.killSwitch, config.rule, state.timeToExpiry, state.sessionIndex, isFinal);
    ExitIsNotForDelta(
      arrived.risk, config.risk, config.killSwitch, config.rule, state.timeToExpiry, state.sessionIndex, isFinal);
    match exit
    case Some(reason) => StepExits(config, run, state, isFinal, reason);
    case None =>
      StepContinues(config, run, state, isFinal);
      ResolveKeepsSession(
        config, optionCash, arrived, state,
        DeltaControl(config.policy, Observe(config, state, arrived.book), config.risk.maximumAbsoluteDelta));
  }

  lemma ResolveKeepsSession(config: Config, optionCash: int, run: RunState, state: MarketState, control: Control)
    requires config.Valid() && config.DistinctInstruments() && state.Valid() && BookInv(config, optionCash, run)
    requires SessionInv(config, run.decisions, run.risk) && run.risk.sessionDate == state.sessionDate
    requires run.risk.hedgesInSession < config.risk.maximumHedgesPerSession
    ensures !Resolve(config, run, state, control).Crash?
    ensures
      var after := Resolve(config, run, state, control).run;
      SessionInv(config, after.decisions, after.risk) && after.risk.sessionDate == state.sessionDate
  {
    ResolveKeeps(config, optionCash, run, state, control);
    if control.GiveUp? {
      var after := Resolve(config, run, state, control).run;
      AppendKeepsSession(config, run.decisions, after.decisions[|run.decisions|], run.risk, run.risk);
    } else {
      CompleteHedgeCount(config, optionCash, run, state, control.decision, control.Force?);
      CompleteExecutes(config, run, state, control.decision, control.Force?);
      var after := CompleteDecision(config, run, state, control.decision, control.Force?).run;
      AppendKeepsSession(config, run.decisions, after.decisions[|run.decisions|], run.risk, after.risk);
    }
  }

  /** The decisions so far are within the sessions' limits, and the session of the run is not past the next state's. */
  ghost predicate SessionsKept(config: Config, states: seq<MarketState>, j: nat, run: RunState) {
    SessionInv(config, run.decisions, run.risk) && (j < |states| ==> run.risk.sessionDate <= states[j].sessionDate)
  }

  ghost function SessionsKeep(config: Config, states: seq<MarketState>): (nat, RunState) -> bool {
    (j: nat, run: RunState) => SessionsKept(config, states, j, run)
  }

  ghost function SessionsEnd(config: Config): (nat, RunState, ExitReason) -> bool {
    (j: nat, run: RunState, reason: ExitReason) => SessionsWithin(config, run.decisions)
  }

  lemma SessionsLead(config: Config, optionCash: int, states: seq<MarketState>, j: nat, run: RunState)
    requires config.Valid() && config.DistinctInstruments() && (forall s <- states :: s.Valid())
             && Chronological(states)
    ensures StepLeads(config, optionCash, states, SessionsKeep(config, states), SessionsEnd(config), j, run)
  {
    if j < |states| && BookInv(config, optionCash, run) && SessionsKeep(config, states)(j, run) {
      StepKeepsSession(config, optionCash, run, states[j], j == |states| - 1);
    }
  }

  lemma OutcomeWithinSessions(config: Config, optionCash: int, states: seq<MarketState>, entered: RunState)
    requires config.Valid() && config.DistinctInstruments() && (forall s <- states :: s.Valid())
    requires Chronological(states) && states != []
    requires JustEntered(config, optionCash, entered) && entered.risk.sessionDate == states[0].sessionDate
    ensures LoopOutcome(config, states, entered).Ended?
    ensures SessionsWithin(config, LoopOutcome(config, states, entered).run.decisions)
  {
    forall j: nat, r: RunState
      ensures StepLeads(config, optionCash, states, SessionsKeep(config, states), SessionsEnd(config), j, r)
    {
      SessionsLead(config, optionCash, states, j, r);
    }
    LoopInvariant(config, optionCash, states, 0, entered, SessionsKeep(config, states), SessionsEnd(config));
  }

  /** Close-out adds no decision. */
  lemma ResultKeepsOutcome(
    config: Config, optionCash: int, states: seq<MarketState>, entered: RunState, result: SimulationResult)
    requires config.Valid() && config.DistinctInstruments() && (forall s <- states :: s.Valid()) && states != []
    requires BookInv(config, optionCash, entered) && IsSettledRun(config, states, entered, result)
    ensures
      var outcome := LoopOutcome(config, states, entered);
      && result.run.decisions == outcome.run.decisions
      && result.run.valuations == outcome.run.valuations
      && result.last == outcome.last
      && result.exitReason == Some(outcome.reason)
  {
    SettledRunIsFlat(config, optionCash, states, entered, result);
    OutcomeCloses(config, optionCash, states, entered);
    var outcome := LoopOutcome(config, states, entered);
    CloseOutKeeps(config, optionCash, outcome.run, states[outcome.last]);
  }

  /** On a path whose dates never go back, no session date is on more hedging decisions than the limit. */
  lemma DatedHedgesWithinLimit(config: Config, states: seq<MarketState>, date: int)
    requires config.Valid() && config.DistinctInstruments() && (forall s <- states :: s.Valid())
             && Chronological(states)
    ensures SimulationOf(config, states).Ok? ==>
              HedgesOn(SimulationOf(config, states).value.run.decisions, date) <= config.risk.maximumHedgesPerSession
  {
    LedgerNeverRefuses(config, states);
    var simulation := SimulationOf(config, states);
    if simulation.Ok? {
      EnterHasNoDecisions(config, states[0]);
      var entered, optionCash := Enter(config, states[0]).0, EntryNotional(config, states[0]);
      ResultKeepsOutcome(config, optionCash, states, entered, simulation.value);
      OutcomeWithinSessions(config, optionCash, states, entered);
    }
  }
}
