/** Why a run ends: the profit and loss of its sessions, its hedges and its time, read off what the run reports. */
module EngineExits {
  import opened Money
  import opened Fills
  import opened Ledger
  import opened Hedging
  import opened Risk
  import opened Engine
  import opened EngineSafety
  import opened EngineLimits
  import opened EngineDecisions
  import opened EngineMarks

  // ---- Values and sessions of the states ----

  /** The first state of the session a state is in: states in a row that share a date. */
  function SessionStart(states: seq<MarketState>, i: nat): (start: nat)
    requires i < |states|
    ensures start <= i
  {
    if i == 0 || states[i - 1].sessionDate != states[i].sessionDate then i else SessionStart(states, i - 1)
  }

  /** The two entry fills and one for each decision that traded. */
  function FillsAfter(decisions: seq<DecisionRecord>, fills: seq<Fill>): seq<Fill> {
    if 2 + Trades(decisions) <= |fills| then fills[..2 + Trades(decisions)] else fills
  }

  /** The worth of the run when a state is reached, before anything is decided there. */
  function ValueAt(
    config: Config, states: seq<MarketState>, decisions: seq<DecisionRecord>, fills: seq<Fill>, i: nat): int
    requires i < |states| && i <= |decisions|
  {
    MarkedValue(config, states[i], FillsAfter(decisions[..i], fills))
  }

  /** And when it is left, after the decision. */
  function ValueLeft(
    config: Config, states: seq<MarketState>, decisions: seq<DecisionRecord>, fills: seq<Fill>, i: nat): int
    requires i < |states| && i < |decisions|
  {
    MarkedValue(config, states[i], FillsAfter(decisions[..i + 1], fills))
  }

  /** What session profit is measured from: the worth before the session, at first the starting value. */
  function SessionReference(
    config: Config, states: seq<MarketState>, decisions: seq<DecisionRecord>, fills: seq<Fill>, i: nat): int
    requires i < |states| && i <= |decisions|
  {
    var start := SessionStart(states, i);
    if start == 0 then Round(config.risk.startingNav) else ValueLeft(config, states, decisions, fills, start - 1)
  }

  /** Hedges traded in the session before a state. */
  function HedgesBefore(states: seq<MarketState>, decisions: seq<DecisionRecord>, i: nat): int
    requires i < |states| && i <= |decisions|
  {
    Trades(decisions[..i]) - Trades(decisions[..SessionStart(states, i)])
  }

  /** How a run stands when it reaches a state: what it has lost, and how often it has hedged in the session. */
  datatype Standing = Standing(sessionLoss: int, positionLoss: int, hedges: int)

  function StandingAt(
    config: Config, states: seq<MarketState>, decisions: seq<DecisionRecord>, fills: seq<Fill>, i: nat): Standing
    requires i < |states| && i <= |decisions|
  {
    var value := ValueAt(config, states, decisions, fills, i);
    Standing(
      SessionReference(config, states, decisions, fills, i) - value, Round(config.risk.startingNav) - value,
      HedgesBefore(states, decisions, i))
  }

  // ---- Reasons to exit ----

  /** A state and how the run stands there give a reason to end the run. */
  predicate Calls(config: Config, state: MarketState, isFinal: bool, standing: Standing, reason: ExitReason)
    requires config.rule.Valid()
  {
    var risk, rule := config.risk, config.rule;
    match reason
    case ManualKillSwitch => config.killSwitch
    case DailyLossLimit => standing.sessionLoss as real >= risk.startingNav * risk.dailyLossFraction
    case PositionLossLimit => standing.positionLoss as real >= risk.startingNav * risk.positionLossFraction
    case MaximumHedgeCount => standing.hedges >= risk.maximumHedgesPerSession
    case InsufficientTimeToExpiry => state.timeToExpiry < rule.buffer as real / rule.periodsPerYear as real
    case MaximumHoldingPeriod => state.sessionIndex >= rule.horizon
    case SimulationEnd => isFinal
    case AbsoluteDeltaUnhedgeable => false
  }

  /** The order in which reasons are looked for. */
  function Precedence(): seq<ExitReason> {
    [ ManualKillSwitch, DailyLossLimit, PositionLossLimit, MaximumHedgeCount, InsufficientTimeToExpiry,
      MaximumHoldingPeriod, SimulationEnd ]
  }

  /** Nothing calls for an exit. */
  ghost predicate Silent(config: Config, state: MarketState, isFinal: bool, standing: Standing)
    requires config.rule.Valid()
  {
    forall reason :: !Calls(config, state, isFinal, standing, reason)
  }

  /** The first reason in order that calls for an exit. */
  ghost predicate FirstCall(config: Config, state: MarketState, isFinal: bool, standing: Standing, reason: ExitReason)
    requires config.rule.Valid()
  {
    exists k: nat | k < |Precedence()| ::
      && reason == Precedence()[k] && Calls(config, state, isFinal, standing, reason)
      && (forall j: nat | j < k :: !Calls(config, state, isFinal, standing, Precedence()[j]))
  }

  /** The marked risk state of a run that stands so. */
  predicate RiskStands(risk: RiskState, standing: Standing) {
    && risk.sessionPnl == -standing.sessionLoss && risk.positionPnl == -standing.positionLoss
    && risk.hedgesInSession == standing.hedges
  }

  /** The exit check of a state finds the first reason, or none. */
  lemma ExitIsFirstCall(config: Config, state: MarketState, isFinal: bool, standing: Standing, risk: RiskState)
    requires config.rule.Valid() && RiskStands(risk, standing)
    ensures
      match ExitAt(
        risk, config.risk, config.killSwitch, config.rule, state.timeToExpiry, state.sessionIndex, isFinal)
      case None => Silent(config, state, isFinal, standing)
      case Some(reason) => FirstCall(config, state, isFinal, standing, reason)
  {
    var exit := ExitAt(
      risk, config.risk, config.killSwitch, config.rule, state.timeToExpiry, state.sessionIndex, isFinal);
    if exit.Some? {
      var k: nat := match exit.value
        case ManualKillSwitch => 0
        case DailyLossLimit => 1
        case PositionLossLimit => 2
        case MaximumHedgeCount => 3
        case InsufficientTimeToExpiry => 4
        case MaximumHoldingPeriod => 5
        case _ => 6;
      assert exit.value == Precedence()[k];
    }
  }

  // ---- What is read off a prefix stays ----

  lemma {:induction false} TradesGrow(decisions: seq<DecisionRecord>, k: nat)
    requires k <= |decisions|
    ensures Trades(decisions[..k]) <= Trades(decisions)
    decreases |decisions|
  {
    if k == |decisions| {
      assert decisions[..k] == decisions;
    } else {
      var front := decisions[..|decisions| - 1];
      assert front[..k] == decisions[..k];
      TradesGrow(front, k);
    }
  }

  /** Decisions and fills that go on from earlier ones, which had a fill for each trade. */
  ghost predicate GoesOn(
    decisions: seq<DecisionRecord>, fills: seq<Fill>, more: seq<DecisionRecord>, moreFills: seq<Fill>)
  {
    decisions <= more && fills <= moreFills && 2 + Trades(decisions) <= |fills|
  }

  lemma FillsStay(
    decisions: seq<DecisionRecord>, fills: seq<Fill>, more: seq<DecisionRecord>, moreFills: seq<Fill>, k: nat)
    requires GoesOn(decisions, fills, more, moreFills) && k <= |decisions|
    ensures more[..k] == decisions[..k] && FillsAfter(more[..k], moreFills) == FillsAfter(decisions[..k], fills)
  {
    TradesGrow(decisions, k);
    assert more[..k] == decisions[..k];
  }

  lemma StandingStays(
    config: Config, states: seq<MarketState>, decisions: seq<DecisionRecord>, fills: seq<Fill>,
    more: seq<DecisionRecord>, moreFills: seq<Fill>, i: nat)
    requires GoesOn(decisions, fills, more, moreFills) && i <= |decisions| && i < |states|
    ensures StandingAt(config, states, more, moreFills, i) == StandingAt(config, states, decisions, fills, i)
    ensures ValueAt(config, states, more, moreFills, i) == ValueAt(config, states, decisions, fills, i)
    ensures SessionReference(config, states, more, moreFills, i)
            == SessionReference(config, states, decisions, fills, i)
    ensures HedgesBefore(states, more, i) == HedgesBefore(states, decisions, i)
  {
    FillsStay(decisions, fills, more, moreFills, i);
    FillsStay(decisions, fills, more, moreFills, SessionStart(states, i));
  }

  /** What a decision reports of the values around it and of the hedges of its session. */
  ghost predicate ReportsValues(
    config: Config, states: seq<MarketState>, decisions: seq<DecisionRecord>, fills: seq<Fill>, i: nat)
    requires i < |states| && i < |decisions|
  {
    && decisions[i].valueBefore == ValueAt(config, states, decisions, fills, i)
    && decisions[i].valueAfter == ValueLeft(config, states, decisions, fills, i)
    && decisions[i].sessionHedges == Trades(decisions[..i + 1]) - Trades(decisions[..SessionStart(states, i)])
  }

  /** The first `n` states gave no reason to exit, and the decisions report their values. */
  ghost predicate WentOn(
    config: Config, states: seq<MarketState>, decisions: seq<DecisionRecord>, fills: seq<Fill>, n: nat)
    requires config.rule.Valid() && n <= |decisions| <= |states|
  {
    && (forall i: nat | i < n ::
          Silent(config, states[i], i == |states| - 1, StandingAt(config, states, decisions, fills, i)))
    && (forall i: nat | i < |decisions| :: ReportsValues(config, states, decisions, fills, i))
  }

  lemma ReportedStays(
    config: Config, states: seq<MarketState>, decisions: seq<DecisionRecord>, fills: seq<Fill>,
    more: seq<DecisionRecord>, moreFills: seq<Fill>, i: nat)
    requires GoesOn(decisions, fills, more, moreFills) && i < |decisions| && i < |states|
    requires ReportsValues(config, states, decisions, fills, i)
    ensures ReportsValues(config, states, more, moreFills, i)
  {
    FillsStay(decisions, fills, more, moreFills, i);
    FillsStay(decisions, fills, more, moreFills, i + 1);
    FillsStay(decisions, fills, more, moreFills, SessionStart(states, i));
  }

  /** What has gone on so far stays so, and may go on by one more decision. */
  lemma WentOnStays(
    config: Config, states: seq<MarketState>, decisions: seq<DecisionRecord>, fills: seq<Fill>,
    more: seq<DecisionRecord>, moreFills: seq<Fill>, n: nat)
    requires config.rule.Valid() && n <= |decisions| <= |more| <= |states| && |more| <= |decisions| + 1
    requires GoesOn(decisions, fills, more, moreFills) && WentOn(config, states, decisions, fills, n)
    requires |more| > |decisions| ==> ReportsValues(config, states, more, moreFills, |decisions|)
    ensures WentOn(config, states, more, moreFills, n)
  {
    forall i: nat | i < n
      ensures Silent(config, states[i], i == |states| - 1, StandingAt(config, states, more, moreFills, i))
    {
      StandingStays(config, states, decisions, fills, more, moreFills, i);
    }
    forall i: nat | i < |more| ensures ReportsValues(config, states, more, moreFills, i) {
      if i < |decisions| {
        ReportedStays(config, states, decisions, fills, more, moreFills, i);
      }
    }
  }

  // ---- The risk state along a run ----

  /** The risk state of a run that has decided on the first `n` states. */
  ghost predicate RiskFollows(
    config: Config, states: seq<MarketState>, decisions: seq<DecisionRecord>, fills: seq<Fill>, n: nat,
    risk: RiskState)
    requires n == |decisions| <= |states|
  {
    && risk.positionReference == Round(config.risk.startingNav)
    && (if n == 0 then
          && (states != [] ==> risk.sessionDate == states[0].sessionDate)
          && risk.sessionReference == Round(config.risk.startingNav) && risk.hedgesInSession == 0
        else
          && risk.sessionDate == states[n - 1].sessionDate
          && risk.sessionReference == SessionReference(config, states, decisions, fills, n - 1)
          && risk.previousMarked == ValueLeft(config, states, decisions, fills, n - 1)
          && risk.hedgesInSession == Trades(decisions) - Trades(decisions[..SessionStart(states, n - 1)]))
  }

  /** The risk state of a run that has reached and marked state `n`. */
  ghost predicate RiskMarked(
    config: Config, states: seq<MarketState>, decisions: seq<DecisionRecord>, fills: seq<Fill>, n: nat,
    risk: RiskState)
    requires n == |decisions| < |states|
  {
    && risk.positionReference == Round(config.risk.startingNav) && risk.sessionDate == states[n].sessionDate
    && risk.sessionReference == SessionReference(config, states, decisions, fills, n)
    && risk.hedgesInSession == HedgesBefore(states, decisions, n)
    && RiskStands(risk, StandingAt(config, states, decisions, fills, n))
  }

  lemma MarkFollows(
    config: Config, states: seq<MarketState>, decisions: seq<DecisionRecord>, fills: seq<Fill>, n: nat,
    risk: RiskState)
    requires n == |decisions| < |states| && RiskFollows(config, states, decisions, fills, n, risk)
    ensures
      var value := ValueAt(config, states, decisions, fills, n);
      RiskMarked(config, states, decisions, fills, n, Mark(risk, value, states[n].sessionDate))
  {
    assert decisions[..n] == decisions;
    if n > 0 && states[n - 1].sessionDate != states[n].sessionDate {
      assert SessionStart(states, n) == n;
    } else if n > 0 {
      assert SessionStart(states, n) == SessionStart(states, n - 1);
    }
  }

  /** A run that has decided on the first `n` states and went on after each. */
  ghost predicate Stands(config: Config, states: seq<MarketState>, n: nat, run: RunState) {
    && config.rule.Valid() && Traced(config, states, n, run)
    && RiskFollows(config, states, run.decisions, run.fills, n, run.risk)
    && WentOn(config, states, run.decisions, run.fills, n)
  }

  lemma ArriveValue(config: Config, optionCash: int, states: seq<MarketState>, n: nat, run: RunState)
    requires config.Valid() && config.DistinctInstruments() && BookInv(config, optionCash, run)
    requires n < |states| && Traced(config, states, n, run)
    ensures
      var arrived := Arrive(config, run, states[n]);
      && arrived.decisions == run.decisions && arrived.fills == run.fills
      && MarkedAt(config, states[n], arrived.book)
      && arrived.book.PortfolioValue() == MarkedValue(config, states[n], run.fills)
  {
    ArriveKeeps(config, optionCash, run, states[n]);
    ArriveMarks(config, run, states[n]);
    ValueOfMarked(config, optionCash, Arrive(config, run, states[n]), states[n]);
  }

  lemma AllFillsSoFar(decisions: seq<DecisionRecord>, fills: seq<Fill>)
    requires |fills| == 2 + Trades(decisions)
    ensures FillsAfter(decisions[..|decisions|], fills) == fills
  {
    assert decisions[..|decisions|] == decisions && fills[..|fills|] == fills;
  }

  lemma ArriveStands(config: Config, optionCash: int, states: seq<MarketState>, n: nat, run: RunState)
    requires config.Valid() && config.DistinctInstruments() && BookInv(config, optionCash, run)
    requires n < |states| && states[n].Valid() && Stands(config, states, n, run)
    ensures
      var arrived := Arrive(config, run, states[n]);
      && arrived.decisions == run.decisions && arrived.fills == run.fills
      && MarkedAt(config, states[n], arrived.book)
      && arrived.book.PortfolioValue() == ValueAt(config, states, run.decisions, run.fills, n)
      && RiskMarked(config, states, run.decisions, run.fills, n, arrived.risk)
  {
    ArriveValue(config, optionCash, states, n, run);
    AllFillsSoFar(run.decisions, run.fills);
    MarkFollows(config, states, run.decisions, run.fills, n, run.risk);
    assert Arrive(config, run, states[n]).risk
        == Mark(run.risk, Arrive(config, run, states[n]).book.PortfolioValue(), states[n].sessionDate);
  }

  /** The risk state after a decision is that of the next state's start. */
  lemma DecidedFollows(
    config: Config, states: seq<MarketState>, decisions: seq<DecisionRecord>, fills: seq<Fill>, n: nat,
    more: seq<DecisionRecord>, moreFills: seq<Fill>, marked: RiskState, risk: RiskState)
    requires n == |decisions| < |states| && |more| == n + 1 && GoesOn(decisions, fills, more, moreFills)
    requires RiskMarked(config, states, decisions, fills, n, marked)
    requires risk.positionReference == marked.positionReference && risk.sessionDate == marked.sessionDate
    requires risk.sessionReference == marked.sessionReference
    requires risk.previousMarked == ValueLeft(config, states, more, moreFills, n)
    requires risk.hedgesInSession
             == marked.hedgesInSession + (if more[n].decision.executed != 0 then 1 else 0)
    ensures RiskFollows(config, states, more, moreFills, n + 1, risk)
    ensures risk.hedgesInSession == Trades(more) - Trades(more[..SessionStart(states, n)])
  {
    StandingStays(config, states, decisions, fills, more, moreFills, n);
    HedgesOneMore(states, decisions, more, n);
  }

  lemma HedgesOneMore(
    states: seq<MarketState>, decisions: seq<DecisionRecord>, more: seq<DecisionRecord>, n: nat)
    requires n == |decisions| < |states| && |more| == n + 1 && decisions <= more
    ensures Trades(more) - Trades(more[..SessionStart(states, n)])
            == HedgesBefore(states, decisions, n) + (if more[n].decision.executed != 0 then 1 else 0)
  {
    assert decisions + [more[n]] == more && decisions[..n] == decisions;
    assert more[..SessionStart(states, n)] == decisions[..SessionStart(states, n)];
    TradesAppend(decisions, more[n]);
  }

  /** The values around a completed decision, and the risk state it leaves. */
  lemma CompleteValues(
    config: Config, optionCash: int, run: RunState, state: MarketState, accepted: Decision, forced: bool)
    requires config.Valid() && config.DistinctInstruments() && state.Valid() && BookInv(config, optionCash, run)
    requires NetTraded(run.fills, config.futuresId) == Quantity(run.book, config.futuresId)
    requires MarkedAt(config, state, run.book) && run.risk.sessionDate == state.sessionDate
    ensures CompleteDecision(config, run, state, accepted, forced).Next?
    ensures
      var after := CompleteDecision(config, run, state, accepted, forced).run;
      && |after.decisions| == |run.decisions| + 1
      && after.decisions[|run.decisions|].valueBefore == run.book.PortfolioValue()
      && after.decisions[|run.decisions|].valueAfter == MarkedValue(config, state, after.fills)
      && after.decisions[|run.decisions|].sessionHedges == after.risk.hedgesInSession
      && after.risk.previousMarked == MarkedValue(config, state, after.fills)
      && after.risk.positionReference == run.risk.positionReference
      && after.risk.sessionReference == run.risk.sessionReference
      && after.risk.sessionDate == run.risk.sessionDate
      && after.risk.hedgesInSession == run.risk.hedgesInSession + (if accepted.requested != 0 then 1 else 0)
  {
    ExecuteKeeps(config, optionCash, run, state, accepted.requested);
    ExecuteTraces(config, optionCash, run, state, accepted.requested);
    ExecuteMarks(config, run, state, accepted.requested);
    var traded := Execute(config, run, state, accepted.requested).0;
    ValueOfMarked(config, optionCash, traded, state);
  }

  /** A run that has arrived at state `n` and decides there stands for the next one. */
  lemma DecidedStands(
    config: Config, states: seq<MarketState>, n: nat, run: RunState, after: RunState)
    requires config.Valid() && n == |run.decisions| < |states| && Traced(config, states, n + 1, after)
    requires 2 + Trades(run.decisions) == |run.fills| && run.decisions <= after.decisions && run.fills <= after.fills
    requires RiskMarked(config, states, run.decisions, run.fills, n, run.risk)
    requires WentOn(config, states, run.decisions, run.fills, n)
    requires Silent(config, states[n], n == |states| - 1, StandingAt(config, states, run.decisions, run.fills, n))
    requires after.decisions[n].valueBefore == ValueAt(config, states, run.decisions, run.fills, n)
    requires after.decisions[n].valueAfter == MarkedValue(config, states[n], after.fills)
    requires after.decisions[n].sessionHedges == after.risk.hedgesInSession
    requires after.risk.previousMarked == MarkedValue(config, states[n], after.fills)
    requires after.risk.positionReference == run.risk.positionReference
    requires after.risk.sessionReference == run.risk.sessionReference
    requires after.risk.sessionDate == run.risk.sessionDate
    requires after.risk.hedgesInSession
             == run.risk.hedgesInSession + (if after.decisions[n].decision.executed != 0 then 1 else 0)
    ensures Stands(config, states, n + 1, after)
  {
    AllFillsSoFar(after.decisions, after.fills);
    DecidedFollows(
      config, states, run.decisions, run.fills, n, after.decisions, after.fills, run.risk, after.risk);
    StandingStays(config, states, run.decisions, run.fills, after.decisions, after.fills, n);
    assert after.decisions[..n + 1] == after.decisions;
    assert ReportsValues(config, states, after.decisions, after.fills, n);
    WentOnStays(config, states, run.decisions, run.fills, after.decisions, after.fills, n);
    WentOnOneMore(config, states, after.decisions, after.fills, n);
  }

  lemma WentOnOneMore(
    config: Config, states: seq<MarketState>, decisions: seq<DecisionRecord>, fills: seq<Fill>, n: nat)
    requires config.rule.Valid() && n < |decisions| <= |states| && WentOn(config, states, decisions, fills, n)
    requires Silent(config, states[n], n == |states| - 1, StandingAt(config, states, decisions, fills, n))
    ensures WentOn(config, states, decisions, fills, n + 1)
  {
    forall i: nat | i < n + 1
      ensures Silent(config, states[i], i == |states| - 1, StandingAt(config, states, decisions, fills, i))
    {
      assert i < n || i == n;
    }
  }

  /** Where a run stopped: what it went through, and the reason there, if it did not give up on the net delta. */
  ghost predicate EndsFor(config: Config, states: seq<MarketState>, last: nat, run: RunState, reason: ExitReason) {
    && config.rule.Valid() && last < |states|
    && last <= |run.decisions| <= last + 1 && 2 + Trades(run.decisions) <= |run.fills|
    && WentOn(config, states, run.decisions, run.fills, last)
    && var standing := StandingAt(config, states, run.decisions, run.fills, last);
       if reason == AbsoluteDeltaUnhedgeable then Silent(config, states[last], last == |states| - 1, standing)
       else FirstCall(config, states[last], last == |states| - 1, standing, reason)
  }

  // ---- One state, and the whole loop ----

  /** The failed decision of a run that gives up reports one value and no hedge. */
  lemma GivesUpStanding(config: Config, states: seq<MarketState>, n: nat, run: RunState, record: DecisionRecord)
    requires config.Valid() && n == |run.decisions| < |states| && 2 + Trades(run.decisions) == |run.fills|
    requires RiskMarked(config, states, run.decisions, run.fills, n, run.risk)
    requires WentOn(config, states, run.decisions, run.fills, n)
    requires Silent(config, states[n], n == |states| - 1, StandingAt(config, states, run.decisions, run.fills, n))
    requires record.decision.executed == 0 && record.sessionHedges == run.risk.hedgesInSession
    requires record.valueBefore == record.valueAfter == ValueAt(config, states, run.decisions, run.fills, n)
    ensures EndsFor(
              config, states, n, run.(decisions := run.decisions + [record]), AbsoluteDeltaUnhedgeable)
  {
    var more := run.decisions + [record];
    TradesAppend(run.decisions, record);
    FailedReports(config, states, run.decisions, run.fills, n, record);
    StandingStays(config, states, run.decisions, run.fills, more, run.fills, n);
    WentOnStays(config, states, run.decisions, run.fills, more, run.fills, n);
  }

  lemma FailedReports(
    config: Config, states: seq<MarketState>, decisions: seq<DecisionRecord>, fills: seq<Fill>, n: nat,
    record: DecisionRecord)
    requires n == |decisions| < |states| && 2 + Trades(decisions) == |fills|
    requires record.decision.executed == 0 && record.sessionHedges == HedgesBefore(states, decisions, n)
    requires record.valueBefore == record.valueAfter == ValueAt(config, states, decisions, fills, n)
    ensures ReportsValues(config, states, decisions + [record], fills, n)
  {
    var more := decisions + [record];
    TradesAppend(decisions, record);
    assert more[..n] == decisions && more[..n + 1] == more && decisions[..n] == decisions;
    FillsStay(decisions, fills, more, fills, SessionStart(states, n));
  }

  /** A step from state `n` that stands for the next one, or ends as it should. */
  ghost predicate StandsAfter(config: Config, states: seq<MarketState>, n: nat, step: Step) {
    && (step.Next? ==> Stands(config, states, n + 1, step.run))
    && (step.Stop? ==> EndsFor(config, states, n, step.run, step.reason))
  }

  lemma ResolveStands(config: Config, optionCash: int, states: seq<MarketState>, n: nat, run: RunState)
    requires config.Valid() && config.DistinctInstruments() && n < |states| && states[n].Valid()
    requires BookInv(config, optionCash, run) && Arrived(config, states, n, run)
    requires MarkedAt(config, states[n], run.book)
    requires run.book.PortfolioValue() == ValueAt(config, states, run.decisions, run.fills, n)
    requires RiskMarked(config, states, run.decisions, run.fills, n, run.risk)
    requires WentOn(config, states, run.decisions, run.fills, n)
    requires Silent(config, states[n], n == |states| - 1, StandingAt(config, states, run.decisions, run.fills, n))
    ensures
      var control := DeltaControl(
        config.policy, Observe(config, states[n], run.book), config.risk.maximumAbsoluteDelta);
      StandsAfter(config, states, n, Resolve(config, run, states[n], control))
  {
    var state := states[n];
    var control := DeltaControl(config.policy, Observe(config, state, run.book), config.risk.maximumAbsoluteDelta);
    var step := Resolve(config, run, state, control);
    if control.GiveUp? {
      GivesUpStanding(config, states, n, run, step.run.decisions[n]);
    } else {
      ResolveTraces(config, optionCash, states, n, run);
      CompleteValues(config, optionCash, run, state, control.decision, control.Force?);
      CompleteExecutes(config, run, state, control.decision, control.Force?);
      ExecuteTraces(config, optionCash, run, state, control.decision.requested);
      DecidedStands(config, states, n, run, step.run);
    }
  }

  lemma StepStands(config: Config, optionCash: int, states: seq<MarketState>, n: nat, run: RunState)
    requires config.Valid() && config.DistinctInstruments() && n < |states| && states[n].Valid()
    requires BookInv(config, optionCash, run) && Stands(config, states, n, run)
    ensures StandsAfter(config, states, n, StepState(config, run, states[n], n == |states| - 1))
  {
    var state, arrived, isFinal := states[n], Arrive(config, run, states[n]), n == |states| - 1;
    ArriveKeeps(config, optionCash, run, state);
    ArriveTraces(config, optionCash, states, n, run);
    ArriveStands(config, optionCash, states, n, run);
    ExitIsFirstCall(
      config, state, isFinal, StandingAt(config, states, run.decisions, run.fills, n), arrived.risk);
    ExitIsNotForDelta(
      arrived.risk, config.risk, config.killSwitch, config.rule, state.timeToExpiry, state.sessionIndex, isFinal);
    match ExitAt(
      arrived.risk, config.risk, config.killSwitch, config.rule, state.timeToExpiry, state.sessionIndex, isFinal)
    case Some(reason) => StepExits(config, run, state, isFinal, reason);
    case None =>
      StepContinues(config, run, state, isFinal);
      ResolveStands(config, optionCash, states, n, arrived);
  }

  ghost function StandsKept(config: Config, states: seq<MarketState>): (nat, RunState) -> bool {
    (j: nat, run: RunState) => Stands(config, states, j, run)
  }

  ghost function EndsMet(config: Config, states: seq<MarketState>): (nat, RunState, ExitReason) -> bool {
    (j: nat, run: RunState, reason: ExitReason) => EndsFor(config, states, j, run, reason)
  }

  lemma StandsAfterLeads(config: Config, states: seq<MarketState>, n: nat, step: Step)
    requires StandsAfter(config, states, n, step)
    ensures Leads(step, n, StandsKept(config, states), EndsMet(config, states))
  {
  }

  lemma StandsLead(config: Config, optionCash: int, states: seq<MarketState>, j: nat, run: RunState)
    requires config.Valid() && config.DistinctInstruments() && (forall s <- states :: s.Valid())
    ensures StepLeads(config, optionCash, states, StandsKept(config, states), EndsMet(config, states), j, run)
  {
    if j < |states| && BookInv(config, optionCash, run) && StandsKept(config, states)(j, run) {
      StepStands(config, optionCash, states, j, run);
      StandsAfterLeads(config, states, j, StepState(config, run, states[j], j == |states| - 1));
    }
  }

  lemma LoopEndsFor(config: Config, optionCash: int, states: seq<MarketState>, run: RunState)
    requires config.Valid() && config.DistinctInstruments() && (forall s <- states :: s.Valid()) && states != []
    requires BookInv(config, optionCash, run) && Stands(config, states, 0, run)
    ensures
      var outcome := Loop(config, states, 0, run);
      outcome.Ended? && EndsFor(config, states, outcome.last, outcome.run, outcome.reason)
  {
    forall j: nat, r: RunState
      ensures StepLeads(config, optionCash, states, StandsKept(config, states), EndsMet(config, states), j, r)
    {
      StandsLead(config, optionCash, states, j, r);
    }
    LoopInvariant(config, optionCash, states, 0, run, StandsKept(config, states), EndsMet(config, states));
  }

  lemma EnterStands(config: Config, states: seq<MarketState>)
    requires config.Valid() && config.DistinctInstruments() && states != [] && states[0].Valid()
    ensures Enter(config, states[0]).1 && Stands(config, states, 0, Enter(config, states[0]).0)
  {
    EnterIsTraced(config, states);
    var callFill, putFill := EntryFill(config, config.call, states[0]), EntryFill(config, config.put, states[0]);
    EnterWithEstablishes(config, callFill, putFill, states[0].sessionDate);
  }

  /**
   What a finished run went through. Every state before the last gave no reason to exit; the last one gave the
   exit reason first, or none when the run gave up on its net delta there; and every decision reports the worth
   of the run before and after it and the hedges of its session.
   */
  ghost predicate ExitsForFirstReason(config: Config, states: seq<MarketState>, result: SimulationResult)
    requires config.rule.Valid()
  {
    var decisions, fills := result.run.decisions, result.run.fills;
    && result.last < |states| && result.last <= |decisions| <= result.last + 1 && result.exitReason.Some?
    && WentOn(config, states, decisions, fills, result.last)
    && var standing := StandingAt(config, states, decisions, fills, result.last);
       var state, isFinal := states[result.last], result.last == |states| - 1;
       if result.exitReason.value == AbsoluteDeltaUnhedgeable then Silent(config, state, isFinal, standing)
       else FirstCall(config, state, isFinal, standing, result.exitReason.value)
  }

  lemma OutcomeEndsFor(
    config: Config, optionCash: int, states: seq<MarketState>, entered: RunState, result: SimulationResult)
    requires config.Valid() && config.DistinctInstruments() && (forall s <- states :: s.Valid()) && states != []
    requires BookInv(config, optionCash, entered) && Stands(config, states, 0, entered)
    requires IsSettledRun(config, states, entered, result)
    ensures ExitsForFirstReason(config, states, result)
  {
    LoopEndsFor(config, optionCash, states, entered);
    OutcomeCloses(config, optionCash, states, entered);
    ResultKeepsOutcome(config, optionCash, states, entered, result);
    var outcome := LoopOutcome(config, states, entered);
    CloseOutAppends(config, outcome.run, states[outcome.last]);
    var run := outcome.run;
    WentOnStays(config, states, run.decisions, run.fills, run.decisions, result.run.fills, outcome.last);
    StandingStays(config, states, run.decisions, run.fills, run.decisions, result.run.fills, outcome.last);
  }

  /**
   Every run goes on exactly as long as nothing calls for an exit, and ends for the first reason that does: in order
   the kill switch, the loss of the session, the loss since entry, the hedges of the session, the time to
   expiry, the holding horizon and the end of the path. Only a run that gives up on its net delta ends without one.
   */
  lemma EveryRunExitsForFirstReason(config: Config, states: seq<MarketState>)
    requires config.Valid() && config.DistinctInstruments() && (forall s <- states :: s.Valid())
    ensures SimulationOf(config, states).Ok? ==>
              ExitsForFirstReason(config, states, SimulationOf(config, states).value)
  {
    LedgerNeverRefuses(config, states);
    var simulation := SimulationOf(config, states);
    if simulation.Ok? {
      EnterEstablishes(config, states[0]);
      EnterStands(config, states);
      OutcomeEndsFor(config, EntryNotional(config, states[0]), states, Enter(config, states[0]).0, simulation.value);
    }
  }

  /** The exit reason is determined: what calls first is one reason. */
  lemma FirstCallIsOne(
    config: Config, state: MarketState, isFinal: bool, standing: Standing, a: ExitReason, b: ExitReason)
    requires config.rule.Valid()
    requires FirstCall(config, state, isFinal, standing, a) && FirstCall(config, state, isFinal, standing, b)
    ensures a == b
  {
    var i: nat :| i < |Precedence()| && a == Precedence()[i] && Calls(config, state, isFinal, standing, a)
                  && forall j: nat | j < i :: !Calls(config, state, isFinal, standing, Precedence()[j]);
    var k: nat :| k < |Precedence()| && b == Precedence()[k] && Calls(config, state, isFinal, standing, b)
                  && forall j: nat | j < k :: !Calls(config, state, isFinal, standing, Precedence()[j]);
    if i < k {
      assert false;
    } else if k < i {
      assert false;
    }
  }
}
