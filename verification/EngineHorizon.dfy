/** On a clock-generated path, when a run must have ended and for which reasons it cannot end. */
module EngineHorizon {
  import opened Wrappers
  import opened Clock
  import opened StateBuilder
  import opened Risk
  import opened Engine
  import opened EngineSafety
  import opened EngineLimits
  import opened EngineDecisions

  /** Where a run's market states come from: the path, the clock it was checked against and the selected expiry. */
  datatype Source = Source(
    clock: ClockConfig,
    start: int,
    entry: nat,
    points: seq<UnderlyingPoint>,
    sessions: seq<Session>,
    remaining: int,
    futuresYears: real,
    carry: (UnderlyingPoint, real) -> real)

  /** The states were built on a path of `horizon * D + 1` clock points, with an expiry the selection rule allows. */
  ghost predicate ClockRun(config: Config, source: Source, states: seq<MarketState>) {
    var Source(clock, start, entry, points, sessions, remaining, futuresYears, carry) := source;
    && config.Valid() && clock.Valid() && entry < |clock.times|
    && clock.periodsPerYear == config.rule.periodsPerYear
    && config.rule.horizon + config.rule.buffer <= remaining
    && OnClock(points, start, clock, entry, sessions)
    && |points| == config.rule.horizon * |clock.times| + 1
    && |states| == |points|
    && (forall i: nat | i < |points| ::
          && points[i].clock.stepIndex >= 0
          && states[i]
             == StateAt(points, i, remaining as real / config.rule.periodsPerYear as real, futuresYears, carry))
    && (forall i: nat | i < |states| :: states[i].Valid())
  }

  /** The index of the first decision of the horizon session. */
  function LastDecision(config: Config, source: Source): int {
    config.rule.horizon * |source.clock.times| - source.entry
  }

  lemma HorizonPositive(horizon: nat, D: nat, entry: nat)
    requires horizon > 0 && entry < D
    ensures 0 < horizon * D - entry
  {
    assert horizon * D >= D;
  }

  lemma SessionOf(session: nat, decision: nat, D: nat, horizon: nat, position: nat)
    requires decision < D && session * D + decision == position
    ensures position >= horizon * D ==> session >= horizon
    ensures position < horizon * D ==> session < horizon
  {
    NextMultiple(session, D);
    if session < horizon {
      MultipleOrder(session + 1, horizon, D);
    } else {
      MultipleOrder(horizon, session, D);
    }
  }

  /** A session's share of a year, summed over up to `horizon * D` steps, is at most the horizon's. */
  lemma StepsWithin(i: nat, horizon: nat, D: nat, P: nat, step: real)
    requires D > 0 && P > 0 && step == 1.0 / (P * D) as real && i <= horizon * D
    ensures i as real * step <= horizon as real / P as real
  {
    assert P * D > 0;
    var whole := (horizon * D) as real;
    assert step > 0.0;
    ScaleUp(i as real, whole, step);
    FractionOfYear(horizon, D, P, step);
  }

  lemma ScaleUp(x: real, y: real, s: real)
    requires x <= y && s >= 0.0
    ensures x * s <= y * s
  {
  }

  lemma FractionOfYear(horizon: nat, D: nat, P: nat, step: real)
    requires D > 0 && P > 0 && P * D > 0 && step == 1.0 / (P * D) as real
    ensures (horizon * D) as real * step == horizon as real / P as real
  {
    var h, d, p := horizon as real, D as real, P as real;
    assert (P * D) as real == p * d;
    assert (horizon * D) as real == h * d;
    assert step * (p * d) == 1.0;
    Cancel(h, d, p, step);
  }

  lemma Cancel(h: real, d: real, p: real, step: real)
    requires d > 0.0 && p > 0.0 && step * (p * d) == 1.0
    ensures h * d * step == h / p
  {
    assert (h * d * step) * p == h * (step * (p * d)) == h;
    DivideBack(h * d * step, p, h);
  }

  lemma DivideBack(x: real, p: real, h: real)
    requires p > 0.0 && x * p == h
    ensures x == h / p
  {
  }

  lemma QuotientAdds(x: int, y: int, p: real, total: int)
    requires p > 0.0 && x + y <= total
    ensures x as real / p + y as real / p <= total as real / p
  {
    var sum := (x + y) as real;
    assert x as real / p + y as real / p == sum / p;
    assert sum / p <= total as real / p by {
      assert (total as real - sum) / p >= 0.0;
    }
  }

  /** A state `i` steps along a clock, and its time to an expiry of at least the horizon and the buffer. */
  ghost predicate Timed(i: nat, rule: HoldingRule, D: nat, step: real, remaining: int, timeToExpiry: real) {
    && D > 0 && rule.Valid() && rule.periodsPerYear * D > 0 && step == 1.0 / (rule.periodsPerYear * D) as real
    && i <= rule.horizon * D && rule.horizon + rule.buffer <= remaining
    && timeToExpiry >= remaining as real / rule.periodsPerYear as real - i as real * step
  }

  /** After up to `horizon * D` steps, such an expiry still has the buffer left. */
  lemma BufferLeft(i: nat, rule: HoldingRule, D: nat, step: real, remaining: int, timeToExpiry: real)
    requires Timed(i, rule, D, step, remaining, timeToExpiry)
    ensures timeToExpiry >= rule.buffer as real / rule.periodsPerYear as real
  {
    StepsWithin(i, rule.horizon, D, rule.periodsPerYear, step);
    QuotientAdds(rule.horizon, rule.buffer, rule.periodsPerYear as real, remaining);
  }

  lemma StateIsTimed(config: Config, source: Source, states: seq<MarketState>, i: nat)
    requires ClockRun(config, source, states) && i <= LastDecision(config, source)
    ensures i < |states|
    ensures Timed(
              i, config.rule, |source.clock.times|, source.clock.StepFraction(), source.remaining,
              states[i].timeToExpiry)
  {
    ElapsedOnClock(source.points, source.start, source.clock, source.entry, source.sessions, i);
  }

  /** At every state up to the first decision of the horizon session, the expiry buffer is intact. */
  lemma TimeRemains(config: Config, source: Source, states: seq<MarketState>, i: nat)
    requires ClockRun(config, source, states) && i <= LastDecision(config, source)
    ensures i < |states|
    ensures states[i].timeToExpiry >= config.rule.buffer as real / config.rule.periodsPerYear as real
  {
    StateIsTimed(config, source, states, i);
    BufferLeft(
      i, config.rule, |source.clock.times|, source.clock.StepFraction(), source.remaining, states[i].timeToExpiry);
  }

  /** The session index says exactly whether the horizon session has been reached. */
  lemma SessionReached(config: Config, source: Source, states: seq<MarketState>, i: nat)
    requires ClockRun(config, source, states)
    requires i < |states|
    ensures states[i].sessionIndex >= config.rule.horizon <==> i >= LastDecision(config, source)
  {
    var session := source.sessions[i];
    assert Placed(source.start, source.clock, source.entry, i, session) && Matches(source.points[i].clock, i, session);
    SessionOf(session.sessionIndex, session.decisionIndex, |source.clock.times|, config.rule.horizon, source.entry + i);
  }

  /** Which reasons the state's time allows. */
  lemma ExitTimes(
    risk: RiskState, policy: RiskPolicy, killSwitch: bool, rule: HoldingRule, state: MarketState, isFinal: bool)
    requires rule.Valid() && state.timeToExpiry >= rule.buffer as real / rule.periodsPerYear as real
    requires isFinal ==> state.sessionIndex >= rule.horizon
    ensures
      var exit := ExitAt(risk, policy, killSwitch, rule, state.timeToExpiry, state.sessionIndex, isFinal);
      && exit != Some(InsufficientTimeToExpiry) && exit != Some(SimulationEnd)
      && (state.sessionIndex >= rule.horizon ==> exit.Some?)
  {
  }

  ghost predicate EndsBy(bound: int, last: nat, reason: ExitReason) {
    last <= bound && reason != InsufficientTimeToExpiry && reason != SimulationEnd
  }

  /** A step up to the first decision of the horizon session stops only for allowed reasons, and there it does stop. */
  lemma StepByHorizon(config: Config, source: Source, states: seq<MarketState>, i: nat, run: RunState)
    requires ClockRun(config, source, states) && i <= LastDecision(config, source) && Ready(config, run.book)
    requires forall s <- states :: s.Valid()
    ensures i < |states|
    ensures
      var step := StepState(config, run, states[i], i == |states| - 1);
      && (step.Stop? ==> EndsBy(LastDecision(config, source), i, step.reason))
      && (step.Next? ==> i + 1 <= LastDecision(config, source))
  {
    TimeRemains(config, source, states, i);
    SessionReached(config, source, states, i);
    StepStops(config, run, states[i], i == |states| - 1);
    ExitTimes(
      Arrive(config, run, states[i]).risk, config.risk, config.killSwitch, config.rule, states[i], i == |states| - 1);
  }

  ghost predicate EndsByHorizon(config: Config, source: Source, result: SimulationResult) {
    result.exitReason.Some? && EndsBy(LastDecision(config, source), result.last, result.exitReason.value)
  }

  /**
   On a path of `horizon * D + 1` clock points, a run that passes the entry checks exits no later
   than the first decision of the horizon session, and never because too little time is left
   or because the path ended.
   */
  lemma RunEndsByHorizon(config: Config, source: Source, states: seq<MarketState>)
    requires ClockRun(config, source, states)
    requires config.DistinctInstruments() && forall s <- states :: s.Valid()
    ensures SimulationOf(config, states).Ok? ==> EndsByHorizon(config, source, SimulationOf(config, states).value)
  {
    LedgerNeverRefuses(config, states);
    var simulation := SimulationOf(config, states);
    if simulation.Ok? {
      EnterEstablishes(config, states[0]);
      var entered, optionCash := Enter(config, states[0]).0, EntryNotional(config, states[0]);
      SettledRunIsFlat(config, optionCash, states, entered, simulation.value);
      OutcomeEndsByHorizon(config, optionCash, source, states, entered);
    }
  }

  lemma OutcomeEndsByHorizon(
    config: Config, optionCash: int, source: Source, states: seq<MarketState>, entered: RunState)
    requires ClockRun(config, source, states)
    requires config.DistinctInstruments() && (forall s <- states :: s.Valid()) && states != []
    requires BookInv(config, optionCash, entered)
    ensures
      var outcome := LoopOutcome(config, states, entered);
      outcome.Ended? && EndsBy(LastDecision(config, source), outcome.last, outcome.reason)
  {
    HorizonPositive(config.rule.horizon, |source.clock.times|, source.entry);
    var bound := LastDecision(config, source);
    var keeps := (j: nat, r: RunState) => j <= bound;
    var ends := (j: nat, r: RunState, reason: ExitReason) => EndsBy(bound, j, reason);
    forall j: nat, r: RunState ensures StepLeads(config, optionCash, states, keeps, ends, j, r) {
      if j < |states| && BookInv(config, optionCash, r) && keeps(j, r) {
        StepByHorizon(config, source, states, j, r);
      }
    }
    LoopInvariant(config, optionCash, states, 0, entered, keeps, ends);
  }

  // ---- Clock paths in time order ----

  lemma EarlierSession(s: nat, d: nat, t: nat, e: nat, D: nat)
    requires d < D && s * D + d <= t * D + e && e < D
    ensures s <= t
  {
    if t < s {
      NextMultiple(t, D);
      MultipleOrder(t + 1, s, D);
    }
  }

  /** The session dates of a clock path never go back. */
  lemma ClockRunIsChronological(config: Config, source: Source, states: seq<MarketState>)
    requires ClockRun(config, source, states)
    ensures Chronological(states)
  {
    forall i, j | 0 <= i <= j < |states| ensures states[i].sessionDate <= states[j].sessionDate {
      DatesRise(config, source, states, i, j);
    }
  }

  lemma DatesRise(config: Config, source: Source, states: seq<MarketState>, i: nat, j: nat)
    requires ClockRun(config, source, states) && i <= j < |states|
    ensures states[i].sessionDate <= states[j].sessionDate
  {
    var a, b := source.sessions[i], source.sessions[j];
    assert Placed(source.start, source.clock, source.entry, i, a) && Matches(source.points[i].clock, i, a);
    assert Placed(source.start, source.clock, source.entry, j, b) && Matches(source.points[j].clock, j, b);
    EarlierSession(a.sessionIndex, a.decisionIndex, b.sessionIndex, b.decisionIndex, |source.clock.times|);
    if a.sessionIndex < b.sessionIndex {
      NthWeekdayIncreases(source.start, a.sessionIndex, b.sessionIndex);
    }
  }

  /** On a clock path no session ever has more hedges than the limit. */
  lemma ClockRunHedgesWithinLimit(config: Config, source: Source, states: seq<MarketState>, date: int)
    requires ClockRun(config, source, states)
    requires config.DistinctInstruments() && forall s <- states :: s.Valid()
    ensures SimulationOf(config, states).Ok? ==>
              && |SimulationOf(config, states).value.run.decisions| <= |states|
              && TradesOn(states, SimulationOf(config, states).value.run.decisions, date)
                 <= config.risk.maximumHedgesPerSession
  {
    ClockRunIsChronological(config, source, states);
    HedgesPerSessionWithinLimit(config, states, date);
  }

  /** The sessions generated for a path are enough for the points taken from them. */
  lemma PathFitsItsSessions(horizon: nat, D: nat, entry: nat)
    requires entry < D
    ensures (horizon + 1) * D - entry >= horizon * D + 1
  {
    NextMultiple(horizon, D);
  }
}
