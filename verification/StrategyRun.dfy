/** A strategy run from its path: expiry selection, clock check, market states and simulation in turn. */
module StrategyRun {
  import opened Wrappers
  import opened Clock
  import opened StateBuilder
  import opened Risk
  import opened Engine
  import opened EngineSafety
  import opened EngineHorizon
  import opened SimulationRun

  /** The contracts and prices of the configuration are those of the selected expiry. */
  datatype Strategy = Strategy(
    config: Config,
    clock: ClockConfig,
    entryTime: int,
    eligible: seq<int>,
    expiry: ExpiryRule,
    futuresYears: real,
    carry: (UnderlyingPoint, real) -> real)
  {
    /** What the configuration models demand, and what the carried price of a positive spot is. */
    ghost predicate Valid() {
      && config.Valid() && clock.Valid() && expiry.Valid() && expiry.holding == config.rule
      && clock.periodsPerYear == config.rule.periodsPerYear
      && (forall i :: 0 <= i < |eligible| ==> eligible[i] > 0)
      && (forall p: UnderlyingPoint, years: real :: p.spot > 0.0 ==> carry(p, years) > 0.0)
    }
  }

  datatype StrategyError =
    | NoPath
    | NotAligned
    | NoExpiry(expiry: ExpiryError)
    | OffClock(path: PathError)
    | NotRun(run: RunError)

  lemma StatesAreValid(
    strategy: Strategy, points: seq<UnderlyingPoint>, firstDate: int, years: real, states: seq<MarketState>)
    requires strategy.Valid() && FollowsClock(points, firstDate, strategy.clock, strategy.entryTime)
    requires StatesOf(points, years, strategy.futuresYears, strategy.carry, states)
    requires forall p <- points :: p.spot > 0.0
    ensures forall s <- states :: s.Valid()
  {
    var entry: nat, sessions: seq<Session> :|
      && entry < |strategy.clock.times| && strategy.clock.times[entry] == strategy.entryTime
      && OnClock(points, firstDate, strategy.clock, entry, sessions);
    forall i: nat | i < |states| ensures states[i].Valid() {
      assert Matches(points[i].clock, i, sessions[i]) && points[i] in points;
    }
  }

  /** States built on an accepted path of the right length come from a clock. */
  lemma BuiltOnClock(
    strategy: Strategy, points: seq<UnderlyingPoint>, firstDate: int, expiry: Expiry, states: seq<MarketState>)
    returns (source: Source)
    requires strategy.Valid() && FollowsClock(points, firstDate, strategy.clock, strategy.entryTime)
    requires points != [] && forall p <- points :: p.spot > 0.0
    requires SelectSimulationExpiry(points[0].clock.sessionDate, strategy.eligible, strategy.expiry) == Ok(expiry)
    requires StatesOf(points, expiry.years, strategy.futuresYears, strategy.carry, states)
    requires |points| == strategy.config.rule.horizon * |strategy.clock.times| + 1
    ensures source.points == points && source.clock == strategy.clock
    ensures ClockRun(strategy.config, source, states)
  {
    StatesAreValid(strategy, points, firstDate, expiry.years, states);
    SelectedExpiryIsLeast(points[0].clock.sessionDate, strategy.eligible, strategy.expiry);
    var entry: nat, sessions: seq<Session> :|
      && entry < |strategy.clock.times| && strategy.clock.times[entry] == strategy.entryTime
      && OnClock(points, firstDate, strategy.clock, entry, sessions);
    source := Source(
      strategy.clock, firstDate, entry, points, sessions, expiry.sessions, strategy.futuresYears, strategy.carry);
  }

  /** The run exits by the first decision of the horizon session, and never for want of time or of states. */
  ghost predicate EndsOnTime(strategy: Strategy, points: seq<UnderlyingPoint>, result: SimulationResult) {
    && result.last < |points|
    && points[result.last].clock.sessionIndex <= strategy.config.rule.horizon
    && (forall i :: 0 <= i < result.last ==> points[i].clock.sessionIndex < strategy.config.rule.horizon)
    && result.exitReason.Some?
    && result.exitReason.value != InsufficientTimeToExpiry && result.exitReason.value != SimulationEnd
  }

  /** The first decision of the horizon session is in that session. */
  lemma HorizonSession(config: Config, source: Source, states: seq<MarketState>)
    requires ClockRun(config, source, states) && 0 <= LastDecision(config, source) < |states|
    ensures states[LastDecision(config, source)].sessionIndex == config.rule.horizon
  {
    var i := LastDecision(config, source);
    var session := source.sessions[i];
    assert Placed(source.start, source.clock, source.entry, i, session) && Matches(source.points[i].clock, i, session);
    SamePosition(session.sessionIndex, session.decisionIndex, config.rule.horizon, 0, |source.clock.times|);
  }

  /** Up to the first decision of the horizon session, the path has not passed it. */
  lemma NotPastHorizon(config: Config, source: Source, states: seq<MarketState>, i: nat)
    requires ClockRun(config, source, states) && i <= LastDecision(config, source)
    ensures i < |source.points| && source.points[i].clock.sessionIndex <= config.rule.horizon
    ensures i < LastDecision(config, source) ==> source.points[i].clock.sessionIndex < config.rule.horizon
  {
    assert source.points[i].clock.sessionIndex == states[i].sessionIndex;
    SessionReached(config, source, states, i);
    if i == LastDecision(config, source) {
      HorizonSession(config, source, states);
    }
  }

  lemma EndsOnPath(strategy: Strategy, source: Source, states: seq<MarketState>, result: SimulationResult)
    requires ClockRun(strategy.config, source, states) && EndsByHorizon(strategy.config, source, result)
    ensures EndsOnTime(strategy, source.points, result)
  {
    NotPastHorizon(strategy.config, source, states, result.last);
    forall i | 0 <= i < result.last ensures source.points[i].clock.sessionIndex < strategy.config.rule.horizon {
      NotPastHorizon(strategy.config, source, states, i);
    }
  }

  lemma RunEndsOnTime(strategy: Strategy, source: Source, states: seq<MarketState>)
    requires ClockRun(strategy.config, source, states) && strategy.config.DistinctInstruments()
    requires forall s <- states :: s.Valid()
    ensures
      var simulation := SimulationOf(strategy.config, states);
      simulation.Ok? ==> EndsOnTime(strategy, source.points, simulation.value)
  {
    RunEndsByHorizon(strategy.config, source, states);
    var simulation := SimulationOf(strategy.config, states);
    if simulation.Ok? {
      EndsOnPath(strategy, source, states, simulation.value);
    }
  }

  /**
   Runs a strategy on a path. Whatever the path, an error names what the path or the entry lacks: the clock always
   covers the path and the ledger never refuses a fill of three different instruments. On a path of the length the
   command line generates, the run ends on time.
   */
  method RunStrategy(strategy: Strategy, points: seq<UnderlyingPoint>, firstDate: int)
    returns (result: Result<SimulationResult, StrategyError>)
    requires strategy.Valid() && forall p <- points :: p.spot > 0.0
    ensures result == Err(NoPath) <==> points == []
    ensures result == Err(NotAligned) <==> points != [] && strategy.entryTime !in strategy.clock.times
    ensures result.Err? && result.error.NoExpiry? ==>
              forall s <- strategy.eligible :: !(strategy.expiry.minimum <= s <= strategy.expiry.maximum)
    ensures result.Err? && result.error.OffClock? ==>
              && !FollowsClock(points, firstDate, strategy.clock, strategy.entryTime)
              && result.error.path != PathExceedsClock
    ensures strategy.config.DistinctInstruments() && result.Err? && result.error.NotRun? ==>
              result.error.run.EntryRefused?
    ensures result.Ok? ==> FollowsClock(points, firstDate, strategy.clock, strategy.entryTime)
    ensures result.Ok? && strategy.config.DistinctInstruments() ==> FlatAndReconciled(strategy.config, result.value)
    ensures
      && result.Ok? && strategy.config.DistinctInstruments()
      && |points| == strategy.config.rule.horizon * |strategy.clock.times| + 1
      ==> EndsOnTime(strategy, points, result.value)
  {
    if |points| == 0 {
      return Err(NoPath);
    }
    if strategy.entryTime !in strategy.clock.times {
      return Err(NotAligned);
    }
    var entryDate := points[0].clock.sessionDate;
    SelectedExpiryIsLeast(entryDate, strategy.eligible, strategy.expiry);
    var expiry := SelectSimulationExpiry(entryDate, strategy.eligible, strategy.expiry);
    if expiry.Err? {
      return Err(NoExpiry(expiry.error));
    }
    var built := BuildExecutableStates(
      points, firstDate, strategy.clock, strategy.entryTime, expiry.value.years, strategy.futuresYears, strategy.carry);
    if built.Err? {
      return Err(OffClock(built.error));
    }
    StatesAreValid(strategy, points, firstDate, expiry.value.years, built.value);
    var run := RunSimulation(strategy.config, built.value);
    RunRefusal(strategy.config, built.value);
    if run.Err? {
      return Err(NotRun(run.error));
    }
    if strategy.config.DistinctInstruments() && |points| == strategy.config.rule.horizon * |strategy.clock.times| + 1 {
      ghost var source := BuiltOnClock(strategy, points, firstDate, expiry.value, built.value);
      RunEndsOnTime(strategy, source, built.value);
    }
    return Ok(run.value);
  }

  lemma RunRefusal(config: Config, states: seq<MarketState>)
    requires config.Valid() && (forall s <- states :: s.Valid()) && states != []
    ensures SimulationOf(config, states) != Err(RunError.EmptyPath)
    ensures config.DistinctInstruments() ==> SimulationOf(config, states) != Err(LedgerRefused)
    ensures config.DistinctInstruments() && SimulationOf(config, states).Ok? ==>
              FlatAndReconciled(config, SimulationOf(config, states).value)
  {
    if config.DistinctInstruments() {
      LedgerNeverRefuses(config, states);
      RunEndsFlatAndReconciled(config, states);
    }
  }
}
