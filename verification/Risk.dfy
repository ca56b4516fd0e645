/** Risk state of a simulated position: profit since entry, profit of the session, hedge counts. */
module Risk {
  import opened Wrappers

  /** Amounts are cents, real where the source keeps them unrounded; fractions are of the starting value. */
  datatype RiskPolicy = RiskPolicy(
    startingNav: real,
    premiumFraction: real,
    thetaFraction: real,
    positionLossFraction: real,
    dailyLossFraction: real,
    maximumAbsoluteDelta: real,
    maximumHedgesPerSession: int,
    maximumRelativeSpread: real)
  {
    predicate Valid() {
      && startingNav > 0.0
      && 0.0 < premiumFraction <= 1.0 && 0.0 < thetaFraction <= 1.0
      && 0.0 < positionLossFraction <= 1.0 && 0.0 < dailyLossFraction <= 1.0
      && maximumAbsoluteDelta >= 0.0 && maximumHedgesPerSession > 0
      && 0.0 < maximumRelativeSpread <= 1.0
    }
  }

  datatype RiskState = RiskState(
    positionReference: int,
    positionPnl: int,
    sessionReference: int,
    sessionPnl: int,
    previousMarked: int,
    hedgesInSession: int,
    totalHedges: int,
    sessionDate: int)

  function Initialize(reference: int, marked: int, sessionDate: int): RiskState {
    RiskState(reference, marked - reference, reference, marked - reference, marked, 0, 0, sessionDate)
  }

  function Mark(state: RiskState, value: int, sessionDate: int): RiskState {
    if sessionDate != state.sessionDate then
      RiskState(
        state.positionReference, value - state.positionReference,
        state.previousMarked, value - state.previousMarked, value,
        0, state.totalHedges, sessionDate)
    else
      state.(
        positionPnl := value - state.positionReference,
        sessionPnl := value - state.sessionReference,
        previousMarked := value)
  }

  function RecordHedge(state: RiskState): RiskState {
    state.(hedgesInSession := state.hedgesInSession + 1, totalHedges := state.totalHedges + 1)
  }

  datatype ExitReason =
    | ManualKillSwitch
    | DailyLossLimit
    | PositionLossLimit
    | MaximumHedgeCount
    | InsufficientTimeToExpiry
    | MaximumHoldingPeriod
    | SimulationEnd
    | AbsoluteDeltaUnhedgeable

  predicate DailyLossBreached(state: RiskState, policy: RiskPolicy) {
    state.sessionPnl as real <= -(policy.startingNav * policy.dailyLossFraction)
  }

  predicate PositionLossBreached(state: RiskState, policy: RiskPolicy) {
    state.positionPnl as real <= -(policy.startingNav * policy.positionLossFraction)
  }

  predicate HedgeCountBreached(state: RiskState, policy: RiskPolicy) {
    state.hedgesInSession >= policy.maximumHedgesPerSession
  }

  /** How long a position may live: a holding horizon, and a buffer of sessions kept before expiry. */
  datatype HoldingRule = HoldingRule(horizon: nat, buffer: nat, periodsPerYear: nat) {
    predicate Valid() {
      horizon > 0 && periodsPerYear > 0
    }
  }

  /** The first breached reason in precedence order; the kill switch comes before the list. */
  function ExitAt(
    state: RiskState, policy: RiskPolicy, killSwitch: bool, rule: HoldingRule,
    timeToExpiry: real, sessionIndex: int, isFinal: bool): Option<ExitReason>
    requires rule.Valid()
  {
    if killSwitch then Some(ManualKillSwitch)
    else if DailyLossBreached(state, policy) then Some(DailyLossLimit)
    else if PositionLossBreached(state, policy) then Some(PositionLossLimit)
    else if HedgeCountBreached(state, policy) then Some(MaximumHedgeCount)
    else if timeToExpiry < rule.buffer as real / rule.periodsPerYear as real then Some(InsufficientTimeToExpiry)
    else if sessionIndex >= rule.horizon then Some(MaximumHoldingPeriod)
    else if isFinal then Some(SimulationEnd)
    else None
  }

  // ---- Session profit adds up ----

  datatype Event = MarkEvent(value: int, sessionDate: int) | HedgeEvent

  function Apply(state: RiskState, event: Event): RiskState {
    match event
    case MarkEvent(value, sessionDate) => Mark(state, value, sessionDate)
    case HedgeEvent => RecordHedge(state)
  }

  function Replay(initial: RiskState, events: seq<Event>): RiskState {
    if events == [] then initial else Apply(Replay(initial, events[..|events| - 1]), events[|events| - 1])
  }

  /** The last session profit of every session that has ended. */
  function ClosedSessions(initial: RiskState, events: seq<Event>): int {
    if events == [] then 0
    else
      var before := Replay(initial, events[..|events| - 1]);
      ClosedSessions(initial, events[..|events| - 1])
      + match events[|events| - 1]
        case MarkEvent(_, sessionDate) => if sessionDate != before.sessionDate then before.sessionPnl else 0
        case HedgeEvent => 0
  }

  /** Hedges since the session last changed. */
  function HedgesSinceChange(initial: RiskState, events: seq<Event>): nat {
    if events == [] then 0
    else
      var before := events[..|events| - 1];
      match events[|events| - 1]
      case HedgeEvent => HedgesSinceChange(initial, before) + 1
      case MarkEvent(_, sessionDate) =>
        if sessionDate != Replay(initial, before).sessionDate then 0 else HedgesSinceChange(initial, before)
  }

  function CountHedges(events: seq<Event>): nat {
    if events == [] then 0
    else CountHedges(events[..|events| - 1]) + (if events[|events| - 1].HedgeEvent? then 1 else 0)
  }

  /**
   The profit since entry is the profit of every ended session plus that of the current one, so a
   gap between sessions is never lost; and the counters count the hedges they claim to count.
   */
  lemma {:induction false} SessionProfitAddsUp(reference: int, marked: int, sessionDate: int, events: seq<Event>)
    ensures
      var initial := Initialize(reference, marked, sessionDate);
      var state := Replay(initial, events);
      && state.positionReference == reference
      && state.positionPnl == ClosedSessions(initial, events) + state.sessionPnl
      && state.positionPnl == state.previousMarked - reference
      && state.sessionPnl == state.previousMarked - state.sessionReference
      && state.totalHedges == CountHedges(events)
      && state.hedgesInSession == HedgesSinceChange(initial, events)
  {
    if events == [] {
    } else {
      SessionProfitAddsUp(reference, marked, sessionDate, events[..|events| - 1]);
    }
  }
}
