/** Expiry selection and the executable market states built on a clock-checked path. */
module StateBuilder {
  import opened Wrappers
  import opened Clock
  import opened Engine

  function MaxReal(x: real, y: real): real {
    if x >= y then x else y
  }

  // ---- Expiry ----

  datatype Expiry = Expiry(date: int, sessions: int, years: real)

  datatype ExpiryError = SessionsNotPositive | NoEligibleExpiry

  function ExpiryFor(entryDate: int, sessions: int, periodsPerYear: nat): (result: Result<Expiry, ExpiryError>)
    requires periodsPerYear > 0
    ensures result == Err(SessionsNotPositive) <==> sessions < 1
  {
    if sessions <= 0 then Err(SessionsNotPositive)
    else Ok(Expiry(NthWeekday(entryDate, sessions), sessions, sessions as real / periodsPerYear as real))
  }

  /** The bounds of an eligible expiry; the minimum covers the holding horizon and the buffer. */
  datatype ExpiryRule = ExpiryRule(holding: Risk.HoldingRule, minimum: int, maximum: int) {
    predicate Valid() {
      holding.Valid() && holding.horizon + holding.buffer <= minimum <= maximum
    }
  }

  /** The candidate dictionary, later entries replacing earlier ones of the same date. */
  function Candidates(entryDate: int, eligible: seq<int>): map<int, int>
    requires forall i :: 0 <= i < |eligible| ==> eligible[i] > 0
  {
    if eligible == [] then map[]
    else
      var last := eligible[|eligible| - 1];
      Candidates(entryDate, eligible[..|eligible| - 1])[NthWeekday(entryDate, last) := last]
  }

  lemma {:induction false} MinimumExists(dates: set<int>)
    requires dates != {}
    ensures exists least :: least in dates && forall d :: d in dates ==> least <= d
    decreases |dates|
  {
    var d := Pick(dates);
    var rest := dates - {d};
    if rest == {} {
      assert dates == {d};
    } else {
      MinimumExists(rest);
      var m :| m in rest && forall e :: e in rest ==> m <= e;
      var least := if m <= d then m else d;
      assert least in dates;
      forall e | e in dates ensures least <= e {
        assert e == d || e in rest;
      }
    }
  }

  function EligibleDates(candidates: map<int, int>, rule: ExpiryRule): set<int> {
    set date | date in candidates && rule.minimum <= candidates[date] <= rule.maximum
  }

  /** The earliest date among the eligible candidates. */
  function SelectExpiry(candidates: map<int, int>, rule: ExpiryRule): (result: Result<int, ExpiryError>)
    ensures result.Err? <==> EligibleDates(candidates, rule) == {}
    ensures result.Ok? ==> result.value in EligibleDates(candidates, rule)
                           && forall d :: d in EligibleDates(candidates, rule) ==> result.value <= d
  {
    var dates := EligibleDates(candidates, rule);
    if dates == {} then Err(NoEligibleExpiry)
    else
      MinimumExists(dates);
      var least :| least in dates && forall d :: d in dates ==> least <= d;
      Ok(least)
  }

  function SelectSimulationExpiry(entryDate: int, eligible: seq<int>, rule: ExpiryRule): Result<Expiry, ExpiryError>
    requires rule.Valid() && forall i :: 0 <= i < |eligible| ==> eligible[i] > 0
  {
    CandidatesAreDates(entryDate, eligible);
    var candidates := Candidates(entryDate, eligible);
    match SelectExpiry(candidates, rule)
    case Err(error) => Err(error)
    case Ok(date) => ExpiryFor(entryDate, candidates[date], rule.holding.periodsPerYear)
  }

  /** Different numbers of sessions end on different dates, so the dictionary loses no candidate. */
  lemma {:induction false} CandidatesAreDates(entryDate: int, eligible: seq<int>)
    requires forall i :: 0 <= i < |eligible| ==> eligible[i] > 0
    ensures forall s <- eligible :: NthWeekday(entryDate, s) in Candidates(entryDate, eligible)
    ensures forall date <- Candidates(entryDate, eligible) ::
              var s := Candidates(entryDate, eligible)[date];
              s in eligible && s > 0 && date == NthWeekday(entryDate, s)
  {
    if eligible == [] {
    } else {
      CandidatesAreDates(entryDate, eligible[..|eligible| - 1]);
    }
  }

  lemma SameDateSameSessions(entryDate: int, s: nat, t: nat)
    requires NthWeekday(entryDate, s) <= NthWeekday(entryDate, t)
    ensures s <= t
  {
    if t < s {
      NthWeekdayIncreases(entryDate, t, s);
    }
  }

  /**
   The selected expiry has the fewest remaining sessions of all the eligible ones within the bounds, and
   so at least the holding horizon and the buffer; there is none exactly when no candidate is within.
   */
  lemma SelectedExpiryIsLeast(entryDate: int, eligible: seq<int>, rule: ExpiryRule)
    requires rule.Valid() && forall i :: 0 <= i < |eligible| ==> eligible[i] > 0
    ensures
      var result := SelectSimulationExpiry(entryDate, eligible, rule);
      && (result == Err(NoEligibleExpiry) <==> forall s <- eligible :: !(rule.minimum <= s <= rule.maximum))
      && (result.Ok? ==>
            && result.value.sessions in eligible
            && rule.minimum <= result.value.sessions <= rule.maximum
            && rule.holding.horizon + rule.holding.buffer <= result.value.sessions
            && result.value.date == NthWeekday(entryDate, result.value.sessions)
            && result.value.years == result.value.sessions as real / rule.holding.periodsPerYear as real
            && (forall s <- eligible :: rule.minimum <= s <= rule.maximum ==> result.value.sessions <= s))
  {
    CandidatesAreDates(entryDate, eligible);
    var candidates := Candidates(entryDate, eligible);
    forall s | s in eligible ensures candidates[NthWeekday(entryDate, s)] == s {
      var found := candidates[NthWeekday(entryDate, s)];
      SameDateSameSessions(entryDate, s, found);
      SameDateSameSessions(entryDate, found, s);
    }
    var result := SelectSimulationExpiry(entryDate, eligible, rule);
    forall s | s in eligible && rule.minimum <= s <= rule.maximum
      ensures result.Ok? && result.value.sessions <= s
    {
      assert NthWeekday(entryDate, s) in EligibleDates(candidates, rule);
      SameDateSameSessions(entryDate, result.value.sessions, s);
    }
  }

  // ---- Executable states ----

  datatype UnderlyingPoint = UnderlyingPoint(clock: PathPoint, timestamp: int, spot: real, impliedVolatility: real)

  /** Year fractions up to and including a point. */
  function Elapsed(points: seq<UnderlyingPoint>, i: nat): real
    requires i < |points|
  {
    (if i == 0 then 0.0 else Elapsed(points, i - 1)) + points[i].clock.yearFraction
  }

  /** The futures price is a parameter of the point and the remaining maturity. */
  function StateAt(
    points: seq<UnderlyingPoint>, i: nat, expiryYears: real, futuresYears: real,
    carry: (UnderlyingPoint, real) -> real): MarketState
    requires i < |points| && points[i].clock.stepIndex >= 0
  {
    var point, elapsed := points[i], Elapsed(points, i);
    MarketState(
      point.timestamp, point.clock.sessionIndex, point.clock.stepIndex, point.clock.sessionDate, point.spot,
      carry(point, MaxReal(futuresYears - elapsed, 0.0)), point.impliedVolatility,
      MaxReal(expiryYears - elapsed, 0.0), point.clock.yearFraction)
  }

  /** The clock side of a path. */
  function PathOf(points: seq<UnderlyingPoint>): (path: seq<PathPoint>)
    ensures |path| == |points|
    ensures forall i :: 0 <= i < |points| ==> path[i] == points[i].clock
  {
    seq(|points|, i requires 0 <= i < |points| => points[i].clock)
  }

  /** A path that the clock check accepted. */
  ghost predicate OnClock(
    points: seq<UnderlyingPoint>, start: int, config: ClockConfig, entry: nat, sessions: seq<Session>)
    requires config.Valid()
  {
    && |points| <= |sessions|
    && (forall i: nat | i < |points| ::
          Placed(start, config, entry, i, sessions[i]) && Matches(points[i].clock, i, sessions[i]))
  }

  /** The path is one the clock generates from a date and an entry time on. */
  ghost predicate FollowsClock(points: seq<UnderlyingPoint>, firstDate: int, config: ClockConfig, entryTime: int)
    requires config.Valid()
  {
    exists entry: nat, sessions: seq<Session> ::
      && entry < |config.times| && config.times[entry] == entryTime
      && OnClock(points, firstDate, config, entry, sessions)
  }

  /** Two clocks of one configuration agree wherever both reach. */
  lemma ClocksAgree(start: int, config: ClockConfig, entryTime: int, i: nat, e: nat, f: nat, a: Session, b: Session)
    requires config.Valid() && e < |config.times| && f < |config.times|
             && config.times[e] == config.times[f] == entryTime
    requires Placed(start, config, e, i, a) && Placed(start, config, f, i, b)
    ensures a == b
  {
    assert e == f;
    SamePosition(a.sessionIndex, a.decisionIndex, b.sessionIndex, b.decisionIndex, |config.times|);
  }

  lemma SamePosition(s: nat, d: nat, t: nat, e: nat, D: nat)
    requires d < D && e < D && s * D + d == t * D + e
    ensures s == t && d == e
  {
    if s < t {
      NextMultiple(s, D);
      MultipleOrder(s + 1, t, D);
    } else if t < s {
      NextMultiple(t, D);
      MultipleOrder(t + 1, s, D);
    }
  }

  /** The states of a path: each point at the time that has elapsed when it is reached. */
  ghost predicate StatesOf(
    points: seq<UnderlyingPoint>, expiryYears: real, futuresYears: real, carry: (UnderlyingPoint, real) -> real,
    states: seq<MarketState>)
  {
    && |states| == |points|
    && (forall i: nat | i < |points| ::
          points[i].clock.stepIndex >= 0 && states[i] == StateAt(points, i, expiryYears, futuresYears, carry))
  }

  /**
   Checks the path against its clock and builds a state for each point; it refuses exactly the paths off
   the clock.
   */
  method BuildExecutableStates(
    points: seq<UnderlyingPoint>, firstDate: int, config: ClockConfig, entryTime: int,
    expiryYears: real, futuresYears: real, carry: (UnderlyingPoint, real) -> real)
    returns (result: Result<seq<MarketState>, PathError>)
    requires config.Valid()
    ensures result.Ok? <==> points != [] && FollowsClock(points, firstDate, config, entryTime)
    ensures result.Ok? ==> StatesOf(points, expiryYears, futuresYears, carry, result.value)
    ensures result.Err? ==> result.error != PathExceedsClock
  {
    var error := ValidatePathClock(PathOf(points), firstDate, config, entryTime);
    ValidatedFollows(points, firstDate, config, entryTime, error);
    if error.Some? {
      return Err(error.value);
    }
    var states := StatesAlong(points, expiryYears, futuresYears, carry);
    return Ok(states);
  }

  /** One state for each point, time accumulating along the way. */
  method StatesAlong(
    points: seq<UnderlyingPoint>, expiryYears: real, futuresYears: real, carry: (UnderlyingPoint, real) -> real)
    returns (states: seq<MarketState>)
    requires forall i: nat | i < |points| :: points[i].clock.stepIndex == i
    ensures StatesOf(points, expiryYears, futuresYears, carry, states)
  {
    var elapsed := 0.0;
    states := [];
    var i := 0;
    while i < |points|
      invariant 0 <= i == |states| <= |points|
      invariant elapsed == if i == 0 then 0.0 else Elapsed(points, i - 1)
      invariant forall j: nat | j < i :: states[j] == StateAt(points, j, expiryYears, futuresYears, carry)
    {
      var point := points[i];
      elapsed := elapsed + point.clock.yearFraction;
      var maturity := MaxReal(futuresYears - elapsed, 0.0);
      states := states + [MarketState(
        point.timestamp, point.clock.sessionIndex, point.clock.stepIndex, point.clock.sessionDate, point.spot,
        carry(point, maturity), point.impliedVolatility, MaxReal(expiryYears - elapsed, 0.0),
        point.clock.yearFraction)];
      i := i + 1;
    }
  }

  /** What the clock check decides: whether the path follows its clock, whose step indexes count its points. */
  lemma ValidatedFollows(
    points: seq<UnderlyingPoint>, firstDate: int, config: ClockConfig, entryTime: int, error: Option<PathError>)
    requires config.Valid() && Validated(PathOf(points), firstDate, config, entryTime, error)
    ensures error == None <==> points != [] && FollowsClock(points, firstDate, config, entryTime)
    ensures error == None ==> forall i: nat | i < |points| :: points[i].clock.stepIndex == i
  {
    if points != [] && entryTime in config.times {
      var entry: nat, sessions: seq<Session> :|
        Compared(PathOf(points), firstDate, config, entryTime, entry, sessions, error);
      if error == None {
        assert OnClock(points, firstDate, config, entry, sessions);
      } else if FollowsClock(points, firstDate, config, entryTime) {
        var other: nat, others: seq<Session> :|
          && other < |config.times| && config.times[other] == entryTime
          && OnClock(points, firstDate, config, other, others);
        forall i: nat | i < |points| ensures Matches(PathOf(points)[i], i, sessions[i]) {
          ClocksAgree(firstDate, config, entryTime, i, entry, other, sessions[i], others[i]);
        }
      }
    }
  }

  lemma StepScaled(i: nat, step: real)
    ensures (i + 1) as real * step == i as real * step + step
  {
  }

  /** On the clock, time elapses by one equal step at each point after the first. */
  lemma {:induction false} ElapsedOnClock(
    points: seq<UnderlyingPoint>, start: int, config: ClockConfig, entry: nat, sessions: seq<Session>, i: nat)
    requires config.Valid() && OnClock(points, start, config, entry, sessions) && i < |points|
    ensures Elapsed(points, i) == i as real * config.StepFraction()
  {
    assert Placed(start, config, entry, i, sessions[i]);
    if i == 0 {
    } else {
      ElapsedOnClock(points, start, config, entry, sessions, i - 1);
      StepScaled(i - 1, config.StepFraction());
    }
  }

  /** A state of a path on its clock: when it is, what is left until the two expiries, and the point's own values. */
  ghost predicate StandsOnClock(
    state: MarketState, point: UnderlyingPoint, i: nat, start: int, config: ClockConfig, entry: nat,
    expiryYears: real, futuresYears: real, carry: (UnderlyingPoint, real) -> real)
    requires config.Valid()
  {
    var D, elapsed := |config.times|, i as real * config.StepFraction();
    && state.stepIndex == i && state.timestamp == point.timestamp && state.spot == point.spot
    && state.impliedVolatility == point.impliedVolatility
    && 0 <= entry + i - state.sessionIndex * D < D && state.sessionIndex >= 0
    && state.sessionDate == NthWeekday(start, state.sessionIndex)
    && state.stepYearFraction == (if i == 0 then 0.0 else config.StepFraction())
    && state.timeToExpiry == (if elapsed <= expiryYears then expiryYears - elapsed else 0.0)
    && state.futuresPrice == carry(point, if elapsed <= futuresYears then futuresYears - elapsed else 0.0)
  }

  lemma StateStandsOnClock(
    points: seq<UnderlyingPoint>, start: int, config: ClockConfig, entry: nat, sessions: seq<Session>, i: nat,
    expiryYears: real, futuresYears: real, carry: (UnderlyingPoint, real) -> real)
    requires config.Valid() && OnClock(points, start, config, entry, sessions) && i < |points|
    requires points[i].clock.stepIndex >= 0
    ensures StandsOnClock(
              StateAt(points, i, expiryYears, futuresYears, carry), points[i], i, start, config, entry,
              expiryYears, futuresYears, carry)
  {
    assert Placed(start, config, entry, i, sessions[i]) && Matches(points[i].clock, i, sessions[i]);
    ElapsedOnClock(points, start, config, entry, sessions, i);
  }
}
