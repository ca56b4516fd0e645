/** The simulation clock: trading dates, decision sessions, expiries and time to expiry. */
module Clock {
  import opened Wrappers

  /** A date is its ordinal day number; day 1 is a Monday. */
  predicate IsWeekday(date: int) {
    (date + 6) % 7 < 5
  }

  /** Calendar days until a weekday. */
  function DaysToWeekday(date: int): (days: nat)
    ensures days == 0 <==> IsWeekday(date)
  {
    match (date + 6) % 7
    case 5 => 2
    case 6 => 1
    case _ => 0
  }

  /** The first weekday on or after a date. */
  function NextWeekday(date: int): (weekday: int)
    ensures IsWeekday(weekday) && date <= weekday
    decreases DaysToWeekday(date)
  {
    if IsWeekday(date) then date else NextWeekday(date + 1)
  }

  /** Nothing between a date and the next weekday is a weekday. */
  lemma {:induction false} NextWeekdaySkipsNone(date: int, d: int)
    requires date <= d < NextWeekday(date)
    ensures !IsWeekday(d)
    decreases DaysToWeekday(date)
  {
    if d != date {
      NextWeekdaySkipsNone(date + 1, d);
    }
  }

  lemma NextWeekdayFrom(date: int)
    ensures IsWeekday(date) ==> NextWeekday(date) == date
    ensures !IsWeekday(date) ==> NextWeekday(date + 1) == NextWeekday(date)
  {
  }

  lemma NthWeekdayNext(start: int, n: nat)
    ensures NthWeekday(start, n + 1) == NextWeekday(NthWeekday(start, n) + 1)
  {
  }

  /** The weekday `n` weekdays after the first one on or after `start`. */
  function NthWeekday(start: int, n: nat): (weekday: int)
    ensures IsWeekday(weekday) && start <= weekday
  {
    if n == 0 then NextWeekday(start) else NextWeekday(NthWeekday(start, n - 1) + 1)
  }

  lemma {:induction false} NthWeekdayIncreases(start: int, m: nat, n: nat)
    requires m < n
    ensures NthWeekday(start, m) < NthWeekday(start, n)
    decreases n
  {
    if m < n - 1 {
      NthWeekdayIncreases(start, m, n - 1);
    }
  }

  /** No weekday is skipped. */
  lemma {:induction false} NthWeekdayMissesNone(start: int, n: nat, date: int)
    requires IsWeekday(date) && start <= date <= NthWeekday(start, n)
    ensures exists m: nat :: m <= n && NthWeekday(start, m) == date
    decreases n
  {
    if n == 0 {
      if date < NthWeekday(start, 0) {
        NextWeekdaySkipsNone(start, date);
      }
      assert NthWeekday(start, 0) == date;
    } else if date <= NthWeekday(start, n - 1) {
      NthWeekdayMissesNone(start, n - 1, date);
      var m: nat :| m <= n - 1 && NthWeekday(start, m) == date;
    } else {
      if date < NthWeekday(start, n) {
        NextWeekdaySkipsNone(NthWeekday(start, n - 1) + 1, date);
      }
      assert NthWeekday(start, n) == date;
    }
  }

  /** The first `count` weekdays from `start`. */
  function Weekdays(start: int, count: nat): (dates: seq<int>)
    ensures |dates| == count
  {
    if count == 0 then [] else Weekdays(start, count - 1) + [NthWeekday(start, count - 1)]
  }

  lemma {:induction false} WeekdaysAt(start: int, count: nat, i: nat)
    requires i < count
    ensures Weekdays(start, count)[i] == NthWeekday(start, i)
  {
    if i < count - 1 {
      WeekdaysAt(start, count - 1, i);
    }
  }

  /** Collects weekdays one calendar day at a time. */
  method TradingDates(start: int, count: int) returns (dates: seq<int>)
    ensures dates == Weekdays(start, if count > 0 then count else 0)
  {
    dates := [];
    var current := start;
    while |dates| < count
      invariant 0 < |dates| ==> |dates| <= count
      invariant dates == Weekdays(start, |dates|)
      invariant NextWeekday(current) == NthWeekday(start, |dates|)
      decreases count - |dates|, NextWeekday(current) - current
    {
      NextWeekdayFrom(current);
      NthWeekdayNext(start, |dates|);
      if IsWeekday(current) {
        dates := dates + [current];
      }
      current := current + 1;
    }
  }

  // ---- Decision sessions ----

  /** Decision times are strictly increasing; `entry` is the index of the entry time among them. */
  datatype ClockConfig = ClockConfig(periodsPerYear: nat, times: seq<int>) {
    ghost predicate Valid() {
      periodsPerYear > 0 && times != [] && forall i, j :: 0 <= i < j < |times| ==> times[i] < times[j]
    }

    function StepFraction(): real
      requires periodsPerYear > 0 && times != []
    {
      1.0 / (periodsPerYear * |times|) as real
    }
  }

  datatype Session = Session(sessionIndex: nat, decisionIndex: nat, date: int, time: int, yearFraction: real)

  /**
   The session at index `i` of a clock that starts at decision `entry` of the first date: counting
   decisions from the first date's first one, it is number `entry + i`.
   */
  ghost predicate Placed(start: int, config: ClockConfig, entry: nat, i: nat, session: Session)
    requires config.Valid()
  {
    && session.decisionIndex < |config.times|
    && session.sessionIndex * |config.times| + session.decisionIndex == entry + i
    && session.date == NthWeekday(start, session.sessionIndex)
    && session.time == config.times[session.decisionIndex]
    && session.yearFraction == (if i == 0 then 0.0 else config.StepFraction())
  }

  /** The sessions of `count` trading dates from the entry time on, every one of them and in order. */
  ghost predicate IsClock(start: int, count: nat, config: ClockConfig, entry: nat, sessions: seq<Session>)
    requires config.Valid()
  {
    && |sessions| == count * |config.times| - entry
    && (forall i: nat | i < |sessions| :: Placed(start, config, entry, i, sessions[i]))
  }

  datatype ClockError = CountNotPositive | EntryTimeNotConfigured

  lemma NextMultiple(s: int, D: int)
    ensures (s + 1) * D == s * D + D
  {
  }

  lemma MultipleOrder(s: int, t: int, D: int)
    requires s <= t && D >= 0
    ensures s * D <= t * D
  {
  }

  /** One session date's decisions appended after those of earlier dates. */
  method AppendSession(start: int, date: int, s: nat, config: ClockConfig, entry: nat, before: seq<Session>)
    returns (sessions: seq<Session>)
    requires config.Valid() && entry < |config.times| && date == NthWeekday(start, s)
    requires s == 0 ==> before == []
    requires s > 0 ==> IsClock(start, s, config, entry, before) && before != []
    ensures IsClock(start, s + 1, config, entry, sessions) && sessions != []
  {
    var D := |config.times|;
    ghost var base := s * D;
    NextMultiple(s, D);
    sessions := before;
    var decision := 0;
    while decision < D
      invariant 0 <= decision <= D
      invariant |sessions| == if s == 0 && decision <= entry then 0 else base + decision - entry
      invariant s > 0 ==> sessions != []
      invariant forall i: nat | i < |sessions| :: Placed(start, config, entry, i, sessions[i])
    {
      if !(s == 0 && config.times[decision] < config.times[entry]) {
        var fraction := if |sessions| == 0 then 0.0 else config.StepFraction();
        var session := Session(s, decision, date, config.times[decision], fraction);
        assert Placed(start, config, entry, |sessions|, session);
        sessions := sessions + [session];
      }
      decision := decision + 1;
    }
  }

  method GenerateSessions(start: int, count: int, config: ClockConfig, entryTime: int)
    returns (result: Result<seq<Session>, ClockError>)
    requires config.Valid()
    ensures result.Err? <==> count <= 0 || entryTime !in config.times
    ensures result.Ok? ==> exists entry: nat ::
                             && entry < |config.times| && config.times[entry] == entryTime
                             && IsClock(start, count, config, entry, result.value)
  {
    if count <= 0 {
      return Err(CountNotPositive);
    }
    if entryTime !in config.times {
      return Err(EntryTimeNotConfigured);
    }
    ghost var target: nat :| target < |config.times| && config.times[target] == entryTime;
    var entry := 0;
    while config.times[entry] != entryTime
      invariant 0 <= entry <= target
    {
      entry := entry + 1;
    }
    var dates := TradingDates(start, count);
    var sessions: seq<Session> := [];
    var s := 0;
    while s < count
      invariant 0 <= s <= count
      invariant s == 0 ==> sessions == []
      invariant s > 0 ==> IsClock(start, s, config, entry, sessions) && sessions != []
    {
      WeekdaysAt(start, count, s);
      sessions := AppendSession(start, dates[s], s, config, entry, sessions);
      s := s + 1;
    }
    return Ok(sessions);
  }

  // ---- A path against its clock ----

  datatype PathPoint = PathPoint(stepIndex: int, sessionIndex: int, sessionDate: int, time: int, yearFraction: real)

  /** What the checking loop compares at each point. */
  ghost predicate Matches(point: PathPoint, step: nat, session: Session) {
    && point.stepIndex == step
    && point.sessionIndex == session.sessionIndex
    && point.sessionDate == session.date
    && point.time == session.time
    && point.yearFraction == session.yearFraction
  }

  datatype PathError = EmptyPath | PathExceedsClock | PointMismatch(step: nat) | ClockRefused(error: ClockError)

  /** A clock of `points / D + 2` sessions always reaches past the last point. */
  lemma ClockCoversPath(points: nat, D: nat, entry: nat)
    requires entry < D
    ensures (points / D + 2) * D - entry > points
  {
    var q := points / D;
    assert points == q * D + points % D;
    assert (q + 2) * D == q * D + D + D;
  }

  /** The outcome of comparing a path with a clock that is long enough: the first point that does not match. */
  ghost predicate Compared(
    points: seq<PathPoint>, firstDate: int, config: ClockConfig, entryTime: int,
    entry: nat, sessions: seq<Session>, error: Option<PathError>)
    requires config.Valid()
  {
    && entry < |config.times| && config.times[entry] == entryTime && |sessions| >= |points|
    && (forall i: nat | i < |sessions| :: Placed(firstDate, config, entry, i, sessions[i]))
    && (error == None <==> forall i: nat | i < |points| :: Matches(points[i], i, sessions[i]))
    && (error.Some? ==> exists i: nat | i < |points| ::
                          && error == Some(PointMismatch(i)) && !Matches(points[i], i, sessions[i])
                          && forall j: nat | j < i :: Matches(points[j], j, sessions[j]))
  }

  ghost predicate Validated(
    points: seq<PathPoint>, firstDate: int, config: ClockConfig, entryTime: int, error: Option<PathError>)
    requires config.Valid()
  {
    && (error == Some(EmptyPath) <==> points == [])
    && (points != [] && entryTime !in config.times ==> error == Some(ClockRefused(EntryTimeNotConfigured)))
    && (points != [] && entryTime in config.times ==>
          exists entry: nat, sessions: seq<Session> ::
            Compared(points, firstDate, config, entryTime, entry, sessions, error))
  }

  /**
   The path check. It accepts exactly the paths that match the generated clock point for point,
   and never reports that the path exceeds the clock.
   */
  method ValidatePathClock(points: seq<PathPoint>, firstDate: int, config: ClockConfig, entryTime: int)
    returns (error: Option<PathError>)
    requires config.Valid()
    ensures Validated(points, firstDate, config, entryTime, error) && error != Some(PathExceedsClock)
  {
    if points == [] {
      return Some(EmptyPath);
    }
    var D := |config.times|;
    var generated := GenerateSessions(firstDate, |points| / D + 2, config, entryTime);
    if generated.Err? {
      return Some(ClockRefused(EntryTimeNotConfigured));
    }
    var sessions := generated.value;
    ghost var entry: nat :|
      && entry < |config.times| && config.times[entry] == entryTime
      && IsClock(firstDate, |points| / D + 2, config, entry, sessions);
    ClockCoversPath(|points|, D, entry);
    if |sessions| < |points| {
      return Some(PathExceedsClock);
    }
    var i := 0;
    while i < |points|
      invariant 0 <= i <= |points|
      invariant forall j: nat | j < i :: Matches(points[j], j, sessions[j])
    {
      var point, session := points[i], sessions[i];
      if point.stepIndex != i || point.sessionIndex != session.sessionIndex || point.sessionDate != session.date
         || point.time != session.time || point.yearFraction != session.yearFraction {
        assert !Matches(points[i], i, sessions[i]);
        assert Compared(points, firstDate, config, entryTime, entry, sessions, Some(PointMismatch(i)));
        return Some(PointMismatch(i));
      }
      i := i + 1;
    }
    assert Compared(points, firstDate, config, entryTime, entry, sessions, None);
    return None;
  }
}
