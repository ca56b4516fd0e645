/** Lifecycle events of provider connections, and which sequences of them are accepted. */
module ConnectionLifecycle {
  import opened Wrappers

  datatype ConnectionState = Connecting | Connected | Authorized | Closing | Closed | Reconnecting | FailedState

  function Successors(previous: Option<ConnectionState>): set<ConnectionState> {
    match previous
    case None => {Connecting}
    case Some(Connecting) => {Connected, FailedState, Closing}
    case Some(Connected) => {Authorized, Closing, FailedState}
    case Some(Authorized) => {Closing, Reconnecting, FailedState}
    case Some(Reconnecting) => {Closing, FailedState}
    case Some(Closing) => {Closed, FailedState}
    case Some(FailedState) => {Reconnecting, Closing, Closed}
    case Some(Closed) => {}
  }

  datatype Session = Session(id: nat)

  datatype OrderScope = OrderScope(id: nat)

  datatype ConnectionEvent = ConnectionEvent(
    provider: nat,
    session: Session,
    previous: Option<ConnectionState>,
    state: ConnectionState,
    scope: OrderScope,
    order: nat)
  {
    /** What the constructor demands. */
    predicate Valid() {
      state in Successors(previous)
    }
  }

  datatype SequenceError = InvalidReconnect | InvalidLifecycle

  // ---- What an accepted sequence is ----

  /** A later event against an earlier one: one provider, sessions and order scopes in step, rising order. */
  predicate Agrees(earlier: ConnectionEvent, later: ConnectionEvent) {
    && earlier.provider == later.provider
    && (earlier.session == later.session <==> earlier.scope == later.scope)
    && (earlier.scope == later.scope ==> earlier.order < later.order)
  }

  /** Neighbours: the state is handed on within a session, and a new session starts over after `reconnecting`. */
  predicate HandsOver(current: ConnectionEvent, next: ConnectionEvent) {
    if current.session == next.session then next.previous == Some(current.state)
    else current.state == Reconnecting && next.previous == None && next.state == Connecting
  }

  /** A sequence is a history when every pair agrees, sessions are contiguous blocks and neighbours hand over. */
  ghost predicate IsHistory(events: seq<ConnectionEvent>) {
    && (forall i, j :: 0 <= i < j < |events| ==> Agrees(events[i], events[j]))
    && (forall i, j, k :: 0 <= i < j < k < |events| && events[i].session == events[k].session ==>
         events[j].session == events[i].session)
    && (forall i :: 0 < i < |events| ==> HandsOver(events[i - 1], events[i]))
  }

  lemma HistoryShrinks(events: seq<ConnectionEvent>, next: ConnectionEvent)
    requires IsHistory(events + [next])
    ensures IsHistory(events) && Fits(events, next)
  {
    var longer, n := events + [next], |events|;
    assert longer[n] == next && forall i :: 0 <= i < n ==> longer[i] == events[i];
    forall i, j | 0 <= i < j < n ensures Agrees(events[i], events[j]) {
      assert Agrees(longer[i], longer[j]);
    }
    forall i | 0 < i < n ensures HandsOver(events[i - 1], events[i]) {
      assert HandsOver(longer[i - 1], longer[i]);
    }
    forall e <- events
      ensures Agrees(e, next) && (n > 0 && events[n - 1].session != next.session ==> e.session != next.session)
    {
      var i :| 0 <= i < n && events[i] == e;
      assert Agrees(longer[i], longer[n]);
    }
    if n > 0 {
      assert HandsOver(longer[n - 1], longer[n]);
    }
  }

  lemma AgreementGrows(events: seq<ConnectionEvent>, next: ConnectionEvent)
    requires IsHistory(events) && Fits(events, next)
    ensures forall i, j :: 0 <= i < j < |events + [next]| ==> Agrees((events + [next])[i], (events + [next])[j])
  {
    var longer, n := events + [next], |events|;
    forall i, j | 0 <= i < j < n + 1 ensures Agrees(longer[i], longer[j]) {
      if j == n {
        assert longer[i] == events[i] && events[i] in events;
      } else {
        assert longer[i] == events[i] && longer[j] == events[j];
      }
    }
  }

  lemma ContiguityGrows(events: seq<ConnectionEvent>, next: ConnectionEvent, i: nat, j: nat, k: nat)
    requires IsHistory(events) && Fits(events, next) && i < j < k <= |events|
    requires (events + [next])[i].session == (events + [next])[k].session
    ensures (events + [next])[j].session == (events + [next])[i].session
  {
    var longer, n := events + [next], |events|;
    assert longer[i] == events[i] && longer[j] == events[j];
    if k == n {
      assert events[i] in events && longer[k] == next;
    } else {
      assert longer[k] == events[k];
    }
  }

  lemma HistoryGrows(events: seq<ConnectionEvent>, next: ConnectionEvent)
    requires IsHistory(events) && Fits(events, next)
    ensures IsHistory(events + [next])
  {
    var longer, n := events + [next], |events|;
    AgreementGrows(events, next);
    forall i | 0 < i < n + 1 ensures HandsOver(longer[i - 1], longer[i]) {
      assert i < n ==> HandsOver(events[i - 1], events[i]);
    }
    forall i, j, k | 0 <= i < j < k < n + 1 && longer[i].session == longer[k].session
      ensures longer[j].session == longer[i].session
    {
      ContiguityGrows(events, next, i, j, k);
    }
  }

  /** What one more event must satisfy. */
  ghost predicate Fits(events: seq<ConnectionEvent>, next: ConnectionEvent) {
    && (forall e <- events :: Agrees(e, next))
    && (events != [] ==>
          && HandsOver(events[|events| - 1], next)
          && (events[|events| - 1].session != next.session ==> forall e <- events :: e.session != next.session))
  }

  lemma HistoryExtends(events: seq<ConnectionEvent>, next: ConnectionEvent)
    ensures IsHistory(events + [next]) <==> IsHistory(events) && Fits(events, next)
  {
    if IsHistory(events + [next]) {
      HistoryShrinks(events, next);
    } else if IsHistory(events) && Fits(events, next) {
      HistoryGrows(events, next);
    }
  }

  lemma {:induction false} HistoryPrefix(events: seq<ConnectionEvent>, n: nat)
    requires n <= |events| && IsHistory(events)
    ensures IsHistory(events[..n])
    decreases |events|
  {
    if n < |events| {
      var last := |events| - 1;
      assert events == events[..last] + [events[last]];
      HistoryExtends(events[..last], events[last]);
      HistoryPrefix(events[..last], n);
      assert events[..last][..n] == events[..n];
    } else {
      assert events[..n] == events;
    }
  }

  // ---- The validator ----

  /** The scope each session is bound to. */
  ghost predicate TracksSessions(events: seq<ConnectionEvent>, sessionScopes: map<Session, OrderScope>) {
    && (forall e <- events :: e.session in sessionScopes && sessionScopes[e.session] == e.scope)
    && (forall s <- sessionScopes :: exists e <- events :: e.session == s)
  }

  /** The session each scope is bound to. */
  ghost predicate TracksScopes(events: seq<ConnectionEvent>, scopeSessions: map<OrderScope, Session>) {
    && (forall e <- events :: e.scope in scopeSessions && scopeSessions[e.scope] == e.session)
    && (forall c <- scopeSessions :: exists e <- events :: e.scope == c)
  }

  /** The greatest order of each scope. */
  ghost predicate TracksOrders(events: seq<ConnectionEvent>, scopeOrders: map<OrderScope, nat>) {
    && (forall e <- events :: e.scope in scopeOrders && e.order <= scopeOrders[e.scope])
    && (forall c <- scopeOrders :: exists e <- events :: e.scope == c && e.order == scopeOrders[c])
  }

  lemma TracksSessionsMore(events: seq<ConnectionEvent>, next: ConnectionEvent, sessionScopes: map<Session, OrderScope>)
    requires TracksSessions(events, sessionScopes) && forall e <- events :: Agrees(e, next)
    ensures TracksSessions(events + [next], sessionScopes[next.session := next.scope])
  {
    var longer, grown := events + [next], sessionScopes[next.session := next.scope];
    forall s | s in grown ensures exists e <- longer :: e.session == s {
      if s == next.session {
        assert next in longer;
      } else {
        var e :| e in events && e.session == s;
        assert e in longer;
      }
    }
  }

  lemma TracksScopesMore(events: seq<ConnectionEvent>, next: ConnectionEvent, scopeSessions: map<OrderScope, Session>)
    requires TracksScopes(events, scopeSessions) && forall e <- events :: Agrees(e, next)
    ensures TracksScopes(events + [next], scopeSessions[next.scope := next.session])
  {
    var longer, grown := events + [next], scopeSessions[next.scope := next.session];
    forall c | c in grown ensures exists e <- longer :: e.scope == c {
      if c == next.scope {
        assert next in longer;
      } else {
        var e :| e in events && e.scope == c;
        assert e in longer;
      }
    }
  }

  lemma TracksOrdersMore(events: seq<ConnectionEvent>, next: ConnectionEvent, scopeOrders: map<OrderScope, nat>)
    requires TracksOrders(events, scopeOrders) && forall e <- events :: Agrees(e, next)
    ensures TracksOrders(events + [next], scopeOrders[next.scope := next.order])
  {
    var longer, grown := events + [next], scopeOrders[next.scope := next.order];
    forall c | c in grown ensures exists e <- longer :: e.scope == c && e.order == grown[c] {
      if c == next.scope {
        assert next in longer;
      } else {
        var e :| e in events && e.scope == c && e.order == scopeOrders[c];
        assert e in longer;
      }
    }
  }

  ghost predicate SameProvider(events: seq<ConnectionEvent>) {
    forall e <- events :: e.provider == events[|events| - 1].provider
  }

  /** What the lookups of one event say. */
  predicate LookupsAgree(
    last: Option<ConnectionEvent>, next: ConnectionEvent, sessionScopes: map<Session, OrderScope>,
    scopeSessions: map<OrderScope, Session>, scopeOrders: map<OrderScope, nat>)
  {
    && (next.session in sessionScopes ==> sessionScopes[next.session] == next.scope)
    && (next.scope in scopeSessions ==> scopeSessions[next.scope] == next.session)
    && (next.scope in scopeOrders ==> next.order > scopeOrders[next.scope])
    && (last.Some? ==> next.provider == last.value.provider)
  }

  lemma LookupsSuffice(
    events: seq<ConnectionEvent>, last: Option<ConnectionEvent>, next: ConnectionEvent,
    sessionScopes: map<Session, OrderScope>,
    scopeSessions: map<OrderScope, Session>, scopeOrders: map<OrderScope, nat>)
    requires SameProvider(events) && last == if events == [] then None else Some(events[|events| - 1])
    requires TracksSessions(events, sessionScopes) && TracksScopes(events, scopeSessions)
             && TracksOrders(events, scopeOrders)
    requires LookupsAgree(last, next, sessionScopes, scopeSessions, scopeOrders)
    ensures forall e <- events :: Agrees(e, next)
  {
  }

  lemma LookupsNeeded(
    events: seq<ConnectionEvent>, last: Option<ConnectionEvent>, next: ConnectionEvent,
    sessionScopes: map<Session, OrderScope>,
    scopeSessions: map<OrderScope, Session>, scopeOrders: map<OrderScope, nat>)
    requires last == if events == [] then None else Some(events[|events| - 1])
    requires TracksSessions(events, sessionScopes) && TracksScopes(events, scopeSessions)
             && TracksOrders(events, scopeOrders)
    requires forall e <- events :: Agrees(e, next)
    ensures LookupsAgree(last, next, sessionScopes, scopeSessions, scopeOrders)
  {
    if last.Some? {
      assert last.value in events;
    }
  }

  /** The dictionary lookups decide whether an event fits. */
  lemma LookupsDecide(
    events: seq<ConnectionEvent>, last: Option<ConnectionEvent>, next: ConnectionEvent,
    sessionScopes: map<Session, OrderScope>,
    scopeSessions: map<OrderScope, Session>, scopeOrders: map<OrderScope, nat>)
    requires SameProvider(events) && last == if events == [] then None else Some(events[|events| - 1])
    requires TracksSessions(events, sessionScopes) && TracksScopes(events, scopeSessions)
             && TracksOrders(events, scopeOrders)
    ensures Fits(events, next)
            <==> (&& LookupsAgree(last, next, sessionScopes, scopeSessions, scopeOrders)
                  && (last.Some? ==>
                        && HandsOver(last.value, next)
                        && (last.value.session != next.session ==> next.session !in sessionScopes)))
  {
    if LookupsAgree(last, next, sessionScopes, scopeSessions, scopeOrders) {
      LookupsSuffice(events, last, next, sessionScopes, scopeSessions, scopeOrders);
    }
    if forall e <- events :: Agrees(e, next) {
      LookupsNeeded(events, last, next, sessionScopes, scopeSessions, scopeOrders);
    }
    if next.session in sessionScopes {
      var e :| e in events && e.session == next.session;
    }
  }

  lemma BreaksDecided(
    events: seq<ConnectionEvent>, last: ConnectionEvent, next: ConnectionEvent,
    sessionScopes: map<Session, OrderScope>, scopeSessions: map<OrderScope, Session>)
    requires TracksSessions(events, sessionScopes) && TracksScopes(events, scopeSessions)
    ensures BreaksReconnect(events, last, next)
            <==> (&& next.session != last.session
                  && (!HandsOver(last, next) || next.session in sessionScopes || next.scope in scopeSessions))
  {
  }

  /** The checks of one event against the dictionaries and the event before it. */
  method CheckEvent(
    ghost events: seq<ConnectionEvent>, previous: Option<ConnectionEvent>, current: ConnectionEvent,
    sessionScopes: map<Session, OrderScope>, scopeSessions: map<OrderScope, Session>, scopeOrders: map<OrderScope, nat>)
    returns (error: Option<SequenceError>)
    requires SameProvider(events) && TracksSessions(events, sessionScopes)
    requires TracksScopes(events, scopeSessions) && TracksOrders(events, scopeOrders)
    requires previous == if events == [] then None else Some(events[|events| - 1])
    ensures error == None <==> Fits(events, current)
    ensures error == Some(InvalidReconnect) <==> previous.Some? && BreaksReconnect(events, previous.value, current)
  {
    LookupsDecide(events, previous, current, sessionScopes, scopeSessions, scopeOrders);
    if previous.Some? {
      BreaksDecided(events, previous.value, current, sessionScopes, scopeSessions);
    }
    if previous.Some? && current.session != previous.value.session
       && (previous.value.state != Reconnecting || current.previous != None || current.state != Connecting
           || current.session in sessionScopes || current.scope in scopeSessions) {
      return Some(InvalidReconnect);
    }
    if current.session in sessionScopes && sessionScopes[current.session] != current.scope {
      return Some(InvalidLifecycle);
    }
    if current.scope in scopeSessions && scopeSessions[current.scope] != current.session {
      return Some(InvalidLifecycle);
    }
    if current.scope in scopeOrders && current.order <= scopeOrders[current.scope] {
      return Some(InvalidLifecycle);
    }
    if previous.Some? && current.session == previous.value.session && current.previous != Some(previous.value.state) {
      return Some(InvalidLifecycle);
    }
    if previous.Some? && current.provider != previous.value.provider {
      return Some(InvalidLifecycle);
    }
    return None;
  }

  /** A change of session that does not start a session never seen, on a scope never seen, from `reconnecting`. */
  ghost predicate BreaksReconnect(events: seq<ConnectionEvent>, previous: ConnectionEvent, current: ConnectionEvent) {
    && current.session != previous.session
    && (!HandsOver(previous, current) || exists e <- events :: e.session == current.session || e.scope == current.scope)
  }

  lemma OneProvider(events: seq<ConnectionEvent>)
    requires IsHistory(events)
    ensures SameProvider(events)
  {
    forall e <- events ensures e.provider == events[|events| - 1].provider {
      var i :| 0 <= i < |events| && events[i] == e;
      assert i < |events| - 1 ==> Agrees(events[i], events[|events| - 1]);
    }
  }

  /** A history with its dictionaries. */
  ghost predicate Tracked(
    events: seq<ConnectionEvent>, sessionScopes: map<Session, OrderScope>, scopeSessions: map<OrderScope, Session>,
    scopeOrders: map<OrderScope, nat>)
  {
    && IsHistory(events)
    && TracksSessions(events, sessionScopes) && TracksScopes(events, scopeSessions) && TracksOrders(events, scopeOrders)
  }

  lemma TrackedMore(
    events: seq<ConnectionEvent>, next: ConnectionEvent, sessionScopes: map<Session, OrderScope>,
    scopeSessions: map<OrderScope, Session>, scopeOrders: map<OrderScope, nat>)
    requires Tracked(events, sessionScopes, scopeSessions, scopeOrders) && Fits(events, next)
    ensures
      Tracked(
        events + [next], sessionScopes[next.session := next.scope], scopeSessions[next.scope := next.session],
        scopeOrders[next.scope := next.order])
  {
    HistoryGrows(events, next);
    TracksSessionsMore(events, next, sessionScopes);
    TracksScopesMore(events, next, scopeSessions);
    TracksOrdersMore(events, next, scopeOrders);
  }

  /** The error of the first event that does not fit. */
  ghost predicate FailsAt(events: seq<ConnectionEvent>, i: nat, error: SequenceError)
    requires i < |events|
  {
    && IsHistory(events[..i]) && !Fits(events[..i], events[i])
    && (error == InvalidReconnect <==> i > 0 && BreaksReconnect(events[..i], events[i - 1], events[i]))
  }

  lemma PrefixOfHistory(events: seq<ConnectionEvent>, n: nat)
    requires n <= |events|
    ensures IsHistory(events) ==> IsHistory(events[..n])
  {
    if IsHistory(events) {
      HistoryPrefix(events, n);
    }
  }

  lemma FailureRefuses(events: seq<ConnectionEvent>, i: nat, error: SequenceError)
    requires i < |events| && FailsAt(events, i, error)
    ensures !IsHistory(events)
  {
    assert events[..i + 1] == events[..i] + [events[i]];
    HistoryExtends(events[..i], events[i]);
    PrefixOfHistory(events, i + 1);
  }

  /** The validator accepts exactly the histories, and its error is that of the first event that does not fit. */
  method ValidateConnectionSequence(events: seq<ConnectionEvent>) returns (error: Option<SequenceError>)
    ensures error == None <==> IsHistory(events)
    ensures error.Some? ==> exists i: nat | i < |events| :: FailsAt(events, i, error.value)
  {
    var sessionScopes: map<Session, OrderScope>, scopeSessions: map<OrderScope, Session> := map[], map[];
    var scopeOrders: map<OrderScope, nat> := map[];
    var previous: Option<ConnectionEvent> := None;
    ghost var seen: seq<ConnectionEvent> := [];
    var i := 0;
    while i < |events|
      invariant 0 <= i <= |events| && seen == events[..i]
      invariant Tracked(seen, sessionScopes, scopeSessions, scopeOrders)
      invariant previous == if i == 0 then None else Some(events[i - 1])
    {
      var current := events[i];
      OneProvider(seen);
      error := CheckEvent(seen, previous, current, sessionScopes, scopeSessions, scopeOrders);
      if error.Some? {
        assert FailsAt(events, i, error.value);
        FailureRefuses(events, i, error.value);
        return;
      }
      TrackedMore(seen, current, sessionScopes, scopeSessions, scopeOrders);
      TakeOneMore(events, i);
      seen := seen + [current];
      sessionScopes := sessionScopes[current.session := current.scope];
      scopeSessions := scopeSessions[current.scope := current.session];
      scopeOrders := scopeOrders[current.scope := current.order];
      previous := Some(current);
      i := i + 1;
    }
    assert events[..i] == events;
    error := None;
  }

  // ---- What follows for whole histories ----

  /** Nothing follows `closed`: not in its session, and no session is opened after it. */
  lemma ClosedIsLast(events: seq<ConnectionEvent>, i: nat)
    requires IsHistory(events) && (forall e <- events :: e.Valid()) && i < |events|
    ensures events[i].state == Closed ==> i == |events| - 1
  {
    if i + 1 < |events| {
      SessionFollowsTable(events, i + 1);
      assert HandsOver(events[i], events[i + 1]);
    }
  }

  /** Every session after the first starts at `connecting`, and the session before it ended in `reconnecting`. */
  lemma SessionsReconnect(events: seq<ConnectionEvent>, i: nat)
    requires IsHistory(events) && 0 < i < |events| && forall j :: 0 <= j < i ==> events[j].session != events[i].session
    ensures events[i].previous == None && events[i].state == Connecting && events[i - 1].state == Reconnecting
    ensures forall j, k :: 0 <= j < i <= k < |events| ==> events[j].session != events[k].session
  {
    assert HandsOver(events[i - 1], events[i]);
    forall j, k | 0 <= j < i <= k < |events| ensures events[j].session != events[k].session {
    }
  }

  /** What may come before a state within its session: nothing, or one of some states. */
  predicate MayPrecede(previous: Option<ConnectionState>, state: ConnectionState) {
    match state
    case Connecting => previous == None
    case Connected => previous == Some(Connecting)
    case Authorized => previous == Some(Connected)
    case Reconnecting => previous == Some(Authorized) || previous == Some(FailedState)
    case Closing => previous.Some? && previous.value !in {Closing, Closed}
    case Closed => previous == Some(Closing) || previous == Some(FailedState)
    case FailedState => previous.Some? && previous.value !in {FailedState, Closed}
  }

  /** The transition table, read from the other end. */
  lemma TableByTarget(previous: Option<ConnectionState>, state: ConnectionState)
    ensures state in Successors(previous) <==> MayPrecede(previous, state)
  {
  }

  /** Within a session every state follows one that may precede it. */
  lemma SessionFollowsTable(events: seq<ConnectionEvent>, i: nat)
    requires IsHistory(events) && (forall e <- events :: e.Valid()) && 0 < i < |events|
    ensures MayPrecede(
              if events[i].session == events[i - 1].session then Some(events[i - 1].state) else None, events[i].state)
  {
    assert HandsOver(events[i - 1], events[i]) && events[i].Valid();
    TableByTarget(events[i].previous, events[i].state);
  }

  /** Every event is reached from the connecting event of its session, through the handshake if it is authorized. */
  lemma AuthorizedAfterHandshake(events: seq<ConnectionEvent>, i: nat)
    requires IsHistory(events) && (forall e <- events :: e.Valid()) && i < |events|
    requires events[0].previous == None && events[i].state == Authorized
    ensures i >= 2 && events[i - 1].state == Connected && events[i - 2].state == Connecting
    ensures events[i - 2].session == events[i - 1].session == events[i].session
  {
    assert events[0].Valid();
    TableByTarget(events[0].previous, events[0].state);
    if i > 0 {
      SessionFollowsTable(events, i);
      if i > 1 {
        SessionFollowsTable(events, i - 1);
      }
    }
  }
}
