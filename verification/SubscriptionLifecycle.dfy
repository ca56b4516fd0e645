/** Lifecycle events of provider subscriptions, interleaved over scopes, and which sequences are accepted. */
module SubscriptionLifecycle {
  import opened Wrappers

  datatype SubscriptionState =
    | SubscribeRequested
    | SubscribedState
    | ModeChangeRequested
    | ModeChanged
    | UnsubscribeRequested
    | Unsubscribed
    | SubscriptionFailed

  function Successors(previous: Option<SubscriptionState>): set<SubscriptionState> {
    match previous
    case None => {SubscribeRequested}
    case Some(SubscribeRequested) => {SubscribedState, SubscriptionFailed}
    case Some(SubscribedState) => {ModeChangeRequested, UnsubscribeRequested, SubscriptionFailed}
    case Some(ModeChangeRequested) => {ModeChanged, SubscriptionFailed}
    case Some(ModeChanged) => {ModeChangeRequested, UnsubscribeRequested, SubscriptionFailed}
    case Some(UnsubscribeRequested) => {Unsubscribed, SubscriptionFailed}
    case Some(Unsubscribed) => {}
    case Some(SubscriptionFailed) => {}
  }

  datatype Mode = Ltpc | OptionGreeks | FullD5 | FullD30

  datatype Scope = Scope(id: nat)

  datatype SourceScope = SourceScope(id: nat)

  /** A provider's connection session. */
  datatype Binding = Binding(provider: nat, session: nat)

  datatype SubscriptionEvent = SubscriptionEvent(
    binding: Binding,
    scope: Scope,
    previous: Option<SubscriptionState>,
    state: SubscriptionState,
    source: SourceScope,
    order: nat,
    mode: Option<Mode>,
    instruments: nat)
  {
    /** What the constructor demands. */
    predicate Valid() {
      && state in Successors(previous)
      && (state in {SubscribeRequested, SubscribedState, ModeChangeRequested, ModeChanged} ==> mode.Some?)
    }
  }

  predicate ModesAgree(previous: SubscriptionEvent, current: SubscriptionEvent) {
    match current.state
    case SubscribedState => current.mode == previous.mode
    case ModeChanged => current.mode == previous.mode
    case SubscriptionFailed => current.mode == previous.mode
    case Unsubscribed => current.mode == previous.mode
    case UnsubscribeRequested => current.mode == None || previous.mode == None || current.mode == previous.mode
    case SubscribeRequested => true
    case ModeChangeRequested => true
  }

  // ---- What an accepted sequence is ----

  /** The events of one subscription scope, in order. */
  function Project(events: seq<SubscriptionEvent>, scope: Scope): seq<SubscriptionEvent> {
    if events == [] then []
    else
      var n := |events| - 1;
      Project(events[..n], scope) + if events[n].scope == scope then [events[n]] else []
  }

  predicate Starts(event: SubscriptionEvent) {
    event.previous == None && event.state == SubscribeRequested
  }

  predicate Continues(previous: SubscriptionEvent, current: SubscriptionEvent) {
    && current.binding == previous.binding && current.source == previous.source
    && current.previous == Some(previous.state)
    && current.instruments == previous.instruments
    && ModesAgree(previous, current)
  }

  /** A legal path of one scope, from nothing. */
  ghost predicate LegalPath(path: seq<SubscriptionEvent>) {
    && (path != [] ==> Starts(path[0]))
    && (forall i :: 0 < i < |path| ==> Continues(path[i - 1], path[i]))
  }

  /** Two events of one source scope belong to one session and rise. */
  predicate SourceAgrees(earlier: SubscriptionEvent, later: SubscriptionEvent) {
    earlier.source == later.source ==> earlier.binding == later.binding && earlier.order < later.order
  }

  ghost predicate IsLegal(events: seq<SubscriptionEvent>) {
    && (forall i, j :: 0 <= i < j < |events| ==> SourceAgrees(events[i], events[j]))
    && (forall scope :: LegalPath(Project(events, scope)))
  }

  ghost predicate PathFits(path: seq<SubscriptionEvent>, next: SubscriptionEvent) {
    if path == [] then Starts(next) else Continues(path[|path| - 1], next)
  }

  /** What one more event must satisfy. */
  ghost predicate Fits(events: seq<SubscriptionEvent>, next: SubscriptionEvent) {
    (forall e <- events :: SourceAgrees(e, next)) && PathFits(Project(events, next.scope), next)
  }

  lemma PathExtends(path: seq<SubscriptionEvent>, next: SubscriptionEvent)
    ensures LegalPath(path + [next]) <==> LegalPath(path) && PathFits(path, next)
  {
    var longer, n := path + [next], |path|;
    assert longer[n] == next && forall i :: 0 <= i < n ==> longer[i] == path[i];
    if LegalPath(longer) {
      forall i | 0 < i < n ensures Continues(path[i - 1], path[i]) {
        assert Continues(longer[i - 1], longer[i]);
      }
      if n > 0 {
        assert Continues(longer[n - 1], longer[n]);
      }
    }
  }

  lemma SourcesExtend(events: seq<SubscriptionEvent>, next: SubscriptionEvent)
    ensures (forall i, j :: 0 <= i < j < |events + [next]| ==> SourceAgrees((events + [next])[i], (events + [next])[j]))
            <==> (&& (forall i, j :: 0 <= i < j < |events| ==> SourceAgrees(events[i], events[j]))
                  && (forall e <- events :: SourceAgrees(e, next)))
  {
    var longer, n := events + [next], |events|;
    if forall i, j :: 0 <= i < j < |longer| ==> SourceAgrees(longer[i], longer[j]) {
      forall i, j | 0 <= i < j < n ensures SourceAgrees(events[i], events[j]) {
        assert SourceAgrees(longer[i], longer[j]);
      }
      forall e <- events ensures SourceAgrees(e, next) {
        var i :| 0 <= i < n && events[i] == e;
        assert SourceAgrees(longer[i], longer[n]);
      }
    }
  }

  lemma ProjectAppend(events: seq<SubscriptionEvent>, next: SubscriptionEvent, scope: Scope)
    ensures Project(events + [next], scope)
            == if next.scope == scope then Project(events, scope) + [next] else Project(events, scope)
  {
    assert (events + [next])[..|events|] == events;
  }

  /** A sequence grows legally exactly by an event that fits. */
  lemma LegalExtends(events: seq<SubscriptionEvent>, next: SubscriptionEvent)
    ensures IsLegal(events + [next]) <==> IsLegal(events) && Fits(events, next)
  {
    SourcesExtend(events, next);
    var path := Project(events, next.scope);
    PathExtends(path, next);
    forall scope
      ensures Project(events + [next], scope)
              == if next.scope == scope then Project(events, scope) + [next] else Project(events, scope)
    {
      ProjectAppend(events, next, scope);
    }
    if IsLegal(events + [next]) {
      forall scope ensures LegalPath(Project(events, scope)) {
        assert LegalPath(Project(events + [next], scope));
      }
      assert LegalPath(Project(events + [next], next.scope));
    }
  }

  lemma {:induction false} LegalPrefix(events: seq<SubscriptionEvent>, n: nat)
    requires n <= |events| && IsLegal(events)
    ensures IsLegal(events[..n])
    decreases |events|
  {
    if n < |events| {
      var last := |events| - 1;
      assert events == events[..last] + [events[last]];
      LegalExtends(events[..last], events[last]);
      LegalPrefix(events[..last], n);
      assert events[..last][..n] == events[..n];
    } else {
      assert events[..n] == events;
    }
  }

  lemma PrefixOfLegal(events: seq<SubscriptionEvent>, n: nat)
    requires n <= |events|
    ensures IsLegal(events) ==> IsLegal(events[..n])
  {
    if IsLegal(events) {
      LegalPrefix(events, n);
    }
  }

  // ---- The validator ----

  ghost predicate TracksScope(
    events: seq<SubscriptionEvent>, scopeEvents: map<Scope, SubscriptionEvent>, scope: Scope)
  {
    var path := Project(events, scope);
    (scope in scopeEvents <==> path != []) && (path != [] ==> scopeEvents[scope] == path[|path| - 1])
  }

  /** The last event of each scope. */
  ghost predicate TracksScopes(events: seq<SubscriptionEvent>, scopeEvents: map<Scope, SubscriptionEvent>) {
    forall scope :: TracksScope(events, scopeEvents, scope)
  }

  /** The session and the greatest order of each source scope. */
  ghost predicate TracksSources(
    events: seq<SubscriptionEvent>, bindings: map<SourceScope, Binding>, orders: map<SourceScope, nat>)
  {
    && (forall e <- events ::
          && e.source in bindings && bindings[e.source] == e.binding
          && e.source in orders && e.order <= orders[e.source])
    && (forall s <- bindings :: exists e <- events :: e.source == s)
    && (forall s <- orders :: exists e <- events :: e.source == s && e.order == orders[s])
  }

  lemma TracksScopesMore(
    events: seq<SubscriptionEvent>, next: SubscriptionEvent, scopeEvents: map<Scope, SubscriptionEvent>)
    requires TracksScopes(events, scopeEvents)
    ensures TracksScopes(events + [next], scopeEvents[next.scope := next])
  {
    var longer, grown := events + [next], scopeEvents[next.scope := next];
    forall scope ensures TracksScope(longer, grown, scope) {
      assert TracksScope(events, scopeEvents, scope);
      ProjectAppend(events, next, scope);
    }
  }

  lemma TracksSourcesMore(
    events: seq<SubscriptionEvent>, next: SubscriptionEvent, bindings: map<SourceScope, Binding>,
    orders: map<SourceScope, nat>)
    requires TracksSources(events, bindings, orders) && forall e <- events :: SourceAgrees(e, next)
    ensures TracksSources(events + [next], bindings[next.source := next.binding], orders[next.source := next.order])
  {
    var longer := events + [next];
    var newBindings, newOrders := bindings[next.source := next.binding], orders[next.source := next.order];
    assert next in longer;
    forall s | s in newBindings ensures exists e <- longer :: e.source == s {
      if s != next.source {
        var e :| e in events && e.source == s;
        assert e in longer;
      }
    }
    forall s | s in newOrders ensures exists e <- longer :: e.source == s && e.order == newOrders[s] {
      if s != next.source {
        var e :| e in events && e.source == s && e.order == orders[s];
        assert e in longer;
      }
    }
  }

  lemma SourceDecided(
    events: seq<SubscriptionEvent>, next: SubscriptionEvent, bindings: map<SourceScope, Binding>,
    orders: map<SourceScope, nat>)
    requires TracksSources(events, bindings, orders)
    ensures (forall e <- events :: SourceAgrees(e, next))
            <==> (&& (next.source in bindings ==> bindings[next.source] == next.binding)
                  && (next.source in orders ==> next.order > orders[next.source]))
  {
    if next.source in bindings {
      var e :| e in events && e.source == next.source;
    }
    if next.source in orders {
      var e :| e in events && e.source == next.source && e.order == orders[next.source];
    }
  }

  /** The validator accepts exactly the legal sequences, and refuses at the first event that does not fit. */
  method ValidateSubscriptionSequence(events: seq<SubscriptionEvent>) returns (refused: Option<nat>)
    ensures refused == None <==> IsLegal(events)
    ensures refused.Some? ==>
              refused.value < |events| && IsLegal(events[..refused.value])
                && !Fits(events[..refused.value], events[refused.value])
  {
    var scopeEvents: map<Scope, SubscriptionEvent> := map[];
    var bindings: map<SourceScope, Binding>, orders: map<SourceScope, nat> := map[], map[];
    var i := 0;
    while i < |events|
      invariant 0 <= i <= |events|
      invariant IsLegal(events[..i]) && TracksScopes(events[..i], scopeEvents)
                && TracksSources(events[..i], bindings, orders)
    {
      var current := events[i];
      var fits := CheckEvent(events[..i], current, scopeEvents, bindings, orders);
      TakeOneMore(events, i);
      LegalExtends(events[..i], current);
      if !fits {
        PrefixOfLegal(events, i + 1);
        return Some(i);
      }
      TracksScopesMore(events[..i], current, scopeEvents);
      TracksSourcesMore(events[..i], current, bindings, orders);
      bindings := bindings[current.source := current.binding];
      orders := orders[current.source := current.order];
      scopeEvents := scopeEvents[current.scope := current];
      i := i + 1;
    }
    assert events[..i] == events;
    return None;
  }

  method CheckEvent(
    ghost events: seq<SubscriptionEvent>, current: SubscriptionEvent, scopeEvents: map<Scope, SubscriptionEvent>,
    bindings: map<SourceScope, Binding>, orders: map<SourceScope, nat>) returns (fits: bool)
    requires TracksScopes(events, scopeEvents) && TracksSources(events, bindings, orders)
    ensures fits <==> Fits(events, current)
  {
    SourceDecided(events, current, bindings, orders);
    assert TracksScope(events, scopeEvents, current.scope);
    if current.source in bindings && bindings[current.source] != current.binding {
      return false;
    }
    if current.source in orders && current.order <= orders[current.source] {
      return false;
    }
    if current.scope !in scopeEvents {
      return Starts(current);
    }
    var previous := scopeEvents[current.scope];
    return current.binding == previous.binding && current.source == previous.source
      && current.previous == Some(previous.state) && current.instruments == previous.instruments
      && ModesAgree(previous, current);
  }

  // ---- What follows for one scope ----

  /** What may follow an event of the same scope, and with which mode. */
  predicate MayFollow(previous: SubscriptionEvent, current: SubscriptionEvent) {
    match current.state
    case SubscribeRequested => false
    case SubscribedState =>
      previous.state == SubscribeRequested && current.mode == previous.mode && current.mode != None
    case ModeChangeRequested => previous.state in {SubscribedState, ModeChanged} && current.mode != None
    case ModeChanged =>
      previous.state == ModeChangeRequested && current.mode == previous.mode && current.mode != None
    case UnsubscribeRequested =>
      && previous.state in {SubscribedState, ModeChanged}
      && (current.mode == None || previous.mode == None || current.mode == previous.mode)
    case Unsubscribed => previous.state == UnsubscribeRequested && current.mode == previous.mode
    case SubscriptionFailed =>
      previous.state !in {Unsubscribed, SubscriptionFailed} && current.mode == previous.mode
  }

  /** A valid event continues a scope exactly when it may follow and keeps what the scope is about. */
  lemma ContinuesExactlyWhen(previous: SubscriptionEvent, current: SubscriptionEvent)
    ensures current.Valid() && Continues(previous, current)
            <==> && MayFollow(previous, current) && current.previous == Some(previous.state)
                 && current.binding == previous.binding && current.source == previous.source
                 && current.instruments == previous.instruments
  {
  }

  /** And it starts one exactly when it asks for a subscription in some mode. */
  lemma StartsExactlyWhen(event: SubscriptionEvent)
    ensures event.Valid() && Starts(event)
            <==> event.state == SubscribeRequested && event.previous == None && event.mode != None
  {
  }

  /** A step of a scope: it may follow, names its predecessor and keeps what the scope is about. */
  predicate Steps(path: seq<SubscriptionEvent>, i: nat)
    requires 0 < i < |path|
  {
    && MayFollow(path[i - 1], path[i]) && path[i].previous == Some(path[i - 1].state)
    && path[i].binding == path[i - 1].binding && path[i].source == path[i - 1].source
    && path[i].instruments == path[i - 1].instruments
  }

  /** The paths of valid events that are legal, step by step. */
  lemma PathIsLegalExactlyWhen(path: seq<SubscriptionEvent>)
    requires path != []
    ensures LegalPath(path) && (forall e <- path :: e.Valid())
            <==> && path[0].state == SubscribeRequested && path[0].previous == None && path[0].mode != None
                 && (forall i: nat | 0 < i < |path| :: Steps(path, i))
  {
    StartsExactlyWhen(path[0]);
    forall i: nat | 0 < i < |path|
      ensures path[i].Valid() && Continues(path[i - 1], path[i]) <==> Steps(path, i)
    {
      ContinuesExactlyWhen(path[i - 1], path[i]);
    }
    if path[0].Valid() && Starts(path[0]) && forall i: nat | 0 < i < |path| :: Steps(path, i) {
      forall i | 0 < i < |path| ensures Continues(path[i - 1], path[i]) {
        assert Steps(path, i);
      }
      forall e <- path ensures e.Valid() {
        var i: nat :| i < |path| && path[i] == e;
        assert i > 0 ==> Steps(path, i);
      }
    }
  }

  /** Nothing of a scope follows its end, whether it was unsubscribed or failed. */
  lemma EndIsLast(path: seq<SubscriptionEvent>, i: nat)
    requires LegalPath(path) && (forall e <- path :: e.Valid()) && i < |path|
    ensures path[i].state in {Unsubscribed, SubscriptionFailed} ==> i == |path| - 1
  {
    if i + 1 < |path| {
      assert Continues(path[i], path[i + 1]) && path[i + 1].Valid();
    }
  }

  /** A mode changes where a change is requested, or where an unsubscription request leaves it out. */
  lemma {:induction false} ModeChangesOnlyOnRequest(path: seq<SubscriptionEvent>, i: nat)
    requires LegalPath(path) && (forall e <- path :: e.Valid()) && 0 < i < |path|
    ensures path[i].mode != path[i - 1].mode ==>
              || path[i].state == ModeChangeRequested
              || (path[i].state == UnsubscribeRequested && path[i].mode == None)
    ensures path[i].instruments == path[0].instruments && path[i].binding == path[0].binding
    ensures path[i].source == path[0].source
  {
    assert Continues(path[i - 1], path[i]) && path[i].Valid() && path[i - 1].Valid();
    if i > 1 {
      ModeChangesOnlyOnRequest(path, i - 1);
    }
  }

  /** The rule that a mode changes only at an event that requests it. */
  ghost predicate ChangesOnlyWhenRequested(path: seq<SubscriptionEvent>) {
    forall i :: 0 < i < |path| && path[i].mode != path[i - 1].mode ==> path[i].state == ModeChangeRequested
  }

  predicate UnsubscribesNameTheirMode(path: seq<SubscriptionEvent>) {
    forall e <- path :: e.state == UnsubscribeRequested ==> e.mode.Some?
  }

  /** An unsubscription is requested only of a subscription that has a mode. */
  lemma UnsubscribeFollowsMode(path: seq<SubscriptionEvent>, i: nat)
    requires LegalPath(path) && (forall e <- path :: e.Valid()) && i < |path|
    requires path[i].state == UnsubscribeRequested
    ensures i > 0 && path[i - 1].mode.Some?
  {
    assert path[i].Valid();
    if i > 0 {
      assert Continues(path[i - 1], path[i]) && path[i - 1].Valid();
    }
  }

  /** The rule holds of a legal path exactly when every unsubscription request on it names its mode. */
  lemma ModeRuleExactlyWhen(path: seq<SubscriptionEvent>)
    requires LegalPath(path) && forall e <- path :: e.Valid()
    ensures ChangesOnlyWhenRequested(path) <==> UnsubscribesNameTheirMode(path)
  {
    if ChangesOnlyWhenRequested(path) {
      forall e | e in path && e.state == UnsubscribeRequested ensures e.mode.Some? {
        var i :| 0 <= i < |path| && path[i] == e;
        UnsubscribeFollowsMode(path, i);
      }
    }
    if UnsubscribesNameTheirMode(path) {
      forall i | 0 < i < |path| && path[i].mode != path[i - 1].mode ensures path[i].state == ModeChangeRequested {
        ModeChangesOnlyOnRequest(path, i);
      }
    }
  }

  function PlainEvent(previous: Option<SubscriptionState>, state: SubscriptionState, order: nat, mode: Option<Mode>):
    SubscriptionEvent
  {
    SubscriptionEvent(Binding(0, 0), Scope(0), previous, state, SourceScope(0), order, mode, 0)
  }

  /** A subscription given up without naming its mode. */
  function UnnamedUnsubscription(): seq<SubscriptionEvent> {
    [ PlainEvent(None, SubscribeRequested, 0, Some(Ltpc)),
      PlainEvent(Some(SubscribeRequested), SubscribedState, 1, Some(Ltpc)),
      PlainEvent(Some(SubscribedState), UnsubscribeRequested, 2, None) ]
  }

  lemma OnlyScope(events: seq<SubscriptionEvent>, scope: Scope)
    requires forall e <- events :: e.scope == Scope(0)
    ensures Project(events, scope) == if scope == Scope(0) then events else []
  {
    if events == [] {
    } else {
      var n := |events| - 1;
      OnlyScope(events[..n], scope);
      assert events == events[..n] + [events[n]];
    }
  }

  /** A path of one scope and one rising source is legal as a sequence. */
  lemma OnePathIsLegal(events: seq<SubscriptionEvent>)
    requires LegalPath(events) && forall e <- events :: e.scope == Scope(0)
    requires forall i, j :: 0 <= i < j < |events| ==> SourceAgrees(events[i], events[j])
    ensures IsLegal(events)
  {
    forall scope ensures LegalPath(Project(events, scope)) {
      OnlyScope(events, scope);
    }
  }

  /** The validator accepts a sequence that breaks the rule. */
  lemma ModeRuleFails()
    ensures IsLegal(UnnamedUnsubscription()) && (forall e <- UnnamedUnsubscription() :: e.Valid())
    ensures !ChangesOnlyWhenRequested(UnnamedUnsubscription())
  {
    var events := UnnamedUnsubscription();
    assert Continues(events[0], events[1]) && Continues(events[1], events[2]);
    OnePathIsLegal(events);
    assert events[2].mode != events[1].mode;
  }

  /** Without a request to change it, the mode a scope was opened with is the one it keeps until it is given up. */
  lemma {:induction false} ModeIsKept(path: seq<SubscriptionEvent>, i: nat)
    requires LegalPath(path) && (forall e <- path :: e.Valid()) && i < |path|
    requires forall j :: 0 <= j <= i ==> path[j].state != ModeChangeRequested
    ensures path[i].mode == path[0].mode
            || (path[i].mode == None && path[i].state in {UnsubscribeRequested, Unsubscribed, SubscriptionFailed})
  {
    if i == 0 {
    } else {
      ModeIsKept(path, i - 1);
      ModeChangesOnlyOnRequest(path, i);
      assert Continues(path[i - 1], path[i]) && path[i].Valid();
    }
  }
}
