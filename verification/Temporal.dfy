/**
 Bitemporal records. A record is known from the moment it was recorded and may supersede one
 earlier record of its scope; a query asks what was known at a cutoff.
 */
module Temporal {
  import opened Wrappers
  import opened Dictionaries

  /** A content hash; equal exactly when the identity fields are. */
  datatype RecordId = RecordId(hash: nat)

  datatype Kind = CatalogueVersion | InstrumentVersion | ProviderMapping | TradingSessionVersion

  /** A record with the value it carries. Times count from the first representable instant. */
  datatype State<V> = State(
    id: RecordId,
    kind: Kind,
    scope: nat,
    recordedAt: nat,
    supersedes: Option<RecordId>,
    value: V)

  /** Records by identity, in the order they were first seen. */
  datatype Graph<V> = Graph(order: seq<RecordId>, indexed: map<RecordId, State<V>>)

  datatype GraphError =
    | ConflictingContent
    | SelfSupersession
    | MissingTarget
    | CrossScope
    | NotLater
    | Branch
    | Cycle

  // ---- What a valid graph is ----

  function RecordKey<V>(state: State<V>): RecordId {
    state.id
  }

  /** One identity never carries two contents. */
  ghost predicate Coherent<V>(states: seq<State<V>>) {
    Unique(states, RecordKey)
  }

  ghost function Index<V>(states: seq<State<V>>): map<RecordId, State<V>> {
    IndexBy(states, RecordKey)
  }

  /** A record supersedes nothing, or a visible record of its own scope that was recorded strictly before it. */
  predicate LinkOk<V>(index: map<RecordId, State<V>>, id: RecordId)
    requires id in index
  {
    match index[id].supersedes
    case None => true
    case Some(target) =>
      && target in index
      && index[target].kind == index[id].kind && index[target].scope == index[id].scope
      && index[target].recordedAt < index[id].recordedAt
  }

  ghost predicate WellLinked<V>(index: map<RecordId, State<V>>) {
    && (forall id <- index :: index[id].id == id && LinkOk(index, id))
    && (forall a <- index, b <- index :: index[a].supersedes.Some? && index[a].supersedes == index[b].supersedes ==>
         a == b)
  }

  ghost predicate ValidGraph<V>(states: seq<State<V>>) {
    Coherent(states) && WellLinked(Index(states))
  }

  lemma IndexedById<V>(states: seq<State<V>>)
    ensures forall id <- Index(states) :: Index(states)[id].id == id && Index(states)[id] in states
    ensures forall s <- states :: s.id in Index(states)
  {
    IndexHolds(states, RecordKey<V>);
    forall id | id in Index(states) ensures Index(states)[id].id == id {
      assert RecordKey(Index(states)[id]) == id;
    }
    forall s <- states ensures s.id in Index(states) {
      assert RecordKey(s) in Index(states);
    }
  }

  /** In a coherent list every state is the one its identity is indexed to. */
  lemma CoherentIndexed<V>(states: seq<State<V>>)
    requires Coherent(states)
    ensures forall s <- states :: s.id in Index(states) && Index(states)[s.id] == s
  {
    IndexedById(states);
    forall s <- states ensures Index(states)[s.id] == s {
      var i :| 0 <= i < |states| && states[i] == s;
      var other := Index(states)[s.id];
      var j :| 0 <= j < |states| && states[j] == other;
      assert RecordKey(states[i]) == RecordKey(states[j]);
    }
  }

  // ---- Validation ----

  /** The defect an error reports is there. */
  ghost predicate Explains<V>(states: seq<State<V>>, error: GraphError) {
    if error == ConflictingContent then !Coherent(states) else Defective(Index(states), error)
  }

  ghost predicate Defective<V>(index: map<RecordId, State<V>>, error: GraphError) {
    match error
    case ConflictingContent => false
    case SelfSupersession => exists id <- index :: index[id].supersedes == Some(id)
    case MissingTarget => exists id <- index :: index[id].supersedes.Some? && index[id].supersedes.value !in index
    case CrossScope =>
      exists id <- index :: CrossesScope(index, id)
    case NotLater =>
      exists id <- index :: NotAfterTarget(index, id)
    case Branch => exists a <- index, b <- index ::
        a != b && index[a].supersedes.Some? && index[a].supersedes == index[b].supersedes
    case Cycle => false
  }

  predicate CrossesScope<V>(index: map<RecordId, State<V>>, id: RecordId)
    requires id in index
  {
    && index[id].supersedes.Some? && index[id].supersedes.value in index
    && var target := index[index[id].supersedes.value];
       target.kind != index[id].kind || target.scope != index[id].scope
  }

  predicate NotAfterTarget<V>(index: map<RecordId, State<V>>, id: RecordId)
    requires id in index
  {
    && index[id].supersedes.Some? && index[id].supersedes.value in index
    && index[id].recordedAt <= index[index[id].supersedes.value].recordedAt
  }

  method IndexStates<V(==)>(states: seq<State<V>>) returns (result: Result<Graph<V>, GraphError>)
    ensures result.Ok? <==> Coherent(states)
    ensures result.Ok? ==> result.value.indexed == Index(states) && Enumerates(result.value)
    ensures result.Err? ==> result.error == ConflictingContent
  {
    var unique := UniqueIndex(states, RecordKey);
    if unique.None? {
      return Err(ConflictingContent);
    }
    var (first, indexed) := unique.value;
    FirstSeenIds(states);
    var order := seq(|first|, i requires 0 <= i < |first| => first[i].id);
    EnumeratesFirst(states, order);
    return Ok(Graph(order, indexed));
  }

  /** The first occurrences of a coherent list have distinct identities. */
  lemma FirstSeenIds<V>(states: seq<State<V>>)
    requires Coherent(states)
    ensures forall i, j :: 0 <= i < j < |FirstSeen(states)| ==> FirstSeen(states)[i].id != FirstSeen(states)[j].id
  {
    var first := FirstSeen(states);
    FirstSeenHolds(states);
    CoherentIndexed(states);
    forall i, j | 0 <= i < j < |first| ensures first[i].id != first[j].id {
      assert first[i] in states && first[j] in states;
    }
  }

  lemma EnumeratesFirst<V>(states: seq<State<V>>, order: seq<RecordId>)
    requires Coherent(states) && |order| == |FirstSeen(states)|
    requires forall i :: 0 <= i < |order| ==> order[i] == FirstSeen(states)[i].id
    ensures Enumerates(Graph(order, Index(states)))
  {
    var first := FirstSeen(states);
    FirstSeenIds(states);
    FirstSeenHolds(states);
    IndexedById(states);
    forall id ensures id in order <==> id in Index(states) {
      if id in order {
        var i :| 0 <= i < |order| && order[i] == id;
        assert first[i] in states;
      }
      if id in Index(states) {
        var s := Index(states)[id];
        assert s in first;
        var i :| 0 <= i < |first| && first[i] == s;
        assert order[i] == id;
      }
    }
  }

  ghost predicate Enumerates<V>(graph: Graph<V>) {
    && (forall i, j :: 0 <= i < j < |graph.order| ==> graph.order[i] != graph.order[j])
    && (forall id :: id in graph.order <==> id in graph.indexed)
  }

  /** The successor dictionary after some records: it holds exactly their links. */
  ghost predicate Successors<V>(
    index: map<RecordId, State<V>>, done: seq<RecordId>, successors: map<RecordId, RecordId>)
  {
    && (forall t <- successors ::
         successors[t] in done && successors[t] in index && index[successors[t]].supersedes == Some(t))
    && (forall i :: 0 <= i < |done| && done[i] in index && index[done[i]].supersedes.Some? ==>
          index[done[i]].supersedes.value in successors && successors[index[done[i]].supersedes.value] == done[i])
  }

  lemma SuccessorAdded<V>(
    index: map<RecordId, State<V>>, order: seq<RecordId>, i: nat, successors: map<RecordId, RecordId>)
    requires i < |order| && order[i] in index && index[order[i]].supersedes.Some?
    requires Successors(index, order[..i], successors)
    requires index[order[i]].supersedes.value in successors ==> successors[index[order[i]].supersedes.value] == order[i]
    ensures Successors(index, order[..i + 1], successors[index[order[i]].supersedes.value := order[i]])
  {
    assert order[..i + 1] == order[..i] + [order[i]];
  }

  lemma NoSuccessorAdded<V>(
    index: map<RecordId, State<V>>, order: seq<RecordId>, i: nat, successors: map<RecordId, RecordId>)
    requires i < |order| && order[i] in index && index[order[i]].supersedes.None?
    requires Successors(index, order[..i], successors)
    ensures Successors(index, order[..i + 1], successors)
  {
    assert order[..i + 1] == order[..i] + [order[i]];
  }

  /** The checks on one record's link, in order. */
  method CheckLink<V(==)>(
    index: map<RecordId, State<V>>, ghost done: seq<RecordId>, successors: map<RecordId, RecordId>, id: RecordId)
    returns (error: Option<GraphError>)
    requires id in index && Successors(index, done, successors)
    ensures error == None ==>
              LinkOk(index, id) && (index[id].supersedes.Some? && index[id].supersedes.value in successors ==>
                                      successors[index[id].supersedes.value] == id)
    ensures error.Some? ==> error.value != Cycle && Defective(index, error.value)
  {
    if index[id].supersedes == None {
      return None;
    }
    var target := index[id].supersedes.value;
    if target == id {
      return Some(SelfSupersession);
    }
    if target !in index {
      return Some(MissingTarget);
    }
    if index[target].kind != index[id].kind || index[target].scope != index[id].scope {
      assert CrossesScope(index, id);
      return Some(CrossScope);
    }
    if index[id].recordedAt <= index[target].recordedAt {
      assert NotAfterTarget(index, id);
      return Some(NotLater);
    }
    if target in successors && successors[target] != id {
      return Some(Branch);
    }
    return None;
  }

  /** Links every record to the one it supersedes, or reports the first defect. */
  method LinkStates<V(==)>(graph: Graph<V>) returns (result: Result<map<RecordId, RecordId>, GraphError>)
    requires Enumerates(graph) && forall id <- graph.indexed :: graph.indexed[id].id == id
    ensures result.Ok? ==> WellLinked(graph.indexed) && Successors(graph.indexed, graph.order, result.value)
    ensures result.Err? ==> result.error != Cycle && Defective(graph.indexed, result.error)
  {
    var successors: map<RecordId, RecordId> := map[];
    var i := 0;
    while i < |graph.order|
      invariant 0 <= i <= |graph.order|
      invariant Successors(graph.indexed, graph.order[..i], successors)
      invariant forall k :: 0 <= k < i ==> LinkOk(graph.indexed, graph.order[k])
    {
      var id := graph.order[i];
      var error := CheckLink(graph.indexed, graph.order[..i], successors, id);
      if error.Some? {
        return Err(error.value);
      }
      if graph.indexed[id].supersedes.Some? {
        SuccessorAdded(graph.indexed, graph.order, i, successors);
        successors := successors[graph.indexed[id].supersedes.value := id];
      } else {
        NoSuccessorAdded(graph.indexed, graph.order, i, successors);
      }
      i := i + 1;
    }
    assert graph.order[..i] == graph.order;
    return Ok(successors);
  }

  /** Walking the successors from a record reaches no record twice. */
  method WalkSuccessors<V(==)>(index: map<RecordId, State<V>>, successors: map<RecordId, RecordId>, start: RecordId)
    returns (cyclic: bool)
    requires WellLinked(index) && start in index
    requires forall t <- successors :: successors[t] in index && index[successors[t]].supersedes == Some(t)
    ensures !cyclic
  {
    var visited: set<RecordId> := {};
    var current := Some(start);
    while current.Some?
      invariant current.Some? ==> current.value in index
      invariant visited <= index.Keys
      invariant forall v <- visited :: current.Some? ==> index[v].recordedAt < index[current.value].recordedAt
      decreases index.Keys - visited, current.Some?
    {
      if current.value in visited {
        return true;
      }
      visited := visited + {current.value};
      current := if current.value in successors then Some(successors[current.value]) else None;
    }
    return false;
  }

  /**
   Validation of the visible records. It accepts exactly the valid graphs, every error it reports
   is there to be found, and the cycle error is never among them.
   */
  method ValidateVisibleGraph<V(==)>(states: seq<State<V>>) returns (result: Result<Graph<V>, GraphError>)
    ensures result.Ok? <==> ValidGraph(states)
    ensures result.Ok? ==> result.value.indexed == Index(states) && Enumerates(result.value)
    ensures result.Err? ==> result.error != Cycle && Explains(states, result.error)
  {
    var indexing := IndexStates(states);
    if indexing.Err? {
      return Err(indexing.error);
    }
    var graph := indexing.value;
    IndexedById(states);
    var linking := LinkStates(graph);
    if linking.Err? {
      return Err(linking.error);
    }
    var i := 0;
    while i < |graph.order| {
      var cyclic := WalkSuccessors(graph.indexed, linking.value, graph.order[i]);
      if cyclic {
        return Err(Cycle);
      }
      i := i + 1;
    }
    return Ok(graph);
  }

  // ---- Chains ----

  /** Every record a record supersedes, directly or not. */
  ghost function Ancestors<V>(index: map<RecordId, State<V>>, id: RecordId): (ancestors: set<RecordId>)
    requires WellLinked(index) && id in index
    ensures ancestors <= index.Keys
    ensures forall a <- ancestors :: index[a].recordedAt < index[id].recordedAt
    decreases index[id].recordedAt
  {
    match index[id].supersedes
    case None => {}
    case Some(target) => {target} + Ancestors(index, target)
  }

  /** The first record of a record's chain. */
  ghost function Root<V>(index: map<RecordId, State<V>>, id: RecordId): (root: RecordId)
    requires WellLinked(index) && id in index
    ensures root in index && index[root].supersedes == None
    ensures index[root].kind == index[id].kind && index[root].scope == index[id].scope
    decreases index[id].recordedAt
  {
    match index[id].supersedes
    case None => id
    case Some(target) => Root(index, target)
  }

  lemma {:induction false} AncestorsShareRoot<V>(index: map<RecordId, State<V>>, id: RecordId)
    requires WellLinked(index) && id in index
    ensures forall a <- Ancestors(index, id) :: Root(index, a) == Root(index, id)
    decreases index[id].recordedAt
  {
    if index[id].supersedes.Some? {
      AncestorsShareRoot(index, index[id].supersedes.value);
    }
  }

  lemma {:induction false} RootIsAncestor<V>(index: map<RecordId, State<V>>, id: RecordId)
    requires WellLinked(index) && id in index
    ensures Root(index, id) == id || Root(index, id) in Ancestors(index, id)
    decreases index[id].recordedAt
  {
    if index[id].supersedes.Some? {
      RootIsAncestor(index, index[id].supersedes.value);
    }
  }

  /** Whatever reaches the record that `b` supersedes passes through `b`. */
  lemma {:induction false} ReachedThrough<V>(index: map<RecordId, State<V>>, a: RecordId, b: RecordId)
    requires WellLinked(index) && a in index && b in index && index[b].supersedes.Some?
    requires index[b].supersedes.value in Ancestors(index, a)
    ensures a == b || b in Ancestors(index, a)
    decreases index[a].recordedAt
  {
    var target := index[a].supersedes.value;
    if target != index[b].supersedes.value {
      ReachedThrough(index, target, b);
    }
  }

  /** A component of the graph is a chain: of two records with one root, one supersedes the other. */
  lemma {:induction false} ChainLinear<V>(index: map<RecordId, State<V>>, a: RecordId, b: RecordId)
    requires WellLinked(index) && a in index && b in index && Root(index, a) == Root(index, b)
    ensures a == b || a in Ancestors(index, b) || b in Ancestors(index, a)
    decreases index[a].recordedAt + index[b].recordedAt
  {
    if index[a].supersedes == None {
      RootIsAncestor(index, b);
    } else if index[b].supersedes == None {
      RootIsAncestor(index, a);
    } else {
      var p, q := index[a].supersedes.value, index[b].supersedes.value;
      ChainLinear(index, p, q);
      if q in Ancestors(index, p) {
        ReachedThrough(index, p, b);
      } else if p in Ancestors(index, q) {
        ReachedThrough(index, q, a);
      }
    }
  }

  // ---- Resolution ----

  ghost predicate Eligible<V>(index: map<RecordId, State<V>>, eligible: V -> bool, id: RecordId) {
    id in index && eligible(index[id].value)
  }

  /** Eligible, and superseded by no eligible record, even through ineligible ones. */
  ghost predicate Leaf<V>(index: map<RecordId, State<V>>, eligible: V -> bool, id: RecordId)
    requires WellLinked(index)
  {
    && Eligible(index, eligible, id)
    && forall e <- index :: Eligible(index, eligible, e) ==> id !in Ancestors(index, e)
  }

  /** A leaf is the newest eligible record of its chain. */
  lemma LeafIsNewest<V>(index: map<RecordId, State<V>>, eligible: V -> bool, id: RecordId)
    requires WellLinked(index) && Eligible(index, eligible, id)
    ensures Leaf(index, eligible, id)
            <==> forall e <- index :: Eligible(index, eligible, e) && Root(index, e) == Root(index, id) && e != id ==>
                                        index[e].recordedAt < index[id].recordedAt
  {
    forall e <- index | Eligible(index, eligible, e)
      ensures id in Ancestors(index, e) ==>
                Root(index, e) == Root(index, id) && index[id].recordedAt < index[e].recordedAt
      ensures Root(index, e) == Root(index, id) && e != id && id !in Ancestors(index, e) ==>
                index[e].recordedAt < index[id].recordedAt
    {
      AncestorsShareRoot(index, e);
      if Root(index, e) == Root(index, id) {
        ChainLinear(index, e, id);
      }
    }
  }

  ghost function Newer<V>(index: map<RecordId, State<V>>, id: RecordId): set<RecordId>
    requires id in index
  {
    set e <- index | index[e].recordedAt > index[id].recordedAt
  }

  /** Every chain with an eligible record has a leaf. */
  lemma {:induction false} ChainHasLeaf<V>(
    index: map<RecordId, State<V>>, eligible: V -> bool, id: RecordId)
    returns (leaf: RecordId)
    requires WellLinked(index) && Eligible(index, eligible, id)
    ensures Leaf(index, eligible, leaf) && Root(index, leaf) == Root(index, id)
    decreases Newer(index, id)
  {
    if Leaf(index, eligible, id) {
      leaf := id;
    } else {
      var e :| e in index && Eligible(index, eligible, e) && id in Ancestors(index, e);
      AncestorsShareRoot(index, e);
      assert e in Newer(index, id) && e !in Newer(index, e);
      leaf := ChainHasLeaf(index, eligible, e);
    }
  }

  /** Two leaves are of two chains. */
  lemma LeavesOfTwoChains<V>(index: map<RecordId, State<V>>, eligible: V -> bool, a: RecordId, b: RecordId)
    requires WellLinked(index) && Leaf(index, eligible, a) && Leaf(index, eligible, b) && a != b
    ensures Root(index, a) != Root(index, b)
  {
    if Root(index, a) == Root(index, b) {
      ChainLinear(index, a, b);
    }
  }

  ghost predicate Ambiguous<V>(index: map<RecordId, State<V>>, eligible: V -> bool)
    requires WellLinked(index)
  {
    exists a <- index, b <- index ::
      Eligible(index, eligible, a) && Eligible(index, eligible, b) && Root(index, a) != Root(index, b)
  }

  datatype ResolveError = InvalidGraph(error: GraphError) | AmbiguousResult

  function Visible<V>(states: seq<State<V>>, knownAsOf: Option<nat>): (visible: seq<State<V>>)
    ensures forall s <- visible :: s in states && (knownAsOf.Some? ==> s.recordedAt <= knownAsOf.value)
    ensures forall s <- states :: knownAsOf.None? || s.recordedAt <= knownAsOf.value ==> s in visible
  {
    if states == [] then []
    else
      var n := |states| - 1;
      Visible(states[..n], knownAsOf)
      + if knownAsOf.None? || states[n].recordedAt <= knownAsOf.value then [states[n]] else []
  }

  /** What a resolution over a valid graph must be: there is only one such answer. */
  ghost predicate Resolves<V>(
    index: map<RecordId, State<V>>, eligible: V -> bool, result: Result<Option<State<V>>, ResolveError>)
    requires WellLinked(index)
  {
    match result
    case Err(error) => error == AmbiguousResult && Ambiguous(index, eligible)
    case Ok(None) => forall id <- index :: !Eligible(index, eligible, id)
    case Ok(Some(state)) =>
      && !Ambiguous(index, eligible)
      && Eligible(index, eligible, state.id) && index[state.id] == state
      && forall e <- index :: Eligible(index, eligible, e) && e != state.id ==> index[e].recordedAt < state.recordedAt
  }

  lemma ResolutionIsUnique<V>(
    index: map<RecordId, State<V>>, eligible: V -> bool,
    first: Result<Option<State<V>>, ResolveError>, second: Result<Option<State<V>>, ResolveError>)
    requires WellLinked(index) && Resolves(index, eligible, first) && Resolves(index, eligible, second)
    ensures first == second
  {
    if first.Ok? && first.value.Some? && second.Ok? && second.value.Some? {
      var a, b := first.value.value.id, second.value.value.id;
      assert a in index && b in index;
    }
  }

  /** Adds to the hidden set every eligible record that `start` supersedes, directly or not. */
  method HideAncestors<V(==)>(
    index: map<RecordId, State<V>>, start: RecordId, eligibleIds: set<RecordId>, hidden: set<RecordId>)
    returns (result: set<RecordId>)
    requires WellLinked(index) && start in index
    ensures result == hidden + Ancestors(index, start) * eligibleIds
  {
    result := hidden;
    var current := index[start].supersedes;
    while current.Some?
      invariant current.Some? ==> current.value in index
      invariant hidden + Ancestors(index, start) * eligibleIds
             == result + (if current.None? then {} else {current.value} + Ancestors(index, current.value)) * eligibleIds
      decreases if current.None? then -1 else index[current.value].recordedAt
    {
      if current.value in eligibleIds {
        result := result + {current.value};
      }
      current := index[current.value].supersedes;
    }
  }

  /**
   What was known at a cutoff about an eligible time. The answer is the newest eligible record when
   one chain holds any, nothing when no chain does, and an error when two chains do.
   */
  method ResolveTemporalState<V(==)>(states: seq<State<V>>, knownAsOf: Option<nat>, eligible: V -> bool)
    returns (result: Result<Option<State<V>>, ResolveError>)
    ensures result.Err? && result.error.InvalidGraph? <==> !ValidGraph(Visible(states, knownAsOf))
    ensures ValidGraph(Visible(states, knownAsOf)) ==> Resolves(Index(Visible(states, knownAsOf)), eligible, result)
  {
    var visible := Visible(states, knownAsOf);
    var validation := ValidateVisibleGraph(visible);
    if validation.Err? {
      return Err(InvalidGraph(validation.error));
    }
    var graph := validation.value;
    var index := graph.indexed;
    var eligibleIds := set id <- index | eligible(index[id].value);
    var hidden := HideSuperseded(graph, eligibleIds);
    HiddenAreNotLeaves(graph, eligible, eligibleIds, hidden);
    var leaves := Collect(graph, eligibleIds - hidden);
    LeavesDecide(index, eligible, leaves);
    if |leaves| > 1 {
      return Err(AmbiguousResult);
    }
    return Ok(if leaves == [] then None else Some(index[leaves[0]]));
  }

  /** The eligible ancestors of the eligible records among the first `n`. */
  ghost function HiddenBy<V>(
    index: map<RecordId, State<V>>, order: seq<RecordId>, eligibleIds: set<RecordId>): set<RecordId>
    requires WellLinked(index) && forall id <- order :: id in index
  {
    if order == [] then {}
    else
      var last := order[|order| - 1];
      HiddenBy(index, order[..|order| - 1], eligibleIds)
      + if last in eligibleIds then Ancestors(index, last) * eligibleIds else {}
  }

  lemma {:induction false} HiddenByAny<V>(
    index: map<RecordId, State<V>>, order: seq<RecordId>, eligibleIds: set<RecordId>, x: RecordId)
    requires WellLinked(index) && forall id <- order :: id in index
    ensures x in HiddenBy(index, order, eligibleIds)
            <==> x in eligibleIds && exists e <- order :: e in eligibleIds && x in Ancestors(index, e)
  {
    if order == [] {
    } else {
      HiddenByAny(index, order[..|order| - 1], eligibleIds, x);
      assert order == order[..|order| - 1] + [order[|order| - 1]];
    }
  }

  method HideSuperseded<V(==)>(graph: Graph<V>, eligibleIds: set<RecordId>) returns (hidden: set<RecordId>)
    requires Enumerates(graph) && WellLinked(graph.indexed)
    ensures hidden == HiddenBy(graph.indexed, graph.order, eligibleIds)
  {
    hidden := {};
    var i := 0;
    while i < |graph.order|
      invariant 0 <= i <= |graph.order|
      invariant hidden == HiddenBy(graph.indexed, graph.order[..i], eligibleIds)
    {
      assert graph.order[..i + 1][..i] == graph.order[..i];
      if graph.order[i] in eligibleIds {
        hidden := HideAncestors(graph.indexed, graph.order[i], eligibleIds, hidden);
      }
      i := i + 1;
    }
    assert graph.order[..i] == graph.order;
  }

  /** The chosen records, each once. */
  method Collect<V(==)>(graph: Graph<V>, chosen: set<RecordId>) returns (ids: seq<RecordId>)
    requires Enumerates(graph) && chosen <= graph.indexed.Keys
    ensures forall x :: x in ids <==> x in chosen
    ensures forall a, b :: 0 <= a < b < |ids| ==> ids[a] != ids[b]
  {
    ids := [];
    var i := 0;
    while i < |graph.order|
      invariant 0 <= i <= |graph.order|
      invariant forall x :: x in ids <==> x in graph.order[..i] && x in chosen
      invariant forall a, b :: 0 <= a < b < |ids| ==> ids[a] != ids[b]
    {
      if graph.order[i] in chosen {
        ids := ids + [graph.order[i]];
      }
      i := i + 1;
    }
  }

  lemma HiddenAreNotLeaves<V>(graph: Graph<V>, eligible: V -> bool, eligibleIds: set<RecordId>, hidden: set<RecordId>)
    requires Enumerates(graph) && WellLinked(graph.indexed)
    requires forall x :: x in eligibleIds <==> Eligible(graph.indexed, eligible, x)
    requires hidden == HiddenBy(graph.indexed, graph.order, eligibleIds)
    ensures forall x :: x in eligibleIds - hidden <==> Leaf(graph.indexed, eligible, x)
  {
    forall x ensures x in eligibleIds - hidden <==> Leaf(graph.indexed, eligible, x) {
      HiddenByAny(graph.indexed, graph.order, eligibleIds, x);
    }
  }

  /** The leaves, each listed once, decide the answer. */
  lemma LeavesDecide<V>(index: map<RecordId, State<V>>, eligible: V -> bool, leaves: seq<RecordId>)
    requires WellLinked(index)
    requires forall x :: x in leaves <==> Leaf(index, eligible, x)
    requires forall a, b :: 0 <= a < b < |leaves| ==> leaves[a] != leaves[b]
    ensures |leaves| > 1 ==> Ambiguous(index, eligible)
    ensures leaves == [] ==> Resolves(index, eligible, Ok(None))
    ensures |leaves| == 1 ==> leaves[0] in index && Resolves(index, eligible, Ok(Some(index[leaves[0]])))
  {
    if |leaves| > 1 {
      assert leaves[0] in leaves && leaves[1] in leaves;
      LeavesOfTwoChains(index, eligible, leaves[0], leaves[1]);
    } else {
      forall e <- index | Eligible(index, eligible, e)
        ensures |leaves| == 1 && leaves[0] in index && Root(index, e) == Root(index, leaves[0])
      {
        var leaf := ChainHasLeaf(index, eligible, e);
        assert leaf in leaves;
      }
      if |leaves| == 1 {
        assert leaves[0] in leaves;
        LeafIsNewest(index, eligible, leaves[0]);
      }
    }
  }

  // ---- Cutoffs ----

  lemma VisibleCoherent<V>(states: seq<State<V>>, knownAsOf: Option<nat>)
    requires Coherent(states)
    ensures Coherent(Visible(states, knownAsOf))
  {
    var visible := Visible(states, knownAsOf);
    CoherentIndexed(states);
    forall i, j | 0 <= i < j < |visible| && RecordKey(visible[i]) == RecordKey(visible[j])
      ensures visible[i] == visible[j]
    {
      assert visible[i] in states && visible[j] in states;
    }
  }

  /** One identity in the index of the visible records and in that of all. */
  lemma VisibleEntry<V>(states: seq<State<V>>, knownAsOf: Option<nat>, id: RecordId)
    requires Coherent(states)
    ensures id in Index(Visible(states, knownAsOf)) <==>
              id in Index(states) && (knownAsOf.None? || Index(states)[id].recordedAt <= knownAsOf.value)
    ensures id in Index(Visible(states, knownAsOf)) ==> Index(Visible(states, knownAsOf))[id] == Index(states)[id]
  {
    var visible := Visible(states, knownAsOf);
    CoherentIndexed(states);
    VisibleCoherent(states, knownAsOf);
    if id in Index(visible) {
      IndexedById(visible);
      assert Index(visible)[id] in states;
    }
    if id in Index(states) && (knownAsOf.None? || Index(states)[id].recordedAt <= knownAsOf.value) {
      IndexedById(states);
      CoherentIndexed(visible);
      assert Index(states)[id] in visible;
    }
  }

  lemma VisibleIndex<V>(states: seq<State<V>>, knownAsOf: Option<nat>)
    requires Coherent(states)
    ensures Coherent(Visible(states, knownAsOf))
    ensures forall id :: id in Index(Visible(states, knownAsOf)) <==>
                           id in Index(states) && (knownAsOf.None? || Index(states)[id].recordedAt <= knownAsOf.value)
    ensures forall id <- Index(Visible(states, knownAsOf)) :: Index(Visible(states, knownAsOf))[id] == Index(states)[id]
  {
    VisibleCoherent(states, knownAsOf);
    forall id
      ensures id in Index(Visible(states, knownAsOf)) <==>
                id in Index(states) && (knownAsOf.None? || Index(states)[id].recordedAt <= knownAsOf.value)
      ensures id in Index(Visible(states, knownAsOf)) ==> Index(Visible(states, knownAsOf))[id] == Index(states)[id]
    {
      VisibleEntry(states, knownAsOf, id);
    }
  }

  /** A graph that is valid with no cutoff is valid at every cutoff: what a record supersedes is known before it. */
  lemma ValidAtEveryCutoff<V>(states: seq<State<V>>, knownAsOf: Option<nat>)
    requires ValidGraph(states)
    ensures ValidGraph(Visible(states, knownAsOf))
  {
    VisibleIndex(states, knownAsOf);
    var index, visible := Index(states), Index(Visible(states, knownAsOf));
    forall id <- visible ensures visible[id].id == id && LinkOk(visible, id) {
      assert LinkOk(index, id);
    }
  }

  /** Records that become known after a cutoff do not change what is visible at it. */
  lemma {:induction false} LaterRecordsInvisible<V>(states: seq<State<V>>, later: seq<State<V>>, knownAsOf: nat)
    requires forall s <- later :: s.recordedAt > knownAsOf
    ensures Visible(states + later, Some(knownAsOf)) == Visible(states, Some(knownAsOf))
  {
    if later == [] {
      assert states + later == states;
    } else {
      var n := |later| - 1;
      assert (states + later)[..|states| + n] == states + later[..n];
      assert later[n] in later;
      LaterRecordsInvisible(states, later[..n], knownAsOf);
    }
  }

  // ---- Knowledge leaves ----

  /** The newest record of each chain, whatever it says. */
  method ResolveKnowledgeLeaf<V(==)>(states: seq<State<V>>, knownAsOf: Option<nat>)
    returns (result: Result<Option<State<V>>, ResolveError>)
    ensures result.Err? && result.error.InvalidGraph? <==> !ValidGraph(Visible(states, knownAsOf))
    ensures ValidGraph(Visible(states, knownAsOf)) ==> Resolves(Index(Visible(states, knownAsOf)), _ => true, result)
  {
    var validation := ValidateVisibleGraph(Visible(states, knownAsOf));
    if validation.Err? {
      return Err(InvalidGraph(validation.error));
    }
    var graph := validation.value;
    var index := graph.indexed;
    ghost var anything := (_: V) => true;
    var superseded := set id <- index | index[id].supersedes.Some? :: index[id].supersedes.value;
    forall x ensures x in index.Keys - superseded <==> Leaf(index, anything, x) {
      if x in index {
        UnsupersededIsLeaf(index, anything, x);
      }
    }
    var leaves := Collect(graph, index.Keys - superseded);
    LeavesDecide(index, anything, leaves);
    if |leaves| > 1 {
      return Err(AmbiguousResult);
    }
    return Ok(if leaves == [] then None else Some(index[leaves[0]]));
  }

  /** When everything is eligible, the leaves are the records nothing supersedes. */
  lemma UnsupersededIsLeaf<V>(index: map<RecordId, State<V>>, anything: V -> bool, id: RecordId)
    requires WellLinked(index) && id in index && forall v: V :: anything(v)
    ensures Leaf(index, anything, id) <==> forall s <- index :: index[s].supersedes != Some(id)
  {
    if forall s <- index :: index[s].supersedes != Some(id) {
      forall e <- index ensures id !in Ancestors(index, e) {
        NotAncestor(index, e, id);
      }
    } else {
      var s :| s in index && index[s].supersedes == Some(id);
      assert id in Ancestors(index, s) && Eligible(index, anything, s);
    }
  }

  lemma {:induction false} NotAncestor<V>(index: map<RecordId, State<V>>, e: RecordId, id: RecordId)
    requires WellLinked(index) && e in index && forall s <- index :: index[s].supersedes != Some(id)
    ensures id !in Ancestors(index, e)
    decreases index[e].recordedAt
  {
    if index[e].supersedes.Some? {
      NotAncestor(index, index[e].supersedes.value, id);
    }
  }
}
