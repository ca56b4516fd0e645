/** The option chain as it was known at a cutoff, with corrections applied. */
module OptionChain {
  import opened Wrappers
  import opened Dictionaries
  import opened CorrectionGraph
  import opened Sorting

  datatype Side = Call | Put

  datatype ContractId = ContractId(hash: nat)

  datatype Contract = Contract(id: ContractId, expiry: int, strike: real, side: Side)

  /** Knowledge times are the moments a quote became available, and by which evidence. */
  datatype Quote = Quote(
    id: EventId,
    contract: Contract,
    eventType: nat,
    version: nat,
    mapping: nat,
    exchangeAt: int,
    availableAt: int,
    receivedAt: Option<int>,
    defensible: bool,
    providerSequence: Option<nat>,
    eventOrder: Option<nat>,
    supersedes: Option<EventId>,
    prices: nat)

  /** A half-open market interval and a half-open interval of knowledge. */
  datatype Validity = Validity(from: int, until: Option<int>, recordedAt: int, supersededAt: Option<int>) {
    predicate EffectiveAt(market: int, known: Option<int>) {
      && from <= market && (until.None? || market < until.value)
      && (known.None? || (recordedAt <= known.value && (supersededAt.None? || known.value < supersededAt.value)))
    }
  }

  datatype ContractVersion = ContractVersion(id: nat, contract: ContractId, validity: Validity, details: nat)

  datatype Mapping = Mapping(id: nat, version: nat, validity: Validity, details: nat)

  datatype Assessment = Assessment(
    id: nat, event: EventId, policy: nat, policyVersion: nat, accepted: bool, recordedAt: int)

  datatype Query = Query(
    marketAsOf: int, knownAsOf: Option<int>, policy: nat, policyVersion: nat, requireDefensible: bool)

  // ---- Visibility ----

  predicate Aligned(quote: Quote, versions: map<nat, ContractVersion>, mappings: map<nat, Mapping>) {
    && quote.version in versions && quote.mapping in mappings
    && versions[quote.version].contract == quote.contract.id
    && mappings[quote.mapping].version == versions[quote.version].id
  }

  /** Stamped by the market cutoff and, when there is one, available by the knowledge cutoff. */
  predicate Timely(quote: Quote, query: Query) {
    quote.exchangeAt <= query.marketAsOf && (query.knownAsOf.None? || quote.availableAt <= query.knownAsOf.value)
  }

  predicate Known(quote: Quote, query: Query) {
    Timely(quote, query) && (query.knownAsOf.Some? && query.requireDefensible ==> quote.defensible)
  }

  predicate Candidate(assessment: Assessment, event: EventId, query: Query) {
    && assessment.event == event && assessment.policy == query.policy && assessment.policyVersion == query.policyVersion
    && (query.knownAsOf.None? || assessment.recordedAt <= query.knownAsOf.value)
  }

  predicate AssessedLater(a: Assessment, b: Assessment) {
    a.recordedAt > b.recordedAt || (a.recordedAt == b.recordedAt && a.id > b.id)
  }

  /** The candidate recorded last, the first one listed among equals. */
  function SelectedAssessment(assessments: seq<Assessment>, event: EventId, query: Query): Option<Assessment> {
    if assessments == [] then None
    else
      var n := |assessments| - 1;
      var before := SelectedAssessment(assessments[..n], event, query);
      if Candidate(assessments[n], event, query) && (before.None? || AssessedLater(assessments[n], before.value))
      then Some(assessments[n]) else before
  }

  predicate Visible(
    quote: Quote, versions: map<nat, ContractVersion>, mappings: map<nat, Mapping>, assessments: seq<Assessment>,
    query: Query)
  {
    && Aligned(quote, versions, mappings)
    && versions[quote.version].validity.EffectiveAt(query.marketAsOf, query.knownAsOf)
    && mappings[quote.mapping].validity.EffectiveAt(query.marketAsOf, query.knownAsOf)
    && Known(quote, query)
    && var selected := SelectedAssessment(assessments, quote.id, query);
       selected.Some? && selected.value.accepted
  }

  /** Eligible as the target of a correction: known, and valid when it was stamped and became available. */
  predicate HistoricallyEligible(
    quote: Quote, versions: map<nat, ContractVersion>, mappings: map<nat, Mapping>, query: Query)
  {
    && Aligned(quote, versions, mappings)
    && Known(quote, query)
    && versions[quote.version].validity.EffectiveAt(quote.exchangeAt, Some(quote.availableAt))
    && mappings[quote.mapping].validity.EffectiveAt(quote.exchangeAt, Some(quote.availableAt))
  }

  /** The visible quotes among some, each once, in first-seen order. */
  function VisibleQuotes(
    quotes: seq<Quote>, versions: map<nat, ContractVersion>, mappings: map<nat, Mapping>,
    assessments: seq<Assessment>, query: Query): seq<Quote>
  {
    if quotes == [] then []
    else
      var n := |quotes| - 1;
      var before := VisibleQuotes(quotes[..n], versions, mappings, assessments, query);
      if quotes[n] !in quotes[..n] && Visible(quotes[n], versions, mappings, assessments, query) then
        before + [quotes[n]]
      else before
  }

  /** The quotes a correction may target, by identity. */
  function EligibleTargets(
    quotes: seq<Quote>, versions: map<nat, ContractVersion>, mappings: map<nat, Mapping>, query: Query):
    map<EventId, Quote>
  {
    if quotes == [] then map[]
    else
      var n := |quotes| - 1;
      var before := EligibleTargets(quotes[..n], versions, mappings, query);
      if HistoricallyEligible(quotes[n], versions, mappings, query) then before[quotes[n].id := quotes[n]] else before
  }

  // ---- The correction graph ----

  datatype GraphError =
    | SelfCorrection(source: EventId)
    | NoEligibleTarget(source: EventId, target: EventId)
    | OtherContract(source: EventId)
    | OtherEventType(source: EventId)
    | AmbiguousBranch(target: EventId)
    | CorrectionCycle(event: EventId)

  /** What is wrong with one correction on its own, in the order it is checked. */
  function Defect(source: Quote, targets: map<EventId, Quote>): Option<GraphError> {
    if source.supersedes.None? then None
    else
      var target := source.supersedes.value;
      if target == source.id then Some(SelfCorrection(source.id))
      else if target !in targets then Some(NoEligibleTarget(source.id, target))
      else if targets[target].contract.id != source.contract.id then Some(OtherContract(source.id))
      else if targets[target].eventType != source.eventType then Some(OtherEventType(source.id))
      else None
  }

  ghost predicate DistinctIds(quotes: seq<Quote>) {
    forall i, j :: 0 <= i < j < |quotes| ==> quotes[i].id != quotes[j].id
  }

  /** The edges of the visible corrections. */
  function EdgesOf(quotes: seq<Quote>): Edges {
    if quotes == [] then map[]
    else
      var n := |quotes| - 1;
      if quotes[n].supersedes.Some? then EdgesOf(quotes[..n])[quotes[n].id := quotes[n].supersedes.value]
      else EdgesOf(quotes[..n])
  }

  lemma {:induction false} EdgesHold(quotes: seq<Quote>)
    requires DistinctIds(quotes)
    ensures forall q <- quotes :: q.supersedes.Some? ==>
              q.id in EdgesOf(quotes) && EdgesOf(quotes)[q.id] == q.supersedes.value
    ensures forall id <- EdgesOf(quotes) ::
              exists q <- quotes :: q.id == id && q.supersedes == Some(EdgesOf(quotes)[id])
  {
    if quotes == [] {
    } else {
      var n := |quotes| - 1;
      EdgesHold(quotes[..n]);
      forall q <- quotes[..n] ensures q.id != quotes[n].id {
        var i :| 0 <= i < n && quotes[i] == q;
      }
      forall id <- EdgesOf(quotes)
        ensures exists q <- quotes :: q.id == id && q.supersedes == Some(EdgesOf(quotes)[id])
      {
        if id == quotes[n].id && quotes[n].supersedes.Some? {
          assert quotes[n] in quotes;
        } else {
          assert id in EdgesOf(quotes[..n]) && EdgesOf(quotes)[id] == EdgesOf(quotes[..n])[id];
          var q :| q in quotes[..n] && q.id == id && q.supersedes == Some(EdgesOf(quotes[..n])[id]);
          assert q in quotes;
        }
      }
    }
  }

  /** Every correction has a fitting eligible target, none is corrected twice, and corrections do not circle. */
  ghost predicate GraphValid(visible: seq<Quote>, targets: map<EventId, Quote>) {
    && (forall q <- visible :: Defect(q, targets) == None)
    && OneToOne(EdgesOf(visible))
    && Acyclic(EdgesOf(visible))
  }

  predicate Contested(edges: Edges, target: EventId) {
    exists a <- edges, b <- edges :: a != b && edges[a] == target && edges[b] == target
  }

  /**
   The error an invalid graph raises: the defect of the correction with the least identity, else the
   least contested target, else the least event on a cycle.
   */
  ghost predicate Raises(visible: seq<Quote>, targets: map<EventId, Quote>, error: GraphError) {
    var edges := EdgesOf(visible);
    if exists q <- visible :: Defect(q, targets).Some? then
      exists q <- visible ::
        && Defect(q, targets) == Some(error)
        && forall other <- visible :: Defect(other, targets).Some? ==> q.id.rank <= other.id.rank
    else if !OneToOne(edges) then
      && error.AmbiguousBranch? && Contested(edges, error.target)
      && forall a <- edges :: Contested(edges, edges[a]) ==> error.target.rank <= edges[a].rank
    else
      && error.CorrectionCycle? && error.event in edges && OnCycle(edges, error.event)
      && forall id <- edges :: OnCycle(edges, id) ==> error.event.rank <= id.rank
  }

  lemma RaisesOneError(visible: seq<Quote>, targets: map<EventId, Quote>, first: GraphError, second: GraphError)
    requires DistinctIds(visible) && Raises(visible, targets, first) && Raises(visible, targets, second)
    ensures first == second
  {
    if exists q <- visible :: Defect(q, targets).Some? {
      var a :| a in visible && Defect(a, targets) == Some(first)
               && forall other <- visible :: Defect(other, targets).Some? ==> a.id.rank <= other.id.rank;
      var b :| b in visible && Defect(b, targets) == Some(second)
               && forall other <- visible :: Defect(other, targets).Some? ==> b.id.rank <= other.id.rank;
      assert a.id == b.id;
      var i :| 0 <= i < |visible| && visible[i] == a;
      var j :| 0 <= j < |visible| && visible[j] == b;
    }
  }

  // ---- Resolving the graph ----

  function Corrections(quotes: seq<Quote>): (corrections: seq<Quote>)
    ensures forall q <- corrections :: q in quotes && q.supersedes.Some?
    ensures forall q <- quotes :: q.supersedes.Some? ==> q in corrections
  {
    if quotes == [] then []
    else
      var n := |quotes| - 1;
      Corrections(quotes[..n]) + if quotes[n].supersedes.Some? then [quotes[n]] else []
  }

  predicate ById(a: Quote, b: Quote) {
    a.id.rank < b.id.rank
  }

  lemma {:induction false} CorrectionsDistinct(quotes: seq<Quote>)
    requires DistinctIds(quotes)
    ensures DistinctIds(Corrections(quotes))
  {
    if quotes == [] {
    } else {
      var n := |quotes| - 1;
      CorrectionsDistinct(quotes[..n]);
      forall q <- quotes[..n] ensures q.id != quotes[n].id {
        var i :| 0 <= i < n && quotes[i] == q;
      }
    }
  }

  /** In identity order: the visible corrections, each once. */
  ghost predicate InOrder(visible: seq<Quote>, corrections: seq<Quote>) {
    && (forall q :: q in corrections <==> q in visible && q.supersedes.Some?)
    && (forall i, j :: 0 <= i < j < |corrections| ==> corrections[i].id.rank < corrections[j].id.rank)
  }

  /** A sorted list with the elements of a list of distinct identities has distinct identities too. */
  lemma SortedDistinct(items: seq<Quote>, sorted: seq<Quote>)
    requires DistinctIds(items) && multiset(sorted) == multiset(items) && Sorted(sorted, ById)
    ensures forall i, j :: 0 <= i < j < |sorted| ==> sorted[i].id.rank < sorted[j].id.rank
  {
    forall i, j | 0 <= i < j < |sorted| ensures sorted[i].id.rank < sorted[j].id.rank {
      if sorted[i].id == sorted[j].id {
        assert sorted[i] in multiset(sorted) && sorted[j] in multiset(sorted);
        assert sorted[i] in items && sorted[j] in items;
        assert sorted[i] == sorted[j];
        TwiceInSequence(sorted, i, j);
        OnceWhenDistinct(items, sorted[i]);
      }
      assert !ById(sorted[j], sorted[i]);
    }
  }

  lemma TwiceInSequence(items: seq<Quote>, i: int, j: int)
    requires 0 <= i < j < |items| && items[i] == items[j]
    ensures multiset(items)[items[i]] >= 2
  {
    assert items == items[..j] + [items[j]] + items[j + 1..];
    assert items[..j][i] in multiset(items[..j]);
  }

  lemma {:induction false} OnceWhenDistinct(items: seq<Quote>, item: Quote)
    requires DistinctIds(items)
    ensures multiset(items)[item] <= 1
  {
    if items == [] {
    } else {
      var n := |items| - 1;
      OnceWhenDistinct(items[..n], item);
      assert items == items[..n] + [items[n]];
      if item == items[n] {
        assert item !in items[..n];
      }
    }
  }

  lemma SortedCorrections(visible: seq<Quote>)
    requires DistinctIds(visible)
    ensures InOrder(visible, SortBy(Corrections(visible), ById))
  {
    var corrections := Corrections(visible);
    CorrectionsDistinct(visible);
    SortSorts(corrections, ById);
    SortKeepsMembers(corrections, ById);
    SortedDistinct(corrections, SortBy(corrections, ById));
  }

  lemma EdgeIsListed(visible: seq<Quote>, corrections: seq<Quote>, id: EventId)
    requires DistinctIds(visible) && InOrder(visible, corrections) && id in EdgesOf(visible)
    ensures id in EdgesOf(corrections) && EdgesOf(corrections)[id] == EdgesOf(visible)[id]
    ensures exists q <- corrections :: q.id == id
  {
    EdgesHold(visible);
    EdgesHold(corrections);
    var q :| q in visible && q.id == id && q.supersedes == Some(EdgesOf(visible)[id]);
    assert q in corrections;
  }

  lemma ListedIsEdge(visible: seq<Quote>, corrections: seq<Quote>, id: EventId)
    requires DistinctIds(visible) && InOrder(visible, corrections) && id in EdgesOf(corrections)
    ensures id in EdgesOf(visible)
  {
    EdgesHold(visible);
    EdgesHold(corrections);
    var q :| q in corrections && q.id == id && q.supersedes == Some(EdgesOf(corrections)[id]);
    assert q in visible;
  }

  lemma SameEdges(visible: seq<Quote>, corrections: seq<Quote>)
    requires DistinctIds(visible) && InOrder(visible, corrections)
    ensures EdgesOf(corrections) == EdgesOf(visible)
    ensures forall id <- EdgesOf(visible) :: exists q <- corrections :: q.id == id
  {
    var edges, listed := EdgesOf(visible), EdgesOf(corrections);
    forall id <- edges ensures id in listed && listed[id] == edges[id] && exists q <- corrections :: q.id == id {
      EdgeIsListed(visible, corrections, id);
    }
    forall id <- listed ensures id in edges {
      ListedIsEdge(visible, corrections, id);
    }
    assert listed.Keys == edges.Keys;
  }

  /** The identities of the corrections of one target. */
  function SourcesOf(corrections: seq<Quote>, target: EventId): seq<EventId> {
    if corrections == [] then []
    else
      var n := |corrections| - 1;
      SourcesOf(corrections[..n], target)
      + if corrections[n].supersedes == Some(target) then [corrections[n].id] else []
  }

  lemma {:induction false} SourcesMean(corrections: seq<Quote>, target: EventId)
    ensures forall id <- SourcesOf(corrections, target) ::
              exists q <- corrections :: q.id == id && q.supersedes == Some(target)
    ensures forall q <- corrections :: q.supersedes == Some(target) ==> q.id in SourcesOf(corrections, target)
  {
    if corrections == [] {
    } else {
      var n := |corrections| - 1;
      SourcesMean(corrections[..n], target);
      assert corrections[n] in corrections;
      forall id <- SourcesOf(corrections, target)
        ensures exists q <- corrections :: q.id == id && q.supersedes == Some(target)
      {
        if id in SourcesOf(corrections[..n], target) {
          var q :| q in corrections[..n] && q.id == id && q.supersedes == Some(target);
          assert q in corrections;
        }
      }
    }
  }

  lemma {:induction false} SourcesDiffer(corrections: seq<Quote>, target: EventId)
    requires DistinctIds(corrections)
    ensures forall i, j :: 0 <= i < j < |SourcesOf(corrections, target)| ==>
                             SourcesOf(corrections, target)[i] != SourcesOf(corrections, target)[j]
  {
    if corrections == [] {
    } else {
      var n := |corrections| - 1;
      SourcesDiffer(corrections[..n], target);
      SourcesMean(corrections[..n], target);
      forall id <- SourcesOf(corrections[..n], target) ensures id != corrections[n].id {
        var q :| q in corrections[..n] && q.id == id && q.supersedes == Some(target);
        var i :| 0 <= i < n && corrections[i] == q;
      }
      var front, whole := SourcesOf(corrections[..n], target), SourcesOf(corrections, target);
      forall i, j | 0 <= i < j < |whole| ensures whole[i] != whole[j] {
        if j == |front| {
          assert front[i] in front;
        }
      }
    }
  }

  /** A target is contested exactly when it has two sources. */
  lemma TwoSourcesContest(corrections: seq<Quote>, target: EventId)
    requires DistinctIds(corrections) && |SourcesOf(corrections, target)| > 1
    ensures Contested(EdgesOf(corrections), target)
  {
    var edges, sources := EdgesOf(corrections), SourcesOf(corrections, target);
    EdgesHold(corrections);
    SourcesMean(corrections, target);
    SourcesDiffer(corrections, target);
    assert sources[0] in sources && sources[1] in sources;
    var q :| q in corrections && q.id == sources[0] && q.supersedes == Some(target);
    var r :| r in corrections && r.id == sources[1] && r.supersedes == Some(target);
    assert edges[q.id] == target && edges[r.id] == target;
  }

  lemma ContestIsOfTwo(corrections: seq<Quote>, target: EventId)
    requires DistinctIds(corrections) && Contested(EdgesOf(corrections), target)
    ensures |SourcesOf(corrections, target)| > 1
  {
    var edges, sources := EdgesOf(corrections), SourcesOf(corrections, target);
    EdgesHold(corrections);
    SourcesMean(corrections, target);
    var a, b :| a in edges && b in edges && a != b && edges[a] == target && edges[b] == target;
    var q :| q in corrections && q.id == a && q.supersedes == Some(edges[a]);
    var r :| r in corrections && r.id == b && r.supersedes == Some(edges[b]);
    assert a in sources && b in sources;
  }

  lemma ContestedHasTwoSources(corrections: seq<Quote>, target: EventId)
    requires DistinctIds(corrections)
    ensures Contested(EdgesOf(corrections), target) <==> |SourcesOf(corrections, target)| > 1
  {
    if |SourcesOf(corrections, target)| > 1 {
      TwoSourcesContest(corrections, target);
    } else if Contested(EdgesOf(corrections), target) {
      ContestIsOfTwo(corrections, target);
    }
  }

  /** The index restricted to eligible quotes. */
  ghost predicate Restricts(
    index: map<EventId, Quote>, versions: map<nat, ContractVersion>, mappings: map<nat, Mapping>, query: Query,
    targets: map<EventId, Quote>)
  {
    forall id :: (id in targets <==> id in index && HistoricallyEligible(index[id], versions, mappings, query))
                 && (id in targets ==> targets[id] == index[id])
  }

  /** The checks of one correction, in order. */
  method CheckCorrection(
    source: Quote, index: map<EventId, Quote>, versions: map<nat, ContractVersion>, mappings: map<nat, Mapping>,
    query: Query,
    ghost targets: map<EventId, Quote>) returns (defect: Option<GraphError>)
    requires source.supersedes.Some? && Restricts(index, versions, mappings, query, targets)
    ensures defect == Defect(source, targets)
  {
    var target := source.supersedes.value;
    if target == source.id {
      return Some(SelfCorrection(source.id));
    }
    if target !in index || !HistoricallyEligible(index[target], versions, mappings, query) {
      return Some(NoEligibleTarget(source.id, target));
    }
    if source.contract.id != index[target].contract.id {
      return Some(OtherContract(source.id));
    }
    if source.eventType != index[target].eventType {
      return Some(OtherEventType(source.id));
    }
    return None;
  }

  /** The dictionary of sources by target, built by appending. */
  ghost predicate ListsSources(corrections: seq<Quote>, sources: map<EventId, seq<EventId>>) {
    forall t ::
        (t in sources <==> SourcesOf(corrections, t) != [])
          && (t in sources ==> sources[t] == SourcesOf(corrections, t))
  }

  lemma SourceListed(corrections: seq<Quote>, last: Quote, sources: map<EventId, seq<EventId>>)
    requires ListsSources(corrections, sources) && last.supersedes.Some?
    ensures
      var target := last.supersedes.value;
      ListsSources(
        corrections + [last],
        sources[target := (if target in sources then sources[target] else []) + [last.id]])
    ensures EdgesOf(corrections + [last]) == EdgesOf(corrections)[last.id := last.supersedes.value]
  {
    assert (corrections + [last])[..|corrections|] == corrections;
  }

  /** Checks the corrections one by one and links each to its target. */
  method LinkCorrections(
    corrections: seq<Quote>, index: map<EventId, Quote>, versions: map<nat, ContractVersion>,
    mappings: map<nat, Mapping>,
    query: Query, ghost targets: map<EventId, Quote>)
    returns (error: Option<GraphError>, edges: Edges, sources: map<EventId, seq<EventId>>)
    requires (forall q <- corrections :: q.supersedes.Some?) && Restricts(index, versions, mappings, query, targets)
    ensures error.None? ==> forall q <- corrections :: Defect(q, targets) == None
    ensures error.None? ==> edges == EdgesOf(corrections) && ListsSources(corrections, sources)
    ensures error.Some? ==> exists k: nat | k < |corrections| ::
                              && Defect(corrections[k], targets) == error
                              && forall j: nat | j < k :: Defect(corrections[j], targets) == None
  {
    edges, sources := map[], map[];
    var i := 0;
    while i < |corrections|
      invariant 0 <= i <= |corrections|
      invariant forall j: nat | j < i :: Defect(corrections[j], targets) == None
      invariant edges == EdgesOf(corrections[..i]) && ListsSources(corrections[..i], sources)
    {
      var source := corrections[i];
      error := CheckCorrection(source, index, versions, mappings, query, targets);
      if error.Some? {
        return;
      }
      var target := source.supersedes.value;
      SourceListed(corrections[..i], source, sources);
      TakeOneMore(corrections, i);
      edges := edges[source.id := target];
      sources := sources[target := (if target in sources then sources[target] else []) + [source.id]];
      i := i + 1;
    }
    assert corrections[..i] == corrections;
    error := None;
  }

  method Least(ids: set<EventId>) returns (least: EventId)
    requires ids != {}
    ensures least in ids && forall id <- ids :: least.rank <= id.rank
  {
    least :| least in ids;
    var rest := ids - {least};
    while rest != {}
      invariant least in ids && rest <= ids && forall id <- ids - rest :: least.rank <= id.rank
      decreases rest
    {
      var next :| next in rest;
      rest := rest - {next};
      if next.rank < least.rank {
        least := next;
      }
    }
  }

  /** The first correction found defective is the one with the least identity. */
  lemma FirstDefectRaised(visible: seq<Quote>, corrections: seq<Quote>, targets: map<EventId, Quote>, k: nat)
    requires InOrder(visible, corrections) && k < |corrections| && Defect(corrections[k], targets).Some?
    requires forall j: nat | j < k :: Defect(corrections[j], targets) == None
    ensures Raises(visible, targets, Defect(corrections[k], targets).value)
  {
    assert corrections[k] in corrections;
    forall other <- visible | Defect(other, targets).Some? ensures corrections[k].id.rank <= other.id.rank {
      assert other in corrections;
      var j :| 0 <= j < |corrections| && corrections[j] == other;
      assert !(j < k);
    }
  }

  /**
   The correction graph of the visible quotes: accepted exactly when it is valid, and then the
   superseded events are the targets of its edges; otherwise the error is the one it raises.
   */
  method ResolveCorrectionGraph(
    visible: seq<Quote>, index: map<EventId, Quote>, versions: map<nat, ContractVersion>, mappings: map<nat, Mapping>,
    query: Query, ghost targets: map<EventId, Quote>) returns (result: Result<set<EventId>, GraphError>)
    requires DistinctIds(visible) && Restricts(index, versions, mappings, query, targets)
    ensures result.Ok? <==> GraphValid(visible, targets)
    ensures result.Ok? ==> result.value == EdgesOf(visible).Values
    ensures result.Err? ==> Raises(visible, targets, result.error)
  {
    var corrections := SortBy(Corrections(visible), ById);
    SortedCorrections(visible);
    var error, edges, sources := LinkCorrections(corrections, index, versions, mappings, query, targets);
    if error.Some? {
      ghost var k: nat :| k < |corrections| && Defect(corrections[k], targets) == error
                          && forall j: nat | j < k :: Defect(corrections[j], targets) == None;
      FirstDefectRaised(visible, corrections, targets, k);
      assert corrections[k] in visible;
      return Err(error.value);
    }
    SameEdges(visible, corrections);
    NoDefects(visible, corrections, targets);
    result := ResolveEdges(visible, corrections, edges, sources, targets);
  }

  /** Branches and cycles of corrections that fit their targets. */
  method ResolveEdges(
    ghost visible: seq<Quote>, corrections: seq<Quote>, edges: Edges, sources: map<EventId, seq<EventId>>,
    ghost targets: map<EventId, Quote>) returns (result: Result<set<EventId>, GraphError>)
    requires DistinctIds(visible) && InOrder(visible, corrections) && forall q <- visible :: Defect(q, targets) == None
    requires edges == EdgesOf(corrections) == EdgesOf(visible) && ListsSources(corrections, sources)
    ensures result.Ok? <==> GraphValid(visible, targets)
    ensures result.Ok? ==> result.value == EdgesOf(visible).Values
    ensures result.Err? ==> Raises(visible, targets, result.error)
  {
    var contested := FindContested(corrections, sources);
    if contested.Some? {
      ContestedRaised(visible, targets, contested.value);
      return Err(AmbiguousBranch(contested.value));
    }
    var cyclic := FindCycle(edges, corrections);
    if cyclic.Some? {
      CycleRaised(visible, corrections, targets, cyclic.value);
      return Err(CorrectionCycle(corrections[cyclic.value].id));
    }
    NoCycles(visible, corrections);
    return Ok(edges.Values);
  }

  lemma ContestedRaised(visible: seq<Quote>, targets: map<EventId, Quote>, target: EventId)
    requires forall q <- visible :: Defect(q, targets) == None
    requires Contested(EdgesOf(visible), target) && forall t :: Contested(EdgesOf(visible), t) ==> target.rank <= t.rank
    ensures Raises(visible, targets, AmbiguousBranch(target)) && !GraphValid(visible, targets)
  {
  }

  lemma NoCycles(visible: seq<Quote>, corrections: seq<Quote>)
    requires DistinctIds(visible) && InOrder(visible, corrections)
    requires forall j: nat | j < |corrections| :: !OnCycle(EdgesOf(visible), corrections[j].id)
    ensures Acyclic(EdgesOf(visible))
  {
    forall id | id in EdgesOf(visible) ensures !OnCycle(EdgesOf(visible), id) {
      var j := EdgeStartsAt(visible, corrections, id);
    }
  }

  /** The least target that has two sources. */
  method FindContested(corrections: seq<Quote>, sources: map<EventId, seq<EventId>>) returns (target: Option<EventId>)
    requires forall i, j :: 0 <= i < j < |corrections| ==> corrections[i].id.rank < corrections[j].id.rank
    requires ListsSources(corrections, sources)
    ensures target.None? <==> OneToOne(EdgesOf(corrections))
    ensures target.Some? ==>
              && Contested(EdgesOf(corrections), target.value)
              && forall t :: Contested(EdgesOf(corrections), t) ==> target.value.rank <= t.rank
  {
    var ambiguous := set t <- sources | |sources[t]| > 1;
    AmbiguousAreContested(corrections, sources, ambiguous);
    if ambiguous == {} {
      return None;
    }
    var least := Least(ambiguous);
    return Some(least);
  }

  /** The first correction, in identity order, that lies on a cycle. */
  method FindCycle(edges: Edges, corrections: seq<Quote>) returns (position: Option<nat>)
    requires OneToOne(edges)
    ensures position.None? ==> forall j: nat | j < |corrections| :: !OnCycle(edges, corrections[j].id)
    ensures position.Some? ==>
              && position.value < |corrections| && OnCycle(edges, corrections[position.value].id)
              && forall j: nat | j < position.value :: !OnCycle(edges, corrections[j].id)
  {
    var i := 0;
    while i < |corrections|
      invariant 0 <= i <= |corrections|
      invariant forall j: nat | j < i :: !OnCycle(edges, corrections[j].id)
    {
      var repeated := WalkFrom(edges, corrections[i].id);
      if repeated.Some? {
        return Some(i);
      }
      i := i + 1;
    }
    return None;
  }

  lemma NoDefects(visible: seq<Quote>, corrections: seq<Quote>, targets: map<EventId, Quote>)
    requires InOrder(visible, corrections) && forall q <- corrections :: Defect(q, targets) == None
    ensures forall q <- visible :: Defect(q, targets) == None
  {
    forall q <- visible ensures Defect(q, targets) == None {
      if q.supersedes.Some? {
        assert q in corrections;
      }
    }
  }

  lemma AmbiguousAreContested(corrections: seq<Quote>, sources: map<EventId, seq<EventId>>, ambiguous: set<EventId>)
    requires forall i, j :: 0 <= i < j < |corrections| ==> corrections[i].id.rank < corrections[j].id.rank
    requires ListsSources(corrections, sources) && ambiguous == set t <- sources | |sources[t]| > 1
    ensures forall t :: t in ambiguous <==> Contested(EdgesOf(corrections), t)
    ensures ambiguous == {} <==> OneToOne(EdgesOf(corrections))
  {
    forall t ensures t in ambiguous <==> Contested(EdgesOf(corrections), t) {
      ContestedHasTwoSources(corrections, t);
    }
    var edges := EdgesOf(corrections);
    if !OneToOne(edges) {
      var a, b :| a in edges && b in edges && edges[a] == edges[b] && a != b;
      assert Contested(edges, edges[a]);
    }
    if t :| t in ambiguous {
      assert Contested(edges, t);
    }
  }

  /** Every edge starts at a correction. */
  lemma EdgeStartsAt(visible: seq<Quote>, corrections: seq<Quote>, id: EventId) returns (j: nat)
    requires DistinctIds(visible) && InOrder(visible, corrections) && id in EdgesOf(visible)
    ensures j < |corrections| && corrections[j].id == id
  {
    SameEdges(visible, corrections);
    var q :| q in corrections && q.id == id;
    j :| 0 <= j < |corrections| && corrections[j] == q;
  }

  lemma CorrectionHasEdge(visible: seq<Quote>, corrections: seq<Quote>, i: nat)
    requires DistinctIds(visible) && InOrder(visible, corrections) && i < |corrections|
    ensures corrections[i].id in EdgesOf(visible)
  {
    EdgesHold(visible);
    assert corrections[i] in corrections;
  }

  lemma CycleRaised(visible: seq<Quote>, corrections: seq<Quote>, targets: map<EventId, Quote>, i: nat)
    requires DistinctIds(visible) && InOrder(visible, corrections) && i < |corrections|
    requires (forall q <- visible :: Defect(q, targets) == None) && OneToOne(EdgesOf(visible))
    requires OnCycle(EdgesOf(visible), corrections[i].id)
    requires forall j: nat | j < i :: !OnCycle(EdgesOf(visible), corrections[j].id)
    ensures Raises(visible, targets, CorrectionCycle(corrections[i].id)) && !GraphValid(visible, targets)
  {
    CorrectionHasEdge(visible, corrections, i);
    forall id | id in EdgesOf(visible) && OnCycle(EdgesOf(visible), id) ensures corrections[i].id.rank <= id.rank {
      var j := EdgeStartsAt(visible, corrections, id);
      assert !(j < i);
    }
  }

  // ---- No contract is lost ----

  /** A visible quote that is eligible as a target is the target of its identity. */
  ghost predicate Consistent(visible: seq<Quote>, targets: map<EventId, Quote>) {
    forall q <- visible :: q.id in targets ==> targets[q.id] == q
  }

  /** Corrections stay on one contract, however long their chain. */
  lemma {:induction false} WalkKeepsContract(
    visible: seq<Quote>, targets: map<EventId, Quote>, top: Quote, steps: nat, q: Quote)
    requires DistinctIds(visible) && GraphValid(visible, targets) && Consistent(visible, targets)
    requires top in visible && q in visible && Walk(EdgesOf(visible), top.id, steps) == Some(q.id)
    ensures q.contract.id == top.contract.id
  {
    EdgesHold(visible);
    if steps == 0 {
      SameIdentity(visible, top, q);
    } else {
      var edges := EdgesOf(visible);
      var before := Walk(edges, top.id, steps - 1).value;
      var source :| source in visible && source.id == before && source.supersedes == Some(edges[before]);
      WalkKeepsContract(visible, targets, top, steps - 1, source);
      assert Defect(source, targets) == None;
    }
  }

  lemma SameIdentity(quotes: seq<Quote>, a: Quote, b: Quote)
    requires DistinctIds(quotes) && a in quotes && b in quotes && a.id == b.id
    ensures a == b
  {
    var i :| 0 <= i < |quotes| && quotes[i] == a;
    var j :| 0 <= j < |quotes| && quotes[j] == b;
  }

  lemma WalkStartsAtEdge(edges: Edges, start: EventId, steps: nat)
    requires steps > 0 && Walk(edges, start, steps).Some?
    ensures start in edges
  {
    WalkContinues(edges, start, 1, steps);
    assert Walk(edges, start, 0) == Some(start);
  }

  /** In an accepted graph every visible quote's contract keeps a visible quote that nothing supersedes. */
  lemma NoContractLost(visible: seq<Quote>, targets: map<EventId, Quote>, q: Quote) returns (top: Quote)
    requires DistinctIds(visible) && GraphValid(visible, targets) && Consistent(visible, targets) && q in visible
    ensures top in visible && top.id !in EdgesOf(visible).Values && top.contract.id == q.contract.id
  {
    var edges := EdgesOf(visible);
    if q.id !in edges.Values {
      top := q;
    } else {
      EdgesHold(visible);
      var id := Climb(edges, q.id, {});
      var steps: nat :| steps > 0 && Walk(edges, id, steps) == Some(q.id);
      WalkStartsAtEdge(edges, id, steps);
      top :| top in visible && top.id == id && top.supersedes == Some(edges[id]);
      WalkKeepsContract(visible, targets, top, steps, q);
    }
  }

  // ---- The latest quote of each contract ----

  /** The order of quotes: later stamped, then sequence, event order, reception, availability and identity. */
  predicate Later(a: Quote, b: Quote) {
    var (aSequence, bSequence) := (SequenceRank(a.providerSequence), SequenceRank(b.providerSequence));
    var (aOrder, bOrder) := (SequenceRank(a.eventOrder), SequenceRank(b.eventOrder));
    var (aReceived, bReceived) := (a.receivedAt.GetOr(a.availableAt), b.receivedAt.GetOr(b.availableAt));
    if a.exchangeAt != b.exchangeAt then a.exchangeAt > b.exchangeAt
    else if aSequence != bSequence then aSequence > bSequence
    else if aOrder != bOrder then aOrder > bOrder
    else if aReceived != bReceived then aReceived > bReceived
    else if a.availableAt != b.availableAt then a.availableAt > b.availableAt
    else a.id.rank > b.id.rank
  }

  /** A missing sequence comes before every present one. */
  function SequenceRank(sequence: Option<nat>): int {
    match sequence
    case None => -1
    case Some(n) => n
  }

  datatype Latest = Latest(order: seq<ContractId>, quotes: map<ContractId, Quote>)

  function LatestOf(visible: seq<Quote>, superseded: set<EventId>): (latest: Latest)
    ensures forall c :: c in latest.order <==> c in latest.quotes
    ensures forall i, j :: 0 <= i < j < |latest.order| ==> latest.order[i] != latest.order[j]
  {
    if visible == [] then Latest([], map[])
    else
      var n := |visible| - 1;
      var q, before := visible[n], LatestOf(visible[..n], superseded);
      var c := q.contract.id;
      if q.id in superseded then before
      else if c !in before.quotes then Latest(before.order + [c], before.quotes[c := q])
      else if Later(q, before.quotes[c]) then before.(quotes := before.quotes[c := q])
      else before
  }

  /** A remaining quote of a contract: visible, and superseded by nothing visible. */
  predicate Remains(visible: seq<Quote>, superseded: set<EventId>, contract: ContractId, q: Quote) {
    q in visible && q.id !in superseded && q.contract.id == contract
  }

  /** The entry of a contract is its greatest remaining quote; without one it has no entry. */
  ghost predicate IsGreatest(
    visible: seq<Quote>, superseded: set<EventId>, contract: ContractId, entry: Option<Quote>)
  {
    match entry
    case None => forall q <- visible :: !Remains(visible, superseded, contract, q)
    case Some(greatest) =>
      && Remains(visible, superseded, contract, greatest)
      && forall q <- visible :: Remains(visible, superseded, contract, q) && q != greatest ==> Later(greatest, q)
  }

  function EntryOf(latest: Latest, contract: ContractId): Option<Quote> {
    if contract in latest.quotes then Some(latest.quotes[contract]) else None
  }

  lemma GreatestOfOneMore(
    front: seq<Quote>, q: Quote, superseded: set<EventId>, contract: ContractId, entry: Option<Quote>)
    requires IsGreatest(front, superseded, contract, entry) && forall other <- front :: other.id != q.id
    ensures
      var enters := q.id !in superseded && q.contract.id == contract && (entry.None? || Later(q, entry.value));
      IsGreatest(front + [q], superseded, contract, if enters then Some(q) else entry)
  {
    var visible := front + [q];
    assert forall other <- visible :: other in front || other == q;
    assert forall other <- front ::
             Remains(visible, superseded, contract, other) <==> Remains(front, superseded, contract, other);
  }

  lemma {:induction false} LatestIsGreatest(visible: seq<Quote>, superseded: set<EventId>, contract: ContractId)
    requires DistinctIds(visible)
    ensures IsGreatest(visible, superseded, contract, EntryOf(LatestOf(visible, superseded), contract))
  {
    if visible == [] {
    } else {
      var n := |visible| - 1;
      LatestIsGreatest(visible[..n], superseded, contract);
      forall other <- visible[..n] ensures other.id != visible[n].id {
        var i :| 0 <= i < n && visible[i] == other;
      }
      GreatestOfOneMore(visible[..n], visible[n], superseded, contract,
        EntryOf(LatestOf(visible[..n], superseded), contract));
      TakeOneMore(visible, n);
      assert visible[..n + 1] == visible;
    }
  }

  /** The pass over the visible quotes that keeps the greatest of each contract. */
  method LatestByContract(visible: seq<Quote>, superseded: set<EventId>) returns (latest: Latest)
    ensures latest == LatestOf(visible, superseded)
  {
    var order: seq<ContractId>, quotes: map<ContractId, Quote> := [], map[];
    var i := 0;
    while i < |visible|
      invariant 0 <= i <= |visible|
      invariant Latest(order, quotes) == LatestOf(visible[..i], superseded)
    {
      assert visible[..i + 1][..i] == visible[..i];
      var quote := visible[i];
      if quote.id !in superseded {
        var contract := quote.contract.id;
        if contract !in quotes {
          order := order + [contract];
          quotes := quotes[contract := quote];
        } else if Later(quote, quotes[contract]) {
          quotes := quotes[contract := quote];
        }
      }
      i := i + 1;
    }
    assert visible[..i] == visible;
    latest := Latest(order, quotes);
  }

  // ---- The reconstructed chain ----

  /** Expiry, then strike, then side; contracts that tie keep their order. */
  predicate ByContract(a: Quote, b: Quote) {
    if a.contract.expiry != b.contract.expiry then a.contract.expiry < b.contract.expiry
    else if a.contract.strike != b.contract.strike then a.contract.strike < b.contract.strike
    else a.contract.side == Call && b.contract.side == Put
  }

  function Entries(latest: Latest): seq<Quote>
    requires forall c <- latest.order :: c in latest.quotes
  {
    seq(|latest.order|, i requires 0 <= i < |latest.order| => latest.quotes[latest.order[i]])
  }

  datatype ChainError = ConflictingVersions | ConflictingMappings | ConflictingQuotes | InvalidGraph(error: GraphError)

  function VersionKey(version: ContractVersion): nat { version.id }

  function MappingKey(mapping: Mapping): nat { mapping.id }

  function QuoteKey(quote: Quote): EventId { quote.id }

  /** The result over the visible quotes: the error the graph raises, or the greatest remaining quotes in order. */
  ghost predicate ChainOf(visible: seq<Quote>, targets: map<EventId, Quote>, result: Result<seq<Quote>, ChainError>) {
    match result
    case Err(error) => error.InvalidGraph? && !GraphValid(visible, targets) && Raises(visible, targets, error.error)
    case Ok(chain) =>
      && GraphValid(visible, targets)
      && chain == SortBy(Entries(LatestOf(visible, EdgesOf(visible).Values)), ByContract)
  }

  /** What reconstructing a chain returns, the conflicting identities first. */
  ghost predicate Reconstructs(
    quotes: seq<Quote>, versions: seq<ContractVersion>, mappings: seq<Mapping>, assessments: seq<Assessment>,
    query: Query,
    result: Result<seq<Quote>, ChainError>)
  {
    if !Unique(versions, VersionKey) then result == Err(ConflictingVersions)
    else if !Unique(mappings, MappingKey) then result == Err(ConflictingMappings)
    else if !Unique(quotes, QuoteKey) then result == Err(ConflictingQuotes)
    else
      var versionIndex, mappingIndex := IndexBy(versions, VersionKey), IndexBy(mappings, MappingKey);
      ChainOf(
        VisibleQuotes(quotes, versionIndex, mappingIndex, assessments, query),
        EligibleTargets(quotes, versionIndex, mappingIndex, query), result)
  }

  lemma NewQuoteHasNewId(quotes: seq<Quote>, n: nat)
    requires Unique(quotes, QuoteKey) && n < |quotes| && quotes[n] !in quotes[..n]
    ensures forall q <- quotes[..n] :: q.id != quotes[n].id
  {
    forall q <- quotes[..n] ensures q.id != quotes[n].id {
      var i :| 0 <= i < n && quotes[i] == q;
      assert QuoteKey(quotes[i]) == q.id && QuoteKey(quotes[n]) == quotes[n].id;
    }
  }

  lemma {:induction false} VisibleQuotesHold(
    quotes: seq<Quote>, versions: map<nat, ContractVersion>, mappings: map<nat, Mapping>, assessments: seq<Assessment>,
    query: Query)
    requires Unique(quotes, QuoteKey)
    ensures
      var visible := VisibleQuotes(quotes, versions, mappings, assessments, query);
      && DistinctIds(visible)
      && forall q :: q in visible <==> q in quotes && Visible(q, versions, mappings, assessments, query)
  {
    if quotes == [] {
    } else {
      var n := |quotes| - 1;
      VisibleQuotesHold(quotes[..n], versions, mappings, assessments, query);
      assert forall q :: q in quotes <==> q in quotes[..n] || q == quotes[n];
      if quotes[n] !in quotes[..n] {
        NewQuoteHasNewId(quotes, n);
      }
    }
  }

  ghost predicate IsTarget(
    quotes: seq<Quote>, versions: map<nat, ContractVersion>, mappings: map<nat, Mapping>, query: Query, id: EventId,
    q: Quote)
  {
    q in quotes && q.id == id && HistoricallyEligible(q, versions, mappings, query)
  }

  lemma {:induction false} TargetIsQuote(
    quotes: seq<Quote>, versions: map<nat, ContractVersion>, mappings: map<nat, Mapping>, query: Query, id: EventId)
    requires id in EligibleTargets(quotes, versions, mappings, query)
    ensures IsTarget(quotes, versions, mappings, query, id, EligibleTargets(quotes, versions, mappings, query)[id])
  {
    var n := |quotes| - 1;
    if !(HistoricallyEligible(quotes[n], versions, mappings, query) && id == quotes[n].id) {
      TargetIsQuote(quotes[..n], versions, mappings, query, id);
    }
  }

  lemma {:induction false} QuoteIsTarget(
    quotes: seq<Quote>, versions: map<nat, ContractVersion>, mappings: map<nat, Mapping>, query: Query, q: Quote)
    requires q in quotes && HistoricallyEligible(q, versions, mappings, query)
    ensures q.id in EligibleTargets(quotes, versions, mappings, query)
  {
    var n := |quotes| - 1;
    if q != quotes[n] {
      QuoteIsTarget(quotes[..n], versions, mappings, query, q);
    }
  }

  lemma OneIdentity(quotes: seq<Quote>, a: Quote, b: Quote)
    requires Unique(quotes, QuoteKey) && a in quotes && b in quotes && a.id == b.id
    ensures a == b
  {
    var i :| 0 <= i < |quotes| && quotes[i] == a;
    var j :| 0 <= j < |quotes| && quotes[j] == b;
    assert QuoteKey(quotes[i]) == QuoteKey(quotes[j]);
  }

  lemma TargetsRestrict(
    quotes: seq<Quote>, versions: map<nat, ContractVersion>, mappings: map<nat, Mapping>, query: Query)
    requires Unique(quotes, QuoteKey)
    ensures Restricts(IndexBy(quotes, QuoteKey), versions, mappings, query,
            EligibleTargets(quotes, versions, mappings, query))
    ensures forall q <- quotes :: q.id in EligibleTargets(quotes, versions, mappings, query) ==>
                                    EligibleTargets(quotes, versions, mappings, query)[q.id] == q
  {
    var index, targets := IndexBy(quotes, QuoteKey), EligibleTargets(quotes, versions, mappings, query);
    IndexHolds(quotes, QuoteKey);
    forall q <- quotes | q.id in targets ensures targets[q.id] == q {
      TargetIsQuote(quotes, versions, mappings, query, q.id);
      OneIdentity(quotes, targets[q.id], q);
    }
    forall id
      ensures id in targets <==> id in index && HistoricallyEligible(index[id], versions, mappings, query)
      ensures id in targets ==> targets[id] == index[id]
    {
      if id in targets {
        TargetIsQuote(quotes, versions, mappings, query, id);
        var q := targets[id];
        assert QuoteKey(q) in index && QuoteKey(index[id]) == id;
        OneIdentity(quotes, q, index[id]);
      }
      if id in index && HistoricallyEligible(index[id], versions, mappings, query) {
        assert QuoteKey(index[id]) == id;
        QuoteIsTarget(quotes, versions, mappings, query, index[id]);
      }
    }
  }

  /** The visible quotes out of the index, in first-seen order. */
  method SelectVisible(
    order: seq<Quote>, ghost quotes: seq<Quote>, versions: map<nat, ContractVersion>, mappings: map<nat, Mapping>,
    assessments: seq<Assessment>, query: Query) returns (visible: seq<Quote>)
    requires order == FirstSeen(quotes)
    ensures visible == VisibleQuotes(quotes, versions, mappings, assessments, query)
  {
    visible := [];
    var i := 0;
    while i < |order|
      invariant 0 <= i <= |order|
      invariant visible == FilterVisible(order[..i], versions, mappings, assessments, query)
    {
      assert order[..i + 1][..i] == order[..i];
      if Visible(order[i], versions, mappings, assessments, query) {
        visible := visible + [order[i]];
      }
      i := i + 1;
    }
    assert order[..i] == order;
    FilterFirstSeen(quotes, versions, mappings, assessments, query);
  }

  ghost function FilterVisible(
    quotes: seq<Quote>, versions: map<nat, ContractVersion>, mappings: map<nat, Mapping>,
    assessments: seq<Assessment>, query: Query): seq<Quote>
  {
    if quotes == [] then []
    else
      var n := |quotes| - 1;
      var before := FilterVisible(quotes[..n], versions, mappings, assessments, query);
      if Visible(quotes[n], versions, mappings, assessments, query) then before + [quotes[n]] else before
  }

  lemma {:induction false} FilterFirstSeen(
    quotes: seq<Quote>, versions: map<nat, ContractVersion>, mappings: map<nat, Mapping>,
    assessments: seq<Assessment>, query: Query)
    ensures FilterVisible(FirstSeen(quotes), versions, mappings, assessments, query)
            == VisibleQuotes(quotes, versions, mappings, assessments, query)
  {
    if quotes == [] {
    } else {
      var n := |quotes| - 1;
      FilterFirstSeen(quotes[..n], versions, mappings, assessments, query);
      if quotes[n] !in quotes[..n] {
        assert FirstSeen(quotes)[..|FirstSeen(quotes)| - 1] == FirstSeen(quotes[..n]);
      }
    }
  }

  /** The chain of contracts as known at the query's cutoffs. */
  method ReconstructOptionChain(
    quotes: seq<Quote>, versions: seq<ContractVersion>, mappings: seq<Mapping>, assessments: seq<Assessment>,
    query: Query)
    returns (result: Result<seq<Quote>, ChainError>)
    ensures Reconstructs(quotes, versions, mappings, assessments, query, result)
  {
    var versionIndex := UniqueIndex(versions, VersionKey);
    if versionIndex.None? {
      return Err(ConflictingVersions);
    }
    var mappingIndex := UniqueIndex(mappings, MappingKey);
    if mappingIndex.None? {
      return Err(ConflictingMappings);
    }
    var quoteIndex := UniqueIndex(quotes, QuoteKey);
    if quoteIndex.None? {
      return Err(ConflictingQuotes);
    }
    var (order, index) := quoteIndex.value;
    var visible := SelectVisible(order, quotes, versionIndex.value.1, mappingIndex.value.1, assessments, query);
    ghost var targets := EligibleTargets(quotes, versionIndex.value.1, mappingIndex.value.1, query);
    VisibleQuotesHold(quotes, versionIndex.value.1, mappingIndex.value.1, assessments, query);
    TargetsRestrict(quotes, versionIndex.value.1, mappingIndex.value.1, query);
    var superseded :=
      ResolveCorrectionGraph(visible, index, versionIndex.value.1, mappingIndex.value.1, query, targets);
    if superseded.Err? {
      return Err(InvalidGraph(superseded.error));
    }
    var latest := LatestByContract(visible, superseded.value);
    return Ok(SortBy(Entries(latest), ByContract));
  }

  // ---- What the chain holds ----

  lemma EntriesHold(latest: Latest)
    requires forall c :: c in latest.order <==> c in latest.quotes
    ensures forall q :: q in Entries(latest) <==> exists c <- latest.quotes :: latest.quotes[c] == q
  {
    forall c <- latest.quotes ensures latest.quotes[c] in Entries(latest) {
      var i :| 0 <= i < |latest.order| && latest.order[i] == c;
      assert Entries(latest)[i] == latest.quotes[c];
    }
  }

  /** The chain lists the entries, and every entry is a remaining quote of its contract. */
  lemma ListedIsEntry(visible: seq<Quote>, superseded: set<EventId>, q: Quote)
    requires DistinctIds(visible) && q in Entries(LatestOf(visible, superseded))
    ensures EntryOf(LatestOf(visible, superseded), q.contract.id) == Some(q)
  {
    var latest := LatestOf(visible, superseded);
    EntriesHold(latest);
    var c :| c in latest.quotes && latest.quotes[c] == q;
    LatestIsGreatest(visible, superseded, c);
  }

  lemma SortedByContract(entries: seq<Quote>, chain: seq<Quote>)
    requires chain == SortBy(entries, ByContract)
    ensures Sorted(chain, ByContract) && forall q :: q in chain <==> q in entries
  {
    SortKeepsMembers(entries, ByContract);
    SortSorts(entries, ByContract);
  }

  lemma ChainListsEntries(visible: seq<Quote>, superseded: set<EventId>, chain: seq<Quote>)
    requires DistinctIds(visible) && chain == SortBy(Entries(LatestOf(visible, superseded)), ByContract)
    ensures forall c <- LatestOf(visible, superseded).quotes :: LatestOf(visible, superseded).quotes[c] in chain
    ensures forall q <- chain :: EntryOf(LatestOf(visible, superseded), q.contract.id) == Some(q)
    ensures Sorted(chain, ByContract)
  {
    var latest := LatestOf(visible, superseded);
    SortedByContract(Entries(latest), chain);
    forall c <- latest.quotes ensures latest.quotes[c] in chain {
      EntriesHold(latest);
    }
    forall q <- chain ensures EntryOf(latest, q.contract.id) == Some(q) {
      ListedIsEntry(visible, superseded, q);
    }
  }

  /** With nothing lost, the contracts in the chain are those with a visible quote. */
  lemma ContractIsListed(visible: seq<Quote>, targets: map<EventId, Quote>, q: Quote)
    requires DistinctIds(visible) && GraphValid(visible, targets) && Consistent(visible, targets) && q in visible
    ensures q.contract.id in LatestOf(visible, EdgesOf(visible).Values).quotes
  {
    var superseded := EdgesOf(visible).Values;
    var top := NoContractLost(visible, targets, q);
    LatestIsGreatest(visible, superseded, q.contract.id);
    assert Remains(visible, superseded, q.contract.id, top);
  }

  /**
   An accepted chain, contract by contract: a contract is in it exactly when it has a visible quote, and
   its one entry is then the greatest visible quote that no visible correction targets. The entries are
   ordered by expiry, strike and side.
   */
  lemma ChainIsLatestVisible(visible: seq<Quote>, targets: map<EventId, Quote>, chain: seq<Quote>, contract: ContractId)
    requires DistinctIds(visible) && Consistent(visible, targets) && ChainOf(visible, targets, Ok(chain))
    ensures (exists q <- chain :: q.contract.id == contract) <==> exists q <- visible :: q.contract.id == contract
    ensures forall q <- chain :: q.contract.id == contract ==>
              IsGreatest(visible, EdgesOf(visible).Values, contract, Some(q))
    ensures Sorted(chain, ByContract)
  {
    var superseded := EdgesOf(visible).Values;
    ChainListsEntries(visible, superseded, chain);
    LatestIsGreatest(visible, superseded, contract);
    if q :| q in visible && q.contract.id == contract {
      ContractIsListed(visible, targets, q);
    }
  }

  // ---- No look-ahead ----

  function TimelyQuotes(quotes: seq<Quote>, query: Query): (timely: seq<Quote>)
    ensures forall q <- quotes :: Timely(q, query) ==> q in timely
    ensures forall q <- timely :: q in quotes && Timely(q, query)
  {
    if quotes == [] then []
    else
      var n := |quotes| - 1;
      TimelyQuotes(quotes[..n], query) + if Timely(quotes[n], query) then [quotes[n]] else []
  }

  function TimelyAssessments(assessments: seq<Assessment>, query: Query): seq<Assessment> {
    if assessments == [] then []
    else
      var n := |assessments| - 1;
      TimelyAssessments(assessments[..n], query)
      + if query.knownAsOf.None? || assessments[n].recordedAt <= query.knownAsOf.value then [assessments[n]] else []
  }

  lemma {:induction false} LateAssessmentsIgnored(assessments: seq<Assessment>, event: EventId, query: Query)
    ensures SelectedAssessment(TimelyAssessments(assessments, query), event, query)
            == SelectedAssessment(assessments, event, query)
  {
    if assessments == [] {
    } else {
      var n := |assessments| - 1;
      var timely := TimelyAssessments(assessments[..n], query);
      LateAssessmentsIgnored(assessments[..n], event, query);
      assert (timely + [assessments[n]])[..|timely|] == timely;
      assert timely + [] == timely;
    }
  }

  lemma VisibleOneMore(
    quotes: seq<Quote>, quote: Quote, versions: map<nat, ContractVersion>, mappings: map<nat, Mapping>,
    assessments: seq<Assessment>, query: Query)
    ensures VisibleQuotes(quotes + [quote], versions, mappings, assessments, query)
            == VisibleQuotes(quotes, versions, mappings, assessments, query)
               + if quote !in quotes && Visible(quote, versions, mappings, assessments, query) then [quote] else []
  {
    assert (quotes + [quote])[..|quotes|] == quotes;
    var before := VisibleQuotes(quotes, versions, mappings, assessments, query);
    assert before + [] == before;
  }

  lemma TimelyOneMore(quotes: seq<Quote>, quote: Quote, query: Query)
    ensures TimelyQuotes(quotes + [quote], query)
            == TimelyQuotes(quotes, query) + if Timely(quote, query) then [quote] else []
  {
    assert (quotes + [quote])[..|quotes|] == quotes;
  }

  lemma {:induction false} LateQuotesInvisible(
    quotes: seq<Quote>, versions: map<nat, ContractVersion>, mappings: map<nat, Mapping>, assessments: seq<Assessment>,
    query: Query)
    ensures VisibleQuotes(TimelyQuotes(quotes, query), versions, mappings, TimelyAssessments(assessments, query), query)
            == VisibleQuotes(quotes, versions, mappings, assessments, query)
  {
    if quotes == [] {
    } else {
      var n := |quotes| - 1;
      var front, last := quotes[..n], quotes[n];
      var timely, known := TimelyQuotes(front, query), TimelyAssessments(assessments, query);
      assert quotes == front + [last];
      LateQuotesInvisible(front, versions, mappings, assessments, query);
      LateAssessmentsIgnored(assessments, last.id, query);
      TimelyOneMore(front, last, query);
      VisibleOneMore(front, last, versions, mappings, assessments, query);
      if Timely(last, query) {
        VisibleOneMore(timely, last, versions, mappings, known, query);
      } else {
        assert timely + [] == timely;
      }
    }
  }

  lemma {:induction false} LateQuotesIneligible(
    quotes: seq<Quote>, versions: map<nat, ContractVersion>, mappings: map<nat, Mapping>, query: Query)
    ensures EligibleTargets(TimelyQuotes(quotes, query), versions, mappings, query)
            == EligibleTargets(quotes, versions, mappings, query)
  {
    if quotes == [] {
    } else {
      var n := |quotes| - 1;
      var timely := TimelyQuotes(quotes[..n], query);
      LateQuotesIneligible(quotes[..n], versions, mappings, query);
      assert (timely + [quotes[n]])[..|timely|] == timely;
      assert timely + [] == timely;
    }
  }

  /** Late quotes carry identities no other quote has. */
  ghost predicate LateAreFresh(quotes: seq<Quote>, query: Query) {
    forall a <- quotes, b <- quotes :: !Timely(a, query) && a.id == b.id ==> a == b
  }

  lemma FreshKeepUnique(quotes: seq<Quote>, query: Query)
    requires LateAreFresh(quotes, query)
    ensures Unique(quotes, QuoteKey) <==> Unique(TimelyQuotes(quotes, query), QuoteKey)
  {
    var timely := TimelyQuotes(quotes, query);
    if Unique(quotes, QuoteKey) {
      forall i, j | 0 <= i < j < |timely| && QuoteKey(timely[i]) == QuoteKey(timely[j]) ensures timely[i] == timely[j] {
        OneIdentity(quotes, timely[i], timely[j]);
      }
    }
    if Unique(timely, QuoteKey) {
      forall i, j | 0 <= i < j < |quotes| && QuoteKey(quotes[i]) == QuoteKey(quotes[j]) ensures quotes[i] == quotes[j] {
        if Timely(quotes[i], query) && Timely(quotes[j], query) {
          OneIdentity(timely, quotes[i], quotes[j]);
        }
      }
    }
  }

  lemma ChainIsUnique(
    visible: seq<Quote>, targets: map<EventId, Quote>, first: Result<seq<Quote>, ChainError>,
    second: Result<seq<Quote>, ChainError>)
    requires DistinctIds(visible) && ChainOf(visible, targets, first) && ChainOf(visible, targets, second)
    ensures first == second
  {
    if first.Err? && second.Err? {
      RaisesOneError(visible, targets, first.error.error, second.error.error);
    }
  }

  /**
   No look-ahead: quotes that were stamped or became available after the cutoffs, and assessments that
   were recorded after them, change neither the chain nor the error, wherever they stand in the lists.
   */
  lemma NoLookAhead(
    quotes: seq<Quote>, versions: seq<ContractVersion>, mappings: seq<Mapping>, assessments: seq<Assessment>,
    query: Query,
    all: Result<seq<Quote>, ChainError>, timely: Result<seq<Quote>, ChainError>)
    requires LateAreFresh(quotes, query)
    requires Reconstructs(quotes, versions, mappings, assessments, query, all)
    requires
      Reconstructs(TimelyQuotes(quotes, query), versions, mappings, TimelyAssessments(assessments, query), query,
        timely)
    ensures all == timely
  {
    FreshKeepUnique(quotes, query);
    if Unique(versions, VersionKey) && Unique(mappings, MappingKey) && Unique(quotes, QuoteKey) {
      var versionIndex, mappingIndex := IndexBy(versions, VersionKey), IndexBy(mappings, MappingKey);
      LateQuotesInvisible(quotes, versionIndex, mappingIndex, assessments, query);
      LateQuotesIneligible(quotes, versionIndex, mappingIndex, query);
      VisibleQuotesHold(quotes, versionIndex, mappingIndex, assessments, query);
      ChainIsUnique(
        VisibleQuotes(quotes, versionIndex, mappingIndex, assessments, query),
        EligibleTargets(quotes, versionIndex, mappingIndex, query), all, timely);
    }
  }

  /**
   The chain of a query, in the query's terms: the accepted graph is one-to-one and acyclic, and a
   contract has an entry exactly when some quote of it is visible.
   */
  lemma ChainOfQuery(
    quotes: seq<Quote>, versions: seq<ContractVersion>, mappings: seq<Mapping>, assessments: seq<Assessment>,
    query: Query,
    chain: seq<Quote>, contract: ContractId)
    requires Reconstructs(quotes, versions, mappings, assessments, query, Ok(chain))
    ensures
      var versionIndex, mappingIndex := IndexBy(versions, VersionKey), IndexBy(mappings, MappingKey);
      var visible := VisibleQuotes(quotes, versionIndex, mappingIndex, assessments, query);
      && OneToOne(EdgesOf(visible)) && Acyclic(EdgesOf(visible))
      && ((exists q <- chain :: q.contract.id == contract)
          <==> exists q <- quotes ::
              Visible(q, versionIndex, mappingIndex, assessments, query) && q.contract.id == contract)
      && (forall q <- chain :: q.contract.id == contract ==>
           IsGreatest(visible, EdgesOf(visible).Values, contract, Some(q)))
  {
    var versionIndex, mappingIndex := IndexBy(versions, VersionKey), IndexBy(mappings, MappingKey);
    var visible := VisibleQuotes(quotes, versionIndex, mappingIndex, assessments, query);
    VisibleQuotesHold(quotes, versionIndex, mappingIndex, assessments, query);
    TargetsRestrict(quotes, versionIndex, mappingIndex, query);
    ChainIsLatestVisible(visible, EligibleTargets(quotes, versionIndex, mappingIndex, query), chain, contract);
  }
}
