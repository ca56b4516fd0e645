/** The option chain of a query in terms of the records themselves: which quotes are seen, which of them is quoted. */
module ChainMeaning {
  import opened Wrappers
  import opened Dictionaries
  import opened CorrectionGraph
  import opened Sorting
  import opened OptionChain

  // ---- Which assessment decides ----

  /** An assessment of the event under the query's policy, recorded by the knowledge cutoff. */
  predicate Applies(a: Assessment, event: EventId, query: Query) {
    && a.event == event && a.policy == query.policy && a.policyVersion == query.policyVersion
    && (query.knownAsOf.Some? ==> a.recordedAt <= query.knownAsOf.value)
  }

  /** An earlier record, or one of the same time with a smaller identity; of two equal in both, the one listed later. */
  predicate Precedes(a: Assessment, i: nat, b: Assessment, j: nat) {
    || a.recordedAt < b.recordedAt
    || (a.recordedAt == b.recordedAt && (a.id < b.id || (a.id == b.id && j < i)))
  }

  /** The last of the assessments that apply, by position. */
  ghost predicate IsLastAssessment(assessments: seq<Assessment>, event: EventId, query: Query, last: nat) {
    && last < |assessments| && Applies(assessments[last], event, query)
    && (forall i: nat | i < |assessments| && i != last && Applies(assessments[i], event, query) ::
          Precedes(assessments[i], i, assessments[last], last))
  }

  /** Its disposition. */
  ghost predicate LastAssessmentSays(assessments: seq<Assessment>, event: EventId, query: Query, accepted: bool) {
    exists last: nat :: IsLastAssessment(assessments, event, query, last) && assessments[last].accepted == accepted
  }

  lemma LastAssessmentIsOne(assessments: seq<Assessment>, event: EventId, query: Query, i: nat, j: nat)
    requires IsLastAssessment(assessments, event, query, i) && IsLastAssessment(assessments, event, query, j)
    ensures i == j
  {
  }

  lemma LastStays(assessments: seq<Assessment>, event: EventId, query: Query, last: nat, next: Assessment)
    requires IsLastAssessment(assessments, event, query, last)
    requires !Applies(next, event, query) || !AssessedLater(next, assessments[last])
    ensures IsLastAssessment(assessments + [next], event, query, last)
  {
    assert forall i: nat | i < |assessments| :: (assessments + [next])[i] == assessments[i];
  }

  /** The selected assessment is the last that applies; none is selected exactly when none applies. */
  lemma {:induction false} SelectsLastAssessment(assessments: seq<Assessment>, event: EventId, query: Query)
    ensures
      match SelectedAssessment(assessments, event, query)
      case None => forall a <- assessments :: !Applies(a, event, query)
      case Some(selected) =>
        exists i: nat :: IsLastAssessment(assessments, event, query, i) && assessments[i] == selected
  {
    if assessments != [] {
      var n := |assessments| - 1;
      var before, next := assessments[..n], assessments[n];
      SelectsLastAssessment(before, event, query);
      assert assessments == before + [next];
      var selected := SelectedAssessment(before, event, query);
      if selected.Some? {
        var i: nat :| IsLastAssessment(before, event, query, i) && before[i] == selected.value;
        if Applies(next, event, query) && AssessedLater(next, before[i]) {
          assert IsLastAssessment(assessments, event, query, n);
        } else {
          LastStays(before, event, query, i, next);
        }
      } else if Applies(next, event, query) {
        assert forall j: nat | j < n :: assessments[j] in before;
        assert IsLastAssessment(assessments, event, query, n);
      }
    }
  }

  lemma SelectedDisposition(assessments: seq<Assessment>, event: EventId, query: Query, accepted: bool)
    ensures
      var selected := SelectedAssessment(assessments, event, query);
      (selected.Some? && selected.value.accepted == accepted)
      <==> LastAssessmentSays(assessments, event, query, accepted)
  {
    SelectsLastAssessment(assessments, event, query);
    var selected := SelectedAssessment(assessments, event, query);
    if LastAssessmentSays(assessments, event, query, accepted) {
      var i: nat :| IsLastAssessment(assessments, event, query, i) && assessments[i].accepted == accepted;
      assert assessments[i] in assessments;
      var j: nat :| IsLastAssessment(assessments, event, query, j) && assessments[j] == selected.value;
      LastAssessmentIsOne(assessments, event, query, i, j);
    }
  }

  // ---- Which quotes are seen ----

  /** In force at a market time and, when a knowledge time is asked for, known then and not yet superseded. */
  predicate InForce(validity: Validity, market: int, known: Option<int>) {
    && validity.from <= market && (validity.until.Some? ==> market < validity.until.value)
    && (known.Some? ==> validity.recordedAt <= known.value)
    && (known.Some? && validity.supersededAt.Some? ==> known.value < validity.supersededAt.value)
  }

  /** The quote's version is one of its contract, its mapping one of that version, and both are in force. */
  ghost predicate Referenced(
    q: Quote, versions: seq<ContractVersion>, mappings: seq<Mapping>, market: int, known: Option<int>)
  {
    && (exists v <- versions ::
          v.id == q.version && v.contract == q.contract.id && InForce(v.validity, market, known))
    && (exists m <- mappings :: m.id == q.mapping && m.version == q.version && InForce(m.validity, market, known))
  }

  /** Stamped by the market cutoff; with a knowledge cutoff also available by it, and defensibly where asked for. */
  predicate Arrived(q: Quote, query: Query) {
    && q.exchangeAt <= query.marketAsOf
    && (query.knownAsOf.Some? ==>
          q.availableAt <= query.knownAsOf.value && (query.requireDefensible ==> q.defensible))
  }

  /** What a query sees of a list of quotes. */
  ghost predicate Seen(
    q: Quote, quotes: seq<Quote>, versions: seq<ContractVersion>, mappings: seq<Mapping>,
    assessments: seq<Assessment>, query: Query)
  {
    && q in quotes && Arrived(q, query)
    && Referenced(q, versions, mappings, query.marketAsOf, query.knownAsOf)
    && LastAssessmentSays(assessments, q.id, query, true)
  }

  /** What may be corrected: a quote that was in order when it was stamped and became available. */
  ghost predicate Correctable(
    q: Quote, quotes: seq<Quote>, versions: seq<ContractVersion>, mappings: seq<Mapping>, query: Query)
  {
    && q in quotes && Arrived(q, query)
    && Referenced(q, versions, mappings, q.exchangeAt, Some(q.availableAt))
  }

  lemma VersionOf(versions: seq<ContractVersion>, id: nat)
    requires Unique(versions, VersionKey)
    ensures id in IndexBy(versions, VersionKey) <==> exists v <- versions :: v.id == id
    ensures forall v <- versions | v.id == id :: IndexBy(versions, VersionKey)[id] == v
    ensures id in IndexBy(versions, VersionKey) ==>
              IndexBy(versions, VersionKey)[id] in versions && IndexBy(versions, VersionKey)[id].id == id
  {
    IndexHolds(versions, VersionKey);
    var index := IndexBy(versions, VersionKey);
    assert forall v <- versions :: VersionKey(v) == v.id;
    assert forall k <- index :: VersionKey(index[k]) == index[k].id;
    forall v <- versions | v.id == id ensures index[id] == v {
      var i :| 0 <= i < |versions| && versions[i] == v;
      var j :| 0 <= j < |versions| && versions[j] == index[id];
      assert VersionKey(versions[i]) == VersionKey(versions[j]);
    }
  }

  lemma MappingOf(mappings: seq<Mapping>, id: nat)
    requires Unique(mappings, MappingKey)
    ensures id in IndexBy(mappings, MappingKey) <==> exists m <- mappings :: m.id == id
    ensures forall m <- mappings | m.id == id :: IndexBy(mappings, MappingKey)[id] == m
    ensures id in IndexBy(mappings, MappingKey) ==>
              IndexBy(mappings, MappingKey)[id] in mappings && IndexBy(mappings, MappingKey)[id].id == id
  {
    IndexHolds(mappings, MappingKey);
    var index := IndexBy(mappings, MappingKey);
    assert forall m <- mappings :: MappingKey(m) == m.id;
    assert forall k <- index :: MappingKey(index[k]) == index[k].id;
    forall m <- mappings | m.id == id ensures index[id] == m {
      var i :| 0 <= i < |mappings| && mappings[i] == m;
      var j :| 0 <= j < |mappings| && mappings[j] == index[id];
      assert MappingKey(mappings[i]) == MappingKey(mappings[j]);
    }
  }

  /** The references of a quote, looked up in the two dictionaries. */
  lemma ReferencesLookUp(
    q: Quote, versions: seq<ContractVersion>, mappings: seq<Mapping>, market: int, known: Option<int>)
    requires Unique(versions, VersionKey) && Unique(mappings, MappingKey)
    ensures
      var versionIndex, mappingIndex := IndexBy(versions, VersionKey), IndexBy(mappings, MappingKey);
      Referenced(q, versions, mappings, market, known)
      <==> && Aligned(q, versionIndex, mappingIndex)
           && versionIndex[q.version].validity.EffectiveAt(market, known)
           && mappingIndex[q.mapping].validity.EffectiveAt(market, known)
  {
    VersionOf(versions, q.version);
    MappingOf(mappings, q.mapping);
  }

  /** A quote of the list is visible exactly when it is seen. */
  lemma VisibleIsSeen(
    q: Quote, quotes: seq<Quote>, versions: seq<ContractVersion>, mappings: seq<Mapping>,
    assessments: seq<Assessment>, query: Query)
    requires Unique(versions, VersionKey) && Unique(mappings, MappingKey)
    ensures
      var versionIndex, mappingIndex := IndexBy(versions, VersionKey), IndexBy(mappings, MappingKey);
      q in quotes && Visible(q, versionIndex, mappingIndex, assessments, query)
      <==> Seen(q, quotes, versions, mappings, assessments, query)
  {
    ReferencesLookUp(q, versions, mappings, query.marketAsOf, query.knownAsOf);
    SelectedDisposition(assessments, q.id, query, true);
  }

  lemma EligibleIsCorrectable(
    q: Quote, quotes: seq<Quote>, versions: seq<ContractVersion>, mappings: seq<Mapping>, query: Query)
    requires Unique(versions, VersionKey) && Unique(mappings, MappingKey)
    ensures
      var versionIndex, mappingIndex := IndexBy(versions, VersionKey), IndexBy(mappings, MappingKey);
      q in quotes && HistoricallyEligible(q, versionIndex, mappingIndex, query)
      <==> Correctable(q, quotes, versions, mappings, query)
  {
    ReferencesLookUp(q, versions, mappings, q.exchangeAt, Some(q.availableAt));
  }

  // ---- Which quote of a contract is quoted ----

  /** The rank of a quote: stamp, sequence, event order, reception, availability, identity. */
  function RankOf(q: Quote): seq<int> {
    [ q.exchangeAt,
      if q.providerSequence.Some? then q.providerSequence.value else -1,
      if q.eventOrder.Some? then q.eventOrder.value else -1,
      if q.receivedAt.Some? then q.receivedAt.value else q.availableAt,
      q.availableAt,
      q.id.rank ]
  }

  /** Tuples of one length, compared at the first place where they differ. */
  ghost predicate RanksBelow(a: seq<int>, b: seq<int>)
    requires |a| == |b|
  {
    exists i :: 0 <= i < |a| && a[..i] == b[..i] && a[i] < b[i]
  }

  lemma LaterIsRankedAbove(a: Quote, b: Quote)
    ensures Later(a, b) <==> RanksBelow(RankOf(b), RankOf(a))
  {
    FirstDifference(RankOf(b), RankOf(a));
  }

  /** The first difference of two tuples of six decides which is below. */
  lemma FirstDifference(x: seq<int>, y: seq<int>)
    requires |x| == |y| == 6
    ensures RanksBelow(x, y)
            <==> if x[0] != y[0] then x[0] < y[0]
                 else if x[1] != y[1] then x[1] < y[1]
                 else if x[2] != y[2] then x[2] < y[2]
                 else if x[3] != y[3] then x[3] < y[3]
                 else if x[4] != y[4] then x[4] < y[4]
                 else x[5] < y[5]
  {
    var first := if x[0] != y[0] then 0 else if x[1] != y[1] then 1 else if x[2] != y[2] then 2
                 else if x[3] != y[3] then 3 else if x[4] != y[4] then 4 else 5;
    assert x[..first] == y[..first];
    if RanksBelow(x, y) {
      var i :| 0 <= i < 6 && x[..i] == y[..i] && x[i] < y[i];
      forall j | 0 <= j < i ensures x[j] == y[j] {
        assert x[..i][j] == y[..i][j];
      }
    }
  }

  /** Nothing that is seen corrects the quote. */
  ghost predicate Uncorrected(
    q: Quote, quotes: seq<Quote>, versions: seq<ContractVersion>, mappings: seq<Mapping>,
    assessments: seq<Assessment>, query: Query)
  {
    forall s <- quotes :: Seen(s, quotes, versions, mappings, assessments, query) ==> s.supersedes != Some(q.id)
  }

  /** The quote of its contract: seen, uncorrected, and ranked above every other such quote of the contract. */
  ghost predicate Quoted(
    q: Quote, quotes: seq<Quote>, versions: seq<ContractVersion>, mappings: seq<Mapping>,
    assessments: seq<Assessment>, query: Query)
  {
    && Seen(q, quotes, versions, mappings, assessments, query)
    && Uncorrected(q, quotes, versions, mappings, assessments, query)
    && (forall other <- quotes ::
          && Seen(other, quotes, versions, mappings, assessments, query)
          && Uncorrected(other, quotes, versions, mappings, assessments, query)
          && other.contract.id == q.contract.id && other != q
          ==> RanksBelow(RankOf(other), RankOf(q)))
  }

  /** Contracts by expiry, then by strike, then calls before puts. */
  ghost predicate InContractOrder(chain: seq<Quote>) {
    forall i, j | 0 <= i < j < |chain| ::
      var a, b := chain[i].contract, chain[j].contract;
      && a.expiry <= b.expiry
      && (a.expiry == b.expiry ==> a.strike <= b.strike)
      && (a.expiry == b.expiry && a.strike == b.strike && a.side == Put ==> b.side == Put)
  }

  /** The visible quotes of accepted inputs, and what their corrections target. */
  lemma VisibleHold(
    quotes: seq<Quote>, versions: seq<ContractVersion>, mappings: seq<Mapping>, assessments: seq<Assessment>,
    query: Query)
    requires Unique(versions, VersionKey) && Unique(mappings, MappingKey) && Unique(quotes, QuoteKey)
    ensures
      var visible := VisibleQuotes(
        quotes, IndexBy(versions, VersionKey), IndexBy(mappings, MappingKey), assessments, query);
      && DistinctIds(visible)
      && (forall q :: q in visible <==> Seen(q, quotes, versions, mappings, assessments, query))
      && (forall q <- visible ::
            q.id in EdgesOf(visible).Values <==> !Uncorrected(q, quotes, versions, mappings, assessments, query))
  {
    var versionIndex, mappingIndex := IndexBy(versions, VersionKey), IndexBy(mappings, MappingKey);
    var visible := VisibleQuotes(quotes, versionIndex, mappingIndex, assessments, query);
    VisibleQuotesHold(quotes, versionIndex, mappingIndex, assessments, query);
    forall q ensures q in visible <==> Seen(q, quotes, versions, mappings, assessments, query) {
      VisibleIsSeen(q, quotes, versions, mappings, assessments, query);
    }
    EdgesHold(visible);
    forall q <- visible
      ensures q.id in EdgesOf(visible).Values
              <==> !Uncorrected(q, quotes, versions, mappings, assessments, query)
    {
      CorrectedIsTarget(visible, q);
    }
  }

  lemma CorrectedIsTarget(visible: seq<Quote>, q: Quote)
    requires DistinctIds(visible)
    ensures q.id in EdgesOf(visible).Values <==> exists s <- visible :: s.supersedes == Some(q.id)
  {
    EdgesHold(visible);
    var edges := EdgesOf(visible);
    if q.id in edges.Values {
      var id :| id in edges && edges[id] == q.id;
      var s :| s in visible && s.id == id && s.supersedes == Some(edges[id]);
    }
    if s :| s in visible && s.supersedes == Some(q.id) {
      assert s.id in edges && edges[s.id] == q.id;
    }
  }

  lemma GreatestIsQuoted(
    quotes: seq<Quote>, versions: seq<ContractVersion>, mappings: seq<Mapping>, assessments: seq<Assessment>,
    query: Query, visible: seq<Quote>, q: Quote)
    requires forall s :: s in visible <==> Seen(s, quotes, versions, mappings, assessments, query)
    requires forall s <- visible ::
               s.id in EdgesOf(visible).Values <==> !Uncorrected(s, quotes, versions, mappings, assessments, query)
    requires IsGreatest(visible, EdgesOf(visible).Values, q.contract.id, Some(q))
    ensures Quoted(q, quotes, versions, mappings, assessments, query)
  {
    forall other <- quotes |
      && Seen(other, quotes, versions, mappings, assessments, query)
      && Uncorrected(other, quotes, versions, mappings, assessments, query)
      && other.contract.id == q.contract.id && other != q
      ensures RanksBelow(RankOf(other), RankOf(q))
    {
      assert Remains(visible, EdgesOf(visible).Values, q.contract.id, other);
      LaterIsRankedAbove(q, other);
    }
  }

  lemma SortedIsInOrder(chain: seq<Quote>)
    requires Sorted(chain, ByContract)
    ensures InContractOrder(chain)
  {
  }

  /**
   What an accepted chain quotes, in terms of the records: a contract is in it exactly when some quote of it is
   seen; its entry is the one seen and uncorrected quote of the contract that ranks above all others; and the
   entries stand in contract order, one for each contract.
   */
  lemma ChainQuotes(
    quotes: seq<Quote>, versions: seq<ContractVersion>, mappings: seq<Mapping>, assessments: seq<Assessment>,
    query: Query, chain: seq<Quote>)
    requires Reconstructs(quotes, versions, mappings, assessments, query, Ok(chain))
    ensures forall q <- chain :: Quoted(q, quotes, versions, mappings, assessments, query)
    ensures forall q <- quotes | Seen(q, quotes, versions, mappings, assessments, query) ::
              exists entry <- chain :: entry.contract.id == q.contract.id
    ensures InContractOrder(chain)
    ensures forall i, j :: 0 <= i < j < |chain| ==> chain[i].contract.id != chain[j].contract.id
  {
    var versionIndex, mappingIndex := IndexBy(versions, VersionKey), IndexBy(mappings, MappingKey);
    var visible := VisibleQuotes(quotes, versionIndex, mappingIndex, assessments, query);
    var targets := EligibleTargets(quotes, versionIndex, mappingIndex, query);
    VisibleHold(quotes, versions, mappings, assessments, query);
    TargetsRestrict(quotes, versionIndex, mappingIndex, query);
    forall q <- chain ensures Quoted(q, quotes, versions, mappings, assessments, query) {
      ChainIsLatestVisible(visible, targets, chain, q.contract.id);
      GreatestIsQuoted(quotes, versions, mappings, assessments, query, visible, q);
    }
    forall q <- quotes | Seen(q, quotes, versions, mappings, assessments, query)
      ensures exists entry <- chain :: entry.contract.id == q.contract.id
    {
      assert q in visible;
      ChainIsLatestVisible(visible, targets, chain, q.contract.id);
    }
    ChainListsEntries(visible, EdgesOf(visible).Values, chain);
    SortedIsInOrder(chain);
    EachContractOnce(visible, EdgesOf(visible).Values, chain);
  }

  predicate OtherContract(a: Quote, b: Quote) {
    a.contract.id != b.contract.id
  }

  lemma EachContractOnce(visible: seq<Quote>, superseded: set<EventId>, chain: seq<Quote>)
    requires DistinctIds(visible) && chain == SortBy(Entries(LatestOf(visible, superseded)), ByContract)
    ensures forall i, j :: 0 <= i < j < |chain| ==> chain[i].contract.id != chain[j].contract.id
  {
    var latest := LatestOf(visible, superseded);
    var entries := Entries(latest);
    forall i, j | 0 <= i < j < |entries| ensures OtherContract(entries[i], entries[j]) {
      EntryContract(visible, superseded, latest.order[i]);
      EntryContract(visible, superseded, latest.order[j]);
    }
    SortKeepsPairs(entries, ByContract, OtherContract);
  }

  lemma EntryContract(visible: seq<Quote>, superseded: set<EventId>, contract: ContractId)
    requires DistinctIds(visible) && contract in LatestOf(visible, superseded).quotes
    ensures LatestOf(visible, superseded).quotes[contract].contract.id == contract
  {
    LatestIsGreatest(visible, superseded, contract);
  }

  // ---- When a chain is accepted ----

  /** A seen correction targets another quote that may be corrected, of its contract and event type. */
  ghost predicate Corrects(
    s: Quote, quotes: seq<Quote>, versions: seq<ContractVersion>, mappings: seq<Mapping>, query: Query)
  {
    s.supersedes.Some? ==>
      && s.supersedes != Some(s.id)
      && (exists target <- quotes ::
            && Correctable(target, quotes, versions, mappings, query) && s.supersedes == Some(target.id)
            && target.contract.id == s.contract.id && target.eventType == s.eventType)
  }

  /** One quote of a list corrects the next, the last one the first. */
  predicate CorrectsNext(round: seq<Quote>, i: nat)
    requires i < |round|
  {
    round[i].supersedes == Some(round[if i + 1 < |round| then i + 1 else 0].id)
  }

  ghost predicate IsRound(round: seq<Quote>) {
    round != [] && forall i: nat | i < |round| :: CorrectsNext(round, i)
  }

  /** Every seen correction corrects, no two correct the same quote, and there is no round of them. */
  ghost predicate CorrectionsInOrder(
    quotes: seq<Quote>, versions: seq<ContractVersion>, mappings: seq<Mapping>, assessments: seq<Assessment>,
    query: Query)
  {
    && (forall s <- quotes ::
          Seen(s, quotes, versions, mappings, assessments, query) ==> Corrects(s, quotes, versions, mappings, query))
    && (forall a <- quotes, b <- quotes |
          && Seen(a, quotes, versions, mappings, assessments, query)
          && Seen(b, quotes, versions, mappings, assessments, query)
          && a.supersedes.Some? && a.supersedes == b.supersedes :: a == b)
    && (forall round: seq<Quote> ::
          (forall s <- round :: Seen(s, quotes, versions, mappings, assessments, query)) ==> !IsRound(round))
  }

  lemma DefectOfCorrection(
    s: Quote, quotes: seq<Quote>, versions: seq<ContractVersion>, mappings: seq<Mapping>, query: Query)
    requires Unique(versions, VersionKey) && Unique(mappings, MappingKey) && Unique(quotes, QuoteKey)
    ensures
      var targets := EligibleTargets(quotes, IndexBy(versions, VersionKey), IndexBy(mappings, MappingKey), query);
      Defect(s, targets) == None <==> Corrects(s, quotes, versions, mappings, query)
  {
    var versionIndex, mappingIndex := IndexBy(versions, VersionKey), IndexBy(mappings, MappingKey);
    var targets := EligibleTargets(quotes, versionIndex, mappingIndex, query);
    if s.supersedes.Some? {
      var id := s.supersedes.value;
      if id in targets {
        TargetIsQuote(quotes, versionIndex, mappingIndex, query, id);
        EligibleIsCorrectable(targets[id], quotes, versions, mappings, query);
      }
      forall target <- quotes | Correctable(target, quotes, versions, mappings, query) && id == target.id
        ensures id in targets && targets[id] == target
      {
        EligibleIsCorrectable(target, quotes, versions, mappings, query);
        QuoteIsTarget(quotes, versionIndex, mappingIndex, query, target);
        TargetIsQuote(quotes, versionIndex, mappingIndex, query, id);
        OneIdentity(quotes, targets[id], target);
      }
    }
  }

  lemma OneToOneOfQuotes(visible: seq<Quote>)
    requires DistinctIds(visible)
    ensures OneToOne(EdgesOf(visible))
            <==> forall a <- visible, b <- visible ::
                a.supersedes.Some? && a.supersedes == b.supersedes ==> a == b
  {
    EdgesHold(visible);
    var edges := EdgesOf(visible);
    if OneToOne(edges) {
      forall a <- visible, b <- visible | a.supersedes.Some? && a.supersedes == b.supersedes ensures a == b {
        assert edges[a.id] == edges[b.id];
        SameIdentity(visible, a, b);
      }
    }
    if forall a <- visible, b <- visible :: a.supersedes.Some? && a.supersedes == b.supersedes ==> a == b {
      forall x <- edges, y <- edges | edges[x] == edges[y] ensures x == y {
        var a :| a in visible && a.id == x && a.supersedes == Some(edges[x]);
        var b :| b in visible && b.id == y && b.supersedes == Some(edges[y]);
      }
    }
  }

  /** Along a round of quotes the walk comes back to its start. */
  lemma {:induction false} RoundWalks(visible: seq<Quote>, round: seq<Quote>, steps: nat)
    requires DistinctIds(visible) && IsRound(round) && (forall s <- round :: s in visible) && steps < |round|
    ensures Walk(EdgesOf(visible), round[0].id, steps) == Some(round[steps].id)
    ensures round[steps].id in EdgesOf(visible)
    ensures EdgesOf(visible)[round[steps].id]
            == if steps + 1 < |round| then round[steps + 1].id else round[0].id
  {
    EdgesHold(visible);
    assert round[steps] in round && CorrectsNext(round, steps);
    if steps == 0 {
    } else {
      RoundWalks(visible, round, steps - 1);
      assert CorrectsNext(round, steps - 1);
    }
  }

  /** The quotes met on a walk. */
  lemma {:induction false} WalkedQuotes(visible: seq<Quote>, start: EventId, steps: nat) returns (met: seq<Quote>)
    requires DistinctIds(visible) && steps > 0 && Walk(EdgesOf(visible), start, steps).Some?
    ensures |met| == steps && met[0].id == start && forall s <- met :: s in visible
    ensures forall i | 0 <= i < steps - 1 :: met[i].supersedes == Some(met[i + 1].id)
    ensures met[steps - 1].supersedes == Walk(EdgesOf(visible), start, steps)
  {
    EdgesHold(visible);
    var edges := EdgesOf(visible);
    var before := Walk(edges, start, steps - 1).value;
    var s :| s in visible && s.id == before && s.supersedes == Some(edges[before]);
    if steps == 1 {
      met := [s];
    } else {
      met := WalkedQuotes(visible, start, steps - 1);
      met := met + [s];
    }
  }

  lemma AcyclicOfQuotes(visible: seq<Quote>)
    requires DistinctIds(visible)
    ensures Acyclic(EdgesOf(visible))
      <==> forall round: seq<Quote> :: (forall s <- round :: s in visible) ==> !IsRound(round)
  {
    var edges := EdgesOf(visible);
    if round: seq<Quote> :| (forall s <- round :: s in visible) && IsRound(round) {
      RoundWalks(visible, round, |round| - 1);
      assert Returns(edges, round[0].id, |round|);
      assert round[0].id in edges by {
        RoundWalks(visible, round, 0);
      }
    }
    if !Acyclic(edges) {
      var id :| id in edges && OnCycle(edges, id);
      var steps: nat :| Returns(edges, id, steps);
      var met := WalkedQuotes(visible, id, steps);
      forall i: nat | i < |met| ensures CorrectsNext(met, i) {
      }
      assert IsRound(met);
    }
  }

  /**
   A chain is reconstructed exactly when no two records contradict each other and the corrections that are seen are
   in order.
   */
  lemma ReconstructedExactlyWhen(
    quotes: seq<Quote>, versions: seq<ContractVersion>, mappings: seq<Mapping>, assessments: seq<Assessment>,
    query: Query, result: Result<seq<Quote>, ChainError>)
    requires Reconstructs(quotes, versions, mappings, assessments, query, result)
    ensures result.Ok?
            <==> && Unique(versions, VersionKey) && Unique(mappings, MappingKey) && Unique(quotes, QuoteKey)
                 && CorrectionsInOrder(quotes, versions, mappings, assessments, query)
  {
    if Unique(versions, VersionKey) && Unique(mappings, MappingKey) && Unique(quotes, QuoteKey) {
      GraphInOrder(quotes, versions, mappings, assessments, query);
    }
  }

  lemma GraphInOrder(
    quotes: seq<Quote>, versions: seq<ContractVersion>, mappings: seq<Mapping>, assessments: seq<Assessment>,
    query: Query)
    requires Unique(versions, VersionKey) && Unique(mappings, MappingKey) && Unique(quotes, QuoteKey)
    ensures
      var versionIndex, mappingIndex := IndexBy(versions, VersionKey), IndexBy(mappings, MappingKey);
      GraphValid(
        VisibleQuotes(quotes, versionIndex, mappingIndex, assessments, query),
        EligibleTargets(quotes, versionIndex, mappingIndex, query))
      <==> CorrectionsInOrder(quotes, versions, mappings, assessments, query)
  {
    var versionIndex, mappingIndex := IndexBy(versions, VersionKey), IndexBy(mappings, MappingKey);
    var visible := VisibleQuotes(quotes, versionIndex, mappingIndex, assessments, query);
    VisibleHold(quotes, versions, mappings, assessments, query);
    forall s ensures Defect(s, EligibleTargets(quotes, versionIndex, mappingIndex, query)) == None
                     <==> Corrects(s, quotes, versions, mappings, query)
    {
      DefectOfCorrection(s, quotes, versions, mappings, query);
    }
    OneToOneOfQuotes(visible);
    AcyclicOfQuotes(visible);
    assert forall s :: s in visible ==> s in quotes;
  }
}
