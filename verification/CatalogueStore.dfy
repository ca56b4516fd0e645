/**
 The append protocol of the instrument catalogue: one commit attempt either replays an accepted run,
 is refused and changes nothing, or appends one record to each scope it touches.
 */
module CatalogueStore {
  import opened Wrappers
  import opened Temporal
  import opened RecordTables

  /** The one scope all catalogue versions of the provider share. */
  const CATALOGUE_SCOPE: nat := 0

  datatype CatalogueContent = CatalogueContent(details: nat)

  /** Metadata is what a difference is judged by; details are the rest of the immutable row. */
  datatype VersionContent = VersionContent(instrument: nat, metadata: nat, details: nat)

  /** A mapping's instrument is the one its version belongs to. */
  datatype MappingContent = MappingContent(providerKey: nat, instrument: nat, details: nat)

  datatype Item = Item(providerKey: nat, instrument: nat, version: Row<VersionContent>, mapping: Row<MappingContent>) {
    predicate Valid() {
      && version.content.instrument == instrument
      && mapping.content.providerKey == providerKey && mapping.content.instrument == instrument
    }
  }

  /** An accepted plan: its items in provider-key order, each key once. */
  datatype Plan = Plan(catalogue: Row<CatalogueContent>, items: seq<Item>) {
    ghost predicate Valid() {
      && (forall item <- items :: item.Valid())
      && (forall i, j :: 0 <= i < j < |items| ==> items[i].providerKey != items[j].providerKey)
      && (forall i, j :: 0 <= i < j < |items| && items[i].version.id == items[j].version.id ==>
           items[i].version == items[j].version)
    }
  }

  datatype Command = Command(idempotencyKey: nat, digest: nat, runId: nat, supplied: Option<RecordId>, startedAt: nat)

  /** A command with its plan and the clock value read when it is about to write. */
  datatype Attempt = Attempt(command: Command, plan: Plan, recordedAt: nat)

  datatype AcceptedRun = AcceptedRun(id: nat, digest: nat, catalogueRecord: RecordId)

  datatype Store = Store(
    catalogues: Table<CatalogueContent>,
    versions: Table<VersionContent>,
    mappings: Table<MappingContent>,
    runs: map<nat, AcceptedRun>)

  datatype CommitError =
    | IdempotencyConflict
    | ClockBeforeStart
    | PredecessorRequired
    | StalePredecessor
    | ConflictingVersionMetadata
    | ConflictingBindings
    | KeyReassigned
    | Refused(cause: InsertError)

  datatype Category = Added | Unchanged | MetadataChanged | MappingChanged

  datatype Transition = Transition(
    item: Item, priorVersion: Option<RecordId>, priorMapping: Option<RecordId>, category: Category)

  datatype Receipt = Replayed(run: AcceptedRun) | Accepted(run: AcceptedRun, transitions: seq<Transition>)

  // ---- One commit, as a function of the store ----

  predicate ConflictsWithEarlier(items: seq<Item>, item: Item) {
    exists e <- items :: e.instrument == item.instrument && e.version.id != item.version.id
  }

  /** Every instrument a provider key has ever been mapped to. */
  function Bindings(mappings: Table<MappingContent>, providerKey: nat): set<nat> {
    set m <- mappings | m.value.content.providerKey == providerKey :: m.value.content.instrument
  }

  function CategoryOf(
    version: Option<State<Row<VersionContent>>>, mapping: Option<State<Row<MappingContent>>>, item: Item): Category
  {
    if version.None? then Added
    else if version.value.value.content.metadata != item.version.content.metadata then MetadataChanged
    else if mapping.None? then MappingChanged
    else Unchanged
  }

  function PlanItem(store: Store, earlier: seq<Item>, item: Item): Result<Transition, CommitError> {
    var bound := Bindings(store.mappings, item.providerKey);
    var version := LastOf(store.versions, item.instrument);
    var mapping := LastOf(store.mappings, item.providerKey);
    if ConflictsWithEarlier(earlier, item) then Err(ConflictingVersionMetadata)
    else if |bound| > 1 then Err(ConflictingBindings)
    else if bound != {} && bound != {item.instrument} then Err(KeyReassigned)
    else if mapping.Some? && mapping.value.value.content.instrument != item.instrument then Err(KeyReassigned)
    else Ok(Transition(item, IdOf(version), IdOf(mapping), CategoryOf(version, mapping, item)))
  }

  function PlanItems(store: Store, items: seq<Item>): Result<seq<Transition>, CommitError> {
    if items == [] then Ok([])
    else
      var n := |items| - 1;
      match PlanItems(store, items[..n])
      case Err(error) => Err(error)
      case Ok(transitions) =>
        match PlanItem(store, items[..n], items[n])
        case Err(error) => Err(error)
        case Ok(transition) => Ok(transitions + [transition])
  }

  /** The check of the supplied predecessor, then of every item. */
  function BuildTransitions(store: Store, attempt: Attempt): Result<seq<Transition>, CommitError> {
    var leaf := IdOf(LastOf(store.catalogues, CATALOGUE_SCOPE));
    var supplied := attempt.command.supplied;
    if supplied != leaf then Err(if leaf.Some? && supplied.None? then PredecessorRequired else StalePredecessor)
    else PlanItems(store, attempt.plan.items)
  }

  function CatalogueRecord(hash: Identity -> RecordId, attempt: Attempt): State<Row<CatalogueContent>> {
    NewRecord(
      hash, CatalogueVersion, CATALOGUE_SCOPE, attempt.recordedAt, attempt.command.supplied, attempt.plan.catalogue)
  }

  function VersionRecord(hash: Identity -> RecordId, at: nat, transition: Transition): State<Row<VersionContent>> {
    NewRecord(hash, InstrumentVersion, transition.item.instrument, at, transition.priorVersion, transition.item.version)
  }

  function MappingRecord(hash: Identity -> RecordId, at: nat, transition: Transition): State<Row<MappingContent>> {
    NewRecord(hash, ProviderMapping, transition.item.providerKey, at, transition.priorMapping, transition.item.mapping)
  }

  predicate VersionSeen(transitions: seq<Transition>, version: nat) {
    exists t <- transitions :: t.item.version.id == version
  }

  /** One record for each version, at its first item. */
  function VersionRecords(
    hash: Identity -> RecordId, at: nat, transitions: seq<Transition>): seq<State<Row<VersionContent>>>
  {
    if transitions == [] then []
    else
      var n := |transitions| - 1;
      VersionRecords(hash, at, transitions[..n])
      + if VersionSeen(transitions[..n], transitions[n].item.version.id) then []
        else [VersionRecord(hash, at, transitions[n])]
  }

  function MappingRecords(
    hash: Identity -> RecordId, at: nat, transitions: seq<Transition>): (records: seq<State<Row<MappingContent>>>)
    ensures |records| == |transitions|
    ensures forall i :: 0 <= i < |records| ==> records[i] == MappingRecord(hash, at, transitions[i])
  {
    if transitions == [] then []
    else
      var n := |transitions| - 1;
      MappingRecords(hash, at, transitions[..n]) + [MappingRecord(hash, at, transitions[n])]
  }

  function Write(
    hash: Identity -> RecordId, store: Store, attempt: Attempt, transitions: seq<Transition>):
    Result<Store, InsertError>
  {
    var at := attempt.recordedAt;
    match Inserted(store.catalogues, CatalogueRecord(hash, attempt))
    case Err(error) => Err(error)
    case Ok(catalogues) =>
      match InsertAll(store.versions, VersionRecords(hash, at, transitions))
      case Err(error) => Err(error)
      case Ok(versions) =>
        match InsertAll(store.mappings, MappingRecords(hash, at, transitions))
        case Err(error) => Err(error)
        case Ok(mappings) =>
          Ok(Store(catalogues, versions, mappings, store.runs[attempt.command.idempotencyKey := NewRun(hash, attempt)]))
  }

  function NewRun(hash: Identity -> RecordId, attempt: Attempt): AcceptedRun {
    AcceptedRun(attempt.command.runId, attempt.command.digest, CatalogueRecord(hash, attempt).id)
  }

  /** A new key: the clock check, the transition plan, the writes. */
  function CommitNew(
    hash: Identity -> RecordId, store: Store, attempt: Attempt): (Store, Result<Receipt, CommitError>)
  {
    if attempt.recordedAt < attempt.command.startedAt then (store, Err(ClockBeforeStart))
    else
      match BuildTransitions(store, attempt)
      case Err(error) => (store, Err(error))
      case Ok(transitions) =>
        match Write(hash, store, attempt, transitions)
        case Err(error) => (store, Err(Refused(error)))
        case Ok(written) => (written, Ok(Accepted(NewRun(hash, attempt), transitions)))
  }

  function Committed(
    hash: Identity -> RecordId, store: Store, attempt: Attempt): (Store, Result<Receipt, CommitError>)
  {
    if attempt.command.idempotencyKey in store.runs then
      var run := store.runs[attempt.command.idempotencyKey];
      (store, if run.digest != attempt.command.digest then Err(IdempotencyConflict) else Ok(Replayed(run)))
    else CommitNew(hash, store, attempt)
  }

  // ---- What the store keeps ----

  /** Every scope of every table is one chain, and a provider key has one instrument. */
  ghost predicate Valid(store: Store) {
    && Chained(store.catalogues, CatalogueVersion)
    && Chained(store.versions, InstrumentVersion)
    && Chained(store.mappings, ProviderMapping)
    && (forall c <- store.catalogues :: c.scope == CATALOGUE_SCOPE)
    && (forall v <- store.versions :: v.scope == v.value.content.instrument)
    && (forall m <- store.mappings :: m.scope == m.value.content.providerKey)
    && KeysFixed(store.mappings)
  }

  ghost predicate KeysFixed(mappings: Table<MappingContent>) {
    forall a <- mappings, b <- mappings ::
      a.value.content.providerKey == b.value.content.providerKey ==>
          a.value.content.instrument == b.value.content.instrument
  }

  /** A table after a commit: what it had, then records all made at one time. */
  ghost predicate GrownAt<V>(before: seq<State<V>>, after: seq<State<V>>, at: nat) {
    && |before| <= |after| && after[..|before|] == before
    && (forall i :: |before| <= i < |after| ==> after[i].recordedAt == at)
  }

  ghost predicate StoreGrownAt(before: Store, after: Store, at: nat) {
    && GrownAt(before.catalogues, after.catalogues, at)
    && GrownAt(before.versions, after.versions, at)
    && GrownAt(before.mappings, after.mappings, at)
    && (forall key <- before.runs :: key in after.runs && after.runs[key] == before.runs[key])
  }

  /** The item's version and mapping are the last of their scopes, known from the attempt's time. */
  ghost predicate ItemLeaves(after: Store, attempt: Attempt, item: Item) {
    && LastOf(after.versions, item.instrument).Some?
    && LastOf(after.versions, item.instrument).value.value == item.version
    && LastOf(after.versions, item.instrument).value.recordedAt == attempt.recordedAt
    && LastOf(after.mappings, item.providerKey).Some?
    && LastOf(after.mappings, item.providerKey).value.value == item.mapping
    && LastOf(after.mappings, item.providerKey).value.recordedAt == attempt.recordedAt
  }

  /** Every scope the plan touches ends with the plan's record, and no other scope changes. */
  ghost predicate LeavesOf(before: Store, after: Store, attempt: Attempt, run: AcceptedRun) {
    && LastOf(after.catalogues, CATALOGUE_SCOPE).Some?
    && LastOf(after.catalogues, CATALOGUE_SCOPE).value.id == run.catalogueRecord
    && LastOf(after.catalogues, CATALOGUE_SCOPE).value.value == attempt.plan.catalogue
    && (forall item <- attempt.plan.items :: ItemLeaves(after, attempt, item))
    && (forall scope: nat | forall item <- attempt.plan.items :: item.instrument != scope ::
          InScope(after.versions, scope) == InScope(before.versions, scope))
    && (forall scope: nat | forall item <- attempt.plan.items :: item.providerKey != scope ::
          InScope(after.mappings, scope) == InScope(before.mappings, scope))
  }

  // ---- Transition plans ----

  /** What the transition plan of a store says of one item. */
  ghost predicate PlannedItem(store: Store, item: Item, transition: Transition) {
    && transition.item == item
    && transition.priorVersion == IdOf(LastOf(store.versions, item.instrument))
    && transition.priorMapping == IdOf(LastOf(store.mappings, item.providerKey))
    && Bindings(store.mappings, item.providerKey) <= {item.instrument}
    && transition.category
       == CategoryOf(LastOf(store.versions, item.instrument), LastOf(store.mappings, item.providerKey), item)
  }

  ghost predicate OneVersionEach(items: seq<Item>) {
    forall i, j :: 0 <= i < j < |items| && items[i].instrument == items[j].instrument ==>
        items[i].version.id == items[j].version.id
  }

  ghost predicate Planned(store: Store, items: seq<Item>, transitions: seq<Transition>) {
    && |transitions| == |items|
    && (forall i: nat | i < |items| :: PlannedItem(store, items[i], transitions[i]))
    && OneVersionEach(items)
  }

  lemma PlanItemPlans(store: Store, earlier: seq<Item>, item: Item)
    requires PlanItem(store, earlier, item).Ok? && OneVersionEach(earlier)
    ensures PlannedItem(store, item, PlanItem(store, earlier, item).value)
    ensures OneVersionEach(earlier + [item])
  {
    assert forall i :: 0 <= i < |earlier| ==> earlier[i] in earlier;
  }

  lemma TransitionAppended(
    store: Store, items: seq<Item>, transitions: seq<Transition>, item: Item, transition: Transition)
    requires Planned(store, items, transitions) && PlannedItem(store, item, transition)
             && OneVersionEach(items + [item])
    ensures Planned(store, items + [item], transitions + [transition])
  {
  }

  lemma {:induction false} PlanItemsPlans(store: Store, items: seq<Item>)
    requires PlanItems(store, items).Ok?
    ensures Planned(store, items, PlanItems(store, items).value)
  {
    if items == [] {
    } else {
      var n := |items| - 1;
      PlanItemsPlans(store, items[..n]);
      PlanItemPlans(store, items[..n], items[n]);
      assert items == items[..n] + [items[n]];
      TransitionAppended(
        store, items[..n], PlanItems(store, items[..n]).value, items[n], PlanItem(store, items[..n], items[n]).value);
    }
  }

  // ---- Records to write ----

  /** Every version record is that of some transition. */
  lemma {:induction false} VersionRecordSource(
    hash: Identity -> RecordId, at: nat, transitions: seq<Transition>, r: State<Row<VersionContent>>)
    returns (i: nat)
    requires r in VersionRecords(hash, at, transitions)
    ensures i < |transitions| && r == VersionRecord(hash, at, transitions[i])
  {
    var n := |transitions| - 1;
    if r in VersionRecords(hash, at, transitions[..n]) {
      i := VersionRecordSource(hash, at, transitions[..n], r);
    } else {
      i := n;
    }
  }

  /** Every version of the plan has its record. */
  lemma {:induction false} VersionHasRecord(hash: Identity -> RecordId, at: nat, transitions: seq<Transition>, i: nat)
    returns (j: nat)
    requires i < |transitions|
    ensures j <= i && transitions[j].item.version.id == transitions[i].item.version.id
    ensures VersionRecord(hash, at, transitions[j]) in VersionRecords(hash, at, transitions)
  {
    var n := |transitions| - 1;
    if i < n {
      j := VersionHasRecord(hash, at, transitions[..n], i);
    } else if VersionSeen(transitions[..n], transitions[n].item.version.id) {
      var t :| t in transitions[..n] && t.item.version.id == transitions[n].item.version.id;
      var k: nat :| k < n && transitions[k] == t;
      j := VersionHasRecord(hash, at, transitions[..n], k);
    } else {
      j := n;
    }
  }

  lemma PlannedPrefix(store: Store, items: seq<Item>, transitions: seq<Transition>, n: nat)
    requires Planned(store, items, transitions) && n <= |items|
    ensures Planned(store, items[..n], transitions[..n])
  {
    forall i: nat | i < n ensures PlannedItem(store, items[..n][i], transitions[..n][i]) {
      assert PlannedItem(store, items[i], transitions[i]);
    }
  }

  /** A version not seen before is of an instrument not seen before. */
  lemma NewVersionIsOfNewInstrument(
    hash: Identity -> RecordId, at: nat, store: Store, items: seq<Item>, transitions: seq<Transition>, n: nat)
    requires Planned(store, items, transitions) && n < |items|
    requires !VersionSeen(transitions[..n], transitions[n].item.version.id)
    ensures forall r <- VersionRecords(hash, at, transitions[..n]) :: r.scope != transitions[n].item.instrument
  {
    var front := transitions[..n];
    forall r | r in VersionRecords(hash, at, front) ensures r.scope != transitions[n].item.instrument {
      var i := VersionRecordSource(hash, at, front, r);
      assert front[i] in front && PlannedItem(store, items[i], transitions[i])
             && PlannedItem(store, items[n], transitions[n]);
    }
  }

  lemma {:induction false} VersionRecordsSucceed(
    hash: Identity -> RecordId, at: nat, store: Store, items: seq<Item>, transitions: seq<Transition>)
    requires Planned(store, items, transitions)
    ensures Succeed(store.versions, InstrumentVersion, VersionRecords(hash, at, transitions))
  {
    if transitions == [] {
    } else {
      var n := |transitions| - 1;
      PlannedPrefix(store, items, transitions, n);
      VersionRecordsSucceed(hash, at, store, items[..n], transitions[..n]);
      assert PlannedItem(store, items[n], transitions[n]);
      if !VersionSeen(transitions[..n], transitions[n].item.version.id) {
        NewVersionIsOfNewInstrument(hash, at, store, items, transitions, n);
        SucceedOneMore(
          store.versions, InstrumentVersion, VersionRecords(hash, at, transitions[..n]),
          VersionRecord(hash, at, transitions[n]));
      }
    }
  }

  lemma MappingRecordsSucceed(
    hash: Identity -> RecordId, at: nat, store: Store, items: seq<Item>, transitions: seq<Transition>)
    requires Planned(store, items, transitions)
    requires forall i, j :: 0 <= i < j < |items| ==> items[i].providerKey != items[j].providerKey
    ensures Succeed(store.mappings, ProviderMapping, MappingRecords(hash, at, transitions))
  {
    var records := MappingRecords(hash, at, transitions);
    forall i: nat | i < |records| ensures records[i].supersedes == IdOf(LastOf(store.mappings, records[i].scope)) {
      assert PlannedItem(store, items[i], transitions[i]);
    }
    forall i, j | 0 <= i < j < |records| ensures records[i].scope != records[j].scope {
      assert PlannedItem(store, items[i], transitions[i]) && PlannedItem(store, items[j], transitions[j]);
    }
  }

  // ---- One commit ----

  /** What an accepted commit writes: exactly its records, each ending its chain. */
  ghost predicate Appended(
    hash: Identity -> RecordId, store: Store, written: Store, attempt: Attempt, transitions: seq<Transition>)
  {
    var versions, mappings :=
      VersionRecords(hash, attempt.recordedAt, transitions), MappingRecords(hash, attempt.recordedAt, transitions);
    && written.catalogues == store.catalogues + [CatalogueRecord(hash, attempt)]
    && Extended(store.catalogues, written.catalogues, CatalogueVersion, [CatalogueRecord(hash, attempt)])
    && written.versions == store.versions + versions
    && Extended(store.versions, written.versions, InstrumentVersion, versions)
    && written.mappings == store.mappings + mappings
    && Extended(store.mappings, written.mappings, ProviderMapping, mappings)
    && written.runs == store.runs[attempt.command.idempotencyKey := NewRun(hash, attempt)]
  }

  lemma WriteAppends(hash: Identity -> RecordId, store: Store, attempt: Attempt, transitions: seq<Transition>)
    requires Valid(store) && attempt.plan.Valid() && Planned(store, attempt.plan.items, transitions)
    requires attempt.command.supplied == IdOf(LastOf(store.catalogues, CATALOGUE_SCOPE))
    requires Write(hash, store, attempt, transitions).Ok?
    ensures Appended(hash, store, Write(hash, store, attempt, transitions).value, attempt, transitions)
  {
    var record := CatalogueRecord(hash, attempt);
    assert InsertAll(store.catalogues, [record]) == Inserted(store.catalogues, record) by {
      assert [record][..0] == [];
    }
    InsertAllExtends(store.catalogues, CatalogueVersion, [record]);
    VersionRecordsSucceed(hash, attempt.recordedAt, store, attempt.plan.items, transitions);
    InsertAllExtends(store.versions, InstrumentVersion, VersionRecords(hash, attempt.recordedAt, transitions));
    MappingRecordsSucceed(hash, attempt.recordedAt, store, attempt.plan.items, transitions);
    InsertAllExtends(store.mappings, ProviderMapping, MappingRecords(hash, attempt.recordedAt, transitions));
  }

  lemma VersionScopes(hash: Identity -> RecordId, store: Store, attempt: Attempt, transitions: seq<Transition>)
    requires attempt.plan.Valid() && Planned(store, attempt.plan.items, transitions)
    ensures forall r <- VersionRecords(hash, attempt.recordedAt, transitions) ::
              && r.recordedAt == attempt.recordedAt && r.scope == r.value.content.instrument
              && exists item <- attempt.plan.items :: item.instrument == r.scope
  {
    var at := attempt.recordedAt;
    forall r <- VersionRecords(hash, at, transitions)
      ensures r.recordedAt == at && r.scope == r.value.content.instrument
      ensures exists item <- attempt.plan.items :: item.instrument == r.scope
    {
      var i := VersionRecordSource(hash, at, transitions, r);
      assert PlannedItem(store, attempt.plan.items[i], transitions[i]) && attempt.plan.items[i] in attempt.plan.items;
    }
  }

  lemma MappingScopes(hash: Identity -> RecordId, store: Store, attempt: Attempt, transitions: seq<Transition>)
    requires attempt.plan.Valid() && Planned(store, attempt.plan.items, transitions)
    ensures forall r <- MappingRecords(hash, attempt.recordedAt, transitions) ::
              && r.recordedAt == attempt.recordedAt && r.scope == r.value.content.providerKey
              && Bindings(store.mappings, r.scope) <= {r.value.content.instrument}
              && exists item <- attempt.plan.items :: item.providerKey == r.scope
  {
    var records := MappingRecords(hash, attempt.recordedAt, transitions);
    forall i: nat | i < |records|
      ensures records[i].recordedAt == attempt.recordedAt && records[i].scope == records[i].value.content.providerKey
      ensures Bindings(store.mappings, records[i].scope) <= {records[i].value.content.instrument}
      ensures exists item <- attempt.plan.items :: item.providerKey == records[i].scope
    {
      assert PlannedItem(store, attempt.plan.items[i], transitions[i]) && attempt.plan.items[i] in attempt.plan.items;
    }
  }

  lemma KeysStayFixed(mappings: Table<MappingContent>, added: Table<MappingContent>)
    requires KeysFixed(mappings) && forall m <- mappings :: m.scope == m.value.content.providerKey
    requires forall r <- added ::
               r.scope == r.value.content.providerKey && Bindings(mappings, r.scope) <= {r.value.content.instrument}
    requires forall i, j :: 0 <= i < j < |added| ==> added[i].scope != added[j].scope
    ensures KeysFixed(mappings + added)
  {
    forall a <- mappings + added, b <- mappings + added | a.value.content.providerKey == b.value.content.providerKey
      ensures a.value.content.instrument == b.value.content.instrument
    {
      if a in mappings && b in added {
        assert a.value.content.instrument in Bindings(mappings, b.scope);
      } else if b in mappings && a in added {
        assert b.value.content.instrument in Bindings(mappings, a.scope);
      }
    }
  }

  lemma AppendedKeepsValid(
    hash: Identity -> RecordId, store: Store, written: Store, attempt: Attempt, transitions: seq<Transition>)
    requires Valid(store) && attempt.plan.Valid() && Planned(store, attempt.plan.items, transitions)
    requires Appended(hash, store, written, attempt, transitions)
    ensures Valid(written)
  {
    VersionScopes(hash, store, attempt, transitions);
    MappingScopes(hash, store, attempt, transitions);
    MappingRecordsSucceed(hash, attempt.recordedAt, store, attempt.plan.items, transitions);
    KeysStayFixed(store.mappings, MappingRecords(hash, attempt.recordedAt, transitions));
  }

  lemma GrowsBy<V>(before: seq<State<V>>, added: seq<State<V>>, at: nat)
    requires forall r <- added :: r.recordedAt == at
    ensures GrownAt(before, before + added, at)
  {
    forall i | |before| <= i < |before + added| ensures (before + added)[i].recordedAt == at {
      assert added[i - |before|] in added;
    }
  }

  lemma AppendedGrows(
    hash: Identity -> RecordId, store: Store, written: Store, attempt: Attempt, transitions: seq<Transition>)
    requires attempt.plan.Valid() && Planned(store, attempt.plan.items, transitions)
    requires Appended(hash, store, written, attempt, transitions) && attempt.command.idempotencyKey !in store.runs
    ensures StoreGrownAt(store, written, attempt.recordedAt)
  {
    var at := attempt.recordedAt;
    assert GrownAt(store.catalogues, written.catalogues, at) by {
      GrowsBy(store.catalogues, [CatalogueRecord(hash, attempt)], at);
    }
    assert GrownAt(store.versions, written.versions, at) by {
      VersionScopes(hash, store, attempt, transitions);
      GrowsBy(store.versions, VersionRecords(hash, at, transitions), at);
    }
    assert GrownAt(store.mappings, written.mappings, at) by {
      MappingScopes(hash, store, attempt, transitions);
      GrowsBy(store.mappings, MappingRecords(hash, at, transitions), at);
    }
  }

  /** Every item's version and mapping are among the written records. */
  lemma ItemRecords(
    hash: Identity -> RecordId, store: Store, attempt: Attempt, transitions: seq<Transition>, item: Item)
    returns (version: State<Row<VersionContent>>, mapping: State<Row<MappingContent>>)
    requires attempt.plan.Valid() && Planned(store, attempt.plan.items, transitions) && item in attempt.plan.items
    ensures version in VersionRecords(hash, attempt.recordedAt, transitions)
    ensures version.scope == item.instrument && version.value == item.version
            && version.recordedAt == attempt.recordedAt
    ensures mapping in MappingRecords(hash, attempt.recordedAt, transitions)
    ensures mapping.scope == item.providerKey && mapping.value == item.mapping
            && mapping.recordedAt == attempt.recordedAt
  {
    var at, items := attempt.recordedAt, attempt.plan.items;
    var i: nat :| i < |items| && items[i] == item;
    var j := VersionHasRecord(hash, at, transitions, i);
    assert PlannedItem(store, items[i], transitions[i]);
    assert PlannedItem(store, items[j], transitions[j]) && items[j] in items;
    version := VersionRecord(hash, at, transitions[j]);
    mapping := MappingRecords(hash, at, transitions)[i];
  }

  lemma AppendedLeaves(
    hash: Identity -> RecordId, store: Store, written: Store, attempt: Attempt, transitions: seq<Transition>)
    requires attempt.plan.Valid() && Planned(store, attempt.plan.items, transitions)
    requires Appended(hash, store, written, attempt, transitions)
    ensures LeavesOf(store, written, attempt, NewRun(hash, attempt))
  {
    assert CatalogueRecord(hash, attempt) in [CatalogueRecord(hash, attempt)];
    forall item <- attempt.plan.items ensures ItemLeaves(written, attempt, item) {
      var version, mapping := ItemRecords(hash, store, attempt, transitions, item);
    }
    forall scope: nat | forall item <- attempt.plan.items :: item.instrument != scope
      ensures InScope(written.versions, scope) == InScope(store.versions, scope)
    {
      VersionScopes(hash, store, attempt, transitions);
    }
    forall scope: nat | forall item <- attempt.plan.items :: item.providerKey != scope
      ensures InScope(written.mappings, scope) == InScope(store.mappings, scope)
    {
      MappingScopes(hash, store, attempt, transitions);
    }
  }

  /** What an accepted attempt does to a store. */
  ghost predicate AcceptedKeeps(
    hash: Identity -> RecordId, store: Store, attempt: Attempt, after: Store, transitions: seq<Transition>)
  {
    && attempt.command.supplied == IdOf(LastOf(store.catalogues, CATALOGUE_SCOPE))
    && after.runs == store.runs[attempt.command.idempotencyKey := NewRun(hash, attempt)]
    && Planned(store, attempt.plan.items, transitions)
    && LeavesOf(store, after, attempt, NewRun(hash, attempt))
  }

  ghost predicate IsAccepted(result: Result<Receipt, CommitError>) {
    result.Ok? && result.value.Accepted?
  }

  lemma WrittenKeeps(
    hash: Identity -> RecordId, store: Store, attempt: Attempt, written: Store, transitions: seq<Transition>)
    requires Valid(store) && attempt.plan.Valid() && attempt.command.idempotencyKey !in store.runs
    requires BuildTransitions(store, attempt) == Ok(transitions)
             && Write(hash, store, attempt, transitions) == Ok(written)
    ensures Valid(written) && StoreGrownAt(store, written, attempt.recordedAt)
    ensures AcceptedKeeps(hash, store, attempt, written, transitions)
  {
    PlanItemsPlans(store, attempt.plan.items);
    WriteAppends(hash, store, attempt, transitions);
    AppendedKeepsValid(hash, store, written, attempt, transitions);
    AppendedGrows(hash, store, written, attempt, transitions);
    AppendedLeaves(hash, store, written, attempt, transitions);
  }

  /** The three outcomes of an attempt. */
  lemma CommitOutcomes(hash: Identity -> RecordId, store: Store, attempt: Attempt)
    ensures
      var (after, result) := Committed(hash, store, attempt);
      && (IsAccepted(result) ==>
            && attempt.command.idempotencyKey !in store.runs
            && result.value.run == NewRun(hash, attempt)
            && BuildTransitions(store, attempt) == Ok(result.value.transitions)
            && Write(hash, store, attempt, result.value.transitions) == Ok(after))
      && (!IsAccepted(result) ==> after == store)
  {
  }

  /**
   One commit attempt. Every scope stays one chain; an accepted attempt supersedes exactly the leaves
   its plan touches; a refused or replayed attempt changes nothing.
   */
  lemma CommitKeepsStore(hash: Identity -> RecordId, store: Store, attempt: Attempt)
    requires Valid(store) && attempt.plan.Valid()
    ensures
      var (after, result) := Committed(hash, store, attempt);
      && Valid(after)
      && (IsAccepted(result) ==>
            && attempt.command.idempotencyKey !in store.runs
            && AcceptedKeeps(hash, store, attempt, after, result.value.transitions)
            && result.value.run == NewRun(hash, attempt))
      && (!IsAccepted(result) ==> after == store)
  {
    CommitOutcomes(hash, store, attempt);
    var (after, result) := Committed(hash, store, attempt);
    if IsAccepted(result) {
      WrittenKeeps(hash, store, attempt, after, result.value.transitions);
    }
  }

  lemma CommitGrows(hash: Identity -> RecordId, store: Store, attempt: Attempt)
    requires Valid(store) && attempt.plan.Valid()
    ensures Valid(Committed(hash, store, attempt).0)
    ensures StoreGrownAt(store, Committed(hash, store, attempt).0, attempt.recordedAt)
  {
    CommitOutcomes(hash, store, attempt);
    var (after, result) := Committed(hash, store, attempt);
    if IsAccepted(result) {
      WrittenKeeps(hash, store, attempt, after, result.value.transitions);
    }
  }

  // ---- Runs of attempts ----

  function CommitAll(hash: Identity -> RecordId, store: Store, attempts: seq<Attempt>): Store {
    if attempts == [] then store
    else Committed(hash, CommitAll(hash, store, attempts[..|attempts| - 1]), attempts[|attempts| - 1]).0
  }

  /** The later table is the earlier one with records appended. */
  ghost predicate Grown<V>(before: seq<State<V>>, after: seq<State<V>>) {
    |before| <= |after| && after[..|before|] == before
  }

  ghost predicate GrownAfter<V>(before: seq<State<V>>, after: seq<State<V>>, cutoff: nat) {
    Grown(before, after) && forall i :: |before| <= i < |after| ==> after[i].recordedAt > cutoff
  }

  ghost predicate RunsKept(before: Store, after: Store) {
    forall key <- before.runs :: key in after.runs && after.runs[key] == before.runs[key]
  }

  /**
   Whatever is attempted, in any order and with any clock: every scope stays one chain, no record and
   no accepted run is lost, and no provider key is moved to another instrument.
   */
  lemma {:induction false} StoreStaysValid(hash: Identity -> RecordId, store: Store, attempts: seq<Attempt>)
    requires Valid(store) && forall a <- attempts :: a.plan.Valid()
    ensures
      var after := CommitAll(hash, store, attempts);
      && Valid(after) && RunsKept(store, after)
      && Grown(store.catalogues, after.catalogues) && Grown(store.versions, after.versions)
      && Grown(store.mappings, after.mappings)
  {
    if attempts == [] {
    } else {
      var n := |attempts| - 1;
      StoreStaysValid(hash, store, attempts[..n]);
      var middle := CommitAll(hash, store, attempts[..n]);
      CommitGrows(hash, middle, attempts[n]);
      var after, at := CommitAll(hash, store, attempts), attempts[n].recordedAt;
      GrownFurther(store.catalogues, middle.catalogues, after.catalogues, at);
      GrownFurther(store.versions, middle.versions, after.versions, at);
      GrownFurther(store.mappings, middle.mappings, after.mappings, at);
    }
  }

  lemma GrownFurther<V>(before: seq<State<V>>, middle: seq<State<V>>, after: seq<State<V>>, at: nat)
    requires Grown(before, middle) && GrownAt(middle, after, at)
    ensures Grown(before, after)
  {
    assert after[..|before|] == after[..|middle|][..|before|];
  }

  /** A provider key that is bound in a store stays bound to that instrument in every later one. */
  lemma KeyNeverMoves(
    hash: Identity -> RecordId, store: Store, attempts: seq<Attempt>,
    bound: State<Row<MappingContent>>, later: State<Row<MappingContent>>)
    requires Valid(store) && (forall a <- attempts :: a.plan.Valid())
    requires bound in store.mappings && later in CommitAll(hash, store, attempts).mappings
    requires bound.value.content.providerKey == later.value.content.providerKey
    ensures bound.value.content.instrument == later.value.content.instrument
  {
    StoreStaysValid(hash, store, attempts);
    var after := CommitAll(hash, store, attempts);
    var i: nat :| i < |store.mappings| && store.mappings[i] == bound;
    assert after.mappings[..|store.mappings|][i] == after.mappings[i];
  }

  /**
   Replaying the idempotency key of an accepted attempt, after any other attempts, returns the run
   that attempt made and adds nothing; the same key with another command is a conflict.
   */
  lemma ReplayReturnsOriginal(
    hash: Identity -> RecordId, store: Store, original: Attempt, attempts: seq<Attempt>, again: Attempt)
    requires Valid(store) && original.plan.Valid() && (forall a <- attempts :: a.plan.Valid())
    requires
      var result := Committed(hash, store, original).1;
      result.Ok? && result.value.Accepted?
    requires again.command.idempotencyKey == original.command.idempotencyKey
    ensures
      var later := CommitAll(hash, Committed(hash, store, original).0, attempts);
      var (after, result) := Committed(hash, later, again);
      && after == later
      && result == if again.command.digest == original.command.digest then
                     Ok(Replayed(Committed(hash, store, original).1.value.run))
                   else Err(IdempotencyConflict)
  {
    CommitKeepsStore(hash, store, original);
    StoreStaysValid(hash, Committed(hash, store, original).0, attempts);
  }

  lemma GrownKeepsMember<V>(before: seq<State<V>>, after: seq<State<V>>, r: State<V>)
    requires Grown(before, after) && r in before
    ensures r in after
  {
    assert forall i :: 0 <= i < |before| ==> after[..|before|][i] == after[i];
  }

  /**
   The optimistic predecessor check: once an attempt that named a predecessor has been accepted, no
   later attempt that names the same one is, whatever happened in between.
   */
  lemma PredecessorUsedOnce(
    hash: Identity -> RecordId, store: Store, first: Attempt, attempts: seq<Attempt>, second: Attempt)
    requires Valid(store) && first.plan.Valid() && second.plan.Valid() && (forall a <- attempts :: a.plan.Valid())
    requires
      var result := Committed(hash, store, first).1;
      result.Ok? && result.value.Accepted?
    requires second.command.supplied == first.command.supplied
    ensures
      var later := CommitAll(hash, Committed(hash, store, first).0, attempts);
      var (after, result) := Committed(hash, later, second);
      after == later && !(result.Ok? && result.value.Accepted?)
  {
    var one := Committed(hash, store, first).0;
    CommitGrows(hash, store, first);
    StoreStaysValid(hash, one, attempts);
    var later := CommitAll(hash, one, attempts);
    AcceptedSupersedes(hash, store, first);
    var record := CatalogueRecord(hash, first);
    assert record in one.catalogues by {
      InScopeMembers(one.catalogues, CATALOGUE_SCOPE);
    }
    GrownKeepsMember(one.catalogues, later.catalogues, record);
    SupersededIsNotLeaf(later.catalogues, CatalogueVersion, record);
    CommitNeedsPredecessor(hash, later, second);
  }

  /** What a record supersedes is no longer the leaf of its scope. */
  lemma SupersededIsNotLeaf<V>(records: seq<State<V>>, kind: Kind, record: State<V>)
    requires Chained(records, kind) && record in records
    ensures record.supersedes != IdOf(LastOf(records, record.scope))
  {
    NothingAfterLast(records, kind, record.scope);
    InScopeMembers(records, record.scope);
  }

  lemma CommitNeedsPredecessor(hash: Identity -> RecordId, store: Store, attempt: Attempt)
    requires attempt.command.supplied != IdOf(LastOf(store.catalogues, CATALOGUE_SCOPE))
    ensures
      var (after, result) := Committed(hash, store, attempt);
      after == store && !(result.Ok? && result.value.Accepted?)
  {
  }

  /** The new catalogue leaf supersedes the predecessor the attempt named. */
  lemma AcceptedSupersedes(hash: Identity -> RecordId, store: Store, attempt: Attempt)
    requires Valid(store) && attempt.plan.Valid()
    requires
      var result := Committed(hash, store, attempt).1;
      result.Ok? && result.value.Accepted?
    ensures LastOf(Committed(hash, store, attempt).0.catalogues, CATALOGUE_SCOPE)
            == Some(CatalogueRecord(hash, attempt))
  {
    PlanItemsPlans(store, attempt.plan.items);
    WriteAppends(hash, store, attempt, BuildTransitions(store, attempt).value);
    assert CatalogueRecord(hash, attempt) in [CatalogueRecord(hash, attempt)];
  }

  // ---- Past answers ----

  lemma {:induction false} GrownInScope<V>(before: seq<State<V>>, added: seq<State<V>>, scope: nat)
    ensures InScope(before + added, scope) == InScope(before, scope) + InScope(added, scope)
  {
    if added == [] {
      assert before + added == before;
    } else {
      var n := |added| - 1;
      GrownInScope(before, added[..n], scope);
      GrownByOne(before, added[..n], added[n], scope);
      TakeOneMore(added, n);
      assert added[..n + 1] == added;
    }
  }

  lemma GrownByOne<V>(before: seq<State<V>>, added: seq<State<V>>, last: State<V>, scope: nat)
    requires InScope(before + added, scope) == InScope(before, scope) + InScope(added, scope)
    ensures InScope(before + (added + [last]), scope) == InScope(before, scope) + InScope(added + [last], scope)
  {
    InScopeAppend(before + added, last, scope);
    InScopeAppend(added, last, scope);
    AppendAssociates(before, added, [last]);
    AppendAssociates(InScope(before, scope), InScope(added, scope), if last.scope == scope then [last] else []);
  }

  lemma VisibleUnchanged<V>(before: seq<State<V>>, after: seq<State<V>>, cutoff: nat, scope: nat)
    requires GrownAfter(before, after, cutoff)
    ensures Visible(InScope(after, scope), Some(cutoff)) == Visible(InScope(before, scope), Some(cutoff))
  {
    var added := after[|before|..];
    assert after == before + added;
    GrownInScope(before, added, scope);
    forall s <- added ensures s.recordedAt > cutoff {
      var i :| 0 <= i < |added| && added[i] == s;
      assert after[|before| + i] == s;
    }
    InScopeMembers(added, scope);
    LaterRecordsInvisible(InScope(before, scope), InScope(added, scope), cutoff);
  }

  lemma GrowsAfter<V>(before: seq<State<V>>, middle: seq<State<V>>, after: seq<State<V>>, cutoff: nat, at: nat)
    requires GrownAfter(before, middle, cutoff) && GrownAt(middle, after, at) && at > cutoff
    ensures GrownAfter(before, after, cutoff)
  {
    assert after[..|before|] == after[..|middle|][..|before|];
    forall i | |before| <= i < |after| ensures after[i].recordedAt > cutoff {
      assert i < |middle| ==> after[..|middle|][i] == after[i];
    }
  }

  lemma {:induction false} StoreGrowsAfter(
    hash: Identity -> RecordId, store: Store, attempts: seq<Attempt>, cutoff: nat)
    requires Valid(store) && forall a <- attempts :: a.plan.Valid() && a.recordedAt > cutoff
    ensures
      var after := CommitAll(hash, store, attempts);
      && GrownAfter(store.catalogues, after.catalogues, cutoff) && GrownAfter(store.versions, after.versions, cutoff)
      && GrownAfter(store.mappings, after.mappings, cutoff)
  {
    if attempts == [] {
    } else {
      var n := |attempts| - 1;
      StoreGrowsAfter(hash, store, attempts[..n], cutoff);
      StoreStaysValid(hash, store, attempts[..n]);
      var middle := CommitAll(hash, store, attempts[..n]);
      CommitGrows(hash, middle, attempts[n]);
      var after := CommitAll(hash, store, attempts);
      assert attempts[n] in attempts;
      GrowsAfter(store.catalogues, middle.catalogues, after.catalogues, cutoff, attempts[n].recordedAt);
      GrowsAfter(store.versions, middle.versions, after.versions, cutoff, attempts[n].recordedAt);
      GrowsAfter(store.mappings, middle.mappings, after.mappings, cutoff, attempts[n].recordedAt);
    }
  }

  /** What was known at a cutoff is not changed by attempts made after it. */
  lemma PastAnswersUnchanged(hash: Identity -> RecordId, store: Store, attempts: seq<Attempt>, cutoff: nat, scope: nat)
    requires Valid(store) && forall a <- attempts :: a.plan.Valid() && a.recordedAt > cutoff
    ensures
      var after := CommitAll(hash, store, attempts);
      && Visible(InScope(after.catalogues, scope), Some(cutoff))
         == Visible(InScope(store.catalogues, scope), Some(cutoff))
      && Visible(InScope(after.versions, scope), Some(cutoff)) == Visible(InScope(store.versions, scope), Some(cutoff))
      && Visible(InScope(after.mappings, scope), Some(cutoff)) == Visible(InScope(store.mappings, scope), Some(cutoff))
  {
    var after := CommitAll(hash, store, attempts);
    StoreGrowsAfter(hash, store, attempts, cutoff);
    VisibleUnchanged(store.catalogues, after.catalogues, cutoff, scope);
    VisibleUnchanged(store.versions, after.versions, cutoff, scope);
    VisibleUnchanged(store.mappings, after.mappings, cutoff, scope);
  }

  // ---- Committing the same content again ----

  /** The same items, accepted again right after, are all unchanged. */
  lemma RecommitIsUnchanged(hash: Identity -> RecordId, store: Store, first: Attempt, second: Attempt)
    requires Valid(store) && first.plan.Valid() && second.plan.Valid() && second.plan.items == first.plan.items
    requires
      var result := Committed(hash, store, first).1;
      result.Ok? && result.value.Accepted?
    requires
      var result := Committed(hash, Committed(hash, store, first).0, second).1;
      result.Ok? && result.value.Accepted?
    ensures
      var transitions := Committed(hash, Committed(hash, store, first).0, second).1.value.transitions;
      forall t <- transitions :: t.category == Unchanged
  {
    CommitKeepsStore(hash, store, first);
    var one := Committed(hash, store, first).0;
    CommitKeepsStore(hash, one, second);
    PlannedAreUnchanged(one, first, second.plan.items, Committed(hash, one, second).1.value.transitions);
  }

  lemma PlannedAreUnchanged(store: Store, attempt: Attempt, items: seq<Item>, transitions: seq<Transition>)
    requires items == attempt.plan.items && Planned(store, items, transitions)
    requires forall item <- items :: ItemLeaves(store, attempt, item)
    ensures forall t <- transitions :: t.category == Unchanged
  {
    forall i: nat | i < |transitions| ensures transitions[i].category == Unchanged {
      assert PlannedItem(store, items[i], transitions[i]) && items[i] in items;
      LeafIsUnchanged(store, attempt, items[i], transitions[i]);
    }
  }

  lemma LeafIsUnchanged(store: Store, attempt: Attempt, item: Item, transition: Transition)
    requires ItemLeaves(store, attempt, item) && PlannedItem(store, item, transition)
    ensures transition.category == Unchanged
  {
  }

  // ---- Exactly when an attempt is accepted ----

  /** Every item's key is bound to no other instrument, and every instrument has one version. */
  ghost predicate ItemsConsistent(store: Store, items: seq<Item>) {
    OneVersionEach(items) && forall item <- items :: Bindings(store.mappings, item.providerKey) <= {item.instrument}
  }

  lemma OneVersionSplits(items: seq<Item>, last: Item)
    ensures OneVersionEach(items + [last]) <==> OneVersionEach(items) && !ConflictsWithEarlier(items, last)
  {
    var longer := items + [last];
    assert longer[|items|] == last && forall i :: 0 <= i < |items| ==> longer[i] == items[i];
    if OneVersionEach(longer) {
      forall e <- items | e.instrument == last.instrument ensures e.version.id == last.version.id {
        var i :| 0 <= i < |items| && items[i] == e;
        assert longer[i].instrument == longer[|items|].instrument;
      }
    }
    if OneVersionEach(items) && !ConflictsWithEarlier(items, last) {
      forall i, j | 0 <= i < j < |longer| && longer[i].instrument == longer[j].instrument
        ensures longer[i].version.id == longer[j].version.id
      {
        assert items[i] in items;
      }
    }
  }

  lemma ItemPlannedExactlyWhen(store: Store, earlier: seq<Item>, item: Item)
    requires Valid(store)
    ensures PlanItem(store, earlier, item).Ok?
            <==> !ConflictsWithEarlier(earlier, item) && Bindings(store.mappings, item.providerKey) <= {item.instrument}
  {
    var bound, mapping := Bindings(store.mappings, item.providerKey), LastOf(store.mappings, item.providerKey);
    if mapping.Some? {
      InScopeMembers(store.mappings, item.providerKey);
      assert mapping.value in InScope(store.mappings, item.providerKey);
      assert mapping.value.value.content.instrument in bound;
    }
    if bound <= {item.instrument} {
      assert bound == {} || bound == {item.instrument};
    }
  }

  lemma {:induction false} ItemsPlannedExactlyWhen(store: Store, items: seq<Item>)
    requires Valid(store)
    ensures PlanItems(store, items).Ok? <==> ItemsConsistent(store, items)
  {
    if items == [] {
    } else {
      var n := |items| - 1;
      ItemsPlannedExactlyWhen(store, items[..n]);
      ItemPlannedExactlyWhen(store, items[..n], items[n]);
      OneVersionSplits(items[..n], items[n]);
      assert items == items[..n] + [items[n]];
      assert forall item <- items :: item in items[..n] || item == items[n];
    }
  }

  /** None of the records an attempt would write collides with anything. */
  ghost predicate WritesCollideNot(
    hash: Identity -> RecordId, store: Store, attempt: Attempt, transitions: seq<Transition>)
  {
    && CollisionFree(store.catalogues, [CatalogueRecord(hash, attempt)])
    && CollisionFree(store.versions, VersionRecords(hash, attempt.recordedAt, transitions))
    && CollisionFree(store.mappings, MappingRecords(hash, attempt.recordedAt, transitions))
  }

  /** The attempt's time is after that of every record it would supersede. */
  ghost predicate LaterThanLeaves(store: Store, attempt: Attempt) {
    && Later(LastOf(store.catalogues, CATALOGUE_SCOPE), attempt.recordedAt)
    && (forall item <- attempt.plan.items ::
          && Later(LastOf(store.versions, item.instrument), attempt.recordedAt)
          && Later(LastOf(store.mappings, item.providerKey), attempt.recordedAt))
  }

  lemma VersionsLater(hash: Identity -> RecordId, store: Store, attempt: Attempt, transitions: seq<Transition>)
    requires attempt.plan.Valid() && Planned(store, attempt.plan.items, transitions)
    ensures (forall r <- VersionRecords(hash, attempt.recordedAt, transitions) ::
              Later(LastOf(store.versions, r.scope), r.recordedAt))
            <==> forall item <- attempt.plan.items :: Later(LastOf(store.versions, item.instrument), attempt.recordedAt)
  {
    VersionScopes(hash, store, attempt, transitions);
    forall item <- attempt.plan.items
      ensures exists r <- VersionRecords(hash, attempt.recordedAt, transitions) ::
                r.scope == item.instrument && r.recordedAt == attempt.recordedAt
    {
      var version, mapping := ItemRecords(hash, store, attempt, transitions, item);
    }
  }

  lemma MappingsLater(hash: Identity -> RecordId, store: Store, attempt: Attempt, transitions: seq<Transition>)
    requires attempt.plan.Valid() && Planned(store, attempt.plan.items, transitions)
    ensures (forall r <- MappingRecords(hash, attempt.recordedAt, transitions) ::
              Later(LastOf(store.mappings, r.scope), r.recordedAt))
            <==> forall item <- attempt.plan.items ::
                Later(LastOf(store.mappings, item.providerKey), attempt.recordedAt)
  {
    MappingScopes(hash, store, attempt, transitions);
    forall item <- attempt.plan.items
      ensures exists r <- MappingRecords(hash, attempt.recordedAt, transitions) ::
                r.scope == item.providerKey && r.recordedAt == attempt.recordedAt
    {
      var version, mapping := ItemRecords(hash, store, attempt, transitions, item);
    }
  }

  lemma WritesExactlyWhen(hash: Identity -> RecordId, store: Store, attempt: Attempt, transitions: seq<Transition>)
    requires Valid(store) && attempt.plan.Valid() && Planned(store, attempt.plan.items, transitions)
    requires attempt.command.supplied == IdOf(LastOf(store.catalogues, CATALOGUE_SCOPE))
    ensures Write(hash, store, attempt, transitions).Ok?
            <==> WritesCollideNot(hash, store, attempt, transitions) && LaterThanLeaves(store, attempt)
    ensures Write(hash, store, attempt, transitions).Err? ==>
              match Write(hash, store, attempt, transitions).error
              case SemanticCollision => !WritesCollideNot(hash, store, attempt, transitions)
              case NotAfterTarget => !LaterThanLeaves(store, attempt)
              case _ => false
  {
    var record, at := CatalogueRecord(hash, attempt), attempt.recordedAt;
    OneRecordCollides(store.catalogues, record);
    InsertsExactlyWhen(store.catalogues, CatalogueVersion, record);
    VersionRecordsSucceed(hash, at, store, attempt.plan.items, transitions);
    InsertAllExactlyWhen(store.versions, InstrumentVersion, VersionRecords(hash, at, transitions));
    VersionsLater(hash, store, attempt, transitions);
    MappingRecordsSucceed(hash, at, store, attempt.plan.items, transitions);
    InsertAllExactlyWhen(store.mappings, ProviderMapping, MappingRecords(hash, at, transitions));
    MappingsLater(hash, store, attempt, transitions);
  }

  lemma OneRecordCollides<C(!new)>(table: Table<C>, record: State<Row<C>>)
    ensures CollisionFree(table, [record]) <==> !Collides(table, record)
  {
    assert [record] == [] + [record] && table + [] == table;
    CollisionFreeSplits(table, [], record);
  }

  /** What a commit needs: all of it can be read off the store before the call. */
  ghost predicate Acceptable(store: Store, attempt: Attempt) {
    && attempt.command.idempotencyKey !in store.runs
    && attempt.command.startedAt <= attempt.recordedAt
    && attempt.command.supplied == IdOf(LastOf(store.catalogues, CATALOGUE_SCOPE))
    && ItemsConsistent(store, attempt.plan.items)
    && LaterThanLeaves(store, attempt)
  }

  /** None of the records an acceptable attempt would write collides with anything in the store. */
  ghost predicate CollidesNot(hash: Identity -> RecordId, store: Store, attempt: Attempt) {
    var built := BuildTransitions(store, attempt);
    built.Ok? && WritesCollideNot(hash, store, attempt, built.value)
  }

  /** An attempt is accepted exactly when it is acceptable and none of its records collides. */
  lemma AcceptedExactlyWhen(hash: Identity -> RecordId, store: Store, attempt: Attempt)
    requires Valid(store) && attempt.plan.Valid()
    ensures IsAccepted(Committed(hash, store, attempt).1)
            <==> Acceptable(store, attempt) && CollidesNot(hash, store, attempt)
  {
    ItemsPlannedExactlyWhen(store, attempt.plan.items);
    CommitOutcomes(hash, store, attempt);
    var built := BuildTransitions(store, attempt);
    if built.Ok? {
      PlanItemsPlans(store, attempt.plan.items);
      WritesExactlyWhen(hash, store, attempt, built.value);
    }
  }
}
