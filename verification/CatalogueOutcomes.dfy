/** What a commit reports: the category of every item, and the reason of every refusal, in terms of the store before. */
module CatalogueOutcomes {
  import opened Wrappers
  import opened Temporal
  import opened RecordTables
  import opened CatalogueStore

  // ---- The last record of a scope, by position ----

  ghost predicate Newest<V>(records: seq<State<V>>, scope: nat, i: nat) {
    && i < |records| && records[i].scope == scope
    && (forall j | i < j < |records| :: records[j].scope != scope)
  }

  lemma LastOfAppend<V>(records: seq<State<V>>, record: State<V>, scope: nat)
    ensures LastOf(records + [record], scope) == if record.scope == scope then Some(record) else LastOf(records, scope)
  {
    InScopeAppend(records, record, scope);
    assert InScope(records, scope) + [] == InScope(records, scope);
  }

  ghost predicate IsNewest<V>(records: seq<State<V>>, scope: nat, record: State<V>) {
    exists i: nat :: Newest(records, scope, i) && records[i] == record
  }

  lemma NewestAppend<V>(records: seq<State<V>>, last: State<V>, scope: nat, record: State<V>)
    requires if last.scope == scope then record == last else IsNewest(records, scope, record)
    ensures IsNewest(records + [last], scope, record)
  {
    var whole := records + [last];
    if last.scope == scope {
      assert Newest(whole, scope, |records|) && whole[|records|] == record;
    } else {
      var i: nat :| Newest(records, scope, i) && records[i] == record;
      assert Newest(whole, scope, i) && whole[i] == record;
    }
  }

  /** The last record of a scope is the one that no record of the scope follows. */
  lemma {:induction false} LastIsNewest<V>(records: seq<State<V>>, scope: nat)
    ensures LastOf(records, scope).None? <==> forall r <- records :: r.scope != scope
    ensures LastOf(records, scope).Some? ==> IsNewest(records, scope, LastOf(records, scope).value)
  {
    if records == [] {
    } else {
      var front, last := records[..|records| - 1], records[|records| - 1];
      assert records == front + [last];
      LastIsNewest(front, scope);
      LastOfAppend(front, last, scope);
      if LastOf(records, scope).Some? {
        NewestAppend(front, last, scope, LastOf(records, scope).value);
      }
    }
  }

  lemma NewestIsOne<V>(records: seq<State<V>>, scope: nat, i: nat, j: nat)
    requires Newest(records, scope, i) && Newest(records, scope, j)
    ensures i == j
  {
  }

  // ---- Categories ----

  /** The instrument has a version record, and this is the last one. */
  ghost predicate LastVersionAt(store: Store, instrument: nat, i: nat) {
    && i < |store.versions| && store.versions[i].value.content.instrument == instrument
    && (forall j | i < j < |store.versions| :: store.versions[j].value.content.instrument != instrument)
  }

  ghost predicate HasVersion(store: Store, instrument: nat) {
    exists v <- store.versions :: v.value.content.instrument == instrument
  }

  ghost predicate HasMapping(store: Store, providerKey: nat) {
    exists m <- store.mappings :: m.value.content.providerKey == providerKey
  }

  /** The last version of the item's instrument has the item's metadata, or has another. */
  ghost predicate LastMetadataAgrees(store: Store, item: Item, agrees: bool) {
    exists i: nat ::
      && LastVersionAt(store, item.instrument, i)
      && (store.versions[i].value.content.metadata == item.version.content.metadata <==> agrees)
  }

  /** The four categories, by what the store holds of the instrument and of the provider key. */
  ghost predicate CategoryMeans(store: Store, transition: Transition) {
    var item, category := transition.item, transition.category;
    && (category == Added <==> !HasVersion(store, item.instrument))
    && (category == MetadataChanged <==> LastMetadataAgrees(store, item, false))
    && (category == MappingChanged <==> LastMetadataAgrees(store, item, true) && !HasMapping(store, item.providerKey))
    && (category == Unchanged <==> LastMetadataAgrees(store, item, true) && HasMapping(store, item.providerKey))
  }

  lemma VersionScopesAgree(store: Store, instrument: nat)
    requires Valid(store)
    ensures LastOf(store.versions, instrument).None? <==> !HasVersion(store, instrument)
    ensures forall i: nat :: Newest(store.versions, instrument, i) <==> LastVersionAt(store, instrument, i)
    ensures LastOf(store.versions, instrument).Some? ==>
              exists i: nat ::
                LastVersionAt(store, instrument, i) && store.versions[i] == LastOf(store.versions, instrument).value
  {
    LastIsNewest(store.versions, instrument);
    forall i: nat ensures Newest(store.versions, instrument, i) <==> LastVersionAt(store, instrument, i) {
      assert forall j | 0 <= j < |store.versions| :: store.versions[j] in store.versions;
    }
  }

  lemma MappingScopesAgree(store: Store, providerKey: nat)
    requires Valid(store)
    ensures LastOf(store.mappings, providerKey).None? <==> !HasMapping(store, providerKey)
  {
    LastIsNewest(store.mappings, providerKey);
  }

  lemma LastVersionIsOne(store: Store, instrument: nat, i: nat, j: nat)
    requires LastVersionAt(store, instrument, i) && LastVersionAt(store, instrument, j)
    ensures i == j
  {
  }

  /** Whether the metadata of the last version agrees, read off the store. */
  lemma MetadataOfLast(store: Store, item: Item)
    requires Valid(store)
    ensures LastOf(store.versions, item.instrument).None? <==> !HasVersion(store, item.instrument)
    ensures
      var last := LastOf(store.versions, item.instrument);
      if last.None? then forall agrees: bool :: !LastMetadataAgrees(store, item, agrees)
      else
        forall agrees: bool ::
          LastMetadataAgrees(store, item, agrees)
          <==> (last.value.value.content.metadata == item.version.content.metadata <==> agrees)
  {
    VersionScopesAgree(store, item.instrument);
    var last := LastOf(store.versions, item.instrument);
    if last.Some? {
      var i: nat :| LastVersionAt(store, item.instrument, i) && store.versions[i] == last.value;
      forall j: nat | LastVersionAt(store, item.instrument, j) ensures i == j {
        LastVersionIsOne(store, item.instrument, i, j);
      }
    } else {
      assert forall v <- store.versions :: v.value.content.instrument != item.instrument;
      forall j: nat ensures !LastVersionAt(store, item.instrument, j) {
        assert j < |store.versions| ==> store.versions[j] in store.versions;
      }
    }
  }

  lemma PlannedCategory(store: Store, item: Item, transition: Transition)
    requires Valid(store) && PlannedItem(store, item, transition)
    ensures CategoryMeans(store, transition)
  {
    MetadataOfLast(store, item);
    MappingScopesAgree(store, item.providerKey);
  }

  /**
   The categories an accepted commit reports: an instrument without a version is added; otherwise its last version
   has other metadata, or the same and its provider key is new, or nothing has changed.
   */
  lemma CategoriesExactly(hash: Identity -> RecordId, store: Store, attempt: Attempt)
    requires Valid(store) && attempt.plan.Valid() && IsAccepted(Committed(hash, store, attempt).1)
    ensures
      var transitions := Committed(hash, store, attempt).1.value.transitions;
      && |transitions| == |attempt.plan.items|
      && (forall k: nat | k < |transitions| ::
            transitions[k].item == attempt.plan.items[k] && CategoryMeans(store, transitions[k]))
  {
    CommitKeepsStore(hash, store, attempt);
    var transitions, items := Committed(hash, store, attempt).1.value.transitions, attempt.plan.items;
    forall k: nat | k < |transitions|
      ensures transitions[k].item == items[k] && CategoryMeans(store, transitions[k])
    {
      assert PlannedItem(store, items[k], transitions[k]);
      PlannedCategory(store, items[k], transitions[k]);
    }
  }

  /** The run an accepted attempt leaves is its command's, with the new last catalogue, under the command's key. */
  lemma ReceiptIsOfCommand(hash: Identity -> RecordId, store: Store, attempt: Attempt)
    requires Valid(store) && attempt.plan.Valid() && IsAccepted(Committed(hash, store, attempt).1)
    ensures
      var (after, result) := Committed(hash, store, attempt);
      var run := result.value.run;
      && run.id == attempt.command.runId && run.digest == attempt.command.digest
      && after.catalogues != [] && after.catalogues[..|after.catalogues| - 1] == store.catalogues
      && after.catalogues[|store.catalogues|].id == run.catalogueRecord
      && after.catalogues[|store.catalogues|].value == attempt.plan.catalogue
      && after.catalogues[|store.catalogues|].recordedAt == attempt.recordedAt
      && after.catalogues[|store.catalogues|].supersedes == attempt.command.supplied
      && after.runs == store.runs[attempt.command.idempotencyKey := run]
  {
    CommitOutcomes(hash, store, attempt);
    PlanItemsPlans(store, attempt.plan.items);
    WriteAppends(hash, store, attempt, Committed(hash, store, attempt).1.value.transitions);
  }

  // ---- Refusals ----

  /** The predecessor an attempt has to name. */
  ghost predicate NamesPredecessor(store: Store, supplied: Option<RecordId>) {
    if store.catalogues == [] then supplied == None
    else supplied == Some(store.catalogues[|store.catalogues| - 1].id)
  }

  /** An earlier item has the instrument with another version. */
  ghost predicate HasOtherVersion(items: seq<Item>, n: nat)
    requires n < |items|
  {
    exists i | 0 <= i < n ::
      items[i].instrument == items[n].instrument && items[i].version.id != items[n].version.id
  }

  /** The provider key has been mapped to another instrument. */
  ghost predicate MappedElsewhere(store: Store, item: Item) {
    exists m <- store.mappings ::
      m.value.content.providerKey == item.providerKey && m.value.content.instrument != item.instrument
  }

  /** The first item that cannot be planned. */
  ghost predicate FirstFault(store: Store, items: seq<Item>, n: nat) {
    && n < |items| && (HasOtherVersion(items, n) || MappedElsewhere(store, items[n]))
    && (forall i: nat | i < n :: !HasOtherVersion(items, i) && !MappedElsewhere(store, items[i]))
  }

  /** What has passed before the items are looked at. */
  ghost predicate ReachesItems(store: Store, attempt: Attempt) {
    && attempt.command.idempotencyKey !in store.runs && attempt.command.startedAt <= attempt.recordedAt
    && NamesPredecessor(store, attempt.command.supplied)
  }

  /** The reason of a refusal, in the order in which reasons are looked for. */
  ghost predicate RefusedFor(hash: Identity -> RecordId, store: Store, attempt: Attempt, error: CommitError) {
    var command, items := attempt.command, attempt.plan.items;
    match error
    case IdempotencyConflict =>
      command.idempotencyKey in store.runs && store.runs[command.idempotencyKey].digest != command.digest
    case ClockBeforeStart => command.idempotencyKey !in store.runs && attempt.recordedAt < command.startedAt
    case PredecessorRequired =>
      && command.idempotencyKey !in store.runs && command.startedAt <= attempt.recordedAt
      && command.supplied == None && store.catalogues != []
    case StalePredecessor =>
      && command.idempotencyKey !in store.runs && command.startedAt <= attempt.recordedAt
      && command.supplied.Some? && !NamesPredecessor(store, command.supplied)
    case ConflictingVersionMetadata =>
      ReachesItems(store, attempt) && exists n: nat :: FirstFault(store, items, n) && HasOtherVersion(items, n)
    case KeyReassigned =>
      ReachesItems(store, attempt) && exists n: nat :: FirstFault(store, items, n) && !HasOtherVersion(items, n)
    case ConflictingBindings => false
    case Refused(cause) =>
      && ReachesItems(store, attempt) && (forall n: nat :: !FirstFault(store, items, n))
      && (cause == SemanticCollision || cause == NotAfterTarget)
      && (cause == SemanticCollision ==> !CollidesNot(hash, store, attempt))
      && (cause == NotAfterTarget ==> !LaterThanLeaves(store, attempt))
  }

  /** In a valid store the leaf of the catalogue scope is the last catalogue. */
  lemma CatalogueLeaf(store: Store)
    requires Valid(store)
    ensures IdOf(LastOf(store.catalogues, CATALOGUE_SCOPE))
            == if store.catalogues == [] then None else Some(store.catalogues[|store.catalogues| - 1].id)
  {
    LastIsNewest(store.catalogues, CATALOGUE_SCOPE);
    if store.catalogues != [] {
      var last := |store.catalogues| - 1;
      assert store.catalogues[last] in store.catalogues;
      assert Newest(store.catalogues, CATALOGUE_SCOPE, last);
      var i: nat :| Newest(store.catalogues, CATALOGUE_SCOPE, i)
                    && store.catalogues[i] == LastOf(store.catalogues, CATALOGUE_SCOPE).value;
      NewestIsOne(store.catalogues, CATALOGUE_SCOPE, i, last);
    }
  }

  /** How one item is refused. */
  lemma ItemRefusedFor(store: Store, items: seq<Item>, n: nat)
    requires Valid(store) && n < |items|
    ensures
      var planned := PlanItem(store, items[..n], items[n]);
      && (planned.Ok? <==> !HasOtherVersion(items, n) && !MappedElsewhere(store, items[n]))
      && (planned.Err? ==>
            planned.error == if HasOtherVersion(items, n) then ConflictingVersionMetadata else KeyReassigned)
  {
    var item := items[n];
    ConflictIsOtherVersion(items, n);
    ItemPlannedExactlyWhen(store, items[..n], item);
    BindingsElsewhere(store, item);
    AtMostOneBinding(store, item.providerKey);
  }

  lemma ConflictIsOtherVersion(items: seq<Item>, n: nat)
    requires n < |items|
    ensures ConflictsWithEarlier(items[..n], items[n]) <==> HasOtherVersion(items, n)
  {
    if HasOtherVersion(items, n) {
      var i :| 0 <= i < n && items[i].instrument == items[n].instrument && items[i].version.id != items[n].version.id;
      assert items[..n][i] == items[i];
    }
  }

  lemma BindingsElsewhere(store: Store, item: Item)
    ensures Bindings(store.mappings, item.providerKey) <= {item.instrument} <==> !MappedElsewhere(store, item)
  {
    if MappedElsewhere(store, item) {
      var m :| m in store.mappings && m.value.content.providerKey == item.providerKey
               && m.value.content.instrument != item.instrument;
      assert m.value.content.instrument in Bindings(store.mappings, item.providerKey);
    }
  }

  lemma AtMostOneBinding(store: Store, providerKey: nat)
    requires Valid(store)
    ensures |Bindings(store.mappings, providerKey)| <= 1
  {
    var bound := Bindings(store.mappings, providerKey);
    if m :| m in store.mappings && m.value.content.providerKey == providerKey {
      assert bound == {m.value.content.instrument};
    } else {
      assert bound == {};
    }
  }

  lemma {:induction false} ItemsRefusedFor(store: Store, items: seq<Item>)
    requires Valid(store)
    ensures PlanItems(store, items).Ok? <==> forall n: nat :: !FirstFault(store, items, n)
    ensures forall n: nat | FirstFault(store, items, n) ::
              PlanItems(store, items)
              == Err(if HasOtherVersion(items, n) then ConflictingVersionMetadata else KeyReassigned)
  {
    if items == [] {
    } else {
      var last := |items| - 1;
      var front := items[..last];
      ItemsRefusedFor(store, front);
      ItemRefusedFor(store, items, last);
      forall n: nat | n < last
        ensures HasOtherVersion(items, n) == HasOtherVersion(front, n) && items[n] == front[n]
      {
        SameBefore(items, n);
      }
      FaultsSplit(store, items);
    }
  }

  lemma SameBefore(items: seq<Item>, n: nat)
    requires n < |items| - 1
    ensures HasOtherVersion(items, n) == HasOtherVersion(items[..|items| - 1], n)
  {
    var front := items[..|items| - 1];
    assert forall i | 0 <= i <= n :: front[i] == items[i];
  }

  /** A first fault is among the front items, or is the last item when the front has none. */
  lemma FaultsSplit(store: Store, items: seq<Item>)
    requires items != []
    requires forall n: nat | n < |items| - 1 ::
               HasOtherVersion(items, n) == HasOtherVersion(items[..|items| - 1], n)
    ensures
      var last := |items| - 1;
      && (forall n: nat | n < last :: FirstFault(store, items, n) <==> FirstFault(store, items[..last], n))
      && (FirstFault(store, items, last) ==> forall n: nat :: !FirstFault(store, items[..last], n))
      && ((forall n: nat :: !FirstFault(store, items[..last], n)) ==>
            (FirstFault(store, items, last) <==> HasOtherVersion(items, last) || MappedElsewhere(store, items[last])))
  {
    var last := |items| - 1;
    var front := items[..last];
    if forall n: nat :: !FirstFault(store, front, n) {
      NoFirstFault(store, front, last);
    }
  }

  lemma {:induction false} NoFirstFault(store: Store, items: seq<Item>, n: nat)
    requires (forall i: nat :: !FirstFault(store, items, i)) && n <= |items|
    ensures forall i: nat | i < n :: !HasOtherVersion(items, i) && !MappedElsewhere(store, items[i])
  {
    if n == 0 {
    } else {
      NoFirstFault(store, items, n - 1);
      assert !FirstFault(store, items, n - 1);
    }
  }

  /** Every refusal has its reason. */
  lemma RefusalHasReason(hash: Identity -> RecordId, store: Store, attempt: Attempt)
    requires Valid(store) && attempt.plan.Valid() && Committed(hash, store, attempt).1.Err?
    ensures RefusedFor(hash, store, attempt, Committed(hash, store, attempt).1.error)
  {
    CatalogueLeaf(store);
    ItemsRefusedFor(store, attempt.plan.items);
    var built := BuildTransitions(store, attempt);
    if attempt.command.idempotencyKey !in store.runs && attempt.command.startedAt <= attempt.recordedAt
      && NamesPredecessor(store, attempt.command.supplied)
    {
      if built.Ok? {
        PlanItemsPlans(store, attempt.plan.items);
        WritesExactlyWhen(hash, store, attempt, built.value);
      } else {
        var n: nat :| FirstFault(store, attempt.plan.items, n);
      }
    }
  }

  /** Reasons exclude each other, but for the two a refused write may have. */
  lemma ReasonIsOne(hash: Identity -> RecordId, store: Store, attempt: Attempt, a: CommitError, b: CommitError)
    requires RefusedFor(hash, store, attempt, a) && RefusedFor(hash, store, attempt, b)
    ensures a == b || (a.Refused? && b.Refused?)
  {
    forall m: nat, n: nat | FirstFault(store, attempt.plan.items, m) && FirstFault(store, attempt.plan.items, n)
      ensures m == n
    {
    }
  }

  lemma ReasonRefuses(hash: Identity -> RecordId, store: Store, attempt: Attempt, error: CommitError)
    requires Valid(store) && attempt.plan.Valid() && RefusedFor(hash, store, attempt, error)
    ensures Committed(hash, store, attempt).1.Err?
  {
    CatalogueLeaf(store);
    ItemsRefusedFor(store, attempt.plan.items);
    var built := BuildTransitions(store, attempt);
    if error.Refused? && built.Ok? {
      PlanItemsPlans(store, attempt.plan.items);
      WritesExactlyWhen(hash, store, attempt, built.value);
    }
  }

  /**
   An attempt is refused exactly for the first reason there is: a key used by another command, a clock before the
   start, a predecessor that is missing or not the last catalogue, the first item that conflicts with an earlier one
   or is mapped elsewhere, or a record that collides or is not later. Two bindings of one key never occur.
   */
  lemma RefusedExactlyFor(hash: Identity -> RecordId, store: Store, attempt: Attempt, error: CommitError)
    requires Valid(store) && attempt.plan.Valid() && !error.Refused?
    ensures Committed(hash, store, attempt).1 == Err(error) <==> RefusedFor(hash, store, attempt, error)
  {
    if Committed(hash, store, attempt).1.Err? {
      RefusalHasReason(hash, store, attempt);
    }
    if RefusedFor(hash, store, attempt, error) {
      ReasonRefuses(hash, store, attempt, error);
      ReasonIsOne(hash, store, attempt, error, Committed(hash, store, attempt).1.error);
    }
  }

  // ---- One content for each identity, over any attempts ----

  ghost predicate AllContentsFixed(store: Store) {
    ContentsFixed(store.catalogues) && ContentsFixed(store.versions) && ContentsFixed(store.mappings)
  }

  lemma CommitKeepsContents(hash: Identity -> RecordId, store: Store, attempt: Attempt)
    requires Valid(store) && attempt.plan.Valid() && AllContentsFixed(store)
    ensures AllContentsFixed(Committed(hash, store, attempt).0)
  {
    CommitOutcomes(hash, store, attempt);
    var (after, result) := Committed(hash, store, attempt);
    if IsAccepted(result) {
      var transitions, at := result.value.transitions, attempt.recordedAt;
      PlanItemsPlans(store, attempt.plan.items);
      WritesExactlyWhen(hash, store, attempt, transitions);
      WriteAppends(hash, store, attempt, transitions);
      CollisionFreeKeepsContents(store.catalogues, [CatalogueRecord(hash, attempt)]);
      CollisionFreeKeepsContents(store.versions, VersionRecords(hash, at, transitions));
      CollisionFreeKeepsContents(store.mappings, MappingRecords(hash, at, transitions));
    }
  }

  /** Whatever is attempted, one row identity never has two contents. */
  lemma {:induction false} ContentNeverChanges(hash: Identity -> RecordId, store: Store, attempts: seq<Attempt>)
    requires Valid(store) && AllContentsFixed(store) && forall a <- attempts :: a.plan.Valid()
    ensures AllContentsFixed(CommitAll(hash, store, attempts))
  {
    if attempts == [] {
    } else {
      var n := |attempts| - 1;
      ContentNeverChanges(hash, store, attempts[..n]);
      StoreStaysValid(hash, store, attempts[..n]);
      CommitKeepsContents(hash, CommitAll(hash, store, attempts[..n]), attempts[n]);
    }
  }
}
