/** Binding the recorded time of a catalogue plan: its identifiers stay, its system intervals may not allow it. */
module CatalogueBinding {
  import opened Wrappers
  import opened CatalogueIdentity
  import opened CataloguePlan
  import opened Sorting

  datatype BindError = NotAfterRecorded(i: nat) | IdentityChanged(i: nat)

  function ReboundItem(item: Item, recordedAt: int): Item {
    item.(
      version := item.version.(recordedAt := recordedAt),
      mapping := item.mapping.(recordedAt := recordedAt))
  }

  function ReboundItems(items: seq<Item>, recordedAt: int): (rebound: seq<Item>)
    ensures |rebound| == |items|
    ensures forall i :: 0 <= i < |items| ==> rebound[i] == ReboundItem(items[i], recordedAt)
  {
    seq(|items|, i requires 0 <= i < |items| => ReboundItem(items[i], recordedAt))
  }

  function Rebound(plan: Plan, recordedAt: int): Plan {
    plan.(
      catalogue := plan.catalogue.(recordedAt := recordedAt),
      items := ReboundItems(plan.items, recordedAt))
  }

  /** Neither record of the item was superseded at or before the time. */
  predicate Reaches(item: Item, recordedAt: int) {
    Ends(recordedAt, item.version.supersededAt) && Ends(recordedAt, item.mapping.supersededAt)
  }

  /** The item carries the identifiers of its own records. */
  predicate CarriesOwnIds(hash: Hash, item: Item) {
    item.versionId == VersionId(hash, item.version) && item.mappingId == MappingId(hash, item.mapping)
  }

  /** The records of a plan as their constructors left them. */
  ghost predicate Constructed(plan: Plan) {
    plan.catalogue.Valid() && forall item <- plan.items :: item.version.Valid() && item.mapping.Valid()
  }

  // ---- Identifiers under a new time ----

  /** Rebuilding a constructed record fails exactly when it was superseded by the new time. */
  lemma RebuildsExactlyWhenReached(item: Item, recordedAt: int)
    requires item.version.Valid() && item.mapping.Valid()
    ensures Reaches(item, recordedAt)
            <==> ReboundItem(item, recordedAt).version.Valid() && ReboundItem(item, recordedAt).mapping.Valid()
  {
  }

  /**
   The catalogue's identifier, each version's and each mapping's are hashed from fields the binding does not
   touch, so each stays, and a chain of them stays a chain.
   */
  lemma ReboundKeepsIds(hash: Hash, plan: Plan, recordedAt: int, i: nat)
    requires i < |plan.items|
    ensures
      var rebound, item := Rebound(plan, recordedAt), ReboundItem(plan.items[i], recordedAt);
      && rebound.items[i] == item
      && CatalogueVersionId(hash, rebound.catalogue) == CatalogueVersionId(hash, plan.catalogue)
      && VersionId(hash, item.version) == VersionId(hash, plan.items[i].version)
      && MappingId(hash, item.mapping) == MappingId(hash, plan.items[i].mapping)
      && (ItemChained(hash, rebound.catalogue, item) <==> ItemChained(hash, plan.catalogue, plan.items[i]))
  {
    assert CatalogueVersionFields(plan.catalogue.(recordedAt := recordedAt)) == CatalogueVersionFields(plan.catalogue);
  }

  // ---- The binding ----

  /** The first item that satisfies a condition, if any. */
  ghost predicate FirstAt(items: seq<Item>, i: nat, fails: Item -> bool) {
    i < |items| && fails(items[i]) && forall k :: 0 <= k < i ==> !fails(items[k])
  }

  /**
   Rebuilds every item at the new time, and then compares identifiers. Exactly two things refuse a binding: a
   record already superseded by that time, and an item that did not carry its records' identifiers to begin with.
   */
  method BindRecordedAt(hash: Hash, plan: Plan, recordedAt: int) returns (result: Result<Plan, BindError>)
    requires Constructed(plan)
    ensures result.Ok? <==> forall item <- plan.items :: Reaches(item, recordedAt) && CarriesOwnIds(hash, item)
    ensures result.Ok? ==> result.value == Rebound(plan, recordedAt) && Constructed(result.value)
    ensures result.Err? && result.error.NotAfterRecorded? ==>
              FirstAt(plan.items, result.error.i, (item: Item) => !Reaches(item, recordedAt))
    ensures result.Err? && result.error.IdentityChanged? ==>
              && (forall item <- plan.items :: Reaches(item, recordedAt))
              && FirstAt(plan.items, result.error.i, (item: Item) => !CarriesOwnIds(hash, item))
  {
    var items := RebuildItems(plan, recordedAt);
    if items.Err? {
      return Err(items.error);
    }
    var rebound := plan.(catalogue := plan.catalogue.(recordedAt := recordedAt), items := items.value);
    assert CatalogueVersionFields(rebound.catalogue) == CatalogueVersionFields(plan.catalogue);
    if CatalogueVersionId(hash, rebound.catalogue) != CatalogueVersionId(hash, plan.catalogue) {
      assert false;
    }
    var changed := FirstChanged(hash, plan, rebound.items, recordedAt);
    if changed.Some? {
      return Err(IdentityChanged(changed.value));
    }
    return Ok(rebound);
  }

  /** The first item whose identifiers are not those of its rebuilt records. */
  method FirstChanged(hash: Hash, plan: Plan, items: seq<Item>, recordedAt: int) returns (changed: Option<nat>)
    requires items == ReboundItems(plan.items, recordedAt)
    ensures changed == None <==> forall item <- plan.items :: CarriesOwnIds(hash, item)
    ensures changed.Some? ==> FirstAt(plan.items, changed.value, (item: Item) => !CarriesOwnIds(hash, item))
  {
    var i := 0;
    while i < |plan.items|
      invariant 0 <= i <= |plan.items|
      invariant forall k :: 0 <= k < i ==> CarriesOwnIds(hash, plan.items[k])
    {
      var prior, current := plan.items[i], items[i];
      ReboundKeepsIds(hash, plan, recordedAt, i);
      if prior.versionId != VersionId(hash, current.version) || prior.mappingId != MappingId(hash, current.mapping) {
        assert prior in plan.items;
        return Some(i);
      }
      i := i + 1;
    }
    return None;
  }

  method RebuildItems(plan: Plan, recordedAt: int) returns (result: Result<seq<Item>, BindError>)
    requires Constructed(plan)
    ensures result.Ok? <==> forall item <- plan.items :: Reaches(item, recordedAt)
    ensures result.Ok? ==> result.value == ReboundItems(plan.items, recordedAt)
    ensures result.Ok? ==> forall item <- result.value :: item.version.Valid() && item.mapping.Valid()
    ensures result.Err? ==>
              && result.error.NotAfterRecorded?
              && FirstAt(plan.items, result.error.i, (item: Item) => !Reaches(item, recordedAt))
  {
    var items: seq<Item> := [];
    var i := 0;
    while i < |plan.items|
      invariant 0 <= i == |items| <= |plan.items|
      invariant forall k :: 0 <= k < i ==> items[k] == ReboundItem(plan.items[k], recordedAt)
      invariant forall k :: 0 <= k < i ==> Reaches(plan.items[k], recordedAt)
      invariant forall item <- items :: item.version.Valid() && item.mapping.Valid()
    {
      var item := plan.items[i];
      RebuildsExactlyWhenReached(item, recordedAt);
      var version := item.version.(recordedAt := recordedAt);
      if !version.Valid() {
        return Err(NotAfterRecorded(i));
      }
      var mapping := item.mapping.(recordedAt := recordedAt);
      if !mapping.Valid() {
        return Err(NotAfterRecorded(i));
      }
      items := items + [item.(version := version, mapping := mapping)];
      i := i + 1;
    }
    return Ok(items);
  }

  /** A plan that was built can be bound to any time, and its chain of identifiers is the one it was built with. */
  lemma BuiltPlanBinds(build: Build, rows: seq<Row>, recordedAt: int)
    requires Plannable(rows) && Ends(build.effectiveFrom, build.effectiveUntil)
    ensures
      var plan := PlanOf(build, rows);
      && Constructed(plan)
      && (forall item <- plan.items :: Reaches(item, recordedAt) && CarriesOwnIds(build.hash, item))
    ensures
      var rebound := Rebound(PlanOf(build, rows), recordedAt);
      && rebound == PlanOf(build.(recordedAt := recordedAt), rows)
      && (forall item <- rebound.items :: ItemChained(build.hash, rebound.catalogue, item))
  {
    PlanItems(build, rows);
    BuiltAtAnyTime(build, rows, recordedAt);
    PlanItems(build.(recordedAt := recordedAt), rows);
  }

  // ---- Binding a time is building with it ----

  lemma {:induction false} BuiltItemsRebound(build: Build, catalogueId: Digest, accepted: seq<Row>, recordedAt: int)
    requires forall r <- accepted :: r.Projected().Some?
    ensures ItemsOf(build.(recordedAt := recordedAt), catalogueId, accepted)
            == ReboundItems(ItemsOf(build, catalogueId, accepted), recordedAt)
  {
    var items, again :=
      ItemsOf(build, catalogueId, accepted), ItemsOf(build.(recordedAt := recordedAt), catalogueId, accepted);
    forall i | 0 <= i < |items| ensures again[i] == ReboundItem(items[i], recordedAt) {
      ItemsIndexed(build, catalogueId, accepted, i);
      ItemsIndexed(build.(recordedAt := recordedAt), catalogueId, accepted, i);
      SameIds(build, catalogueId, accepted[i], recordedAt);
    }
  }

  lemma SameIds(build: Build, catalogueId: Digest, row: Row, recordedAt: int)
    requires row.Projected().Some?
    ensures ItemOf(build.(recordedAt := recordedAt), catalogueId, row)
            == ReboundItem(ItemOf(build, catalogueId, row), recordedAt)
  {
    var item, again := ItemOf(build, catalogueId, row), ItemOf(build.(recordedAt := recordedAt), catalogueId, row);
    assert ContractVersionFields(again.version) == ContractVersionFields(item.version);
    assert ProviderMappingFields(again.mapping) == ProviderMappingFields(item.mapping);
  }

  lemma ReboundAppends(items: seq<Item>, item: Item, recordedAt: int)
    ensures ReboundItems(items + [item], recordedAt)
            == ReboundItems(items, recordedAt) + [ReboundItem(item, recordedAt)]
  {
  }

  lemma ReboundOrder(a: Item, b: Item, recordedAt: int)
    ensures ByInstrumentAndKey(ReboundItem(a, recordedAt), ReboundItem(b, recordedAt)) == ByInstrumentAndKey(a, b)
  {
  }

  lemma {:induction false} InsertRebound(sorted: seq<Item>, item: Item, recordedAt: int)
    ensures Insert(ReboundItems(sorted, recordedAt), ReboundItem(item, recordedAt), ByInstrumentAndKey)
            == ReboundItems(Insert(sorted, item, ByInstrumentAndKey), recordedAt)
  {
    if sorted == [] {
    } else {
      var n := |sorted| - 1;
      var front, last, again := sorted[..n], sorted[n], ReboundItems(sorted, recordedAt);
      assert sorted == front + [last];
      assert again[n] == ReboundItem(last, recordedAt) && again[..n] == ReboundItems(front, recordedAt);
      ReboundOrder(item, last, recordedAt);
      if ByInstrumentAndKey(item, last) {
        InsertRebound(front, item, recordedAt);
        ReboundAppends(Insert(front, item, ByInstrumentAndKey), last, recordedAt);
      } else {
        ReboundAppends(sorted, item, recordedAt);
      }
    }
  }

  /** The sort key of an item has no time in it. */
  lemma {:induction false} SortRebound(items: seq<Item>, recordedAt: int)
    ensures SortBy(ReboundItems(items, recordedAt), ByInstrumentAndKey)
            == ReboundItems(SortBy(items, ByInstrumentAndKey), recordedAt)
  {
    if items == [] {
    } else {
      var n := |items| - 1;
      SortRebound(items[..n], recordedAt);
      InsertRebound(SortBy(items[..n], ByInstrumentAndKey), items[n], recordedAt);
      assert ReboundItems(items, recordedAt)[..n] == ReboundItems(items[..n], recordedAt);
    }
  }

  /** Building at one time and binding another is building at the other. */
  lemma BuiltAtAnyTime(build: Build, rows: seq<Row>, recordedAt: int)
    requires Plannable(rows)
    ensures Rebound(PlanOf(build, rows), recordedAt) == PlanOf(build.(recordedAt := recordedAt), rows)
  {
    var accepted := With(rows, Accepted);
    var catalogue, again := CatalogueOf(build, accepted), CatalogueOf(build.(recordedAt := recordedAt), accepted);
    assert CatalogueVersionFields(again) == CatalogueVersionFields(catalogue);
    var catalogueId := CatalogueVersionId(build.hash, catalogue);
    BuiltItemsRebound(build, catalogueId, accepted, recordedAt);
    SortRebound(ItemsOf(build, catalogueId, accepted), recordedAt);
  }
}
