/** The store as commits update it: writes are staged and become visible together. */
module CatalogueRepository {
  import opened Wrappers
  import opened Temporal
  import opened RecordTables
  import opened CatalogueStore

  class Repository {
    var catalogues: Table<CatalogueContent>
    var versions: Table<VersionContent>
    var mappings: Table<MappingContent>
    var runs: map<nat, AcceptedRun>

    ghost function State(): Store
      reads this
    {
      Store(catalogues, versions, mappings, runs)
    }

    constructor ()
      ensures State() == Store([], [], [], map[]) && Valid(State())
    {
      catalogues, versions, mappings, runs := [], [], [], map[];
    }

    /** The transition of one item, given the versions planned for the items before it. */
    method Transit(
      earlier: map<nat, nat>, ghost items: seq<Item>, item: Item)
      returns (result: Result<Transition, CommitError>)
      requires Chained(versions, InstrumentVersion) && Chained(mappings, ProviderMapping)
      requires PlannedVersions(items, earlier)
      ensures result == PlanItem(State(), items, item)
    {
      if item.instrument in earlier && earlier[item.instrument] != item.version.id {
        return Err(ConflictingVersionMetadata);
      }
      var bound := Bindings(mappings, item.providerKey);
      if |bound| > 1 {
        return Err(ConflictingBindings);
      }
      if bound != {} && bound != {item.instrument} {
        return Err(KeyReassigned);
      }
      var version := KnowledgeLeaf(versions, item.instrument, InstrumentVersion);
      var mapping := KnowledgeLeaf(mappings, item.providerKey, ProviderMapping);
      if mapping.Some? && mapping.value.value.content.instrument != item.instrument {
        return Err(KeyReassigned);
      }
      return Ok(Transition(item, IdOf(version), IdOf(mapping), CategoryOf(version, mapping, item)));
    }

    method TransitItems(items: seq<Item>) returns (result: Result<seq<Transition>, CommitError>)
      requires Chained(versions, InstrumentVersion) && Chained(mappings, ProviderMapping)
      ensures result == PlanItems(State(), items)
    {
      var transitions: seq<Transition> := [];
      var planned: map<nat, nat> := map[];
      var i := 0;
      while i < |items|
        invariant 0 <= i <= |items|
        invariant PlanItems(State(), items[..i]) == Ok(transitions)
        invariant PlannedVersions(items[..i], planned)
      {
        var step := Transit(planned, items[..i], items[i]);
        TakeOneMore(items, i);
        PlanLast(State(), items[..i], items[i]);
        if step.Err? {
          PlanErrorStays(State(), items, i + 1);
          return Err(step.error);
        }
        PlannedOneMore(items[..i], planned, items[i]);
        planned := planned[items[i].instrument := items[i].version.id];
        transitions := transitions + [step.value];
        i := i + 1;
      }
      assert items[..i] == items;
      result := Ok(transitions);
    }

    /** The predecessor check, then the item checks. */
    method BuildTransitionPlan(attempt: Attempt) returns (result: Result<seq<Transition>, CommitError>)
      requires Valid(State())
      ensures result == BuildTransitions(State(), attempt)
    {
      var predecessor := KnowledgeLeaf(catalogues, CATALOGUE_SCOPE, CatalogueVersion);
      var supplied := attempt.command.supplied;
      if predecessor.None? && supplied.Some? {
        return Err(StalePredecessor);
      }
      if predecessor.Some? && supplied != Some(predecessor.value.id) {
        if supplied.None? {
          return Err(PredecessorRequired);
        }
        return Err(StalePredecessor);
      }
      result := TransitItems(attempt.plan.items);
    }

    /** One commit attempt on the live store. */
    method Commit(hash: Identity -> RecordId, attempt: Attempt) returns (result: Result<Receipt, CommitError>)
      requires Valid(State()) && attempt.plan.Valid()
      modifies this
      ensures (State(), result) == Committed(hash, old(State()), attempt)
      ensures Valid(State())
    {
      CommitStaysValid(hash, State(), attempt);
      if attempt.command.idempotencyKey in runs {
        var run := runs[attempt.command.idempotencyKey];
        if run.digest != attempt.command.digest {
          return Err(IdempotencyConflict);
        }
        return Ok(Replayed(run));
      }
      if attempt.recordedAt < attempt.command.startedAt {
        return Err(ClockBeforeStart);
      }
      var plan := BuildTransitionPlan(attempt);
      if plan.Err? {
        return Err(plan.error);
      }
      var staged := Stage(hash, attempt, plan.value);
      if staged.Err? {
        return Err(Refused(staged.error));
      }
      catalogues, versions, mappings, runs :=
        staged.value.catalogues, staged.value.versions, staged.value.mappings, staged.value.runs;
      return Ok(Accepted(NewRun(hash, attempt), plan.value));
    }

    /** The writes of an accepted plan, staged: nothing is visible yet. */
    method Stage(
      hash: Identity -> RecordId, attempt: Attempt, transitions: seq<Transition>)
      returns (result: Result<Store, InsertError>)
      ensures result == Write(hash, State(), attempt, transitions)
    {
      var catalogueRecord := CatalogueRecord(hash, attempt);
      var stagedCatalogues := Inserted(catalogues, catalogueRecord);
      if stagedCatalogues.Err? {
        return Err(stagedCatalogues.error);
      }
      var stagedVersions := AddVersions(hash, attempt.recordedAt, versions, transitions);
      if stagedVersions.Err? {
        return Err(stagedVersions.error);
      }
      var stagedMappings := AddMappings(hash, attempt.recordedAt, mappings, transitions);
      if stagedMappings.Err? {
        return Err(stagedMappings.error);
      }
      var run := AcceptedRun(attempt.command.runId, attempt.command.digest, catalogueRecord.id);
      return Ok(Store(
                  stagedCatalogues.value, stagedVersions.value, stagedMappings.value,
                  runs[attempt.command.idempotencyKey := run]));
    }
  }

  lemma CommitStaysValid(hash: Identity -> RecordId, store: Store, attempt: Attempt)
    requires Valid(store) && attempt.plan.Valid()
    ensures Valid(Committed(hash, store, attempt).0)
  {
    CommitGrows(hash, store, attempt);
  }

  /** The dictionary holds the version planned for each instrument, and nothing else. */
  ghost predicate PlannedVersions(items: seq<Item>, planned: map<nat, nat>) {
    && (forall item <- items :: item.instrument in planned && planned[item.instrument] == item.version.id)
    && (forall instrument :: instrument in planned ==> exists item <- items :: item.instrument == instrument)
  }

  lemma PlannedOneMore(items: seq<Item>, planned: map<nat, nat>, item: Item)
    requires PlannedVersions(items, planned) && !ConflictsWithEarlier(items, item)
    ensures PlannedVersions(items + [item], planned[item.instrument := item.version.id])
  {
    var grown := planned[item.instrument := item.version.id];
    forall instrument | instrument in grown
      ensures exists other <- items + [item] :: other.instrument == instrument
    {
      if instrument == item.instrument {
        assert item in items + [item];
      } else {
        var other :| other in items && other.instrument == instrument;
        assert other in items + [item];
      }
    }
  }

  lemma PlanLast(store: Store, front: seq<Item>, last: Item)
    requires PlanItems(store, front).Ok?
    ensures
      PlanItems(store, front + [last])
      == match PlanItem(store, front, last)
         case Err(error) => Err(error)
         case Ok(transition) => Ok(PlanItems(store, front).value + [transition])
    ensures PlanItem(store, front, last).Ok? ==> !ConflictsWithEarlier(front, last)
  {
    assert (front + [last])[..|front|] == front;
  }

  /** An item that is refused refuses the whole plan. */
  lemma {:induction false} PlanErrorStays(store: Store, items: seq<Item>, n: nat)
    requires n <= |items| && PlanItems(store, items[..n]).Err?
    ensures PlanItems(store, items) == PlanItems(store, items[..n])
    decreases |items|
  {
    if n < |items| {
      assert items[..|items| - 1][..n] == items[..n];
      PlanErrorStays(store, items[..|items| - 1], n);
    } else {
      assert items[..n] == items;
    }
  }

  lemma {:induction false} InsertErrorStays<C>(table: Table<C>, records: seq<State<Row<C>>>, more: seq<State<Row<C>>>)
    requires InsertAll(table, records).Err?
    ensures InsertAll(table, records + more) == InsertAll(table, records)
  {
    if more == [] {
      assert records + more == records;
    } else {
      InsertErrorStays(table, records, more[..|more| - 1]);
      assert (records + more)[..|records + more| - 1] == records + more[..|more| - 1];
    }
  }

  lemma {:induction false} VersionRecordsPrefix(
    hash: Identity -> RecordId, at: nat, transitions: seq<Transition>, n: nat)
    returns (more: seq<State<Row<VersionContent>>>)
    requires n <= |transitions|
    ensures VersionRecords(hash, at, transitions) == VersionRecords(hash, at, transitions[..n]) + more
    decreases |transitions|
  {
    if n == |transitions| {
      assert transitions[..n] == transitions;
      more := [];
    } else {
      var last := |transitions| - 1;
      assert transitions[..last][..n] == transitions[..n];
      more := VersionRecordsPrefix(hash, at, transitions[..last], n);
      more := more + if VersionSeen(transitions[..last], transitions[last].item.version.id) then []
      else [VersionRecord(hash, at, transitions[last])];
    }
  }

  lemma InsertLast<C>(table: Table<C>, records: seq<State<Row<C>>>, record: State<Row<C>>)
    requires InsertAll(table, records).Ok?
    ensures InsertAll(table, records + [record]) == Inserted(InsertAll(table, records).value, record)
  {
    assert (records + [record])[..|records|] == records;
  }

  lemma VersionRecordsLast(hash: Identity -> RecordId, at: nat, front: seq<Transition>, last: Transition)
    ensures
      var records := VersionRecords(hash, at, front);
      VersionRecords(hash, at, front + [last])
      == if VersionSeen(front, last.item.version.id) then records else records + [VersionRecord(hash, at, last)]
  {
    assert (front + [last])[..|front|] == front;
  }

  /** The versions of some transitions were inserted, and the dictionary holds their identifiers. */
  ghost predicate VersionsStaged(
    hash: Identity -> RecordId, at: nat, table: Table<VersionContent>, transitions: seq<Transition>,
    staged: Table<VersionContent>, seen: set<nat>)
  {
    && InsertAll(table, VersionRecords(hash, at, transitions)) == Ok(staged)
    && (forall id :: id in seen <==> VersionSeen(transitions, id))
  }

  lemma VersionSeenGrows(transitions: seq<Transition>, transition: Transition, id: nat)
    ensures VersionSeen(transitions + [transition], id)
            <==> VersionSeen(transitions, id) || transition.item.version.id == id
  {
    if VersionSeen(transitions, id) {
      var t :| t in transitions && t.item.version.id == id;
      assert t in transitions + [transition];
    }
    assert transition in transitions + [transition];
  }

  lemma VersionSkipped(
    hash: Identity -> RecordId, at: nat, table: Table<VersionContent>, transitions: seq<Transition>,
    staged: Table<VersionContent>, seen: set<nat>, transition: Transition)
    requires VersionsStaged(hash, at, table, transitions, staged, seen) && transition.item.version.id in seen
    ensures VersionsStaged(hash, at, table, transitions + [transition], staged, seen)
  {
    VersionRecordsLast(hash, at, transitions, transition);
    forall id ensures id in seen <==> VersionSeen(transitions + [transition], id) {
      VersionSeenGrows(transitions, transition, id);
    }
  }

  lemma VersionInserted(
    hash: Identity -> RecordId, at: nat, table: Table<VersionContent>, transitions: seq<Transition>,
    staged: Table<VersionContent>, transition: Transition)
    requires InsertAll(table, VersionRecords(hash, at, transitions)) == Ok(staged)
    requires !VersionSeen(transitions, transition.item.version.id)
    ensures InsertAll(table, VersionRecords(hash, at, transitions + [transition]))
            == Inserted(staged, VersionRecord(hash, at, transition))
  {
    VersionRecordsLast(hash, at, transitions, transition);
    InsertLast(table, VersionRecords(hash, at, transitions), VersionRecord(hash, at, transition));
  }

  lemma SeenOneMore(transitions: seq<Transition>, seen: set<nat>, transition: Transition)
    requires forall id :: id in seen <==> VersionSeen(transitions, id)
    ensures forall id :: id in seen + {transition.item.version.id} <==> VersionSeen(transitions + [transition], id)
  {
    forall id ensures id in seen + {transition.item.version.id} <==> VersionSeen(transitions + [transition], id) {
      VersionSeenGrows(transitions, transition, id);
    }
  }

  lemma VersionErrorStays(
    hash: Identity -> RecordId, at: nat, table: Table<VersionContent>, transitions: seq<Transition>, n: nat)
    requires n <= |transitions| && InsertAll(table, VersionRecords(hash, at, transitions[..n])).Err?
    ensures InsertAll(table, VersionRecords(hash, at, transitions))
            == InsertAll(table, VersionRecords(hash, at, transitions[..n]))
  {
    var more := VersionRecordsPrefix(hash, at, transitions, n);
    InsertErrorStays(table, VersionRecords(hash, at, transitions[..n]), more);
  }

  /** Adds each version once, at its first item. */
  method AddVersions(hash: Identity -> RecordId, at: nat, table: Table<VersionContent>, transitions: seq<Transition>)
    returns (result: Result<Table<VersionContent>, InsertError>)
    ensures result == InsertAll(table, VersionRecords(hash, at, transitions))
  {
    var staged := table;
    var seen: set<nat> := {};
    ghost var front: seq<Transition> := [];
    var i := 0;
    while i < |transitions|
      invariant 0 <= i <= |transitions| && front == transitions[..i]
      invariant VersionsStaged(hash, at, table, front, staged, seen)
    {
      var transition := transitions[i];
      TakeOneMore(transitions, i);
      if transition.item.version.id in seen {
        VersionSkipped(hash, at, table, front, staged, seen, transition);
      } else {
        VersionInserted(hash, at, table, front, staged, transition);
        SeenOneMore(front, seen, transition);
        seen := seen + {transition.item.version.id};
        var inserted := Inserted(staged, VersionRecord(hash, at, transition));
        if inserted.Err? {
          VersionErrorStays(hash, at, table, transitions, i + 1);
          return Err(inserted.error);
        }
        staged := inserted.value;
      }
      front := front + [transition];
      i := i + 1;
    }
    assert transitions[..i] == transitions;
    return Ok(staged);
  }

  method AddMappings(hash: Identity -> RecordId, at: nat, table: Table<MappingContent>, transitions: seq<Transition>)
    returns (result: Result<Table<MappingContent>, InsertError>)
    ensures result == InsertAll(table, MappingRecords(hash, at, transitions))
  {
    var staged := table;
    ghost var records := MappingRecords(hash, at, transitions);
    var i := 0;
    while i < |transitions|
      invariant 0 <= i <= |transitions|
      invariant InsertAll(table, records[..i]) == Ok(staged)
    {
      var record := MappingRecord(hash, at, transitions[i]);
      InsertLast(table, records[..i], record);
      assert records[..i + 1] == records[..i] + [record];
      var inserted := Inserted(staged, record);
      if inserted.Err? {
        InsertErrorStays(table, records[..i + 1], records[i + 1..]);
        assert records == records[..i + 1] + records[i + 1..];
        return Err(inserted.error);
      }
      staged := inserted.value;
      i := i + 1;
    }
    assert records[..i] == records;
    return Ok(staged);
  }
}
