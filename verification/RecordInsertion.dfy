/** Which records any table takes: the checks of one insertion against the graphs the resolver accepts. */
module RecordInsertion {
  import opened Wrappers
  import opened Dictionaries
  import opened Temporal
  import opened RecordTables

  // ---- The valid graphs, record by record ----

  /** The record supersedes nothing, or an earlier one of the list of its own kind and scope. */
  ghost predicate Fits<V>(states: seq<State<V>>, s: State<V>) {
    s.supersedes.Some? ==>
      exists p <- states ::
        p.id == s.supersedes.value && p.kind == s.kind && p.scope == s.scope && p.recordedAt < s.recordedAt
  }

  ghost predicate OneRecordEach<V>(states: seq<State<V>>) {
    forall a <- states, b <- states :: a.id == b.id ==> a == b
  }

  ghost predicate OneSuccessorEach<V>(states: seq<State<V>>) {
    forall a <- states, b <- states :: a.supersedes.Some? && a.supersedes == b.supersedes ==> a.id == b.id
  }

  lemma CoherentByRecords<V>(states: seq<State<V>>)
    ensures Coherent(states) <==> OneRecordEach(states)
  {
    if Coherent(states) {
      CoherentIndexed(states);
    } else {
      var i, j :| 0 <= i < j < |states| && RecordKey(states[i]) == RecordKey(states[j]) && states[i] != states[j];
      assert states[i] in states && states[j] in states;
    }
  }

  lemma LinkByRecords<V>(states: seq<State<V>>, s: State<V>)
    requires Coherent(states) && s in states
    ensures s.id in Index(states)
    ensures LinkOk(Index(states), s.id) <==> Fits(states, s)
  {
    IndexedById(states);
    CoherentIndexed(states);
  }

  lemma GraphByRecords<V>(states: seq<State<V>>)
    ensures ValidGraph(states)
            <==> OneRecordEach(states) && OneSuccessorEach(states) && forall s <- states :: Fits(states, s)
  {
    CoherentByRecords(states);
    if Coherent(states) {
      IndexedById(states);
      CoherentIndexed(states);
      forall s <- states ensures s.id in Index(states) && (LinkOk(Index(states), s.id) <==> Fits(states, s)) {
        LinkByRecords(states, s);
      }
      assert forall id <- Index(states) :: Index(states)[id] in states && Index(states)[id].id == id;
    }
  }

  // ---- One insertion ----

  /** The record brings another content for a row identity. */
  ghost predicate OtherContent<C(!new)>(table: Table<C>, record: State<Row<C>>) {
    exists s <- table :: s.value.id == record.value.id && s.value.content != record.value.content
  }

  /** The defect of the table with the record that a refusal stands for. */
  ghost predicate Shows<C(!new)>(table: Table<C>, record: State<Row<C>>, error: InsertError) {
    var states := table + [record];
    match error
    case SemanticCollision => Explains(states, ConflictingContent) || OtherContent(table, record)
    case TargetMissing => Explains(states, MissingTarget) || Explains(states, SelfSupersession)
    case TargetInOtherScope => Explains(states, CrossScope)
    case NotAfterTarget => Explains(states, NotLater)
    case TargetHasSuccessor => Explains(states, Branch)
  }

  /** A new record keeps the graph valid when it fits and what it supersedes has no successor. */
  lemma ExtendsExactlyWhen<V>(states: seq<State<V>>, record: State<V>)
    requires ValidGraph(states) && forall s <- states :: s.id != record.id
    ensures ValidGraph(states + [record])
            <==> Fits(states, record)
                 && forall s <- states :: record.supersedes.Some? ==> s.supersedes != record.supersedes
  {
    var after := states + [record];
    GraphByRecords(states);
    GraphByRecords(after);
    assert record in after && forall s <- states :: s in after;
    assert forall s <- after :: s in states || s == record;
    forall s <- states ensures Fits(after, s) {
      assert Fits(states, s);
    }
    if Fits(states, record) {
      assert Fits(after, record);
    } else {
      assert !Fits(after, record);
    }
  }

  /** A record that is there changes no graph. */
  lemma RepeatKeepsGraph<V>(states: seq<State<V>>, record: State<V>)
    requires ValidGraph(states) && record in states
    ensures ValidGraph(states + [record])
  {
    var after := states + [record];
    GraphByRecords(states);
    GraphByRecords(after);
    assert forall s :: s in after <==> s in states;
    forall s <- after ensures Fits(after, s) {
      assert Fits(states, s);
    }
  }

  lemma TakenIdentity<V>(states: seq<State<V>>, record: State<V>, other: State<V>)
    requires other in states && other.id == record.id && other != record
    ensures !Coherent(states + [record])
  {
    CoherentByRecords(states + [record]);
    assert record in states + [record] && other in states + [record];
  }

  /**
   Whatever the table, an insertion succeeds exactly when the row brings no second content for its identity and the
   table with the record is a graph the resolver accepts. So no insertion ever leaves one that it refuses.
   */
  lemma InsertsExactlyValid<C(!new)>(table: Table<C>, record: State<Row<C>>)
    requires ValidGraph(table) && forall s <- table :: s.kind == record.kind
    ensures Inserted(table, record).Ok? <==> !OtherContent(table, record) && ValidGraph(table + [record])
    ensures Inserted(table, record).Ok? ==>
              Inserted(table, record).value == if record in table then table else table + [record]
  {
    GraphByRecords(table);
    match Find(table, record.id)
    case Some(existing) =>
      if existing == record {
        RepeatKeepsGraph(table, record);
      } else {
        TakenIdentity(table, record, existing);
      }
    case None =>
      ExtendsExactlyWhen(table, record);
  }

  /** However many records are inserted, a table that started as a valid graph still is one and has lost nothing. */
  lemma {:induction false} InsertionsKeepGraph<C(!new)>(table: Table<C>, kind: Kind, added: Table<C>)
    requires ValidGraph(table) && (forall s <- table + added :: s.kind == kind) && InsertAll(table, added).Ok?
    ensures ValidGraph(InsertAll(table, added).value)
    ensures table <= InsertAll(table, added).value
    ensures forall s :: s in InsertAll(table, added).value <==> s in table + added
  {
    if added != [] {
      var front, last := added[..|added| - 1], added[|added| - 1];
      assert added == front + [last];
      assert forall s :: s in table + added <==> s in table + front || s == last;
      InsertionsKeepGraph(table, kind, front);
      InsertsExactlyValid(InsertAll(table, front).value, last);
    }
  }

  /** Every record is the one its identity is indexed to, the new one included. */
  lemma IndexWith<V>(states: seq<State<V>>, record: State<V>)
    requires Coherent(states) && forall s <- states :: s.id != record.id
    ensures Coherent(states + [record])
    ensures
      var index := Index(states + [record]);
      && record.id in index && index[record.id] == record
      && (forall s <- states :: s.id in index && index[s.id] == s)
      && (forall id <- index :: id == record.id || exists s <- states :: s.id == id)
  {
    var after := states + [record];
    CoherentByRecords(states);
    CoherentByRecords(after);
    CoherentIndexed(after);
    IndexedById(after);
    assert record in after && forall s <- states :: s in after;
    forall id <- Index(after) ensures id == record.id || exists s <- states :: s.id == id {
      assert Index(after)[id] in after;
    }
  }

  /** And a refusal names what would be wrong with that graph. */
  lemma RefusalShows<C(!new)>(table: Table<C>, record: State<Row<C>>)
    requires ValidGraph(table) && (forall s <- table :: s.kind == record.kind) && Inserted(table, record).Err?
    ensures Shows(table, record, Inserted(table, record).error)
  {
    match Find(table, record.id)
    case Some(existing) =>
      if existing != record {
        TakenIdentity(table, record, existing);
      }
    case None =>
      IndexWith(table, record);
      LinkRefusalShows(table, record);
  }

  lemma LinkRefusalShows<C(!new)>(table: Table<C>, record: State<Row<C>>)
    requires (forall s <- table :: s.kind == record.kind && s.id != record.id) && Inserted(table, record).Err?
    requires
      var index := Index(table + [record]);
      && Coherent(table + [record]) && record.id in index && index[record.id] == record
      && (forall s <- table :: s.id in index && index[s.id] == s)
      && (forall id <- index :: id == record.id || exists s <- table :: s.id == id)
    ensures Shows(table, record, Inserted(table, record).error)
  {
    var index := Index(table + [record]);
    match Inserted(table, record).error
    case TargetInOtherScope => assert CrossesScope(index, record.id);
    case NotAfterTarget => assert Temporal.NotAfterTarget(index, record.id);
    case TargetHasSuccessor =>
      var s :| s in table && s.supersedes == record.supersedes;
      assert s.id in index && record.id in index;
    case _ =>
  }
}
