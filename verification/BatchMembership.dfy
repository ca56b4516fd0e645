/**
 Lifecycle batches: what removing exact duplicates produces, and what the database accepts as its
 record. The deferred checks accept exactly the table that first-occurrence de-duplication writes.
 */
module BatchMembership {
  import opened Wrappers
  import opened Dictionaries

  datatype RawId = RawId(hash: nat)

  datatype Event = Event(rawId: RawId, content: nat)

  const MAX_EVENTS_PER_BATCH: nat := 10000

  function RawIdOf(event: Event): RawId {
    event.rawId
  }

  // ---- De-duplication ----

  datatype BatchError = TooManyEvents | ConflictingIdentity(rawId: RawId)

  datatype BatchValidation = BatchValidation(uniqueEvents: seq<Event>, duplicates: seq<RawId>)

  ghost predicate Repeats(events: seq<Event>, rawId: RawId) {
    exists i, j :: 0 <= i < j < |events| && events[i].rawId == rawId && events[j].rawId == rawId
  }

  /** The identities of the events that repeat an earlier one exactly. */
  function Duplicates(events: seq<Event>): set<RawId> {
    if events == [] then {}
    else
      var n := |events| - 1;
      Duplicates(events[..n]) + if events[n] in events[..n] then {events[n].rawId} else {}
  }

  ghost predicate Ascending(ids: seq<RawId>) {
    forall i, j :: 0 <= i < j < |ids| ==> ids[i].hash < ids[j].hash
  }

  /** Puts one more identity in its place. */
  method InsertId(ids: seq<RawId>, id: RawId) returns (more: seq<RawId>)
    requires Ascending(ids) && id !in ids
    ensures Ascending(more) && forall r :: r in more <==> r in ids || r == id
  {
    var i := |ids|;
    while i > 0 && id.hash < ids[i - 1].hash
      invariant 0 <= i <= |ids|
      invariant forall k :: i <= k < |ids| ==> id.hash < ids[k].hash
    {
      i := i - 1;
    }
    more := ids[..i] + [id] + ids[i..];
    assert forall r :: r in ids <==> r in ids[..i] || r in ids[i..];
    assert i > 0 ==> ids[i - 1] != id;
  }

  method SortIds(ids: set<RawId>) returns (sorted: seq<RawId>)
    ensures Ascending(sorted) && forall r :: r in sorted <==> r in ids
  {
    sorted := [];
    var rest := ids;
    while rest != {}
      invariant rest <= ids && Ascending(sorted) && forall r :: r in sorted <==> r in ids && r !in rest
      decreases |rest|
    {
      var id := PickId(rest);
      sorted := InsertId(sorted, id);
      rest := rest - {id};
    }
  }

  method PickId(ids: set<RawId>) returns (id: RawId)
    requires ids != {}
    ensures id in ids
  {
    id :| id in ids;
  }

  /** The first occurrences in order, and the identities that occur again, sorted. */
  method ValidateIdentityBatch(events: seq<Event>) returns (result: Result<BatchValidation, BatchError>)
    ensures result.Ok? <==> |events| <= MAX_EVENTS_PER_BATCH && Unique(events, RawIdOf)
    ensures result.Ok? ==> result.value.uniqueEvents == FirstSeen(events)
    ensures result.Ok? ==> Ascending(result.value.duplicates)
    ensures result.Ok? ==> forall id :: id in result.value.duplicates <==> id in Duplicates(events)
    ensures result.Err? && result.error.TooManyEvents? <==> |events| > MAX_EVENTS_PER_BATCH
  {
    if |events| > MAX_EVENTS_PER_BATCH {
      return Err(TooManyEvents);
    }
    var byId: map<RawId, Event>, order: seq<Event>, duplicates: set<RawId> := map[], [], {};
    var i := 0;
    while i < |events|
      invariant 0 <= i <= |events|
      invariant Gathered(events[..i], byId, order, duplicates)
    {
      var event := events[i];
      Lookup(events[..i], byId, event);
      if event.rawId in byId && byId[event.rawId] != event {
        DifferentContents(events, i, byId[event.rawId]);
        return Err(ConflictingIdentity(event.rawId));
      }
      GatheredMore(events[..i], event, byId, order, duplicates);
      TakeOneMore(events, i);
      if event.rawId in byId {
        duplicates := duplicates + {event.rawId};
      } else {
        byId := byId[event.rawId := event];
        order := order + [event];
      }
      i := i + 1;
    }
    assert events[..i] == events;
    var sorted := SortIds(duplicates);
    return Ok(BatchValidation(order, sorted));
  }

  /** What the pass has gathered from some events. */
  ghost predicate Gathered(events: seq<Event>, byId: map<RawId, Event>, order: seq<Event>, duplicates: set<RawId>) {
    order == FirstSeen(events) && duplicates == Duplicates(events) && Indexed(events, byId) && Unique(events, RawIdOf)
  }

  lemma GatheredMore(
    events: seq<Event>, event: Event, byId: map<RawId, Event>, order: seq<Event>, duplicates: set<RawId>)
    requires Gathered(events, byId, order, duplicates) && (event.rawId in byId ==> byId[event.rawId] == event)
    ensures event.rawId in byId ==> Gathered(events + [event], byId, order, duplicates + {event.rawId})
    ensures event.rawId !in byId ==> Gathered(events + [event], byId[event.rawId := event], order + [event], duplicates)
  {
    Lookup(events, byId, event);
    OneMore(events, event);
    IndexedMore(events, byId, event);
    if event.rawId in byId {
      assert byId[event.rawId := event] == byId;
    }
  }

  /** The dictionary holds every event under its identity, and nothing else. */
  ghost predicate Indexed(events: seq<Event>, byId: map<RawId, Event>) {
    && (forall e <- events :: e.rawId in byId && byId[e.rawId] == e)
    && (forall id <- byId :: byId[id] in events && byId[id].rawId == id)
  }

  lemma Lookup(events: seq<Event>, byId: map<RawId, Event>, event: Event)
    requires Indexed(events, byId)
    ensures event.rawId in byId ==> byId[event.rawId] in events && byId[event.rawId].rawId == event.rawId
    ensures event in events <==> event.rawId in byId && byId[event.rawId] == event
  {
  }

  lemma IndexedMore(events: seq<Event>, byId: map<RawId, Event>, event: Event)
    requires Indexed(events, byId) && Unique(events, RawIdOf) && (event.rawId in byId ==> byId[event.rawId] == event)
    ensures Indexed(events + [event], byId[event.rawId := event]) && Unique(events + [event], RawIdOf)
  {
    var longer, grown := events + [event], byId[event.rawId := event];
    forall id | id in grown ensures grown[id] in longer && grown[id].rawId == id {
      assert id != event.rawId ==> byId[id] in events;
      assert id == event.rawId ==> longer[|events|] == event;
    }
    forall i, j | 0 <= i < j < |longer| && RawIdOf(longer[i]) == RawIdOf(longer[j]) ensures longer[i] == longer[j] {
      assert events[i] in events;
      if j < |events| {
        assert RawIdOf(events[i]) == RawIdOf(events[j]);
      }
    }
  }

  lemma OneMore(events: seq<Event>, event: Event)
    ensures FirstSeen(events + [event]) == if event in events then FirstSeen(events) else FirstSeen(events) + [event]
    ensures Duplicates(events + [event]) == Duplicates(events) + if event in events then {event.rawId} else {}
  {
    assert (events + [event])[..|events|] == events;
  }

  lemma DifferentContents(events: seq<Event>, i: nat, other: Event)
    requires i < |events| && other in events[..i] && other.rawId == events[i].rawId && other != events[i]
    ensures !Unique(events, RawIdOf)
  {
    var k :| 0 <= k < i && events[k] == other;
    assert RawIdOf(events[k]) == RawIdOf(events[i]);
  }

  lemma RepeatsGrows(events: seq<Event>, rawId: RawId)
    requires events != []
    ensures
      var n := |events| - 1;
      Repeats(events, rawId)
      <==> Repeats(events[..n], rawId) || (events[n].rawId == rawId && exists e <- events[..n] :: e.rawId == rawId)
  {
    var n := |events| - 1;
    var front := events[..n];
    assert forall k :: 0 <= k < n ==> front[k] == events[k];
    if Repeats(front, rawId) {
      var i, j :| 0 <= i < j < n && front[i].rawId == rawId && front[j].rawId == rawId;
      assert events[i].rawId == rawId && events[j].rawId == rawId;
    }
    if e :| e in front && e.rawId == rawId && events[n].rawId == rawId {
      var i :| 0 <= i < n && front[i] == e;
      assert events[i].rawId == rawId;
    }
    if Repeats(events, rawId) {
      var i, j :| 0 <= i < j < |events| && events[i].rawId == rawId && events[j].rawId == rawId;
      assert front[i].rawId == rawId && front[i] in front;
      if j < n {
        assert front[j].rawId == rawId;
      }
    }
  }

  /** In an accepted batch the duplicates are the identities that occur twice. */
  lemma {:induction false} DuplicatesRepeat(events: seq<Event>, rawId: RawId)
    requires Unique(events, RawIdOf)
    ensures rawId in Duplicates(events) <==> Repeats(events, rawId)
  {
    if events == [] {
    } else {
      var n := |events| - 1;
      DuplicatesRepeat(events[..n], rawId);
      RepeatsGrows(events, rawId);
      if e :| e in events[..n] && e.rawId == rawId && events[n].rawId == rawId {
        var k :| 0 <= k < n && events[k] == e;
        assert RawIdOf(events[k]) == RawIdOf(events[n]);
      }
    }
  }

  // ---- The membership table ----

  datatype Ordinal = Ordinal(at: nat)

  /** A membership row; its key in the table is its input ordinal, as in the primary key. */
  datatype Row = Row(rawId: RawId, isDuplicate: bool, first: Ordinal)

  type Table = map<Ordinal, Row>

  datatype Batch = Batch(inputCount: nat, uniqueCount: nat, normalizedCount: nat, duplicateCount: nat)

  ghost predicate IsFirst(raws: seq<RawId>, i: nat, first: nat)
    requires i < |raws|
  {
    first <= i && raws[first] == raws[i] && forall j :: 0 <= j < first ==> raws[j] != raws[i]
  }

  lemma {:induction false} FirstExists(raws: seq<RawId>, i: nat, from: nat)
    requires from <= i < |raws| && forall j :: 0 <= j < from ==> raws[j] != raws[i]
    ensures exists first: nat :: IsFirst(raws, i, first)
    decreases i - from
  {
    if raws[from] == raws[i] {
      assert IsFirst(raws, i, from);
    } else {
      FirstExists(raws, i, from + 1);
    }
  }

  /** The least position with the same identity. */
  ghost function FirstPosition(raws: seq<RawId>, i: nat): (first: nat)
    requires i < |raws|
    ensures IsFirst(raws, i, first)
  {
    FirstExists(raws, i, 0);
    var first: nat :| IsFirst(raws, i, first);
    first
  }

  lemma FirstIsUnique(raws: seq<RawId>, i: nat, first: nat)
    requires i < |raws| && IsFirst(raws, i, first)
    ensures first == FirstPosition(raws, i)
  {
    assert IsFirst(raws, i, FirstPosition(raws, i));
  }

  /** The positions of a sequence as ordinals. */
  function Ordinals(count: nat): (ordinals: set<Ordinal>)
    ensures forall o :: o in ordinals <==> o.at < count
    ensures |ordinals| == count
  {
    if count == 0 then {} else Ordinals(count - 1) + {Ordinal(count - 1)}
  }

  /** The table that first-occurrence de-duplication writes for a sequence of identities. */
  ghost function DedupTable(raws: seq<RawId>): Table {
    map o <- Ordinals(|raws|) :: Row(raws[o.at], FirstPosition(raws, o.at) < o.at, Ordinal(FirstPosition(raws, o.at)))
  }

  function DistinctRaws(table: Table): set<RawId> {
    RawsAt(table, table.Keys)
  }

  function Originals(table: Table): set<Ordinal> {
    set o <- table | !table[o].isDuplicate
  }

  function Copies(table: Table): set<Ordinal> {
    set o <- table | table[o].isDuplicate
  }

  // ---- What the database checks ----

  predicate ColumnChecks(table: Table) {
    forall o <- table ::
      && o.at <= 9999 && table[o].first.at <= 9999 && table[o].first.at <= o.at
      && (table[o].isDuplicate <==> table[o].first.at < o.at)
  }

  /** A row refers to a row of the same identity. */
  predicate RefersToOwn(table: Table, o: Ordinal)
    requires o in table
  {
    table[o].first in table && table[table[o].first].rawId == table[o].rawId
  }

  /** The deferred foreign key of a row's first occurrence. */
  predicate FirstOccurrenceKey(table: Table) {
    forall o {:trigger RefersToOwn(table, o)} | o in table :: RefersToOwn(table, o)
  }

  /** The row a row refers to is no duplicate and refers to itself. */
  predicate FirstIsOriginal(table: Table, o: Ordinal)
    requires o in table
  {
    var first := table[o].first;
    first in table ==> !table[first].isDuplicate && table[first].first == first
  }

  predicate FirstsAreOriginal(table: Table) {
    forall o {:trigger FirstIsOriginal(table, o)} | o in table :: RefersToOwn(table, o) ==> FirstIsOriginal(table, o)
  }

  /** The trigger on every inserted row. */
  predicate OrdinalTrigger(table: Table, batch: Batch) {
    forall o <- table :: o.at < batch.inputCount && table[o].first.at < batch.inputCount
  }

  predicate Contiguous(ordinals: set<Ordinal>, count: nat) {
    count > 0 ==>
      && Ordinal(0) in ordinals
      && Ordinal(count - 1) in ordinals && forall o <- ordinals :: o.at <= count - 1
  }

  /** The deferred trigger on the batch: counts, contiguity and the classification of first occurrences. */
  predicate AggregateTrigger(table: Table, batch: Batch) {
    && |table| == batch.inputCount
    && Contiguous(table.Keys, batch.inputCount)
    && |Originals(table)| == batch.uniqueCount
    && |Copies(table)| == batch.duplicateCount
    && |DistinctRaws(table)| == batch.uniqueCount
    && FirstsAreOriginal(table)
  }

  predicate BatchChecks(batch: Batch) {
    && batch.inputCount <= 10000 && batch.uniqueCount <= 10000
    && batch.normalizedCount == batch.uniqueCount
    && batch.duplicateCount == batch.inputCount - batch.uniqueCount
    && ((batch.inputCount == 0 && batch.uniqueCount == 0)
        || (1 <= batch.inputCount <= 10000 && 1 <= batch.uniqueCount <= batch.inputCount))
  }

  predicate TableAccepted(table: Table, batch: Batch) {
    && BatchChecks(batch) && ColumnChecks(table) && FirstOccurrenceKey(table)
    && OrdinalTrigger(table, batch) && AggregateTrigger(table, batch)
  }

  // ---- Counting ----

  function RawsAt(table: Table, keys: set<Ordinal>): set<RawId>
    requires keys <= table.Keys
  {
    set o <- keys :: table[o].rawId
  }

  lemma RawsWithout(table: Table, keys: set<Ordinal>, o: Ordinal)
    requires keys <= table.Keys && o in keys
    ensures RawsAt(table, keys) == RawsAt(table, keys - {o}) + {table[o].rawId}
  {
  }

  lemma {:induction false} RawsAtMost(table: Table, keys: set<Ordinal>)
    requires keys <= table.Keys
    ensures |RawsAt(table, keys)| <= |keys|
    decreases keys
  {
    if keys == {} {
    } else {
      var o :| o in keys;
      RawsWithout(table, keys, o);
      RawsAtMost(table, keys - {o});
    }
  }

  lemma {:induction false} RawsAsMany(table: Table, keys: set<Ordinal>)
    requires keys <= table.Keys && forall a <- keys, b <- keys :: table[a].rawId == table[b].rawId ==> a == b
    ensures |RawsAt(table, keys)| == |keys|
    decreases keys
  {
    if keys == {} {
    } else {
      var o :| o in keys;
      RawsWithout(table, keys, o);
      RawsAsMany(table, keys - {o});
    }
  }

  /** Every identity has an original row. */
  lemma OriginalOf(table: Table, id: RawId) returns (o: Ordinal)
    requires FirstOccurrenceKey(table) && id in DistinctRaws(table)
    requires FirstsAreOriginal(table)
    ensures o in Originals(table) && table[o].rawId == id
  {
    var row :| row in table && table[row].rawId == id;
    assert RefersToOwn(table, row) && FirstIsOriginal(table, row);
    o := table[row].first;
  }

  /** As many originals as identities, and an original for each identity: no identity has two. */
  lemma OneOriginalEach(table: Table, a: Ordinal, b: Ordinal)
    requires FirstOccurrenceKey(table) && |Originals(table)| == |DistinctRaws(table)|
    requires FirstsAreOriginal(table)
    requires a in Originals(table) && b in Originals(table) && table[a].rawId == table[b].rawId
    ensures a == b
  {
    if a != b {
      var rest := Originals(table) - {a};
      OthersCover(table, a, b);
      RawsAtMost(table, rest);
      SubsetCount(DistinctRaws(table), RawsAt(table, rest));
    }
  }

  lemma OthersCover(table: Table, a: Ordinal, b: Ordinal)
    requires FirstOccurrenceKey(table)
    requires FirstsAreOriginal(table)
    requires a in Originals(table) && b in Originals(table) && table[a].rawId == table[b].rawId && a != b
    ensures DistinctRaws(table) <= RawsAt(table, Originals(table) - {a})
  {
    var rest := Originals(table) - {a};
    forall id <- DistinctRaws(table) ensures id in RawsAt(table, rest) {
      var o := OriginalOf(table, id);
      var kept := if o == a then b else o;
      assert kept in rest && table[kept].rawId == id;
    }
  }

  lemma FullDomain(keys: set<Ordinal>, count: nat)
    requires |keys| == count && forall o <- keys :: o.at < count
    ensures keys == Ordinals(count)
  {
    var all := Ordinals(count);
    assert keys <= all;
    if keys != all {
      var missing :| missing in all && missing !in keys;
      SubsetCount(keys, all - {missing});
    }
  }

  /** The identities of a table's rows by input ordinal. */
  function RawsOf(table: Table, count: nat): (raws: seq<RawId>)
    requires forall o: Ordinal :: o.at < count ==> o in table
    ensures |raws| == count && forall i :: 0 <= i < count ==> raws[i] == table[Ordinal(i)].rawId
  {
    if count == 0 then [] else RawsOf(table, count - 1) + [table[Ordinal(count - 1)].rawId]
  }

  /** In an accepted table a row's first occurrence is the least ordinal of its identity. */
  lemma FirstIsLeast(table: Table, batch: Batch, o: Ordinal, other: Ordinal)
    requires TableAccepted(table, batch) && o in table && other in table && table[other].rawId == table[o].rawId
    ensures table[o].first.at <= other.at
  {
    var first, otherFirst := table[o].first, table[other].first;
    assert RefersToOwn(table, o) && FirstIsOriginal(table, o) && RefersToOwn(table, other)
           && FirstIsOriginal(table, other);
    assert first in Originals(table) && otherFirst in Originals(table);
    OneOriginalEach(table, first, otherFirst);
  }

  /** A row names the least row of its identity. */
  ghost predicate NamesLeast(table: Table, o: Ordinal)
    requires o in table
  {
    && table[o].first.at <= o.at && RefersToOwn(table, o)
    && (forall other <- table :: table[other].rawId == table[o].rawId ==> table[o].first.at <= other.at)
  }

  lemma AcceptedNamesLeast(table: Table, batch: Batch, o: Ordinal)
    requires TableAccepted(table, batch) && o in table
    ensures NamesLeast(table, o)
  {
    assert RefersToOwn(table, o);
    forall other <- table | table[other].rawId == table[o].rawId ensures table[o].first.at <= other.at {
      FirstIsLeast(table, batch, o, other);
    }
  }

  lemma RowIsDedup(table: Table, raws: seq<RawId>, o: Ordinal)
    requires table.Keys == Ordinals(|raws|) && o in table && NamesLeast(table, o)
    requires forall i :: 0 <= i < |raws| ==> raws[i] == table[Ordinal(i)].rawId
    ensures table[o].first.at == FirstPosition(raws, o.at)
  {
    var first := table[o].first.at;
    assert o == Ordinal(o.at) && table[o].first == Ordinal(first);
    forall j | 0 <= j < first ensures raws[j] != raws[o.at] {
      assert Ordinal(j) in table;
    }
    FirstIsUnique(raws, o.at, first);
  }

  lemma DomainIsFull(table: Table, batch: Batch)
    requires TableAccepted(table, batch)
    ensures table.Keys == Ordinals(batch.inputCount)
  {
    FullDomain(table.Keys, batch.inputCount);
  }

  /** A row as de-duplication writes it. */
  ghost predicate IsDedupRow(row: Row, raws: seq<RawId>, o: Ordinal) {
    && o.at < |raws| && row.rawId == raws[o.at] && row.first.at == FirstPosition(raws, o.at)
    && (row.isDuplicate <==> row.first.at < o.at)
  }

  lemma RowIsDetermined(row: Row, raws: seq<RawId>, o: Ordinal)
    requires IsDedupRow(row, raws, o)
    ensures o in DedupTable(raws) && row == DedupTable(raws)[o]
  {
  }

  lemma DedupKeys(raws: seq<RawId>)
    ensures DedupTable(raws).Keys == Ordinals(|raws|)
  {
  }

  lemma RowsAreDedup(table: Table, raws: seq<RawId>)
    requires table.Keys == Ordinals(|raws|) && forall o <- table :: IsDedupRow(table[o], raws, o)
    ensures table == DedupTable(raws)
  {
    var dedup := DedupTable(raws);
    DedupKeys(raws);
    forall o | o in table ensures table[o] == dedup[o] {
      RowIsDetermined(table[o], raws, o);
    }
    SameTable(table, dedup);
  }

  lemma SameTable(a: Table, b: Table)
    requires a.Keys == b.Keys && forall o | o in a :: a[o] == b[o]
    ensures a == b
  {
  }

  /** An accepted table is the one de-duplication writes. */
  lemma AcceptedIsDedup(table: Table, batch: Batch)
    requires TableAccepted(table, batch)
    ensures forall o: Ordinal :: o.at < batch.inputCount ==> o in table
    ensures table == DedupTable(RawsOf(table, batch.inputCount))
  {
    DomainIsFull(table, batch);
    var raws := RawsOf(table, batch.inputCount);
    forall o | o in table ensures IsDedupRow(table[o], raws, o) {
      AcceptedNamesLeast(table, batch, o);
      RowIsDedup(table, raws, o);
      assert o == Ordinal(o.at);
    }
    RowsAreDedup(table, raws);
  }

  // ---- What de-duplication writes is accepted ----

  lemma OriginalsAtMost(raws: seq<RawId>)
    ensures |Originals(DedupTable(raws))| <= |raws|
  {
    assert DedupTable(raws).Keys == Ordinals(|raws|);
    SubsetCount(Originals(DedupTable(raws)), Ordinals(|raws|));
  }

  /** The batch row that belongs to a sequence of identities. */
  ghost function CountsOf(raws: seq<RawId>): Batch {
    var unique := |Originals(DedupTable(raws))|;
    OriginalsAtMost(raws);
    Batch(|raws|, unique, unique, |raws| - unique)
  }

  /** One row of a de-duplicated table, and the row of its first occurrence. */
  lemma DedupRow(raws: seq<RawId>, o: Ordinal)
    requires o.at < |raws|
    ensures
      var table := DedupTable(raws);
      && o in table && table[o].rawId == raws[o.at] && table[o].first.at <= o.at
      && (table[o].isDuplicate <==> table[o].first.at < o.at)
      && RefersToOwn(table, o) && FirstIsOriginal(table, o)
  {
    var first := FirstPosition(raws, o.at);
    assert IsFirst(raws, first, first);
    FirstIsUnique(raws, first, first);
  }

  lemma DedupRows(raws: seq<RawId>)
    ensures DedupTable(raws).Keys == Ordinals(|raws|)
    ensures FirstOccurrenceKey(DedupTable(raws))
    ensures FirstsAreOriginal(DedupTable(raws))
  {
    forall o | o in DedupTable(raws)
      ensures RefersToOwn(DedupTable(raws), o) && FirstIsOriginal(DedupTable(raws), o)
    {
      DedupRow(raws, o);
    }
  }

  /** Originals of one identity are one row. */
  lemma OriginalsDiffer(raws: seq<RawId>, a: Ordinal, b: Ordinal)
    requires a in Originals(DedupTable(raws)) && b in Originals(DedupTable(raws))
    requires DedupTable(raws)[a].rawId == DedupTable(raws)[b].rawId
    ensures a == b
  {
    assert IsFirst(raws, a.at, a.at) && IsFirst(raws, b.at, b.at);
  }

  /** The originals of a de-duplicated table are one for each identity. */
  lemma OriginalsApart(raws: seq<RawId>)
    ensures
      var table := DedupTable(raws);
      forall a <- Originals(table), b <- Originals(table) :: table[a].rawId == table[b].rawId ==> a == b
  {
    var table := DedupTable(raws);
    forall a <- Originals(table), b <- Originals(table) | table[a].rawId == table[b].rawId ensures a == b {
      OriginalsDiffer(raws, a, b);
    }
  }

  lemma OriginalsHoldRaws(raws: seq<RawId>)
    ensures RawsAt(DedupTable(raws), Originals(DedupTable(raws))) == DistinctRaws(DedupTable(raws))
  {
    var table := DedupTable(raws);
    DedupRows(raws);
    forall id <- DistinctRaws(table) ensures id in RawsAt(table, Originals(table)) {
      var o := OriginalOf(table, id);
    }
  }

  lemma OriginalsCountRaws(raws: seq<RawId>)
    ensures |Originals(DedupTable(raws))| == |DistinctRaws(DedupTable(raws))|
  {
    OriginalsApart(raws);
    RawsAsMany(DedupTable(raws), Originals(DedupTable(raws)));
    OriginalsHoldRaws(raws);
  }

  lemma CopiesAreTheRest(table: Table)
    ensures |Copies(table)| == |table| - |Originals(table)|
  {
    assert table.Keys == Copies(table) + Originals(table) && Copies(table) !! Originals(table);
  }

  lemma DedupCounts(raws: seq<RawId>)
    ensures
      var table, batch := DedupTable(raws), CountsOf(raws);
      && |table| == batch.inputCount && |Originals(table)| == batch.uniqueCount
      && |Copies(table)| == batch.duplicateCount && |DistinctRaws(table)| == batch.uniqueCount
      && (raws == [] ==> batch.uniqueCount == 0) && (raws != [] ==> 1 <= batch.uniqueCount <= batch.inputCount)
  {
    var table := DedupTable(raws);
    DedupRows(raws);
    OriginalsCountRaws(raws);
    CopiesAreTheRest(table);
    OriginalsAtMost(raws);
    if raws != [] {
      DedupRow(raws, Ordinal(0));
      assert Ordinal(0) in Originals(table);
      SubsetCount({Ordinal(0)}, Originals(table));
    }
  }

  /** The table and counts of any batch of at most ten thousand events are accepted. */
  lemma DedupIsAccepted(raws: seq<RawId>)
    requires |raws| <= 10000
    ensures TableAccepted(DedupTable(raws), CountsOf(raws))
  {
    DedupCounts(raws);
    DedupColumns(raws);
    DedupRows(raws);
    DedupContiguous(raws);
  }

  lemma DedupColumns(raws: seq<RawId>)
    requires |raws| <= 10000
    ensures ColumnChecks(DedupTable(raws))
    ensures forall o <- DedupTable(raws) :: o.at < |raws| && DedupTable(raws)[o].first.at < |raws|
  {
    var table := DedupTable(raws);
    forall o | o in table
      ensures o.at < |raws| && table[o].first.at <= o.at && (table[o].isDuplicate <==> table[o].first.at < o.at)
    {
      DedupRow(raws, o);
    }
  }

  lemma DedupContiguous(raws: seq<RawId>)
    ensures Contiguous(DedupTable(raws).Keys, |raws|)
  {
    assert DedupTable(raws).Keys == Ordinals(|raws|);
  }

  lemma CountsAreForced(table: Table, batch: Batch, raws: seq<RawId>)
    requires BatchChecks(batch) && |Originals(table)| == batch.uniqueCount
    requires table == DedupTable(raws) && |raws| == batch.inputCount
    ensures batch == CountsOf(raws) && |raws| <= 10000
  {
  }

  /** The database accepts exactly the tables de-duplication writes, with their counts. */
  lemma AcceptedExactlyDedup(table: Table, batch: Batch)
    ensures TableAccepted(table, batch)
            <==> exists raws: seq<RawId> :: |raws| <= 10000 && table == DedupTable(raws) && batch == CountsOf(raws)
  {
    if TableAccepted(table, batch) {
      AcceptedIsDedup(table, batch);
      CountsAreForced(table, batch, RawsOf(table, batch.inputCount));
    }
    if raws: seq<RawId> :| |raws| <= 10000 && table == DedupTable(raws) && batch == CountsOf(raws) {
      DedupIsAccepted(raws);
    }
  }

  // ---- The normalized observations ----

  datatype EventRef = EventRef(hash: nat)

  /** Observation rows by event ordinal, and the raw event each observation was normalized from. */
  type Observations = map<Ordinal, EventRef>

  /** The raw identities of the original rows up to an ordinal, by input ordinal. */
  function OriginalsInOrder(table: Table, count: nat): seq<RawId> {
    if count == 0 then []
    else
      OriginalsInOrder(table, count - 1)
      + if Ordinal(count - 1) in table && !table[Ordinal(count - 1)].isDuplicate then [table[Ordinal(count - 1)].rawId]
        else []
  }

  /** The trigger on the observations: their count, contiguity, and agreement with the numbered originals. */
  ghost predicate ObservationsAccepted(
    observations: Observations, rawOf: map<EventRef, RawId>, table: Table, batch: Batch)
    requires forall o <- observations :: observations[o] in rawOf
  {
    var expected := OriginalsInOrder(table, batch.inputCount);
    && |observations| == batch.normalizedCount
    && Contiguous(observations.Keys, batch.normalizedCount)
    && Numbers(observations, rawOf, expected)
  }

  /** The full outer join on the ordinal finds no difference. */
  ghost predicate Numbers(observations: Observations, rawOf: map<EventRef, RawId>, expected: seq<RawId>)
    requires forall o <- observations :: observations[o] in rawOf
  {
    && (forall k: Ordinal :: k in observations <==> k.at < |expected|)
    && (forall k <- observations :: k.at < |expected| ==> rawOf[observations[k]] == expected[k.at])
  }

  lemma {:induction false} OriginalsAreFirstSeen(raws: seq<RawId>, n: nat)
    requires n <= |raws|
    ensures OriginalsInOrder(DedupTable(raws), n) == FirstSeen(raws[..n])
  {
    if n == 0 {
    } else {
      OriginalsAreFirstSeen(raws, n - 1);
      OriginalMeansNew(raws, n - 1);
      NextOriginal(DedupTable(raws), raws, n - 1);
    }
  }

  /** One more row: its raw identity is appended on both sides exactly when it is new. */
  lemma NextOriginal(table: Table, raws: seq<RawId>, i: nat)
    requires i < |raws| && Ordinal(i) in table && table[Ordinal(i)].rawId == raws[i]
    requires table[Ordinal(i)].isDuplicate <==> raws[i] in raws[..i]
    requires OriginalsInOrder(table, i) == FirstSeen(raws[..i])
    ensures OriginalsInOrder(table, i + 1) == FirstSeen(raws[..i + 1])
  {
    assert raws[..i + 1][..i] == raws[..i] && raws[..i + 1][i] == raws[i];
  }

  lemma OriginalMeansNew(raws: seq<RawId>, i: nat)
    requires i < |raws|
    ensures Ordinal(i) in DedupTable(raws) && DedupTable(raws)[Ordinal(i)].rawId == raws[i]
    ensures DedupTable(raws)[Ordinal(i)].isDuplicate <==> raws[i] in raws[..i]
  {
    DedupRow(raws, Ordinal(i));
    var first := FirstPosition(raws, i);
    if raws[i] in raws[..i] {
      var j: nat :| j < i && raws[..i][j] == raws[i];
      assert IsFirst(raws, i, first) && raws[j] == raws[i];
    }
    if first < i {
      assert raws[..i][first] == raws[i];
    }
  }

  /** The originals of an accepted table, in order, are the first occurrences. */
  lemma AcceptedOrder(table: Table, batch: Batch)
    requires TableAccepted(table, batch)
    ensures forall o: Ordinal :: o.at < batch.inputCount ==> o in table
    ensures OriginalsInOrder(table, batch.inputCount) == FirstSeen(RawsOf(table, batch.inputCount))
  {
    AcceptedIsDedup(table, batch);
    OrderOfDedup(table, RawsOf(table, batch.inputCount));
  }

  lemma OrderOfDedup(table: Table, raws: seq<RawId>)
    requires table == DedupTable(raws)
    ensures OriginalsInOrder(table, |raws|) == FirstSeen(raws)
  {
    OriginalsAreFirstSeen(raws, |raws|);
    assert raws[..|raws|] == raws;
  }

  /**
   In an accepted batch the observations, by event ordinal, are the events kept by de-duplication, in
   the order of their first occurrences.
   */
  lemma NormalizedOrderIsFirstSeen(
    observations: Observations, rawOf: map<EventRef, RawId>, table: Table, batch: Batch)
    requires forall o <- observations :: observations[o] in rawOf
    requires TableAccepted(table, batch) && ObservationsAccepted(observations, rawOf, table, batch)
    ensures forall o: Ordinal :: o.at < batch.inputCount ==> o in table
    ensures Numbers(observations, rawOf, FirstSeen(RawsOf(table, batch.inputCount)))
  {
    AcceptedOrder(table, batch);
    SameNumbers(
      observations, rawOf, OriginalsInOrder(table, batch.inputCount), FirstSeen(RawsOf(table, batch.inputCount)));
  }

  lemma SameNumbers(observations: Observations, rawOf: map<EventRef, RawId>, a: seq<RawId>, b: seq<RawId>)
    requires forall o <- observations :: observations[o] in rawOf
    requires a == b && Numbers(observations, rawOf, a)
    ensures Numbers(observations, rawOf, b)
  {
  }

  function Raws(events: seq<Event>): (raws: seq<RawId>)
    ensures |raws| == |events| && forall i :: 0 <= i < |events| ==> raws[i] == events[i].rawId
  {
    if events == [] then [] else Raws(events[..|events| - 1]) + [events[|events| - 1].rawId]
  }

  /** The identities of the unique events are the first occurrences among all identities. */
  lemma {:induction false} UniqueEventsAreFirstSeen(events: seq<Event>)
    requires Unique(events, RawIdOf)
    ensures Raws(FirstSeen(events)) == FirstSeen(Raws(events))
  {
    if events == [] {
    } else {
      var n := |events| - 1;
      UniqueEventsAreFirstSeen(events[..n]);
      assert Raws(events)[..n] == Raws(events[..n]);
      if Raws(events)[n] in Raws(events[..n]) {
        var k :| 0 <= k < n && Raws(events[..n])[k] == events[n].rawId;
        assert RawIdOf(events[k]) == RawIdOf(events[n]);
        assert events[..n][k] == events[n];
      } else {
        assert forall e <- events[..n] :: e.rawId != events[n].rawId by {
          forall e <- events[..n] ensures e.rawId in Raws(events[..n]) {
            var k :| 0 <= k < n && events[..n][k] == e;
            assert Raws(events[..n])[k] == e.rawId;
          }
        }
        assert FirstSeen(events)[..|FirstSeen(events)| - 1] == FirstSeen(events[..n]);
      }
    }
  }
}
