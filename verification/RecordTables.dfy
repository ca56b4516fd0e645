/**
 Append-only tables of temporal records. A record is inserted only as the successor of a record
 that has none, so every scope of a table stays one chain.
 */
module RecordTables {
  import opened Wrappers
  import opened Temporal

  /** The immutable row a record points to, by semantic identity. */
  datatype Row<C> = Row(id: nat, provenance: nat, content: C)

  type Table<C> = seq<State<Row<C>>>

  /** Everything a record identity is the hash of. */
  datatype Identity = Identity(
    kind: Kind,
    semanticId: nat,
    scope: nat,
    recordedAt: nat,
    supersedes: Option<RecordId>,
    provenance: nat)

  function NewRecord<C>(
    hash: Identity -> RecordId, kind: Kind, scope: nat, recordedAt: nat, supersedes: Option<RecordId>, row: Row<C>)
    : State<Row<C>>
  {
    State(
      hash(Identity(kind, row.id, scope, recordedAt, supersedes, row.provenance)), kind, scope, recordedAt, supersedes,
      row)
  }

  function InScope<V>(records: seq<State<V>>, scope: nat): seq<State<V>> {
    if records == [] then []
    else
      var n := |records| - 1;
      InScope(records[..n], scope) + if records[n].scope == scope then [records[n]] else []
  }

  lemma {:induction false} InScopeMembers<V>(records: seq<State<V>>, scope: nat)
    ensures forall s <- InScope(records, scope) :: s in records && s.scope == scope
    ensures forall s <- records :: s.scope == scope ==> s in InScope(records, scope)
  {
    if records == [] {
    } else {
      InScopeMembers(records[..|records| - 1], scope);
    }
  }

  /** The record of a scope that was inserted last. */
  function LastOf<V>(records: seq<State<V>>, scope: nat): Option<State<V>> {
    var chosen := InScope(records, scope);
    if chosen == [] then None else Some(chosen[|chosen| - 1])
  }

  function IdOf<V>(record: Option<State<V>>): Option<RecordId> {
    match record
    case None => None
    case Some(state) => Some(state.id)
  }

  function Find<V>(records: seq<State<V>>, id: RecordId): (found: Option<State<V>>)
    ensures found.Some? ==> found.value in records && found.value.id == id
    ensures found.None? ==> forall s <- records :: s.id != id
  {
    if records == [] then None
    else if records[0].id == id then Some(records[0])
    else Find(records[1..], id)
  }

  datatype InsertError = SemanticCollision | TargetMissing | TargetInOtherScope | NotAfterTarget | TargetHasSuccessor

  /** Another content under the same semantic identity. */
  predicate ContentClash<C(==)>(table: Table<C>, row: Row<C>) {
    exists s <- table :: s.value.id == row.id && s.value.content != row.content
  }

  function Inserted<C(==)>(table: Table<C>, record: State<Row<C>>): Result<Table<C>, InsertError> {
    if ContentClash(table, record.value) then Err(SemanticCollision)
    else
      match Find(table, record.id)
      case Some(existing) => if existing == record then Ok(table) else Err(SemanticCollision)
      case None =>
        match record.supersedes
        case None => Ok(table + [record])
        case Some(target) =>
          match Find(table, target)
          case None => Err(TargetMissing)
          case Some(predecessor) =>
            if predecessor.scope != record.scope then Err(TargetInOtherScope)
            else if record.recordedAt <= predecessor.recordedAt then Err(NotAfterTarget)
            else if exists s <- table :: s.supersedes == Some(target) then Err(TargetHasSuccessor)
            else Ok(table + [record])
  }

  // ---- Chains ----

  ghost predicate Follows<V>(records: seq<State<V>>, i: nat)
    requires i < |records|
  {
    if i == 0 then records[0].supersedes == None
    else
      && records[i].supersedes == Some(records[i - 1].id)
      && records[i - 1].recordedAt < records[i].recordedAt
      && records[i - 1].kind == records[i].kind && records[i - 1].scope == records[i].scope
  }

  ghost predicate IsChain<V>(records: seq<State<V>>) {
    forall i: nat | i < |records| :: Follows(records, i)
  }

  ghost predicate DistinctIds<V>(records: seq<State<V>>) {
    forall i, j :: 0 <= i < j < |records| ==> records[i].id != records[j].id
  }

  /** Every scope of the table is a single chain in insertion order. */
  ghost predicate Chained<V>(records: seq<State<V>>, kind: Kind) {
    && DistinctIds(records)
    && (forall s <- records :: s.kind == kind)
    && (forall scope: nat :: IsChain(InScope(records, scope)))
  }

  lemma {:induction false} InScopeDistinct<V>(records: seq<State<V>>, scope: nat)
    requires DistinctIds(records)
    ensures DistinctIds(InScope(records, scope))
  {
    if records == [] {
    } else {
      var n := |records| - 1;
      InScopeDistinct(records[..n], scope);
      InScopeMembers(records[..n], scope);
      assert forall s <- records[..n] :: s.id != records[n].id;
    }
  }

  lemma InScopeAppend<V>(records: seq<State<V>>, record: State<V>, scope: nat)
    ensures InScope(records + [record], scope) == InScope(records, scope)
               + if record.scope == scope then [record] else []
  {
    assert (records + [record])[..|records|] == records;
  }

  /** No record of a scope already supersedes the last one, and only an empty scope has nothing to supersede. */
  lemma NothingAfterLast<V>(records: seq<State<V>>, kind: Kind, scope: nat)
    requires Chained(records, kind)
    ensures forall s <- InScope(records, scope) :: s.supersedes != IdOf(LastOf(records, scope))
  {
    var chain := InScope(records, scope);
    InScopeDistinct(records, scope);
    forall k: nat | k < |chain| ensures chain[k].supersedes != IdOf(LastOf(records, scope)) {
      assert Follows(chain, k);
    }
  }

  /** An insertion that supersedes the last record of its scope appends the record. */
  lemma InsertAppends<C>(table: Table<C>, kind: Kind, record: State<Row<C>>)
    requires Chained(table, kind)
    requires record.supersedes == IdOf(LastOf(table, record.scope)) && Inserted(table, record).Ok?
    ensures Inserted(table, record).value == table + [record]
    ensures forall s <- table :: s.id != record.id
    ensures
      var last := LastOf(table, record.scope);
      last.Some? ==> last.value.recordedAt < record.recordedAt
  {
    NothingAfterLast(table, kind, record.scope);
    InScopeMembers(table, record.scope);
    assert record !in table;
    var last := LastOf(table, record.scope);
    if last.Some? {
      assert last.value in InScope(table, record.scope);
      TargetIsLast(table, last.value.id, last.value);
    }
  }

  /** Appending a later record that supersedes the last of its scope extends that chain and no other. */
  lemma AppendExtendsChain<V>(records: seq<State<V>>, kind: Kind, record: State<V>)
    requires Chained(records, kind) && record.kind == kind && forall s <- records :: s.id != record.id
    requires record.supersedes == IdOf(LastOf(records, record.scope))
    requires
      var last := LastOf(records, record.scope);
      last.Some? ==> last.value.recordedAt < record.recordedAt
    ensures Chained(records + [record], kind)
    ensures LastOf(records + [record], record.scope) == Some(record)
    ensures forall scope: nat :: scope != record.scope ==> InScope(records + [record], scope) == InScope(records, scope)
  {
    var chain := InScope(records, record.scope);
    InScopeMembers(records, record.scope);
    if chain != [] {
      assert chain[|chain| - 1] in chain;
    }
    forall scope: nat
      ensures IsChain(InScope(records + [record], scope))
      ensures scope != record.scope ==> InScope(records + [record], scope) == InScope(records, scope)
    {
      InScopeAppend(records, record, scope);
      if scope == record.scope {
        ChainExtends(chain, record);
      } else {
        assert InScope(records + [record], scope) == InScope(records, scope);
      }
    }
    InScopeAppend(records, record, record.scope);
  }

  lemma TargetIsLast<V>(records: seq<State<V>>, target: RecordId, last: State<V>)
    requires DistinctIds(records) && last in records && last.id == target
    ensures Find(records, target) == Some(last)
  {
  }

  lemma ChainExtends<V>(chain: seq<State<V>>, record: State<V>)
    requires IsChain(chain)
    requires
      if chain == [] then record.supersedes == None
      else
        var last := chain[|chain| - 1];
        && record.supersedes == Some(last.id) && last.recordedAt < record.recordedAt
        && last.kind == record.kind && last.scope == record.scope
    ensures IsChain(chain + [record])
  {
    forall i: nat | i < |chain| + 1 ensures Follows(chain + [record], i) {
      if i < |chain| {
        assert Follows(chain, i);
      }
    }
  }

  // ---- Several records at once ----

  /** Inserts in order and stops at the first refusal. */
  function InsertAll<C(==)>(table: Table<C>, records: seq<State<Row<C>>>): Result<Table<C>, InsertError> {
    if records == [] then Ok(table)
    else
      match InsertAll(table, records[..|records| - 1])
      case Err(error) => Err(error)
      case Ok(staged) => Inserted(staged, records[|records| - 1])
  }

  /** One new record for each of some scopes, each superseding the last record of its scope. */
  ghost predicate Succeed<V>(records: seq<State<V>>, kind: Kind, added: seq<State<V>>) {
    && (forall r <- added :: r.kind == kind && r.supersedes == IdOf(LastOf(records, r.scope)))
    && (forall i, j :: 0 <= i < j < |added| ==> added[i].scope != added[j].scope)
  }

  lemma SucceedOneMore<V>(records: seq<State<V>>, kind: Kind, added: seq<State<V>>, record: State<V>)
    requires Succeed(records, kind, added)
    requires record.kind == kind && record.supersedes == IdOf(LastOf(records, record.scope))
    requires forall r <- added :: r.scope != record.scope
    ensures Succeed(records, kind, added + [record])
  {
  }

  /** After the insertions every new record ends its chain and no other scope has changed. */
  ghost predicate Extended<V>(before: seq<State<V>>, after: seq<State<V>>, kind: Kind, added: seq<State<V>>) {
    && Chained(after, kind)
    && (forall r <- added :: LastOf(after, r.scope) == Some(r))
    && (forall scope: nat :: (forall r <- added :: r.scope != scope) ==>
         InScope(after, scope) == InScope(before, scope))
  }

  lemma {:induction false} InsertAllExtends<C>(table: Table<C>, kind: Kind, added: seq<State<Row<C>>>)
    requires Chained(table, kind) && Succeed(table, kind, added) && InsertAll(table, added).Ok?
    ensures InsertAll(table, added).value == table + added
    ensures Extended(table, table + added, kind, added)
  {
    if added == [] {
      assert table + added == table;
    } else {
      var front, last := added[..|added| - 1], added[|added| - 1];
      assert added == front + [last];
      SucceedSplits(table, kind, front, last);
      InsertAllExtends(table, kind, front);
      InsertOne(table, kind, front, last);
    }
  }

  lemma SucceedSplits<V>(records: seq<State<V>>, kind: Kind, front: seq<State<V>>, last: State<V>)
    requires Succeed(records, kind, front + [last])
    ensures Succeed(records, kind, front)
    ensures last.kind == kind && last.supersedes == IdOf(LastOf(records, last.scope))
    ensures forall r <- front :: r.scope != last.scope
  {
    assert (front + [last])[|front|] == last;
    assert forall r <- front :: r in front + [last];
    forall r <- front ensures r.scope != last.scope {
      var i :| 0 <= i < |front| && front[i] == r;
      assert (front + [last])[i] == r;
    }
    assert forall i :: 0 <= i < |front| ==> (front + [last])[i] == front[i];
  }

  lemma InsertOne<C>(table: Table<C>, kind: Kind, front: seq<State<Row<C>>>, last: State<Row<C>>)
    requires Extended(table, table + front, kind, front) && last.kind == kind
             && forall r <- front :: r.scope != last.scope
    requires last.supersedes == IdOf(LastOf(table, last.scope))
    requires Inserted(table + front, last).Ok?
    ensures Inserted(table + front, last).value == table + (front + [last])
    ensures Extended(table, table + (front + [last]), kind, front + [last])
  {
    AppendAssociates(table, front, [last]);
    LastOfUntouched(table, table + front, kind, front, last.scope);
    InsertAppends(table + front, kind, last);
    ExtendOnce(table, table + front, kind, front, last);
  }

  lemma LastOfUntouched<V>(before: seq<State<V>>, after: seq<State<V>>, kind: Kind, added: seq<State<V>>, scope: nat)
    requires Extended(before, after, kind, added) && forall r <- added :: r.scope != scope
    ensures LastOf(after, scope) == LastOf(before, scope) && Chained(after, kind)
  {
    assert InScope(after, scope) == InScope(before, scope);
  }

  lemma ExtendOnce<V>(before: seq<State<V>>, after: seq<State<V>>, kind: Kind, front: seq<State<V>>, last: State<V>)
    requires Extended(before, after, kind, front) && last.kind == kind && forall s <- after :: s.id != last.id
    requires forall r <- front :: r.scope != last.scope
    requires last.supersedes == IdOf(LastOf(after, last.scope))
    requires
      var previous := LastOf(after, last.scope);
      previous.Some? ==> previous.value.recordedAt < last.recordedAt
    ensures Extended(before, after + [last], kind, front + [last])
  {
    AppendExtendsChain(after, kind, last);
    forall r <- front ensures LastOf(after + [last], r.scope) == Some(r) {
      assert LastOf(after, r.scope) == Some(r);
      assert InScope(after + [last], r.scope) == InScope(after, r.scope);
    }
    forall scope: nat | forall r <- front + [last] :: r.scope != scope
      ensures InScope(after + [last], scope) == InScope(before, scope)
    {
      NotInEither(front, last, scope);
    }
  }

  lemma NotInEither<V>(front: seq<State<V>>, last: State<V>, scope: nat)
    requires forall r <- front + [last] :: r.scope != scope
    ensures (forall r <- front :: r.scope != scope) && last.scope != scope
  {
    assert last in front + [last];
    assert forall r <- front :: r in front + [last];
  }

  // ---- When insertions succeed ----

  /** No new record takes an identity that is taken, and no row gives a known identity another content. */
  ghost predicate CollisionFree<C(!new)>(table: Table<C>, added: Table<C>) {
    && (forall r <- added :: !ContentClash(table, r.value) && forall s <- table :: s.id != r.id)
    && (forall i, j :: 0 <= i < j < |added| ==>
          added[i].id != added[j].id
            && (added[i].value.id == added[j].value.id ==> added[i].value.content == added[j].value.content))
  }

  /** The record that would be superseded was recorded before. */
  ghost predicate Later<V>(last: Option<State<V>>, at: nat) {
    last.Some? ==> last.value.recordedAt < at
  }

  /** Nothing in any scope supersedes the last record of a scope. */
  lemma LastHasNoSuccessor<V>(records: seq<State<V>>, kind: Kind, scope: nat, s: State<V>)
    requires Chained(records, kind) && LastOf(records, scope).Some? && s in records
    ensures s.supersedes != Some(LastOf(records, scope).value.id)
  {
    var last := LastOf(records, scope).value;
    InScopeMembers(records, scope);
    assert last in InScope(records, scope);
    if s.scope == scope {
      NothingAfterLast(records, kind, scope);
    } else {
      var chain := InScope(records, s.scope);
      InScopeMembers(records, s.scope);
      var k: nat :| k < |chain| && chain[k] == s;
      assert Follows(chain, k);
      if k > 0 {
        assert chain[k - 1] in chain;
        DifferentRecords(records, chain[k - 1], last);
      }
    }
  }

  lemma DifferentRecords<V>(records: seq<State<V>>, a: State<V>, b: State<V>)
    requires DistinctIds(records) && a in records && b in records && a.scope != b.scope
    ensures a.id != b.id
  {
  }

  /** The last of several records collides with nothing once the others are in. */
  lemma LastCollidesNot<C(!new)>(table: Table<C>, front: Table<C>, last: State<Row<C>>)
    requires CollisionFree(table, front + [last])
    ensures CollisionFree(table, front)
    ensures !ContentClash(table + front, last.value) && forall s <- table + front :: s.id != last.id
  {
    var whole := front + [last];
    assert whole[|front|] == last && last in whole;
    assert forall i :: 0 <= i < |front| ==> whole[i] == front[i];
    assert forall r <- front :: r in whole;
  }

  /** The record takes no identity that is taken, and its row gives no known identity another content. */
  ghost predicate Collides<C(!new)>(table: Table<C>, record: State<Row<C>>) {
    ContentClash(table, record.value) || exists s <- table :: s.id == record.id
  }

  /** What supersedes the last record of its scope is not in the table yet. */
  lemma SuccessorIsNew<C>(table: Table<C>, kind: Kind, record: State<Row<C>>)
    requires Chained(table, kind) && record.supersedes == IdOf(LastOf(table, record.scope))
    ensures record !in table
  {
    NothingAfterLast(table, kind, record.scope);
    InScopeMembers(table, record.scope);
  }

  /**
   A record that supersedes the last of its scope is inserted exactly when it collides with nothing and is later.
   The other refusals cannot happen to it.
   */
  lemma InsertsExactlyWhen<C(!new)>(table: Table<C>, kind: Kind, record: State<Row<C>>)
    requires Chained(table, kind) && record.supersedes == IdOf(LastOf(table, record.scope))
    ensures Inserted(table, record).Ok?
            <==> !Collides(table, record) && Later(LastOf(table, record.scope), record.recordedAt)
    ensures Inserted(table, record).Err? ==>
              Inserted(table, record).error == if Collides(table, record) then SemanticCollision else NotAfterTarget
  {
    SuccessorIsNew(table, kind, record);
    var last := LastOf(table, record.scope);
    if last.Some? {
      InScopeMembers(table, record.scope);
      assert last.value in InScope(table, record.scope);
      TargetIsLast(table, last.value.id, last.value);
      forall s <- table ensures s.supersedes != Some(last.value.id) {
        LastHasNoSuccessor(table, kind, record.scope, s);
      }
    }
  }

  /** Several records collide with nothing when the last does not once the others are in. */
  lemma CollisionFreeSplits<C(!new)>(table: Table<C>, front: Table<C>, last: State<Row<C>>)
    ensures CollisionFree(table, front + [last]) <==> CollisionFree(table, front) && !Collides(table + front, last)
  {
    var whole := front + [last];
    assert whole[|front|] == last && last in whole;
    assert forall i :: 0 <= i < |front| ==> whole[i] == front[i];
    assert forall r <- front :: r in whole;
    assert forall r <- whole :: r in front || r == last;
    if CollisionFree(table, whole) {
      LastCollidesNot(table, front, last);
    } else if CollisionFree(table, front) {
      LastCollides(table, front, last);
    }
  }

  lemma LastCollides<C(!new)>(table: Table<C>, front: Table<C>, last: State<Row<C>>)
    requires CollisionFree(table, front) && !CollisionFree(table, front + [last])
    ensures Collides(table + front, last)
  {
    var whole := front + [last];
    if !Collides(table + front, last) {
      assert forall s <- table + front ::
          s.id != last.id && (s.value.id == last.value.id ==> s.value.content == last.value.content);
      forall r <- whole ensures !ContentClash(table, r.value) && forall s <- table :: s.id != r.id {
        assert r in front || r == last;
      }
      forall i, j | 0 <= i < j < |whole|
        ensures whole[i].id != whole[j].id
                && (whole[i].value.id == whole[j].value.id ==> whole[i].value.content == whole[j].value.content)
      {
        assert whole[i] == front[i] && front[i] in table + front;
      }
      assert false;
    }
  }

  /** New records, one for each of some scopes, are inserted exactly when none collides and each is later. */
  lemma {:induction false} InsertAllExactlyWhen<C(!new)>(table: Table<C>, kind: Kind, added: Table<C>)
    requires Chained(table, kind) && Succeed(table, kind, added)
    ensures InsertAll(table, added).Ok?
            <==> CollisionFree(table, added) && forall r <- added :: Later(LastOf(table, r.scope), r.recordedAt)
    ensures InsertAll(table, added).Err? ==>
              || (InsertAll(table, added).error == SemanticCollision && !CollisionFree(table, added))
              || (InsertAll(table, added).error == NotAfterTarget
                  && exists r <- added :: !Later(LastOf(table, r.scope), r.recordedAt))
  {
    if added == [] {
    } else {
      var front, last := added[..|added| - 1], added[|added| - 1];
      assert added == front + [last];
      SucceedSplits(table, kind, front, last);
      CollisionFreeSplits(table, front, last);
      InsertAllExactlyWhen(table, kind, front);
      if InsertAll(table, front).Ok? {
        InsertAllExtends(table, kind, front);
        LastOfUntouched(table, table + front, kind, front, last.scope);
        InsertsExactlyWhen(table + front, kind, last);
      }
      assert forall r <- added :: r in front || r == last;
    }
  }

  // ---- One content for each identity ----

  /** A row identity has one content. */
  ghost predicate ContentsFixed<C(!new)>(table: Table<C>) {
    forall a <- table, b <- table :: a.value.id == b.value.id ==> a.value.content == b.value.content
  }

  lemma CollisionFreeKeepsContents<C(!new)>(table: Table<C>, added: Table<C>)
    requires ContentsFixed(table) && CollisionFree(table, added)
    ensures ContentsFixed(table + added)
  {
    forall a <- table + added, b <- table + added | a.value.id == b.value.id
      ensures a.value.content == b.value.content
    {
      if a in added && b in added {
        var i :| 0 <= i < |added| && added[i] == a;
        var j :| 0 <= j < |added| && added[j] == b;
        assert i < j || j < i || a == b;
      } else if a in table && b in added {
        assert !ContentClash(table, b.value);
      } else if a in added && b in table {
        assert !ContentClash(table, a.value);
      }
    }
  }

  /** Under a hash that does not collide, records share an identity exactly when all their identity fields agree. */
  lemma RecordsIdentified<C>(
    hash: Identity -> RecordId, kind: Kind, a: State<Row<C>>, b: State<Row<C>>)
    requires a == NewRecord(hash, kind, a.scope, a.recordedAt, a.supersedes, a.value)
    requires b == NewRecord(hash, kind, b.scope, b.recordedAt, b.supersedes, b.value)
    requires
      var x := Identity(kind, a.value.id, a.scope, a.recordedAt, a.supersedes, a.value.provenance);
      var y := Identity(kind, b.value.id, b.scope, b.recordedAt, b.supersedes, b.value.provenance);
      x != y ==> hash(x) != hash(y)
    ensures a.id == b.id <==>
              && a.scope == b.scope && a.recordedAt == b.recordedAt && a.supersedes == b.supersedes
              && a.value.id == b.value.id && a.value.provenance == b.value.provenance
  {
  }

  // ---- What a chain resolves to ----

  lemma {:induction false} ChainRises<V>(chain: seq<State<V>>, i: nat, j: nat)
    requires IsChain(chain) && i < j < |chain|
    ensures chain[i].recordedAt < chain[j].recordedAt
  {
    assert Follows(chain, j);
    if i < j - 1 {
      ChainRises(chain, i, j - 1);
    }
  }

  /** A chain's list is indexed by position. */
  lemma ChainPosition<V>(chain: seq<State<V>>, id: RecordId) returns (k: nat)
    requires IsChain(chain) && DistinctIds(chain) && id in Index(chain)
    ensures k < |chain| && chain[k] == Index(chain)[id] && chain[k].id == id && Follows(chain, k)
    ensures k > 0 ==> chain[k - 1].id in Index(chain) && Index(chain)[chain[k - 1].id] == chain[k - 1]
  {
    IndexedById(chain);
    assert Coherent(chain);
    CoherentIndexed(chain);
    k :| k < |chain| && chain[k] == Index(chain)[id];
    assert k > 0 ==> chain[k - 1] in chain;
  }

  lemma ChainIsValid<V>(chain: seq<State<V>>)
    requires IsChain(chain) && DistinctIds(chain)
    ensures ValidGraph(chain)
    ensures forall id <- Index(chain) :: Index(chain)[id].supersedes == None ==> id == chain[0].id
  {
    var index := Index(chain);
    forall id <- index
      ensures index[id].id == id && LinkOk(index, id)
      ensures index[id].supersedes == None ==> id == chain[0].id
    {
      var k := ChainPosition(chain, id);
    }
    forall a <- index, b <- index | index[a].supersedes.Some? && index[a].supersedes == index[b].supersedes
      ensures a == b
    {
      var k := ChainPosition(chain, a);
      var m := ChainPosition(chain, b);
      assert chain[k - 1].id == chain[m - 1].id;
    }
  }

  /** The resolution over a chain is its last record: all its records share one root. */
  lemma ChainResolvesToLast<V>(chain: seq<State<V>>)
    requires IsChain(chain) && DistinctIds(chain)
    ensures ValidGraph(chain)
    ensures Resolves(Index(chain), _ => true, Ok(if chain == [] then None else Some(chain[|chain| - 1])))
  {
    ChainIsValid(chain);
    if chain != [] {
      ChainEndsAtLast(chain);
    }
  }

  lemma OthersAreOlder<V>(chain: seq<State<V>>, id: RecordId)
    requires IsChain(chain) && DistinctIds(chain) && chain != [] && id in Index(chain)
    requires id != chain[|chain| - 1].id
    ensures Index(chain)[id].recordedAt < chain[|chain| - 1].recordedAt
  {
    var k := ChainPosition(chain, id);
    ChainRises(chain, k, |chain| - 1);
  }

  lemma ChainEndsAtLast<V>(chain: seq<State<V>>)
    requires IsChain(chain) && DistinctIds(chain) && chain != [] && WellLinked(Index(chain))
    requires forall id <- Index(chain) :: Index(chain)[id].supersedes == None ==> id == chain[0].id
    ensures Resolves(Index(chain), _ => true, Ok(Some(chain[|chain| - 1])))
  {
    var index, last := Index(chain), chain[|chain| - 1];
    assert last.id in index && index[last.id] == last by {
      assert last in chain;
      CoherentIndexed(chain);
    }
    forall e <- index | e != last.id ensures index[e].recordedAt < last.recordedAt {
      OthersAreOlder(chain, e);
    }
    NewestOfOneRoot(index, chain[0].id, last);
  }

  /** Where only one record supersedes nothing, all records form one chain and the newest one is the answer. */
  lemma NewestOfOneRoot<V>(index: map<RecordId, State<V>>, first: RecordId, last: State<V>)
    requires WellLinked(index) && last.id in index && index[last.id] == last
    requires forall id <- index :: index[id].supersedes == None ==> id == first
    requires forall e <- index | e != last.id :: index[e].recordedAt < last.recordedAt
    ensures Resolves(index, _ => true, Ok(Some(last)))
  {
    forall a <- index ensures Root(index, a) == first {
      assert index[Root(index, a)].supersedes == None;
    }
  }

  lemma {:induction false} AllVisible<V>(records: seq<State<V>>)
    ensures Visible(records, None) == records
  {
    if records == [] {
    } else {
      AllVisible(records[..|records| - 1]);
    }
  }

  /** Over a chained table the knowledge leaf of a scope is the record inserted last. */
  method KnowledgeLeaf<V(==)>(records: seq<State<V>>, scope: nat, ghost kind: Kind) returns (leaf: Option<State<V>>)
    requires Chained(records, kind)
    ensures leaf == LastOf(records, scope)
  {
    var chain := InScope(records, scope);
    InScopeDistinct(records, scope);
    ChainResolvesToLast(chain);
    AllVisible(chain);
    var resolved := ResolveKnowledgeLeaf(chain, None);
    ResolutionIsUnique(Index(chain), _ => true, resolved, Ok(LastOf(records, scope)));
    leaf := resolved.value;
  }
}
