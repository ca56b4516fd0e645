/** Turning the rows of a provider file into a catalogue plan: every row has one outcome. */
module CataloguePlan {
  import opened Wrappers
  import opened Sorting
  import opened CatalogueIdentity

  const UNDERLYING_KEY: string := "NSE_INDEX|Nifty 50"

  // ---- Rows ----

  /** The characters stripped from both ends of a text field. */
  predicate IsSpace(c: char) {
    var n := c as int;
    || 9 <= n <= 13 || 28 <= n <= 32 || n == 0x85 || n == 0xA0 || n == 0x1680 || 0x2000 <= n <= 0x200A
    || n == 0x2028 || n == 0x2029 || n == 0x202F || n == 0x205F || n == 0x3000
  }

  function StripLeft(s: string): string {
    if s != [] && IsSpace(s[0]) then StripLeft(s[1..]) else s
  }

  function StripRight(s: string): string {
    if s != [] && IsSpace(s[|s| - 1]) then StripRight(s[..|s| - 1]) else s
  }

  /** A text field without its surrounding space, when anything is left of it. */
  function Stripped(field: Option<string>): Option<string> {
    match field
    case None => None
    case Some(s) =>
      var stripped := StripRight(StripLeft(s));
      if stripped == [] then None else Some(stripped)
  }

  /** What the field checks of a row leave besides its key. */
  datatype RawDetails = RawDetails(kind: InstrumentKind, instrument: Digest, lotSize: int, tickSize: real, symbol: Text)

  type Details = d: RawDetails | d.lotSize > 0 && d.tickSize > 0.0
    witness RawDetails(UnderlyingInstrument, Digest(0), 1, 1.0, Text(0))

  datatype Projection = Projection(key: string, details: Details)

  /**
   A parsed row: its number, the hash of its raw content, its two text fields that decide about the profile,
   whether it passes the checks of the underlying row, and what its other fields give if they pass theirs.
   */
  datatype Row = Row(
    number: nat,
    hash: Digest,
    instrumentKey: Option<string>,
    underlyingKey: Option<string>,
    approved: bool,
    details: Option<Details>)
  {
    function Key(): Option<string> {
      Stripped(instrumentKey)
    }

    predicate Candidate() {
      Key() == Some(UNDERLYING_KEY) || Stripped(underlyingKey) == Some(UNDERLYING_KEY)
    }

    /** The scan compares the field as it stands. */
    predicate NamesUnderlying() {
      instrumentKey == Some(UNDERLYING_KEY)
    }

    function Projected(): Option<Projection> {
      if Key().None? || details.None? then None else Some(Projection(Key().value, details.value))
    }
  }

  datatype Disposition = Accepted | ExactDuplicate | ExcludedByProfile

  datatype Outcome = Outcome(number: nat, hash: Digest, disposition: Disposition, key: Option<string>)

  datatype PlanError =
    | MissingUnderlying
    | UnderlyingNotApproved(number: nat)
    | DuplicateUnderlying
    | NotNormal(number: nat)
    | KeyConflict(key: string)
    | EmptyInterval

  // ---- The scan for the underlying row ----

  function Underlyings(rows: seq<Row>): seq<Row> {
    if rows == [] then []
    else
      var n := |rows| - 1;
      Underlyings(rows[..n]) + if rows[n].NamesUnderlying() then [rows[n]] else []
  }

  /** The file names the underlying, its first such row passes the checks, and all of them have one content. */
  ghost predicate Scannable(rows: seq<Row>) {
    var named := Underlyings(rows);
    named != [] && named[0].approved && forall r <- named :: r.hash == named[0].hash
  }

  /** Why a file cannot be scanned. */
  function ScanError(rows: seq<Row>): PlanError {
    var named := Underlyings(rows);
    if named == [] then MissingUnderlying
    else if !named[0].approved then UnderlyingNotApproved(named[0].number)
    else DuplicateUnderlying
  }

  lemma UnderlyingsAppend(rows: seq<Row>, row: Row)
    ensures Underlyings(rows + [row])
            == if row.NamesUnderlying() then Underlyings(rows) + [row] else Underlyings(rows)
  {
    assert (rows + [row])[..|rows|] == rows;
  }

  lemma {:induction false} UnderlyingsPrefix(rows: seq<Row>, n: nat)
    requires n <= |rows|
    ensures Underlyings(rows[..n]) <= Underlyings(rows)
    decreases |rows|
  {
    if n == |rows| {
      assert rows[..n] == rows;
    } else {
      UnderlyingsPrefix(rows[..|rows| - 1], n);
      assert rows[..|rows| - 1][..n] == rows[..n];
    }
  }

  lemma {:induction false} UnderlyingsNamed(rows: seq<Row>)
    ensures forall r <- Underlyings(rows) :: r in rows && r.NamesUnderlying()
  {
    if rows == [] {
    } else {
      UnderlyingsNamed(rows[..|rows| - 1]);
    }
  }

  /** What the scan knows after some rows: the content of the first underlying row, if there was one. */
  ghost predicate Scanned(rows: seq<Row>, underlying: Option<Digest>) {
    match underlying
    case None => Underlyings(rows) == []
    case Some(hash) => Scannable(rows) && Underlyings(rows)[0].hash == hash
  }

  predicate ScansOn(underlying: Option<Digest>, row: Row) {
    row.NamesUnderlying() ==> if underlying.Some? then row.hash == underlying.value else row.approved
  }

  lemma ScannedOneMore(rows: seq<Row>, underlying: Option<Digest>, row: Row)
    requires Scanned(rows, underlying) && ScansOn(underlying, row)
    ensures Scanned(
              rows + [row], if row.NamesUnderlying() && underlying.None? then Some(row.hash) else underlying)
  {
    UnderlyingsAppend(rows, row);
  }

  /** A row the scan stops at makes the file unscannable, for the reason the scan gives. */
  lemma StopsScan(rows: seq<Row>, n: nat, underlying: Option<Digest>)
    requires n < |rows| && Scanned(rows[..n], underlying) && !ScansOn(underlying, rows[n])
    ensures !Scannable(rows)
    ensures ScanError(rows) == if underlying.Some? then DuplicateUnderlying else UnderlyingNotApproved(rows[n].number)
  {
    TakeOneMore(rows, n);
    UnderlyingsAppend(rows[..n], rows[n]);
    UnderlyingsPrefix(rows, n + 1);
    var before, named := Underlyings(rows[..n]), Underlyings(rows);
    assert named[|before|] == rows[n] && (before != [] ==> named[0] == before[0]);
  }

  /** One pass that remembers the content of the first underlying row; it counts every row. */
  method ScanProfile(rows: seq<Row>) returns (result: Result<nat, PlanError>)
    ensures result == if Scannable(rows) then Ok(|rows|) else Err(ScanError(rows))
  {
    var underlying: Option<Digest> := None;
    var count := 0;
    while count < |rows|
      invariant 0 <= count <= |rows| && Scanned(rows[..count], underlying)
    {
      var row := rows[count];
      if !ScansOn(underlying, row) {
        StopsScan(rows, count, underlying);
        return Err(if underlying.Some? then DuplicateUnderlying else UnderlyingNotApproved(row.number));
      }
      ScannedOneMore(rows[..count], underlying, row);
      TakeOneMore(rows, count);
      if row.NamesUnderlying() && underlying.None? {
        underlying := Some(row.hash);
      }
      count := count + 1;
    }
    assert rows[..count] == rows;
    if underlying.None? {
      return Err(MissingUnderlying);
    }
    return Ok(count);
  }

  // ---- The pass over the rows ----

  /** A candidate with this content came before. */
  predicate SeenIn(rows: seq<Row>, hash: Digest) {
    exists r <- rows :: r.Candidate() && r.hash == hash
  }

  function DispositionOf(earlier: seq<Row>, row: Row): Disposition {
    if !row.Candidate() then ExcludedByProfile
    else if SeenIn(earlier, row.hash) then ExactDuplicate
    else Accepted
  }

  function OutcomeOf(earlier: seq<Row>, row: Row): Outcome {
    Outcome(row.number, row.hash, DispositionOf(earlier, row), row.Key())
  }

  /** The rows with a disposition, in file order. */
  function With(rows: seq<Row>, disposition: Disposition): seq<Row> {
    if rows == [] then []
    else
      var n := |rows| - 1;
      With(rows[..n], disposition) + if DispositionOf(rows[..n], rows[n]) == disposition then [rows[n]] else []
  }

  /** Every accepted row can be projected, no two accepted rows share a provider key, and duplicates name theirs. */
  ghost predicate Plannable(rows: seq<Row>) {
    var accepted := With(rows, Accepted);
    && (forall r <- accepted :: r.Projected().Some?)
    && (forall i, j :: 0 <= i < j < |accepted| ==> accepted[i].Key() != accepted[j].Key())
    && (forall r <- With(rows, ExactDuplicate) :: r.Key().Some?)
  }

  /** Every row is counted once: physical rows are accepted ones, duplicates and excluded ones. */
  lemma {:induction false} RowsAreConserved(rows: seq<Row>)
    ensures |rows| == |With(rows, Accepted)| + |With(rows, ExactDuplicate)| + |With(rows, ExcludedByProfile)|
  {
    if rows == [] {
    } else {
      RowsAreConserved(rows[..|rows| - 1]);
    }
  }

  lemma {:induction false} WithHolds(rows: seq<Row>, disposition: Disposition)
    ensures forall r <- With(rows, disposition) :: r in rows
  {
    if rows == [] {
    } else {
      WithHolds(rows[..|rows| - 1], disposition);
    }
  }

  lemma WithAppend(rows: seq<Row>, row: Row, disposition: Disposition)
    ensures With(rows + [row], disposition)
            == if DispositionOf(rows, row) == disposition then With(rows, disposition) + [row]
               else With(rows, disposition)
  {
    assert (rows + [row])[..|rows|] == rows;
  }

  /** Accepted rows have contents that differ, so a repeated key is always a repeated key of another content. */
  lemma {:induction false} AcceptedContentsDiffer(rows: seq<Row>)
    ensures forall i, j :: 0 <= i < j < |With(rows, Accepted)| ==>
              With(rows, Accepted)[i].hash != With(rows, Accepted)[j].hash
    ensures forall r <- With(rows, Accepted) :: r.Candidate()
  {
    if rows == [] {
    } else {
      AcceptedContentsDiffer(rows[..|rows| - 1]);
      WithHolds(rows[..|rows| - 1], Accepted);
    }
  }

  lemma {:induction false} PlannablePrefix(rows: seq<Row>, n: nat)
    requires n <= |rows| && Plannable(rows)
    ensures Plannable(rows[..n])
    decreases |rows|
  {
    if n < |rows| {
      var last := |rows| - 1;
      assert rows == rows[..last] + [rows[last]];
      PlannableShrinks(rows[..last], rows[last]);
      PlannablePrefix(rows[..last], n);
      assert rows[..last][..n] == rows[..n];
    } else {
      assert rows[..n] == rows;
    }
  }

  lemma PlannableShrinks(rows: seq<Row>, row: Row)
    requires Plannable(rows + [row])
    ensures Plannable(rows)
  {
    WithAppend(rows, row, Accepted);
    WithAppend(rows, row, ExactDuplicate);
    var front, whole := With(rows, Accepted), With(rows + [row], Accepted);
    assert forall i :: 0 <= i < |front| ==> front[i] == whole[i];
    assert forall r <- With(rows, ExactDuplicate) :: r in With(rows + [row], ExactDuplicate);
  }

  /** The row can be taken into a plan of the rows before it. */
  ghost predicate Joins(rows: seq<Row>, row: Row) {
    match DispositionOf(rows, row)
    case Accepted => row.Projected().Some? && forall r <- With(rows, Accepted) :: r.Key() != row.Key()
    case ExactDuplicate => row.Key().Some?
    case ExcludedByProfile => true
  }

  /** Why a row cannot be taken: it is not in order, or its key is that of another accepted row. */
  function JoinError(rows: seq<Row>, row: Row): PlanError {
    if row.Projected().None? then NotNormal(row.number)
    else KeyConflict(row.Projected().value.key)
  }

  /** The first row that cannot be taken. */
  ghost predicate StopsAt(rows: seq<Row>, i: nat, error: PlanError) {
    && i < |rows| && Plannable(rows[..i]) && !Joins(rows[..i], rows[i]) && error == JoinError(rows[..i], rows[i])
  }

  lemma PlannableExtends(rows: seq<Row>, row: Row)
    requires Plannable(rows)
    ensures Plannable(rows + [row]) <==> Joins(rows, row)
  {
    WithAppend(rows, row, Accepted);
    WithAppend(rows, row, ExactDuplicate);
    var front, whole := With(rows, Accepted), With(rows + [row], Accepted);
    if DispositionOf(rows, row) == Accepted {
      assert whole == front + [row];
      if Plannable(rows + [row]) {
        assert whole[|front|] == row && row in whole;
        forall r | r in front ensures r.Key() != row.Key() {
          var i :| 0 <= i < |front| && front[i] == r;
          assert whole[i] == r;
        }
      }
    } else if DispositionOf(rows, row) == ExactDuplicate {
      assert row in With(rows, ExactDuplicate) + [row];
    }
  }

  /** The outcomes of the rows that were not accepted, in file order. */
  function Refusals(rows: seq<Row>): seq<Outcome> {
    if rows == [] then []
    else
      var n := |rows| - 1;
      Refusals(rows[..n]) +
        if DispositionOf(rows[..n], rows[n]) == Accepted then [] else [OutcomeOf(rows[..n], rows[n])]
  }

  function AcceptedOutcomes(accepted: seq<Row>): (outcomes: seq<Outcome>)
    ensures |outcomes| == |accepted|
    ensures forall i :: 0 <= i < |accepted| ==>
              outcomes[i] == Outcome(accepted[i].number, accepted[i].hash, Accepted, accepted[i].Key())
  {
    seq(
      |accepted|,
      i requires 0 <= i < |accepted| =>
        Outcome(accepted[i].number, accepted[i].hash, Accepted, accepted[i].Key()))
  }

  predicate ByNumber(a: Outcome, b: Outcome) {
    a.number < b.number
  }

  /** The dictionary of accepted keys. */
  ghost predicate KeysOf(accepted: seq<Row>, keys: map<string, Digest>) {
    && (forall r <- accepted :: r.Key().Some? && r.Key().value in keys && keys[r.Key().value] == r.hash)
    && (forall k <- keys :: exists r <- accepted :: r.Key() == Some(k) && r.hash == keys[k])
  }

  lemma KeysOfMore(accepted: seq<Row>, row: Row, keys: map<string, Digest>)
    requires KeysOf(accepted, keys) && row.Key().Some? && row.Key().value !in keys
    ensures KeysOf(accepted + [row], keys[row.Key().value := row.hash])
  {
    var longer, grown := accepted + [row], keys[row.Key().value := row.hash];
    forall k | k in grown ensures exists r <- longer :: r.Key() == Some(k) && r.hash == grown[k] {
      if k == row.Key().value {
        assert row in longer;
      } else {
        var r :| r in accepted && r.Key() == Some(k) && r.hash == keys[k];
        assert r in longer;
      }
    }
  }

  lemma KnownKeyIsConflict(rows: seq<Row>, row: Row, keys: map<string, Digest>)
    requires KeysOf(With(rows, Accepted), keys) && DispositionOf(rows, row) == Accepted && row.Key().Some?
    ensures row.Key().value in keys ==> keys[row.Key().value] != row.hash
    ensures row.Key().value in keys <==> exists r <- With(rows, Accepted) :: r.Key() == row.Key()
  {
    WithHolds(rows, Accepted);
    AcceptedContentsDiffer(rows);
    if row.Key().value in keys {
      var r :| r in With(rows, Accepted) && r.Key() == row.Key() && r.hash == keys[row.Key().value];
      assert r.Candidate() && r in rows;
    }
  }

  /** One row of the pass over the file. */
  method ClassifyRow(ghost rows: seq<Row>, row: Row, seen: set<Digest>, keys: map<string, Digest>)
    returns (disposition: Disposition, error: Option<PlanError>)
    requires Remembers(rows, seen, keys)
    ensures disposition == DispositionOf(rows, row)
    ensures error == None <==> Joins(rows, row)
    ensures error.Some? ==> error.value == JoinError(rows, row)
    ensures error == None && disposition == Accepted ==> row.Projected().Some? && row.Key().value !in keys
  {
    if !row.Candidate() {
      return ExcludedByProfile, None;
    }
    if row.hash in seen {
      return ExactDuplicate, if row.Key().None? then Some(NotNormal(row.number)) else None;
    }
    if row.Projected().None? {
      return Accepted, Some(NotNormal(row.number));
    }
    KnownKeyIsConflict(rows, row, keys);
    var key := row.Projected().value.key;
    if key in keys && keys[key] != row.hash {
      return Accepted, Some(KeyConflict(key));
    }
    return Accepted, None;
  }

  lemma SeenGrows(rows: seq<Row>, row: Row)
    ensures forall h :: SeenIn(rows + [row], h) <==> SeenIn(rows, h) || (row.Candidate() && row.hash == h)
  {
    forall h ensures SeenIn(rows + [row], h) <==> SeenIn(rows, h) || (row.Candidate() && row.hash == h) {
      if r :| r in rows && r.Candidate() && r.hash == h {
        assert r in rows + [row];
      }
      assert row in rows + [row];
    }
  }

  /** What the pass gathers: the rows it accepts, the outcomes of those it refuses, and their numbers. */
  datatype Pass = Pass(accepted: seq<Row>, refusals: seq<Outcome>, duplicates: nat, excluded: nat)

  function Start(): Pass {
    Pass([], [], 0, 0)
  }

  function Gather(pass: Pass, row: Row, disposition: Disposition): Pass {
    var outcome := Outcome(row.number, row.hash, disposition, row.Key());
    match disposition
    case Accepted => pass.(accepted := pass.accepted + [row])
    case ExactDuplicate => pass.(refusals := pass.refusals + [outcome], duplicates := pass.duplicates + 1)
    case ExcludedByProfile => pass.(refusals := pass.refusals + [outcome], excluded := pass.excluded + 1)
  }

  /** What it has gathered from some rows. */
  ghost predicate Passed(rows: seq<Row>, pass: Pass) {
    && pass.accepted == With(rows, Accepted) && pass.refusals == Refusals(rows)
    && pass.duplicates == |With(rows, ExactDuplicate)| && pass.excluded == |With(rows, ExcludedByProfile)|
  }

  lemma PassedOneMore(rows: seq<Row>, row: Row, pass: Pass)
    requires Passed(rows, pass)
    ensures Passed(rows + [row], Gather(pass, row, DispositionOf(rows, row)))
  {
    WithAppend(rows, row, Accepted);
    WithAppend(rows, row, ExactDuplicate);
    WithAppend(rows, row, ExcludedByProfile);
    assert (rows + [row])[..|rows|] == rows;
  }

  /** What the pass remembers besides: the contents of candidates and the keys of accepted rows. */
  ghost predicate Remembers(rows: seq<Row>, seen: set<Digest>, keys: map<string, Digest>) {
    KeysOf(With(rows, Accepted), keys) && forall h :: h in seen <==> SeenIn(rows, h)
  }

  lemma RemembersOneMore(rows: seq<Row>, row: Row, seen: set<Digest>, keys: map<string, Digest>)
    requires Remembers(rows, seen, keys)
    requires DispositionOf(rows, row) == Accepted ==> row.Key().Some? && row.Key().value !in keys
    ensures
      Remembers(
        rows + [row], if row.Candidate() then seen + {row.hash} else seen,
        if DispositionOf(rows, row) == Accepted then keys[row.Key().value := row.hash] else keys)
  {
    WithAppend(rows, row, Accepted);
    SeenGrows(rows, row);
    if DispositionOf(rows, row) == Accepted {
      KeysOfMore(With(rows, Accepted), row, keys);
    }
  }

  /** The contents of candidates and the keys of accepted rows after one more row. */
  function MoreSeen(seen: set<Digest>, row: Row): set<Digest> {
    if row.Candidate() then seen + {row.hash} else seen
  }

  function MoreKeys(keys: map<string, Digest>, row: Row, disposition: Disposition): map<string, Digest> {
    if disposition == Accepted && row.Key().Some? then keys[row.Key().value := row.hash] else keys
  }

  /** A pass over rows that can be planned. */
  ghost predicate Gathered(rows: seq<Row>, pass: Pass, seen: set<Digest>, keys: map<string, Digest>) {
    Passed(rows, pass) && Remembers(rows, seen, keys) && Plannable(rows)
  }

  lemma GatheredOneMore(
    rows: seq<Row>, row: Row, pass: Pass, seen: set<Digest>, keys: map<string, Digest>, disposition: Disposition)
    requires Gathered(rows, pass, seen, keys) && Joins(rows, row) && disposition == DispositionOf(rows, row)
    requires disposition == Accepted ==> row.Key().Some? && row.Key().value !in keys
    ensures Gathered(rows
            + [row], Gather(pass, row, disposition), MoreSeen(seen, row), MoreKeys(keys, row, disposition))
  {
    PlannableExtends(rows, row);
    PassedOneMore(rows, row, pass);
    RemembersOneMore(rows, row, seen, keys);
  }

  lemma StopsPass(rows: seq<Row>, i: nat)
    requires i < |rows| && Plannable(rows[..i]) && !Joins(rows[..i], rows[i])
    ensures !Plannable(rows)
  {
    TakeOneMore(rows, i);
    PlannableExtends(rows[..i], rows[i]);
    PrefixOfPlannable(rows, i + 1);
  }

  /** The pass over the file. */
  method PassRows(rows: seq<Row>) returns (result: Result<Pass, PlanError>)
    ensures result.Ok? <==> Plannable(rows)
    ensures result.Ok? ==> Passed(rows, result.value)
    ensures result.Err? ==> exists i: nat :: StopsAt(rows, i, result.error)
  {
    var pass := Start();
    var seen: set<Digest>, keys: map<string, Digest> := {}, map[];
    var i := 0;
    while i < |rows|
      invariant 0 <= i <= |rows| && Gathered(rows[..i], pass, seen, keys)
    {
      var row := rows[i];
      var disposition, error := ClassifyRow(rows[..i], row, seen, keys);
      if error.Some? {
        StopsPass(rows, i);
        assert StopsAt(rows, i, error.value);
        return Err(error.value);
      }
      GatheredOneMore(rows[..i], row, pass, seen, keys, disposition);
      TakeOneMore(rows, i);
      pass, seen, keys := Gather(pass, row, disposition), MoreSeen(seen, row), MoreKeys(keys, row, disposition);
      i := i + 1;
    }
    assert rows[..i] == rows;
    return Ok(pass);
  }

  lemma PrefixOfPlannable(rows: seq<Row>, n: nat)
    requires n <= |rows|
    ensures Plannable(rows) ==> Plannable(rows[..n])
  {
    if Plannable(rows) {
      PlannablePrefix(rows, n);
    }
  }

  // ---- Items ----

  /** A normalized item with its version and mapping records, and the identifiers it is known by. */
  datatype Item = Item(
    key: string,
    instrument: Digest,
    versionId: Digest,
    mappingId: Digest,
    version: ContractVersion,
    mapping: Mapping)

  datatype Plan = Plan(
    catalogue: CatalogueVersion,
    items: seq<Item>,
    outcomes: seq<Outcome>,
    physical: nat,
    accepted: nat,
    duplicates: nat,
    excluded: nat)

  /** Everything a plan is built with besides the rows: the hashes, the effective interval and the recorded time. */
  datatype Build = Build(
    hash: Hash,
    contentHash: multiset<Projection> -> Digest,
    provider: Text,
    scope: Text,
    profile: Text,
    effectiveFrom: int,
    effectiveUntil: Option<int>,
    recordedAt: int)

  function ProjectionsOf(accepted: seq<Row>): multiset<Projection>
    requires forall r <- accepted :: r.Projected().Some?
  {
    if accepted == [] then multiset{}
    else
      var n := |accepted| - 1;
      assert accepted[n] in accepted;
      ProjectionsOf(accepted[..n]) + multiset{accepted[n].Projected().value}
  }

  function CatalogueOf(build: Build, accepted: seq<Row>): CatalogueVersion
    requires forall r <- accepted :: r.Projected().Some?
  {
    CatalogueVersion(
      build.scope, build.contentHash(ProjectionsOf(accepted)), 1, build.effectiveFrom, build.effectiveUntil, None,
      build.recordedAt, |accepted|)
  }

  /** The item of an accepted row: its version names the catalogue, and its mapping names the version. */
  function ItemOf(build: Build, catalogueId: Digest, row: Row): Item
    requires row.Projected().Some?
  {
    var Projection(key, details) := row.Projected().value;
    var version := ContractVersion(
      details.kind, details.instrument, build.effectiveFrom, build.effectiveUntil, details.lotSize, details.tickSize,
      details.symbol, Active, catalogueId, build.recordedAt, None);
    var mapping := Mapping(
      build.provider, key, VersionId(build.hash, version), row.hash,
      Some(build.hash(SourceRowFields(build.provider, build.profile, row.hash))),
      build.effectiveFrom, build.effectiveUntil, build.recordedAt, None);
    Item(key, details.instrument, VersionId(build.hash, version), MappingId(build.hash, mapping), version, mapping)
  }

  function ItemsOf(build: Build, catalogueId: Digest, accepted: seq<Row>): (items: seq<Item>)
    requires forall r <- accepted :: r.Projected().Some?
    ensures |items| == |accepted|
  {
    if accepted == [] then []
    else
      var n := |accepted| - 1;
      assert accepted[n] in accepted;
      ItemsOf(build, catalogueId, accepted[..n]) + [ItemOf(build, catalogueId, accepted[n])]
  }

  predicate ByInstrumentAndKey(a: Item, b: Item) {
    || a.instrument.value < b.instrument.value
    || (a.instrument == b.instrument && TextLess(a.key, b.key))
  }

  predicate KeysDiffer(a: Item, b: Item) {
    a.key != b.key
  }

  /** The plan of a file that can be planned. */
  function PlanOf(build: Build, rows: seq<Row>): Plan
    requires forall r <- With(rows, Accepted) :: r.Projected().Some?
  {
    var accepted := With(rows, Accepted);
    var catalogue := CatalogueOf(build, accepted);
    Plan(
      catalogue,
      SortBy(ItemsOf(build, CatalogueVersionId(build.hash, catalogue), accepted), ByInstrumentAndKey),
      SortBy(Refusals(rows) + AcceptedOutcomes(accepted), ByNumber),
      |rows|, |accepted|, |With(rows, ExactDuplicate)|, |With(rows, ExcludedByProfile)|)
  }

  lemma OneMoreItem(build: Build, catalogueId: Digest, accepted: seq<Row>, i: nat)
    requires (forall r <- accepted :: r.Projected().Some?) && i < |accepted|
    ensures ItemsOf(build, catalogueId, accepted[..i + 1])
            == ItemsOf(build, catalogueId, accepted[..i]) + [ItemOf(build, catalogueId, accepted[i])]
    ensures AcceptedOutcomes(accepted)[..i + 1] == AcceptedOutcomes(accepted)[..i] + [AcceptedOutcomes(accepted)[i]]
  {
    assert accepted[..i + 1][..i] == accepted[..i];
  }

  /** The items of the accepted rows, and their outcomes after those of the refused ones. */
  method BuildItems(build: Build, catalogueId: Digest, accepted: seq<Row>, refusals: seq<Outcome>)
    returns (items: seq<Item>, outcomes: seq<Outcome>)
    requires forall r <- accepted :: r.Projected().Some?
    ensures items == ItemsOf(build, catalogueId, accepted)
    ensures outcomes == refusals + AcceptedOutcomes(accepted)
  {
    items, outcomes := [], refusals;
    var i := 0;
    while i < |accepted|
      invariant 0 <= i <= |accepted|
      invariant items == ItemsOf(build, catalogueId, accepted[..i])
      invariant outcomes == refusals + AcceptedOutcomes(accepted)[..i]
    {
      OneMoreItem(build, catalogueId, accepted, i);
      items := items + [ItemOf(build, catalogueId, accepted[i])];
      outcomes := outcomes + [Outcome(accepted[i].number, accepted[i].hash, Accepted, accepted[i].Key())];
      i := i + 1;
    }
    assert accepted[..i] == accepted && AcceptedOutcomes(accepted)[..i] == AcceptedOutcomes(accepted);
  }

  /**
   Builds the plan. It succeeds exactly when the file can be scanned, its rows can be planned and the effective
   interval is not empty; the scan comes before the rows, and the rows before the interval.
   */
  method BuildPlan(build: Build, rows: seq<Row>) returns (result: Result<Plan, PlanError>)
    ensures result.Ok? <==> Scannable(rows) && Plannable(rows) && Ends(build.effectiveFrom, build.effectiveUntil)
    ensures result.Ok? ==> result.value == PlanOf(build, rows)
    ensures !Scannable(rows) ==> result == Err(ScanError(rows))
    ensures Scannable(rows) && !Plannable(rows) ==> result.Err? && exists i: nat :: StopsAt(rows, i, result.error)
    ensures Scannable(rows) && Plannable(rows) && result.Err? ==> result == Err(EmptyInterval)
  {
    var scan := ScanProfile(rows);
    if scan.Err? {
      return Err(scan.error);
    }
    var pass := PassRows(rows);
    if pass.Err? {
      return Err(pass.error);
    }
    var Pass(accepted, refusals, duplicates, excluded) := pass.value;
    var catalogue := CatalogueOf(build, accepted);
    if !Ends(build.effectiveFrom, build.effectiveUntil) {
      return Err(EmptyInterval);
    }
    var items, outcomes := BuildItems(build, CatalogueVersionId(build.hash, catalogue), accepted, refusals);
    return Ok(Plan(
      catalogue, SortBy(items, ByInstrumentAndKey), SortBy(outcomes, ByNumber),
      scan.value, |items|, duplicates, excluded));
  }

  // ---- Every row has one outcome ----

  ghost predicate HasOutcome(outcomes: seq<Outcome>, rows: seq<Row>, i: nat)
    requires i < |rows|
  {
    OutcomeOf(rows[..i], rows[i]) in outcomes
  }

  lemma AcceptedOutcomesAppend(accepted: seq<Row>, row: Row)
    ensures AcceptedOutcomes(accepted + [row])
            == AcceptedOutcomes(accepted) + [Outcome(row.number, row.hash, Accepted, row.Key())]
  {
  }

  /** The outcomes of one more row: its own, and those there were. */
  lemma OutcomesGrow(rows: seq<Row>, row: Row, outcome: Outcome)
    requires
      || outcome == OutcomeOf(rows, row)
      || outcome in Refusals(rows) + AcceptedOutcomes(With(rows, Accepted))
    ensures outcome in Refusals(rows + [row]) + AcceptedOutcomes(With(rows + [row], Accepted))
  {
    assert (rows + [row])[..|rows|] == rows;
    WithAppend(rows, row, Accepted);
    AcceptedOutcomesAppend(With(rows, Accepted), row);
  }

  lemma {:induction false} OutcomesCover(rows: seq<Row>, i: nat)
    requires i < |rows|
    ensures HasOutcome(Refusals(rows) + AcceptedOutcomes(With(rows, Accepted)), rows, i)
  {
    var n := |rows| - 1;
    assert rows == rows[..n] + [rows[n]];
    if i == n {
    } else {
      OutcomesCover(rows[..n], i);
      assert rows[..n][..i] == rows[..i];
    }
    OutcomesGrow(rows[..n], rows[n], OutcomeOf(rows[..i], rows[i]));
  }

  lemma {:induction false} CountOutcomes(rows: seq<Row>)
    ensures |Refusals(rows)| + |With(rows, Accepted)| == |rows|
  {
    if rows == [] {
    } else {
      CountOutcomes(rows[..|rows| - 1]);
    }
  }

  lemma OrderedByNumber()
    ensures KeyOrder(ByNumber)
  {
  }

  /**
   A plan accounts for every physical row: as many outcomes as rows, the outcome of every row among
   them, in row order.
   */
  lemma PlanAccountsForEveryRow(build: Build, rows: seq<Row>)
    requires Plannable(rows)
    ensures
      var plan := PlanOf(build, rows);
      && |plan.outcomes| == |rows| == plan.physical == plan.accepted + plan.duplicates + plan.excluded
      && (forall i: nat | i < |rows| :: HasOutcome(plan.outcomes, rows, i))
      && Sorted(plan.outcomes, ByNumber)
  {
    var outcomes := Refusals(rows) + AcceptedOutcomes(With(rows, Accepted));
    RowsAreConserved(rows);
    CountOutcomes(rows);
    OrderedByNumber();
    SortSorts(outcomes, ByNumber);
    SortKeepsMembers(outcomes, ByNumber);
    forall i: nat | i < |rows| ensures HasOutcome(PlanOf(build, rows).outcomes, rows, i) {
      OutcomesCover(rows, i);
    }
  }

  // ---- The items of a plan ----

  lemma OrderedByInstrumentAndKey()
    ensures KeyOrder(ByInstrumentAndKey)
  {
    forall a: Item, b: Item | ByInstrumentAndKey(a, b) ensures !ByInstrumentAndKey(b, a) {
      TextAsymmetric(a.key, b.key);
    }
    forall a: Item, b: Item, c: Item | !ByInstrumentAndKey(b, a) && !ByInstrumentAndKey(c, b)
      ensures !ByInstrumentAndKey(c, a)
    {
      if a.instrument == b.instrument == c.instrument {
        TextTransitive(a.key, b.key, c.key);
      }
    }
  }

  /** Every item is that of an accepted row, its position among them telling which. */
  lemma {:induction false} ItemsIndexed(build: Build, catalogueId: Digest, accepted: seq<Row>, i: nat)
    requires (forall r <- accepted :: r.Projected().Some?) && i < |accepted|
    ensures accepted[i] in accepted
            && ItemsOf(build, catalogueId, accepted)[i] == ItemOf(build, catalogueId, accepted[i])
  {
    if i == |accepted| - 1 {
    } else {
      ItemsIndexed(build, catalogueId, accepted[..|accepted| - 1], i);
    }
  }

  /** One identifier leads to the next: the catalogue's into the version, and the version's into the mapping. */
  ghost predicate ItemChained(hash: Hash, catalogue: CatalogueVersion, item: Item) {
    && item.version.catalogueVersionId == CatalogueVersionId(hash, catalogue)
    && item.versionId == VersionId(hash, item.version)
    && item.mapping.contractVersionId == item.versionId
    && item.mappingId == MappingId(hash, item.mapping)
  }

  /** What is true of every item of a plan. */
  ghost predicate ItemsFit(hash: Hash, catalogue: CatalogueVersion, items: seq<Item>) {
    forall item <- items ::
      && ItemChained(hash, catalogue, item) && item.version.Valid() && item.mapping.Valid()
      && item.version.supersededAt == item.mapping.supersededAt == None
  }

  lemma ItemFits(build: Build, catalogue: CatalogueVersion, row: Row)
    requires row.Projected().Some? && Ends(build.effectiveFrom, build.effectiveUntil)
    ensures ItemsFit(build.hash, catalogue, [ItemOf(build, CatalogueVersionId(build.hash, catalogue), row)])
  {
  }

  lemma {:induction false} BuiltItemsFit(build: Build, catalogue: CatalogueVersion, accepted: seq<Row>)
    requires (forall r <- accepted :: r.Projected().Some?) && Ends(build.effectiveFrom, build.effectiveUntil)
    ensures ItemsFit(build.hash, catalogue, ItemsOf(build, CatalogueVersionId(build.hash, catalogue), accepted))
  {
    if accepted == [] {
    } else {
      var n := |accepted| - 1;
      var item := ItemOf(build, CatalogueVersionId(build.hash, catalogue), accepted[n]);
      BuiltItemsFit(build, catalogue, accepted[..n]);
      ItemFits(build, catalogue, accepted[n]);
      assert item in [item];
    }
  }

  lemma {:induction false} BuiltKeysDiffer(build: Build, catalogueId: Digest, accepted: seq<Row>)
    requires forall r <- accepted :: r.Projected().Some?
    requires forall i, j :: 0 <= i < j < |accepted| ==> accepted[i].Key() != accepted[j].Key()
    ensures Pairwise(ItemsOf(build, catalogueId, accepted), KeysDiffer)
  {
    var items := ItemsOf(build, catalogueId, accepted);
    forall i, j | 0 <= i < j < |items| ensures KeysDiffer(items[i], items[j]) {
      ItemsIndexed(build, catalogueId, accepted, i);
      ItemsIndexed(build, catalogueId, accepted, j);
      assert accepted[i].Key() != accepted[j].Key();
    }
  }

  /**
   The items of a plan are sorted, one for each accepted row; no two have the same provider key, their
   identifiers are chained, and nothing about them is superseded yet.
   */
  lemma PlanItems(build: Build, rows: seq<Row>)
    requires Plannable(rows) && Ends(build.effectiveFrom, build.effectiveUntil)
    ensures
      var plan := PlanOf(build, rows);
      && |plan.items| == plan.accepted && plan.catalogue.Valid()
      && Sorted(plan.items, ByInstrumentAndKey) && Pairwise(plan.items, KeysDiffer)
      && ItemsFit(build.hash, plan.catalogue, plan.items)
  {
    var accepted := With(rows, Accepted);
    var catalogue := CatalogueOf(build, accepted);
    var items := ItemsOf(build, CatalogueVersionId(build.hash, catalogue), accepted);
    OrderedByInstrumentAndKey();
    SortSorts(items, ByInstrumentAndKey);
    SortKeepsMembers(items, ByInstrumentAndKey);
    BuiltItemsFit(build, catalogue, accepted);
    BuiltKeysDiffer(build, CatalogueVersionId(build.hash, catalogue), accepted);
    SortKeepsPairs(items, ByInstrumentAndKey, KeysDiffer);
  }

  // ---- The underlying of a plan ----

  lemma StrippedKey()
    ensures Stripped(Some(UNDERLYING_KEY)) == Some(UNDERLYING_KEY)
  {
    assert UNDERLYING_KEY[0] == 'N' && UNDERLYING_KEY[|UNDERLYING_KEY| - 1] == '0';
  }

  /** An underlying row whose key is padded: the pass takes it for the underlying, the scan does not. */
  function PaddedUnderlying(details: Details): Row {
    Row(1, Digest(0), Some(" NSE_INDEX|Nifty 50"), None, true, Some(details))
  }

  lemma PaddedKeyStrips()
    ensures Stripped(Some(" NSE_INDEX|Nifty 50")) == Some(UNDERLYING_KEY)
  {
    var padded := " NSE_INDEX|Nifty 50";
    StrippedKey();
    assert padded[1..] == UNDERLYING_KEY && IsSpace(padded[0]);
    assert StripLeft(padded) == StripLeft(UNDERLYING_KEY);
  }

  lemma OneRow(row: Row)
    requires row.Candidate() && row.Projected().Some? && !row.NamesUnderlying()
    ensures Plannable([row]) && Underlyings([row]) == []
  {
    assert [] + [row] == [row];
    UnderlyingsAppend([], row);
    PlannableExtends([], row);
  }

  lemma PaddedUnderlyingNotFound(details: Details)
    ensures PaddedUnderlying(details).Key() == Some(UNDERLYING_KEY) && Plannable([PaddedUnderlying(details)])
    ensures !Scannable([PaddedUnderlying(details)]) && ScanError([PaddedUnderlying(details)]) == MissingUnderlying
  {
    PaddedKeyStrips();
    assert UNDERLYING_KEY[0] == 'N';
    OneRow(PaddedUnderlying(details));
  }

  /** Rows of one content name one key. */
  ghost predicate HashesIdentify(rows: seq<Row>) {
    forall a <- rows, b <- rows :: a.hash == b.hash ==> a.Key() == b.Key()
  }

  /** Every candidate is accepted, or repeats the content of an accepted row. */
  lemma {:induction false} CandidateIsAccepted(rows: seq<Row>, row: Row)
    requires row in rows && row.Candidate()
    ensures exists a <- With(rows, Accepted) :: a.hash == row.hash
  {
    var n := |rows| - 1;
    var front := rows[..n];
    assert rows == front + [rows[n]];
    WithAppend(front, rows[n], Accepted);
    if row in front {
      CandidateIsAccepted(front, row);
      var a :| a in With(front, Accepted) && a.hash == row.hash;
      assert a in With(rows, Accepted);
    } else if SeenIn(front, row.hash) {
      var earlier :| earlier in front && earlier.Candidate() && earlier.hash == row.hash;
      CandidateIsAccepted(front, earlier);
      var a :| a in With(front, Accepted) && a.hash == row.hash;
      assert a in With(rows, Accepted);
    } else {
      assert row in With(front, Accepted) + [row];
    }
  }

  /** A file that can be planned has exactly one accepted row of the underlying, however often it is repeated. */
  lemma OneUnderlying(rows: seq<Row>)
    requires Scannable(rows) && Plannable(rows) && HashesIdentify(rows)
    ensures exists i ::
              && 0 <= i < |With(rows, Accepted)| && With(rows, Accepted)[i].Key() == Some(UNDERLYING_KEY)
              && forall j :: 0 <= j < |With(rows, Accepted)| && j != i ==>
                               With(rows, Accepted)[j].Key() != Some(UNDERLYING_KEY)
  {
    UnderlyingsNamed(rows);
    StrippedKey();
    WithHolds(rows, Accepted);
    var named := Underlyings(rows)[0];
    assert named in rows && named.Candidate();
    CandidateIsAccepted(rows, named);
    var accepted := With(rows, Accepted);
    var a :| a in accepted && a.hash == named.hash;
    var i :| 0 <= i < |accepted| && accepted[i] == a;
    assert a.Key() == named.Key();
    forall j | 0 <= j < |accepted| && j != i ensures accepted[j].Key() != Some(UNDERLYING_KEY) {
      if j < i {
        assert accepted[j].Key() != accepted[i].Key();
      } else {
        assert accepted[i].Key() != accepted[j].Key();
      }
    }
  }
}
