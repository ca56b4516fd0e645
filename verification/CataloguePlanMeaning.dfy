/** What a catalogue plan makes of a file, row by row, in terms of the rows' own fields. */
module CataloguePlanMeaning {
  import opened Wrappers
  import opened Sorting
  import opened CatalogueIdentity
  import opened CataloguePlan

  // ---- Stripped texts ----

  /** The text without the spaces around it. */
  ghost predicate Trims(s: string, t: string) {
    exists a, b | 0 <= a < b <= |s| :: TrimsAt(s, a, b) && t == s[a..b]
  }

  predicate TrimsAt(s: string, a: nat, b: nat)
    requires a < b <= |s|
  {
    && !IsSpace(s[a]) && !IsSpace(s[b - 1])
    && (forall i | 0 <= i < a :: IsSpace(s[i])) && (forall i | b <= i < |s| :: IsSpace(s[i]))
  }

  predicate Blank(s: string) {
    forall i | 0 <= i < |s| :: IsSpace(s[i])
  }

  lemma {:induction false} StripsLeft(s: string) returns (a: nat)
    ensures a <= |s| && StripLeft(s) == s[a..] && (forall i | 0 <= i < a :: IsSpace(s[i]))
    ensures a < |s| ==> !IsSpace(s[a])
  {
    if s != [] && IsSpace(s[0]) {
      var rest := StripsLeft(s[1..]);
      a := rest + 1;
      assert s[1..][rest..] == s[a..];
      forall i | 0 <= i < a ensures IsSpace(s[i]) {
        assert i > 0 ==> s[i] == s[1..][i - 1];
      }
    } else {
      a := 0;
    }
  }

  lemma {:induction false} StripsRight(s: string) returns (b: nat)
    ensures b <= |s| && StripRight(s) == s[..b] && (forall i | b <= i < |s| :: IsSpace(s[i]))
    ensures b > 0 ==> !IsSpace(s[b - 1])
  {
    if s != [] && IsSpace(s[|s| - 1]) {
      var front := s[..|s| - 1];
      b := StripsRight(front);
      assert front[..b] == s[..b];
      forall i | b <= i < |s| ensures IsSpace(s[i]) {
        assert i < |s| - 1 ==> s[i] == front[i];
      }
    } else {
      b := |s|;
    }
  }

  /** A text is stripped to what is left of it without the spaces around it, and a blank text to nothing. */
  lemma StripsAround(s: string)
    ensures
      match Stripped(Some(s))
      case None => Blank(s)
      case Some(t) => Trims(s, t)
  {
    var a := StripsLeft(s);
    var left := s[a..];
    var b := StripsRight(left);
    assert forall i | 0 <= i < |left| :: left[i] == s[a + i];
    if b == 0 {
      if a < |s| {
        assert false;
      }
    } else {
      assert left[..b] == s[a..a + b];
      TrimmedAround(s, a, left, b);
    }
  }

  lemma TrimmedAround(s: string, a: nat, left: string, b: nat)
    requires a < |s| && left == s[a..] && 0 < b <= |left|
    requires (forall i | 0 <= i < a :: IsSpace(s[i])) && forall i | b <= i < |left| :: IsSpace(left[i])
    requires !IsSpace(s[a]) && !IsSpace(left[b - 1])
    ensures TrimsAt(s, a, a + b)
  {
    forall i | a + b <= i < |s| ensures IsSpace(s[i]) {
      assert left[i - a] == s[i];
    }
  }

  lemma TrimsOnce(s: string, t: string, u: string)
    requires Trims(s, t) && Trims(s, u)
    ensures t == u
  {
    var a, b :| 0 <= a < b <= |s| && TrimsAt(s, a, b) && t == s[a..b];
    var c, d :| 0 <= c < d <= |s| && TrimsAt(s, c, d) && u == s[c..d];
    assert !(a < c) && !(c < a) && !(b < d) && !(d < b);
  }

  lemma BlankTrimsNowhere(s: string, t: string)
    requires Blank(s)
    ensures !Trims(s, t)
  {
  }

  /** The field is there and, without the spaces around it, is this text. */
  ghost predicate Reads(field: Option<string>, t: string) {
    field.Some? && Trims(field.value, t)
  }

  lemma StrippedReads(field: Option<string>, t: string)
    ensures Stripped(field) == Some(t) <==> Reads(field, t)
    ensures Stripped(field) == None <==> field.None? || Blank(field.value)
  {
    if field.Some? {
      StripsAround(field.value);
      if Stripped(field).Some? {
        var u := Stripped(field).value;
        if Trims(field.value, t) {
          TrimsOnce(field.value, t, u);
        }
        var a, b :| 0 <= a < b <= |field.value| && TrimsAt(field.value, a, b) && u == field.value[a..b];
        assert !IsSpace(field.value[a]);
      } else {
        BlankTrimsNowhere(field.value, t);
      }
    }
  }

  // ---- What becomes of a row ----

  /** The row is that of the underlying, or of a contract on it. */
  ghost predicate InProfile(row: Row) {
    Reads(row.instrumentKey, UNDERLYING_KEY) || Reads(row.underlyingKey, UNDERLYING_KEY)
  }

  /** A row of the profile with the same content came before. */
  ghost predicate Repeated(rows: seq<Row>, i: nat)
    requires i < |rows|
  {
    exists j | 0 <= j < i :: InProfile(rows[j]) && rows[j].hash == rows[i].hash
  }

  ghost predicate DisposedAs(rows: seq<Row>, i: nat, disposition: Disposition)
    requires i < |rows|
  {
    match disposition
    case ExcludedByProfile => !InProfile(rows[i])
    case ExactDuplicate => InProfile(rows[i]) && Repeated(rows, i)
    case Accepted => InProfile(rows[i]) && !Repeated(rows, i)
  }

  lemma CandidateIsInProfile(row: Row)
    ensures row.Candidate() <==> InProfile(row)
  {
    StrippedReads(row.instrumentKey, UNDERLYING_KEY);
    StrippedReads(row.underlyingKey, UNDERLYING_KEY);
  }

  lemma DispositionIs(rows: seq<Row>, i: nat)
    requires i < |rows|
    ensures DisposedAs(rows, i, DispositionOf(rows[..i], rows[i]))
  {
    CandidateIsInProfile(rows[i]);
    forall j | 0 <= j < i ensures rows[..i][j] == rows[j] && (rows[j].Candidate() <==> InProfile(rows[j])) {
      CandidateIsInProfile(rows[j]);
    }
    if SeenIn(rows[..i], rows[i].hash) {
      var r :| r in rows[..i] && r.Candidate() && r.hash == rows[i].hash;
      var j :| 0 <= j < i && rows[..i][j] == r;
      assert InProfile(rows[j]);
    }
    if Repeated(rows, i) {
      var j :| 0 <= j < i && InProfile(rows[j]) && rows[j].hash == rows[i].hash;
      assert rows[..i][j] in rows[..i];
    }
  }

  /** The outcome of a row: its number, its content, what became of it, and the key it names, if any. */
  ghost predicate IsOutcome(rows: seq<Row>, i: nat, outcome: Outcome)
    requires i < |rows|
  {
    && outcome.number == rows[i].number && outcome.hash == rows[i].hash && DisposedAs(rows, i, outcome.disposition)
    && (if outcome.key.Some? then Reads(rows[i].instrumentKey, outcome.key.value)
        else rows[i].instrumentKey.None? || Blank(rows[i].instrumentKey.value))
  }

  lemma OutcomeIs(rows: seq<Row>, i: nat)
    requires i < |rows|
    ensures IsOutcome(rows, i, OutcomeOf(rows[..i], rows[i]))
  {
    DispositionIs(rows, i);
    var key := rows[i].Key();
    StrippedReads(rows[i].instrumentKey, if key.Some? then key.value else "");
  }

  lemma NumbersRise(outcomes: seq<Outcome>)
    requires Sorted(outcomes, ByNumber)
    ensures forall i, j :: 0 <= i < j < |outcomes| ==> outcomes[i].number <= outcomes[j].number
  {
  }

  ghost predicate Disposed(outcomes: seq<Outcome>, rows: seq<Row>, i: nat)
    requires i < |rows|
  {
    exists outcome <- outcomes :: IsOutcome(rows, i, outcome)
  }

  /** Every row of a planned file has its outcome in the plan, and outcomes stand in the order of row numbers. */
  lemma PlanDisposes(build: Build, rows: seq<Row>)
    requires Plannable(rows)
    ensures
      var plan := PlanOf(build, rows);
      && |plan.outcomes| == |rows|
      && (forall i: nat | i < |rows| :: Disposed(plan.outcomes, rows, i))
      && (forall i, j :: 0 <= i < j < |rows| ==> plan.outcomes[i].number <= plan.outcomes[j].number)
  {
    PlanAccountsForEveryRow(build, rows);
    NumbersRise(PlanOf(build, rows).outcomes);
    forall i: nat | i < |rows| ensures Disposed(PlanOf(build, rows).outcomes, rows, i) {
      assert HasOutcome(PlanOf(build, rows).outcomes, rows, i);
      OutcomeIs(rows, i);
    }
  }

  // ---- The scan ----

  /** The first row that names the underlying, by the key as it stands. */
  ghost predicate FirstNamed(rows: seq<Row>, i: nat) {
    && i < |rows| && rows[i].instrumentKey == Some(UNDERLYING_KEY)
    && (forall j | 0 <= j < i :: rows[j].instrumentKey != Some(UNDERLYING_KEY))
  }

  ghost predicate NamedAlike(rows: seq<Row>, i: nat)
    requires i < |rows|
  {
    forall r <- rows :: r.instrumentKey == Some(UNDERLYING_KEY) ==> r.hash == rows[i].hash
  }

  lemma {:induction false} UnderlyingsAre(rows: seq<Row>)
    ensures forall r :: r in Underlyings(rows) <==> r in rows && r.instrumentKey == Some(UNDERLYING_KEY)
  {
    if rows == [] {
    } else {
      var n := |rows| - 1;
      UnderlyingsAre(rows[..n]);
      assert forall r :: r in rows <==> r in rows[..n] || r == rows[n];
    }
  }

  /** The first named row of a file. */
  lemma {:induction false} FirstUnderlying(rows: seq<Row>) returns (i: nat)
    requires Underlyings(rows) != []
    ensures FirstNamed(rows, i) && rows[i] == Underlyings(rows)[0]
  {
    var n := |rows| - 1;
    if Underlyings(rows[..n]) != [] {
      i := FirstUnderlying(rows[..n]);
    } else {
      i := n;
      UnderlyingsAre(rows[..n]);
      forall j | 0 <= j < n ensures rows[j].instrumentKey != Some(UNDERLYING_KEY) {
        assert rows[..n][j] in rows[..n];
      }
    }
  }

  lemma FirstNamedIsOne(rows: seq<Row>, i: nat, j: nat)
    requires FirstNamed(rows, i) && FirstNamed(rows, j)
    ensures i == j
  {
  }

  /**
   A file is scanned exactly when some row names the underlying, the first such row is approved and all of them have
   one content; the error says which of the three fails, in this order.
   */
  lemma ScannedExactlyWhen(rows: seq<Row>)
    ensures Scannable(rows) <==> exists i: nat :: FirstNamed(rows, i) && rows[i].approved && NamedAlike(rows, i)
    ensures ScanError(rows) == MissingUnderlying <==> forall i: nat :: !FirstNamed(rows, i)
    ensures forall i: nat | FirstNamed(rows, i) ::
              ScanError(rows)
              == if rows[i].approved then DuplicateUnderlying else UnderlyingNotApproved(rows[i].number)
  {
    UnderlyingsAre(rows);
    var named := Underlyings(rows);
    if named != [] {
      var first := FirstUnderlying(rows);
      forall i: nat | FirstNamed(rows, i) ensures i == first {
        FirstNamedIsOne(rows, i, first);
      }
      assert NamedAlike(rows, first) <==> forall r <- named :: r.hash == named[0].hash;
    } else {
      forall i: nat ensures !FirstNamed(rows, i) {
        assert i < |rows| ==> rows[i] in rows;
      }
    }
  }

  // ---- The items ----

  /** The item of an accepted row: its version and its mapping, for the interval and the time of the build. */
  ghost predicate ItemsRow(build: Build, catalogue: CatalogueVersion, row: Row, item: Item) {
    && Reads(row.instrumentKey, item.key) && row.details.Some?
    && var details, version, mapping := row.details.value, item.version, item.mapping;
       && item.instrument == version.identity == details.instrument
       && version.kind == details.kind && version.lotSize == details.lotSize && version.tickSize == details.tickSize
       && version.displaySymbol == details.symbol && version.status == Active
       && version.validFrom == build.effectiveFrom && version.validUntil == build.effectiveUntil
       && version.recordedAt == build.recordedAt && version.supersededAt == None
       && mapping.provider == build.provider && mapping.key == item.key && mapping.payloadHash == row.hash
       && mapping.sourceRow == Some(build.hash(SourceRowFields(build.provider, build.profile, row.hash)))
       && mapping.effectiveFrom == build.effectiveFrom && mapping.effectiveUntil == build.effectiveUntil
       && mapping.recordedAt == build.recordedAt && mapping.supersededAt == None
       && ItemChained(build.hash, catalogue, item)
  }

  lemma ItemIsOfRow(build: Build, catalogue: CatalogueVersion, row: Row)
    requires row.Projected().Some?
    ensures ItemsRow(build, catalogue, row, ItemOf(build, CatalogueVersionId(build.hash, catalogue), row))
  {
    StrippedReads(row.instrumentKey, row.Key().value);
  }

  /** Items by instrument and then by key, and so that no two are of one key. */
  ghost predicate InItemOrder(items: seq<Item>) {
    forall i, j | 0 <= i < j < |items| ::
      && items[i].instrument.value <= items[j].instrument.value && items[i].key != items[j].key
      && (items[i].instrument == items[j].instrument ==> !TextLess(items[j].key, items[i].key))
  }

  /** The projections of some rows, each as often as there are rows of it. */
  function Projected(accepted: seq<Row>): seq<Projection>
    requires forall r <- accepted :: r.Projected().Some?
  {
    seq(|accepted|, i requires 0 <= i < |accepted| => assert accepted[i] in accepted; accepted[i].Projected().value)
  }

  lemma {:induction false} ProjectionsAre(accepted: seq<Row>)
    requires forall r <- accepted :: r.Projected().Some?
    ensures ProjectionsOf(accepted) == multiset(Projected(accepted))
  {
    if accepted != [] {
      var front, last := accepted[..|accepted| - 1], accepted[|accepted| - 1];
      ProjectionsAre(front);
      assert Projected(accepted) == Projected(front) + [last.Projected().value];
    }
  }

  /** The catalogue is that of the accepted projections, for the interval and the time of the build. */
  ghost predicate IsCatalogue(build: Build, accepted: seq<Row>, catalogue: CatalogueVersion)
    requires forall r <- accepted :: r.Projected().Some?
  {
    && catalogue.provider == build.scope && catalogue.contentHash == build.contentHash(multiset(Projected(accepted)))
    && catalogue.schemaVersion == 1 && catalogue.rowCount == |accepted| && catalogue.publishedAt == None
    && catalogue.effectiveFrom == build.effectiveFrom && catalogue.effectiveUntil == build.effectiveUntil
    && catalogue.recordedAt == build.recordedAt
  }

  lemma PlanItemsAre(build: Build, rows: seq<Row>)
    requires Plannable(rows)
    ensures
      var plan := PlanOf(build, rows);
      var items := ItemsOf(build, CatalogueVersionId(build.hash, plan.catalogue), With(rows, Accepted));
      forall item :: item in plan.items <==> item in items
  {
    var plan := PlanOf(build, rows);
    SortKeepsMembers(
      ItemsOf(build, CatalogueVersionId(build.hash, plan.catalogue), With(rows, Accepted)), ByInstrumentAndKey);
  }

  /** One of the items is that of the row. */
  ghost predicate HasItem(build: Build, catalogue: CatalogueVersion, items: seq<Item>, row: Row) {
    exists item <- items :: ItemsRow(build, catalogue, row, item)
  }

  /** The item is that of one of the rows. */
  ghost predicate HasRow(build: Build, catalogue: CatalogueVersion, rows: seq<Row>, item: Item) {
    exists row <- rows :: ItemsRow(build, catalogue, row, item)
  }

  lemma ItemsMatchRows(build: Build, catalogue: CatalogueVersion, accepted: seq<Row>, items: seq<Item>)
    requires forall r <- accepted :: r.Projected().Some?
    requires items == ItemsOf(build, CatalogueVersionId(build.hash, catalogue), accepted)
    ensures forall row <- accepted :: HasItem(build, catalogue, items, row)
    ensures forall item <- items :: HasRow(build, catalogue, accepted, item)
  {
    forall i: nat | i < |accepted| ensures ItemsRow(build, catalogue, accepted[i], items[i]) {
      ItemsIndexed(build, CatalogueVersionId(build.hash, catalogue), accepted, i);
      ItemIsOfRow(build, catalogue, accepted[i]);
    }
    forall row <- accepted ensures HasItem(build, catalogue, items, row) {
      var i: nat :| i < |accepted| && accepted[i] == row;
      assert items[i] in items;
    }
    forall item <- items ensures HasRow(build, catalogue, accepted, item) {
      var i: nat :| i < |items| && items[i] == item;
      assert accepted[i] in accepted;
    }
  }

  lemma ItemsStandInOrder(items: seq<Item>)
    requires Sorted(items, ByInstrumentAndKey) && Pairwise(items, KeysDiffer)
    ensures InItemOrder(items)
  {
    forall i, j | 0 <= i < j < |items|
      ensures items[i].instrument.value <= items[j].instrument.value && items[i].key != items[j].key
      ensures items[i].instrument == items[j].instrument ==> !TextLess(items[j].key, items[i].key)
    {
      assert !ByInstrumentAndKey(items[j], items[i]) && KeysDiffer(items[i], items[j]);
    }
  }

  /**
   A plan has one item for each accepted row and no other, with the row's own content; they stand in the order of
   instruments and keys under a catalogue of exactly their projections.
   */
  lemma PlanHasItems(build: Build, rows: seq<Row>)
    requires Plannable(rows) && Ends(build.effectiveFrom, build.effectiveUntil)
    ensures
      var plan, accepted := PlanOf(build, rows), With(rows, Accepted);
      && IsCatalogue(build, accepted, plan.catalogue) && |plan.items| == |accepted| && InItemOrder(plan.items)
      && (forall row <- accepted :: HasItem(build, plan.catalogue, plan.items, row))
      && (forall item <- plan.items :: HasRow(build, plan.catalogue, accepted, item))
  {
    var plan, accepted := PlanOf(build, rows), With(rows, Accepted);
    var items := ItemsOf(build, CatalogueVersionId(build.hash, plan.catalogue), accepted);
    PlanItems(build, rows);
    ProjectionsAre(accepted);
    PlanItemsAre(build, rows);
    ItemsMatchRows(build, plan.catalogue, accepted, items);
    ItemsStandInOrder(plan.items);
    forall row <- accepted ensures HasItem(build, plan.catalogue, plan.items, row) {
      assert HasItem(build, plan.catalogue, items, row);
    }
  }
}
