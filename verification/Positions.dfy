/** One instrument's position and the fill that moves it. */
module Positions {
  import opened Wrappers
  import opened Money
  import opened Fills

  /** Average, mark and realized profit are whole cents. */
  datatype Position = Position(
    instrument: InstrumentId,
    quantity: int,
    multiplier: int,
    average: int,
    mark: int,
    realized: int)
  {
    function MarketValue(): int {
      Round((mark * quantity * multiplier) as real)
    }
  }

  /** A fill of the same sign as the position, or on a flat one, averages; any other realizes. */
  predicate Adds(quantity: int, signed: int) {
    quantity == 0 || quantity * signed > 0
  }

  function Min(x: int, y: int): int {
    if x <= y then x else y
  }

  /** The new average before rounding. */
  function BlendedAverage(position: Position, fill: Fill): real
    requires fill.Valid() && Adds(position.quantity, fill.SignedQuantity())
  {
    var total := position.average * AbsInt(position.quantity) + fill.referencePrice * AbsInt(fill.SignedQuantity());
    AddsAwayFromZero(position.quantity, fill.SignedQuantity());
    total as real / AbsInt(position.quantity + fill.SignedQuantity()) as real
  }

  lemma AddsAwayFromZero(quantity: int, signed: int)
    requires Adds(quantity, signed) && signed != 0
    ensures AbsInt(quantity + signed) == AbsInt(quantity) + AbsInt(signed) > 0
  {
    if quantity > 0 {
      assert signed > 0;
    } else if quantity < 0 {
      assert signed < 0;
    }
  }

  function ApplyFill(current: Option<Position>, fill: Fill): (result: Result<Position, string>)
    requires fill.Valid()
    ensures result.Err? <==> current.Some? && current.value.multiplier != fill.multiplier
    ensures result.Ok? ==>
              && result.value.quantity == fill.SignedQuantity() + (if current.Some? then current.value.quantity else 0)
              && result.value.multiplier == fill.multiplier
              && result.value.mark == fill.referencePrice
  {
    var signed := fill.SignedQuantity();
    match current
    case None =>
      Ok(Position(fill.instrument, signed, fill.multiplier, fill.referencePrice, fill.referencePrice, 0))
    case Some(position) =>
      if position.multiplier != fill.multiplier then Err("fill multiplier does not match position")
      else
        var quantity := position.quantity + signed;
        if Adds(position.quantity, signed) then
          Ok(Position(
            position.instrument, quantity, position.multiplier,
            Round(BlendedAverage(position, fill)), fill.referencePrice, position.realized))
        else
          var closed := Min(AbsInt(position.quantity), AbsInt(signed));
          var direction := if position.quantity > 0 then 1 else -1;
          var gain := Round(((fill.referencePrice - position.average) * closed * fill.multiplier * direction) as real);
          var average :=
            if quantity == 0 then 0
            else if position.quantity * quantity < 0 then fill.referencePrice
            else position.average;
          Ok(Position(
            position.instrument, quantity, position.multiplier,
            average, fill.referencePrice, Round((position.realized + gain) as real)))
  }

  // ---- Drift of the average-price book ----

  /** What the fill cost at its reference price, counted as a debit. */
  function ReferenceCost(fill: Fill): int {
    fill.SignedQuantity() * fill.referencePrice * fill.multiplier
  }

  function TotalReferenceCost(fills: seq<Fill>): int {
    if fills == [] then 0
    else TotalReferenceCost(fills[..|fills| - 1]) + ReferenceCost(fills[|fills| - 1])
  }

  /** Fills on one instrument, applied in order from no position. */
  function Replay(fills: seq<Fill>): Result<Option<Position>, string>
    requires forall f <- fills :: f.Valid()
  {
    if fills == [] then Ok(None)
    else
      match Replay(fills[..|fills| - 1])
      case Err(message) => Err(message)
      case Ok(current) =>
        match ApplyFill(current, fills[|fills| - 1])
        case Err(message) => Err(message)
        case Ok(position) => Ok(Some(position))
  }

  /** Realized profit less the book cost of what is held: zero profit means it equals minus the cost paid. */
  function BookValue(current: Option<Position>): int {
    match current
    case None => 0
    case Some(p) => p.realized - p.average * p.quantity * p.multiplier
  }

  function Drift(current: Option<Position>, fills: seq<Fill>): int {
    BookValue(current) + TotalReferenceCost(fills)
  }

  /** Contracts held after the fill when it averaged into a position that was open, otherwise zero. */
  function AveragedQuantity(current: Option<Position>, fill: Fill): nat {
    match current
    case None => 0
    case Some(p) =>
      if p.quantity * fill.SignedQuantity() > 0 then AbsInt(p.quantity + fill.SignedQuantity()) else 0
  }

  /** Sum of the averaged quantities over the whole sequence. */
  function AveragedTotal(fills: seq<Fill>): nat
    requires forall f <- fills :: f.Valid()
  {
    if fills == [] then 0
    else
      var before := fills[..|fills| - 1];
      match Replay(before)
      case Err(_) => 0
      case Ok(current) => AveragedTotal(before) + AveragedQuantity(current, fills[|fills| - 1])
  }

  function Times(x: real, n: real): real {
    x * n
  }

  lemma QuotientTimes(x: real, n: real, quotient: real)
    requires n > 0.0 && quotient == x / n
    ensures Times(quotient, n) == x
  {
  }

  lemma TimesOrder(x: real, y: real, n: real)
    requires x <= y && n > 0.0
    ensures Times(x, n) <= Times(y, n)
  {
  }

  lemma TimesShift(x: real, shift: real, shifted: real, n: real)
    requires shifted == x + shift
    ensures Times(shifted, n) == Times(x, n) + Times(shift, n)
  {
    assert (x + shift) * n == x * n + shift * n;
  }

  lemma ProductOfInts(x: int, y: int)
    ensures Times(x as real, y as real) == (x * y) as real
  {
  }

  lemma RoundedRatio(rounded: real, quotient: real, n: real, total: real)
    requires n > 0.0 && Times(quotient, n) == total && -0.5 <= rounded - quotient <= 0.5
    ensures -n <= 2.0 * (Times(rounded, n) - total) <= n
  {
    var below, above := rounded - 0.5, rounded + 0.5;
    TimesShift(rounded, -0.5, below, n);
    TimesShift(rounded, 0.5, above, n);
    TimesOrder(below, quotient, n);
    TimesOrder(quotient, above, n);
  }

  lemma WholeBound(x: int, n: int)
    requires -(n as real) <= 2.0 * (x as real) <= n as real
    ensures -n <= 2 * x <= n
  {
  }

  /** A quotient rounded to a whole number, scaled back up, is off by at most half a unit for each part. */
  lemma RoundedQuotient(total: int, n: int, rounded: int, quotient: real)
    requires n > 0 && quotient == total as real / n as real && -0.5 <= rounded as real - quotient <= 0.5
    ensures -n <= 2 * (rounded * n - total) <= n
  {
    QuotientTimes(total as real, n as real, quotient);
    RoundedRatio(rounded as real, quotient, n as real, total as real);
    ProductOfInts(rounded, n);
    WholeBound(rounded * n - total, n);
  }

  lemma ScaleBound(x: int, n: int, m: int)
    requires -n <= 2 * x <= n && m >= 0
    ensures -(n * m) <= 2 * (x * m) <= n * m
  {
    assert 2 * (x * m) == (2 * x) * m;
    assert -n * m <= (2 * x) * m <= n * m;
  }

  /** The algebra of an averaging fill: `error` is what rounding added to the book cost of each unit of multiplier. */
  lemma AddAlgebra(q: int, s: int, average: int, price: int, m: int, newAverage: int, realized: int, error: int)
    requires (q > 0 && s > 0) || (q < 0 && s < 0)
    requires error == newAverage * AbsInt(q + s) - (average * AbsInt(q) + price * AbsInt(s))
    ensures
      (realized - newAverage * (q + s) * m) - (realized - average * q * m) + s * price * m
      == if q > 0 then -(error * m) else error * m
  {
    var signedError := newAverage * (q + s) - average * q - price * s;
    assert signedError == if q > 0 then error else -error;
    assert newAverage * (q + s) * m - average * q * m - s * price * m == signedError * m;
  }

  function BookChange(current: Option<Position>, fill: Fill): int
    requires fill.Valid() && (current.Some? ==> current.value.multiplier == fill.multiplier)
  {
    BookValue(Some(ApplyFill(current, fill).value)) - BookValue(current) + ReferenceCost(fill)
  }

  /** Averaging in moves the book by the rounding of the average and nothing else. */
  lemma AddDrift(position: Position, fill: Fill)
    requires fill.Valid() && position.multiplier == fill.multiplier
    requires position.quantity * fill.SignedQuantity() > 0
    ensures
      var bound := AveragedQuantity(Some(position), fill) * fill.multiplier;
      -bound <= 2 * BookChange(Some(position), fill) <= bound
  {
    var q, s := position.quantity, fill.SignedQuantity();
    SameSides(q, s);
    AddsAwayFromZero(q, s);
    var after := ApplyFill(Some(position), fill).value;
    var total := position.average * AbsInt(q) + fill.referencePrice * AbsInt(s);
    var error := after.average * AbsInt(q + s) - total;
    AddAlgebra(q, s, position.average, fill.referencePrice, fill.multiplier, after.average, position.realized, error);
    assert BookChange(Some(position), fill) == if q > 0 then -(error * fill.multiplier) else error * fill.multiplier;
    RoundedQuotient(total, AbsInt(q + s), after.average, BlendedAverage(position, fill));
    ScaleBound(error, AbsInt(q + s), fill.multiplier);
  }

  lemma SameSides(x: int, y: int)
    requires x * y > 0
    ensures (x > 0 && y > 0) || (x < 0 && y < 0)
  {
  }

  /** Opening, reducing, closing and flipping move the book by the cost of the fill exactly. */
  lemma OtherFillsDoNotDrift(current: Option<Position>, fill: Fill)
    requires fill.Valid()
    requires current.Some? ==> current.value.multiplier == fill.multiplier
    requires current.Some? ==> current.value.quantity * fill.SignedQuantity() <= 0
    ensures BookChange(current, fill) == 0
  {
    match current
    case None =>
    case Some(position) =>
      if position.quantity == 0 {
        ReopenDoesNotDrift(position, fill);
      } else {
        ReduceDoesNotDrift(position, fill);
      }
  }

  lemma ReopenDoesNotDrift(position: Position, fill: Fill)
    requires fill.Valid() && position.multiplier == fill.multiplier && position.quantity == 0
    ensures BookChange(Some(position), fill) == 0
  {
    var n := AbsInt(fill.SignedQuantity());
    ExactQuotient(fill.referencePrice, n);
    assert position.average * AbsInt(position.quantity) == 0;
    assert BlendedAverage(position, fill) == fill.referencePrice as real;
  }

  lemma ExactQuotient(price: int, n: int)
    requires n > 0
    ensures (price * n) as real / n as real == price as real
  {
    assert (price * n) as real == price as real * n as real;
  }

  lemma ReduceDoesNotDrift(position: Position, fill: Fill)
    requires fill.Valid() && position.multiplier == fill.multiplier
    requires position.quantity != 0 && position.quantity * fill.SignedQuantity() <= 0
    ensures BookChange(Some(position), fill) == 0
  {
    var q, s := position.quantity, fill.SignedQuantity();
    if (q > 0 && s > 0) || (q < 0 && s < 0) {
      SameSign(q, s);
      assert false;
    }
    var after := ApplyFill(Some(position), fill).value;
    ReduceAlgebra(
      q, s, position.average, fill.referencePrice, fill.multiplier, after.average, after.realized - position.realized);
  }

  /** The algebra of a reduction, written once for long and short positions. */
  lemma ReduceAlgebra(q: int, s: int, average: int, price: int, m: int, newAverage: int, gain: int)
    requires (q > 0 && s < 0) || (q < 0 && s > 0)
    requires gain == (price - average) * Min(AbsInt(q), AbsInt(s)) * m * (if q > 0 then 1 else -1)
    requires newAverage == if q + s == 0 then 0 else if q * (q + s) < 0 then price else average
    ensures gain - newAverage * (q + s) * m + average * q * m + s * price * m == 0
  {
    if AbsInt(s) <= AbsInt(q) {
      ReducesPart(q, s, average, price, m, newAverage, gain);
    } else {
      ReducesAcross(q, s, average, price, m, newAverage, gain);
    }
  }

  lemma ReducesPart(q: int, s: int, average: int, price: int, m: int, newAverage: int, gain: int)
    requires ((q > 0 && s < 0) || (q < 0 && s > 0)) && AbsInt(s) <= AbsInt(q)
    requires gain == (price - average) * AbsInt(s) * m * (if q > 0 then 1 else -1)
    requires newAverage == if q + s == 0 then 0 else if q * (q + s) < 0 then price else average
    ensures gain - newAverage * (q + s) * m + average * q * m + s * price * m == 0
  {
    if q + s != 0 {
      SameSign(q, q + s);
    }
    assert gain == (price - average) * (-s) * m;
    assert newAverage * (q + s) == average * (q + s);
    PartlyClosed(q, s, average, price, m);
  }

  lemma ReducesAcross(q: int, s: int, average: int, price: int, m: int, newAverage: int, gain: int)
    requires ((q > 0 && s < 0) || (q < 0 && s > 0)) && AbsInt(s) > AbsInt(q)
    requires gain == (price - average) * AbsInt(q) * m * (if q > 0 then 1 else -1)
    requires newAverage == if q + s == 0 then 0 else if q * (q + s) < 0 then price else average
    ensures gain - newAverage * (q + s) * m + average * q * m + s * price * m == 0
  {
    SameSign(q, -(q + s));
    assert q * -(q + s) == -(q * (q + s));
    assert newAverage == price;
    assert gain == (price - average) * q * m;
    Flipped(q, s, average, price, m);
  }

  lemma PartlyClosed(q: int, s: int, average: int, price: int, m: int)
    ensures (price - average) * (-s) * m - average * (q + s) * m + average * q * m + s * price * m == 0
  {
  }

  lemma Flipped(q: int, s: int, average: int, price: int, m: int)
    ensures (price - average) * q * m - price * (q + s) * m + average * q * m + s * price * m == 0
  {
  }

  lemma SameSign(x: int, y: int)
    requires (x > 0 && y > 0) || (x < 0 && y < 0)
    ensures x * y > 0
  {
  }

  // ---- What a fill realizes ----

  /** The sign of a trade against an open position, and of what is left after it. */
  lemma OppositeSigns(q: int, s: int)
    requires q * s < 0
    ensures (q > 0 && s < 0) || (q < 0 && s > 0)
    ensures AbsInt(s) < AbsInt(q) ==> q * (q + s) > 0
    ensures AbsInt(s) == AbsInt(q) ==> q + s == 0
    ensures AbsInt(s) > AbsInt(q) ==> q * (q + s) < 0
  {
    if (q > 0 && s > 0) || (q < 0 && s < 0) {
      SameSign(q, s);
      assert false;
    }
    if AbsInt(s) < AbsInt(q) {
      SameSign(q, q + s);
    } else if AbsInt(s) > AbsInt(q) {
      SameSign(q, -(q + s));
      assert q * -(q + s) == -(q * (q + s));
    }
  }

  lemma ClosedGain(q: int, s: int, move: int, m: int)
    requires (q > 0 && s < 0) || (q < 0 && s > 0)
    ensures var gain := move * Min(AbsInt(q), AbsInt(s)) * m * (if q > 0 then 1 else -1);
            gain == if AbsInt(s) <= AbsInt(q) then -s * move * m else q * move * m
  {
    var closed, direction := Min(AbsInt(q), AbsInt(s)), if q > 0 then 1 else -1;
    assert closed * direction == if AbsInt(s) <= AbsInt(q) then -s else q;
    assert move * closed * m * direction == (closed * direction) * move * m;
  }

  /**
   A trade against an open position realizes the move from the average on the contracts it closes, and only on
   those. The average of what stays open is the old one; across zero the rest is held at the price of the fill.
   */
  lemma ReductionRealizes(position: Position, fill: Fill)
    requires fill.Valid() && position.multiplier == fill.multiplier && position.quantity * fill.SignedQuantity() < 0
    ensures
      var after := ApplyFill(Some(position), fill).value;
      var q, s, move := position.quantity, fill.SignedQuantity(), fill.referencePrice - position.average;
      && (AbsInt(s) <= AbsInt(q) ==> after.realized - position.realized == -s * move * fill.multiplier)
      && (AbsInt(s) < AbsInt(q) ==> after.average == position.average)
      && (AbsInt(s) == AbsInt(q) ==> after.average == 0)
      && (AbsInt(s) > AbsInt(q) ==>
            && after.realized - position.realized == q * move * fill.multiplier
            && after.average == fill.referencePrice)
  {
    OppositeSigns(position.quantity, fill.SignedQuantity());
    ClosedGain(
      position.quantity, fill.SignedQuantity(), fill.referencePrice - position.average, fill.multiplier);
  }

  /** A fill that opens, re-opens or adds realizes nothing; what was not open before is held at the fill price. */
  lemma AddingRealizesNothing(current: Option<Position>, fill: Fill)
    requires fill.Valid() && (current.Some? ==> current.value.multiplier == fill.multiplier)
    requires current.Some? ==> current.value.quantity * fill.SignedQuantity() >= 0
    ensures
      var after := ApplyFill(current, fill).value;
      && after.realized == (if current.Some? then current.value.realized else 0)
      && (current.None? || current.value.quantity == 0 ==> after.average == fill.referencePrice)
  {
    if current.Some? && current.value.quantity == 0 {
      ReopenDoesNotDrift(current.value, fill);
      assert BlendedAverage(current.value, fill) == fill.referencePrice as real by {
        ExactQuotient(fill.referencePrice, AbsInt(fill.SignedQuantity()));
      }
    } else if current.Some? {
      AddingSign(current.value.quantity, fill.SignedQuantity());
    }
  }

  lemma AddingSign(q: int, s: int)
    requires q != 0 && s != 0 && q * s >= 0
    ensures q * s > 0
  {
  }

  /** One fill of any kind. */
  lemma FillDrift(current: Option<Position>, fill: Fill)
    requires fill.Valid() && (current.Some? ==> current.value.multiplier == fill.multiplier)
    ensures
      var bound := AveragedQuantity(current, fill) * fill.multiplier;
      -bound <= 2 * BookChange(current, fill) <= bound
  {
    if current.Some? && current.value.quantity * fill.SignedQuantity() > 0 {
      AddDrift(current.value, fill);
    } else {
      OtherFillsDoNotDrift(current, fill);
    }
  }

  lemma ReplayStep(fills: seq<Fill>)
    requires forall f <- fills :: f.Valid()
    requires fills != [] && Replay(fills[..|fills| - 1]).Ok?
    requires var current := Replay(fills[..|fills| - 1]).value;
             current.Some? ==> current.value.multiplier == fills[|fills| - 1].multiplier
    ensures
      var before, fill := fills[..|fills| - 1], fills[|fills| - 1];
      var current := Replay(before).value;
      && Replay(fills) == Ok(Some(ApplyFill(current, fill).value))
      && Drift(Replay(fills).value, fills) == Drift(current, before) + BookChange(current, fill)
      && AveragedTotal(fills) == AveragedTotal(before) + AveragedQuantity(current, fill)
  {
  }

  lemma Distribute(x: int, y: int, m: int)
    ensures (x + y) * m == x * m + y * m
  {
  }

  /**
   Over any sequence of fills on one instrument, realized profit less book cost differs from
   minus the reference cost of the fills by at most half a cent for each unit held
   after each averaging fill.
   */
  lemma {:induction false} DriftBound(fills: seq<Fill>, multiplier: int)
    requires forall f <- fills :: f.Valid() && f.multiplier == multiplier
    ensures Replay(fills).Ok?
    ensures Replay(fills).value.Some? ==> Replay(fills).value.value.multiplier == multiplier
    ensures -(AveragedTotal(fills) * multiplier) <= 2 * Drift(Replay(fills).value, fills)
            <= AveragedTotal(fills) * multiplier
  {
    if fills == [] {
    } else {
      var before, fill := fills[..|fills| - 1], fills[|fills| - 1];
      DriftBound(before, multiplier);
      ReplayStep(fills);
      FillDrift(Replay(before).value, fill);
      Distribute(AveragedTotal(before), AveragedQuantity(Replay(before).value, fill), multiplier);
    }
  }

  /** With no averaging fill the book is exact, and a flat position's realized profit is the cash the fills made. */
  lemma ExactWithoutAveraging(fills: seq<Fill>, multiplier: int)
    requires forall f <- fills :: f.Valid() && f.multiplier == multiplier
    requires AveragedTotal(fills) == 0
    ensures Replay(fills).Ok? && Drift(Replay(fills).value, fills) == 0
    ensures var held := Replay(fills).value;
            held.Some? && held.value.quantity == 0 ==> held.value.realized == -TotalReferenceCost(fills)
  {
    DriftBound(fills, multiplier);
  }

  function Trade(side: Side, quantity: int, price: int): Fill {
    Fill(Hedge, 0, side, quantity, 1, price, price, price * quantity, 0, 0, 0, 0, 0)
  }

  /** The bound is reached: averaging one contract at 1 cent into one at 2 cents loses a whole cent on two contracts. */
  lemma DriftBoundIsReached()
    ensures
      var fills := [Trade(Buy, 1, 1), Trade(Buy, 1, 2)];
      Replay(fills).Ok? && Drift(Replay(fills).value, fills) == -1 && AveragedTotal(fills) == 2
  {
    var first, second := Trade(Buy, 1, 1), Trade(Buy, 1, 2);
    var fills := [first, second];
    assert fills[..1] == [first] && [first][..0] == [];
    var single := Position(0, 1, 1, 1, 1, 0);
    assert ApplyFill(None, first) == Ok(single);
    assert Replay([first]) == Ok(Some(single));
    assert BlendedAverage(single, second) == 1.5;
    assert HalfEven(1.5) == 2;
    assert Replay(fills) == Ok(Some(Position(0, 2, 1, 2, 2, 0)));
    assert TotalReferenceCost([first]) == 1;
    assert AveragedTotal([first]) == 0;
  }
}
