/** Implied volatility by bisection of an arbitrary price function. */
module ImpliedVolatility {
  import opened Wrappers
  import opened Money

  datatype Reason = IntrinsicBoundary | RootNotBracketed | Converged | MaximumIterationsReached

  datatype Solution = Solution(volatility: Option<real>, converged: bool, iterations: nat, error: real, reason: Reason)

  datatype InputError = NegativePrice | InvalidBounds | InvalidLimits | OutsideStaticBounds

  datatype Bracket = Bracket(low: real, high: real) {
    function Midpoint(): real {
      (low + high) / 2.0
    }

    function Width(): real {
      high - low
    }
  }

  /** One halving: the half whose ends still lie on both sides of the observed price. */
  function Narrow(price: real -> real, observed: real, bracket: Bracket): Bracket {
    if price(bracket.Midpoint()) - observed < 0.0 then Bracket(bracket.Midpoint(), bracket.high)
    else Bracket(bracket.low, bracket.Midpoint())
  }

  function BracketAfter(price: real -> real, observed: real, start: Bracket, halvings: nat): Bracket {
    if halvings == 0 then start else Narrow(price, observed, BracketAfter(price, observed, start, halvings - 1))
  }

  function Halved(width: real, times: nat): real {
    if times == 0 then width else Halved(width, times - 1) / 2.0
  }

  /** The price error at the midpoint that iteration `k` tries. */
  function ErrorAt(price: real -> real, observed: real, start: Bracket, k: nat): real
    requires k > 0
  {
    price(BracketAfter(price, observed, start, k - 1).Midpoint()) - observed
  }

  ghost predicate Hits(price: real -> real, observed: real, start: Bracket, tolerance: real, k: nat)
    requires k > 0
  {
    Abs(ErrorAt(price, observed, start, k)) <= tolerance
  }

  /** What the loop returns: the first midpoint within tolerance, or the last one tried. */
  ghost predicate Bisects(
    price: real -> real, observed: real, start: Bracket, tolerance: real, limit: nat, solution: Solution)
  {
    && 0 < solution.iterations <= limit
    && solution.volatility == Some(BracketAfter(price, observed, start, solution.iterations - 1).Midpoint())
    && solution.error == ErrorAt(price, observed, start, solution.iterations)
    && (forall k: nat | 0 < k < solution.iterations :: !Hits(price, observed, start, tolerance, k))
    && (solution.converged <==> Hits(price, observed, start, tolerance, solution.iterations))
    && (!solution.converged ==> solution.iterations == limit)
    && solution.reason == if solution.converged then Converged else MaximumIterationsReached
  }

  /**
   The solver. Invalid inputs are refused; an observed price at the zero-volatility price is its own
   case; bounds that do not bracket the price are reported; otherwise the bracket is halved.
   */
  method SolveImpliedVolatility(
    price: real -> real, upperStatic: real, observed: real, lower: real, upper: real, tolerance: real, limit: nat)
    returns (result: Result<Solution, InputError>)
    ensures result.Ok? <==>
              observed >= 0.0 && 0.0 <= lower < upper && tolerance > 0.0 && limit > 0
              && price(0.0) - tolerance <= observed <= upperStatic + tolerance
    ensures result.Err? ==>
              result.error
              == if observed < 0.0 then NegativePrice
                 else if !(0.0 <= lower < upper) then InvalidBounds
                 else if !(tolerance > 0.0 && limit > 0) then InvalidLimits
                 else OutsideStaticBounds
    ensures result.Ok? && Abs(observed - price(0.0)) <= tolerance ==>
              result.value == Solution(Some(0.0), true, 0, price(0.0) - observed, IntrinsicBoundary)
    ensures result.Ok? && Abs(observed - price(0.0)) > tolerance ==>
              if price(lower) <= observed <= price(upper) then
                Bisects(price, observed, Bracket(lower, upper), tolerance, limit, result.value)
              else
                && result.value.reason == RootNotBracketed && result.value.volatility == None && !result.value.converged
                && result.value.iterations == 0
                && result.value.error <= Abs(price(lower) - observed)
                && result.value.error <= Abs(price(upper) - observed)
                && (|| result.value.error == Abs(price(lower) - observed)
                    || result.value.error == Abs(price(upper) - observed))
  {
    if observed < 0.0 {
      return Err(NegativePrice);
    }
    if lower < 0.0 || upper <= lower {
      return Err(InvalidBounds);
    }
    if tolerance <= 0.0 || limit <= 0 {
      return Err(InvalidLimits);
    }
    var lowerPrice := price(0.0);
    if observed < lowerPrice - tolerance || observed > upperStatic + tolerance {
      return Err(OutsideStaticBounds);
    }
    if Abs(observed - lowerPrice) <= tolerance {
      return Ok(Solution(Some(0.0), true, 0, lowerPrice - observed, IntrinsicBoundary));
    }
    var low, high := lower, upper;
    var lowError, highError := price(low) - observed, price(high) - observed;
    if lowError > 0.0 || highError < 0.0 {
      var least := if Abs(lowError) <= Abs(highError) then Abs(lowError) else Abs(highError);
      return Ok(Solution(None, false, 0, least, RootNotBracketed));
    }
    var error, midpoint := lowError, low;
    ghost var start := Bracket(lower, upper);
    var iteration := 1;
    while iteration <= limit
      invariant 1 <= iteration <= limit + 1
      invariant Bracket(low, high) == BracketAfter(price, observed, start, iteration - 1)
      invariant forall k: nat | 0 < k < iteration :: !Hits(price, observed, start, tolerance, k)
      invariant iteration > 1 ==>
                  && midpoint == BracketAfter(price, observed, start, iteration - 2).Midpoint()
                  && error == ErrorAt(price, observed, start, iteration - 1)
    {
      midpoint := (low + high) / 2.0;
      error := price(midpoint) - observed;
      assert error == ErrorAt(price, observed, start, iteration);
      if Abs(error) <= tolerance {
        return Ok(Solution(Some(midpoint), true, iteration, error, Converged));
      }
      assert !Hits(price, observed, start, tolerance, iteration);
      if error < 0.0 {
        low := midpoint;
      } else {
        high := midpoint;
      }
      iteration := iteration + 1;
    }
    return Ok(Solution(Some(midpoint), false, limit, error, MaximumIterationsReached));
  }

  // ---- What the bracket keeps ----

  /** After any number of halvings the bracket still holds the observed price, inside the start, at an exact width. */
  lemma {:induction false} BracketHolds(price: real -> real, observed: real, start: Bracket, halvings: nat)
    requires start.low <= start.high && price(start.low) <= observed <= price(start.high)
    ensures
      var bracket := BracketAfter(price, observed, start, halvings);
      && price(bracket.low) <= observed <= price(bracket.high)
      && start.low <= bracket.low <= bracket.high <= start.high
      && bracket.Width() == Halved(start.Width(), halvings)
  {
    if halvings == 0 {
    } else {
      BracketHolds(price, observed, start, halvings - 1);
    }
  }

  ghost predicate NonDecreasing(price: real -> real) {
    forall x: real, y: real :: x <= y ==> price(x) <= price(y)
  }

  /**
   With a price that never falls, every volatility that prices exactly at the observed price stays bracketed, or
   ties with an end.
   */
  lemma {:induction false} RootStaysBracketed(
    price: real -> real, observed: real, start: Bracket, halvings: nat, root: real)
    requires NonDecreasing(price) && price(root) == observed && start.low <= root <= start.high
    ensures
      var bracket := BracketAfter(price, observed, start, halvings);
      && bracket.low <= root
      && (root <= bracket.high || price(bracket.high) == observed)
  {
    if halvings == 0 {
    } else {
      RootStaysBracketed(price, observed, start, halvings - 1, root);
      var before := BracketAfter(price, observed, start, halvings - 1);
      var midpoint := before.Midpoint();
      assert midpoint <= root ==> price(midpoint) <= price(root);
      assert root <= midpoint ==> price(root) <= price(midpoint);
      assert before.high <= root && before.low <= before.high ==> midpoint <= before.high;
    }
  }

  /** A price never moves by more than the slope times the move in volatility. */
  ghost predicate Lipschitz(price: real -> real, slope: real) {
    forall x: real, y: real :: MovesWithin(price, slope, x, y)
  }

  predicate MovesWithin(price: real -> real, slope: real, x: real, y: real) {
    x <= y ==> Abs(price(y) - price(x)) <= Rise(slope, y - x)
  }

  function Rise(slope: real, distance: real): real {
    slope * distance
  }

  lemma RiseIsProduct(slope: real, distance: real)
    ensures Rise(slope, distance) == slope * distance
  {
  }

  /** The midpoint's price is off by at most the slope times half the bracket. */
  lemma WithinHalfBracket(price: real -> real, slope: real, observed: real, bracket: Bracket)
    requires Lipschitz(price, slope) && bracket.low <= bracket.high
    requires price(bracket.low) <= observed <= price(bracket.high)
    ensures Abs(price(bracket.Midpoint()) - observed) <= Rise(slope, bracket.Width() / 2.0)
  {
    var midpoint := bracket.Midpoint();
    assert MovesWithin(price, slope, bracket.low, midpoint) && MovesWithin(price, slope, midpoint, bracket.high);
    assert midpoint - bracket.low == bracket.Width() / 2.0 && bracket.high - midpoint == bracket.Width() / 2.0;
  }

  /**
   With a Lipschitz price, convergence is certain once the slope times the bracket, halved as often as
   there are iterations, is within the tolerance.
   */
  lemma LipschitzConverges(
    price: real -> real, slope: real, observed: real, start: Bracket, tolerance: real, limit: nat, solution: Solution)
    requires Lipschitz(price, slope) && start.low <= start.high && limit > 0
    requires price(start.low) <= observed <= price(start.high)
    requires Rise(slope, Halved(start.Width(), limit)) <= tolerance
    requires Bisects(price, observed, start, tolerance, limit, solution)
    ensures solution.converged && Abs(price(solution.volatility.value) - observed) <= tolerance
  {
    LastMidpointHits(price, slope, observed, start, tolerance, limit);
  }

  lemma LastMidpointHits(price: real -> real, slope: real, observed: real, start: Bracket, tolerance: real, limit: nat)
    requires Lipschitz(price, slope) && start.low <= start.high && limit > 0
    requires price(start.low) <= observed <= price(start.high)
    requires Rise(slope, Halved(start.Width(), limit)) <= tolerance
    ensures Hits(price, observed, start, tolerance, limit)
  {
    BracketHolds(price, observed, start, limit - 1);
    WithinHalfBracket(price, slope, observed, BracketAfter(price, observed, start, limit - 1));
  }
}
