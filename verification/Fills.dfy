/** Order intents, execution costs and the fill they produce. */
module Fills {
  import opened Wrappers
  import opened Money

  /** An opaque instrument identifier. */
  type InstrumentId = nat

  datatype Side = Buy | Sell

  datatype CostParameters = CostParameters(
    fixedPerOrder: real,
    notionalRate: real,
    halfSpreadPerUnit: real,
    slippagePerUnit: real)
  {
    predicate Valid() {
      fixedPerOrder >= 0.0 && notionalRate >= 0.0 && halfSpreadPerUnit >= 0.0 && slippagePerUnit >= 0.0
    }
  }

  datatype OrderKind = OpenStraddle | Hedge | CloseOption | CloseFutures

  datatype Intent = Intent(kind: OrderKind, instrument: InstrumentId, side: Side, quantity: int, multiplier: int) {
    predicate Valid() {
      quantity > 0 && multiplier > 0
    }

    /** Units of the underlying the order covers. */
    function Units(): real {
      (quantity * multiplier) as real
    }
  }

  /** Every amount of a fill is a whole number of cents. */
  datatype Fill = Fill(
    kind: OrderKind,
    instrument: InstrumentId,
    side: Side,
    quantity: int,
    multiplier: int,
    referencePrice: int,
    fillPrice: int,
    grossNotional: int,
    halfSpreadCost: int,
    slippageCost: int,
    fixedCost: int,
    proportionalCost: int,
    totalCost: int)
  {
    /** Contracts bought, negative when sold. */
    function SignedQuantity(): int {
      if side == Buy then quantity else -quantity
    }

    /** Cash received at the reference price, negative when paid. */
    function SignedNotional(): int {
      if side == Sell then grossNotional else -grossNotional
    }

    predicate Valid() {
      quantity > 0 && multiplier > 0
    }
  }

  function Max(x: real, y: real): real {
    if x >= y then x else y
  }

  /** A negative reference price is refused; otherwise the fill rounds each amount on its own. */
  function Simulate(intent: Intent, reference: real, costs: CostParameters): (result: Result<Fill, string>)
    ensures result.Ok? <==> reference >= 0.0
  {
    if reference < 0.0 then Err("fill reference price must be non-negative")
    else
      var direction := if intent.side == Buy then 1.0 else -1.0;
      var adjustment := costs.halfSpreadPerUnit + costs.slippagePerUnit;
      var units := intent.Units();
      var gross := Round(Scaled(reference, units));
      var halfSpread := Round(Scaled(costs.halfSpreadPerUnit, units));
      var slippage := Round(Scaled(costs.slippagePerUnit, units));
      var proportional := Round(Scaled(costs.notionalRate, gross as real));
      var fixed := Round(costs.fixedPerOrder);
      Ok(Fill(
        intent.kind, intent.instrument, intent.side, intent.quantity, intent.multiplier,
        Round(reference),
        Round(Max(reference + direction * adjustment, 0.0)),
        gross, halfSpread, slippage, fixed, proportional,
        halfSpread + slippage + proportional + fixed))
  }

  /** Scaling a non-negative amount by whole units and rounding leaves it non-negative. */
  lemma ScaledRound(amount: real, units: real)
    requires amount >= 0.0 && units >= 0.0
    ensures Round(Scaled(amount, units)) >= 0
  {
    assert amount * units >= 0.0;
    HalfEvenSign(amount * units);
  }

  /** No cost component is negative and neither is the notional. */
  lemma FillAmounts(intent: Intent, reference: real, costs: CostParameters)
    requires intent.Valid() && costs.Valid() && reference >= 0.0
    ensures
      var fill := Simulate(intent, reference, costs).value;
      && fill.halfSpreadCost >= 0 && fill.slippageCost >= 0 && fill.fixedCost >= 0
      && fill.proportionalCost >= 0 && fill.totalCost >= 0 && fill.grossNotional >= 0
  {
    var units := intent.Units();
    PositiveProduct(intent.quantity, intent.multiplier);
    ScaledRound(reference, units);
    ScaledRound(costs.halfSpreadPerUnit, units);
    ScaledRound(costs.slippagePerUnit, units);
    ScaledRound(costs.notionalRate, Round(Scaled(reference, units)) as real);
    HalfEvenSign(costs.fixedPerOrder);
  }

  /** The booked notional is within half a cent of the unrounded one. */
  lemma NotionalError(intent: Intent, reference: real, costs: CostParameters)
    requires reference >= 0.0
    ensures Abs(Simulate(intent, reference, costs).value.grossNotional as real - Scaled(reference, intent.Units()))
            <= 0.5
  {
  }

  /** What the costs of an order would be without rounding, on the notional that was booked. */
  function UnroundedCost(intent: Intent, gross: int, costs: CostParameters): real {
    Scaled(costs.halfSpreadPerUnit, intent.Units()) + Scaled(costs.slippagePerUnit, intent.Units())
    + Scaled(costs.notionalRate, gross as real) + costs.fixedPerOrder
  }

  /** The four cost components are rounded one by one, so their total is within two cents of the unrounded costs. */
  lemma CostError(intent: Intent, reference: real, costs: CostParameters)
    requires reference >= 0.0
    ensures
      var fill := Simulate(intent, reference, costs).value;
      && fill.totalCost == fill.halfSpreadCost + fill.slippageCost + fill.proportionalCost + fill.fixedCost
      && Abs(fill.totalCost as real - UnroundedCost(intent, fill.grossNotional, costs)) <= 2.0
  {
    var fill := Simulate(intent, reference, costs).value;
    FourErrors(
      fill.halfSpreadCost, Scaled(costs.halfSpreadPerUnit, intent.Units()),
      fill.slippageCost, Scaled(costs.slippagePerUnit, intent.Units()),
      fill.proportionalCost, Scaled(costs.notionalRate, fill.grossNotional as real),
      fill.fixedCost, costs.fixedPerOrder);
  }

  lemma FourErrors(a: int, x: real, b: int, y: real, c: int, z: real, d: int, w: real)
    requires a == Round(x) && b == Round(y) && c == Round(z) && d == Round(w)
    ensures Abs((a + b + c + d) as real - (x + y + z + w)) <= 2.0
  {
    assert (a + b + c + d) as real == a as real + b as real + c as real + d as real;
  }

  lemma PositiveProduct(x: int, y: int)
    requires x > 0 && y > 0
    ensures x * y > 0
  {
  }

  /** Execution is never better than the reference: a buyer pays at least it and a seller receives at most it. */
  lemma FillIsAdverse(intent: Intent, reference: real, costs: CostParameters)
    requires costs.Valid() && reference >= 0.0
    ensures
      var fill := Simulate(intent, reference, costs).value;
      && fill.fillPrice >= 0
      && (intent.side == Buy ==> fill.fillPrice >= fill.referencePrice)
      && (intent.side == Sell ==> fill.fillPrice <= fill.referencePrice)
  {
    var direction := if intent.side == Buy then 1.0 else -1.0;
    var executed := Max(reference + direction * (costs.halfSpreadPerUnit + costs.slippagePerUnit), 0.0);
    HalfEvenSign(executed);
    if intent.side == Buy {
      HalfEvenMonotone(reference, executed);
    } else {
      HalfEvenMonotone(executed, reference);
    }
  }

  /** The whole number of cents nearest to an amount, the even one at a tie. */
  predicate IsRounded(cents: int, amount: real) {
    Abs(cents as real - amount) <= 0.5 && (Abs(cents as real - amount) == 0.5 ==> cents % 2 == 0)
  }

  lemma RoundIsRounded(amount: real)
    ensures IsRounded(Round(amount), amount)
  {
    HalfEvenCharacterized(amount, Round(amount));
  }

  lemma ScaledIsProduct(amount: real, units: real)
    ensures Scaled(amount, units) == amount * units
  {
  }

  lemma OrderUnits(intent: Intent)
    ensures intent.Units() == (intent.quantity * intent.multiplier) as real
  {
  }

  /**
   What a fill books of its order: each amount is rounded on its own, the proportional cost from the booked
   notional.
   */
  lemma FillBooksOrder(intent: Intent, reference: real, costs: CostParameters)
    requires reference >= 0.0
    ensures
      var fill, units := Simulate(intent, reference, costs).value, intent.Units();
      && fill.kind == intent.kind && fill.instrument == intent.instrument && fill.side == intent.side
      && fill.quantity == intent.quantity && fill.multiplier == intent.multiplier
      && IsRounded(fill.referencePrice, reference) && IsRounded(fill.grossNotional, Scaled(reference, units))
      && IsRounded(fill.halfSpreadCost, Scaled(costs.halfSpreadPerUnit, units))
      && IsRounded(fill.slippageCost, Scaled(costs.slippagePerUnit, units))
      && IsRounded(fill.proportionalCost, Scaled(costs.notionalRate, fill.grossNotional as real))
      && IsRounded(fill.fixedCost, costs.fixedPerOrder)
  {
    var units := intent.Units();
    RoundIsRounded(reference);
    RoundIsRounded(Scaled(reference, units));
    RoundIsRounded(Scaled(costs.halfSpreadPerUnit, units));
    RoundIsRounded(Scaled(costs.slippagePerUnit, units));
    RoundIsRounded(Scaled(costs.notionalRate, Round(Scaled(reference, units)) as real));
    RoundIsRounded(costs.fixedPerOrder);
  }

  /** The price moves against the order by spread and slippage, never below zero. */
  lemma FillPriceIsAdverse(intent: Intent, reference: real, costs: CostParameters)
    requires reference >= 0.0 && costs.Valid()
    ensures
      var price := Simulate(intent, reference, costs).value.fillPrice;
      var adverse := costs.halfSpreadPerUnit + costs.slippagePerUnit;
      if intent.side == Buy then IsRounded(price, reference + adverse)
      else IsRounded(price, if reference < adverse then 0.0 else reference - adverse)
  {
    var adverse := costs.halfSpreadPerUnit + costs.slippagePerUnit;
    RoundIsRounded(Max(reference + adverse, 0.0));
    RoundIsRounded(Max(reference - adverse, 0.0));
    AdversePrice(intent, reference, costs);
  }

  lemma AdversePrice(intent: Intent, reference: real, costs: CostParameters)
    requires reference >= 0.0
    ensures
      var adverse := costs.halfSpreadPerUnit + costs.slippagePerUnit;
      Simulate(intent, reference, costs).value.fillPrice
      == Round(Max(if intent.side == Buy then reference + adverse else reference - adverse, 0.0))
  {
  }
}
