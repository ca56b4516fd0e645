/** Which policies can make a run give up on its net delta, told from their parameters and the limit alone. */
module Hedgeability {
  import opened Money
  import opened Hedging

  /** Whatever the state, the policy's decision or the forced hedge is carried out. */
  ghost predicate NeverGivesUp(policy: Policy, d: real, limit: real)
    requires policy.Valid()
  {
    forall state: PolicyState ::
      state.Valid() && state.deltaPerContract == d ==> !DeltaControl(policy, state, limit).GiveUp?
  }

  /** The greatest multiple of the contract delta that is at most the limit and the threshold together. */
  function LastMultiple(limit: real, maximum: real, d: real): real
    requires d > 0.0
  {
    HedgeDelta(((limit + maximum) / d).Floor, d)
  }

  /**
   What a policy's parameters must satisfy. A target counts with half a contract on top, because a hedge may
   end that far beyond it; it does not count where no net delta within half a contract of zero is traded to it.
   */
  predicate TargetsWithin(policy: Policy, d: real, limit: real)
    requires d > 0.0
  {
    match policy
    case NoHedge => true
    case FixedInterval(_, target) => Abs(target) + d / 2.0 <= limit
    case DeltaThreshold(maximum, target) =>
      || maximum >= d / 2.0
      || Abs(target) + d / 2.0 <= limit
      || Abs(target) + d / 2.0 <= LastMultiple(limit, maximum, d) + maximum
    case ConstantBand(lower, upper) =>
      && (lower <= 0.0 || lower + d / 2.0 <= limit)
      && (upper >= 0.0 || -upper + d / 2.0 <= limit)
    case WhalleyWilmott(_, _, _, _) => true
  }

  predicate Hedgeable(policy: Policy, d: real, limit: real)
    requires d > 0.0
  {
    limit >= d / 2.0 && TargetsWithin(policy, d, limit)
  }

  // ---- Whole contracts ----

  lemma HedgeDifference(m: int, n: int, d: real)
    ensures HedgeDelta(m - n, d) == HedgeDelta(m, d) - HedgeDelta(n, d)
  {
    assert (m - n) as real == m as real - n as real;
    ScaleDifference(m as real, n as real, d);
  }

  /** No contract, or at least one in either direction. */
  lemma HedgeAtLeastOne(n: int, d: real)
    requires d > 0.0
    ensures n == 0 ==> HedgeDelta(n, d) == 0.0
    ensures n >= 1 ==> HedgeDelta(n, d) >= d
    ensures n <= -1 ==> HedgeDelta(n, d) <= -d
  {
    assert Scaled(1.0, d) == d && Scaled(-1.0, d) == -d;
    if n >= 1 {
      ScaleOrder(1.0, n as real, d);
    } else if n <= -1 {
      ScaleOrder(n as real, -1.0, d);
    }
  }

  /** Every delta is within half a contract of some whole number of them. */
  lemma Reduce(a: real, d: real) returns (net: real, n: int)
    requires d > 0.0
    ensures Abs(net) <= d / 2.0 && net + HedgeDelta(n, d) == a
  {
    n := HalfEven(a / d);
    net := a - HedgeDelta(n, d);
    QuotientTimes(a, d);
    ScaleDistance(a / d, n as real, d);
    ScaleOrder(Abs(a / d - n as real), 0.5, d);
    assert Scaled(0.5, d) == d / 2.0;
  }

  /** A hedge ends at the one reachable net delta that is strictly nearer to the target than half a contract. */
  lemma Lands(state: PolicyState, target: real, reason: Reason, n: int)
    requires state.Valid() && Miss(state.netDelta, target, state.deltaPerContract, n) < state.deltaPerContract / 2.0
    ensures TradeToTarget(state, target, reason).netDeltaAfter == state.netDelta + HedgeDelta(n, state.deltaPerContract)
  {
    var d := state.deltaPerContract;
    var continuous := (target - state.netDelta) / d;
    QuotientTimes(target - state.netDelta, d);
    TradedDistance(state.netDelta, target, d, n, continuous);
    assert Scaled(0.5, d) == d / 2.0;
    if Abs(n as real - continuous) >= 0.5 {
      ScaleOrder(0.5, Abs(n as real - continuous), d);
    }
    assert HalfEven(continuous) == n;
  }

  // ---- With a limit below half a contract ----

  /** Half a contract from zero, nothing brings the net delta under a smaller limit. */
  lemma HalfContractGivesUp(policy: Policy, state: PolicyState, limit: real)
    requires policy.Valid() && state.Valid()
    requires state.netDelta == state.deltaPerContract / 2.0 && limit < state.deltaPerContract / 2.0
    ensures DeltaControl(policy, state, limit).GiveUp?
  {
    DecisionAccounts(policy, state);
    HedgeAtLeastOne(Decide(policy, state).requested, state.deltaPerContract);
    GivesUpExactlyWhen(policy, state, limit);
  }

  // ---- With a limit of at least half a contract ----

  /** Then only a net delta within half a contract of zero can be given up on. */
  lemma GivesUpInside(policy: Policy, state: PolicyState, limit: real)
    requires policy.Valid() && state.Valid() && limit >= state.deltaPerContract / 2.0
    ensures
      DeltaControl(policy, state, limit).GiveUp?
      <==> Abs(Decide(policy, state).netDeltaAfter) > limit && Abs(state.netDelta) <= state.deltaPerContract / 2.0
  {
    GivesUpExactlyWhen(policy, state, limit);
    RoundedHedgeIsOptimal(state, 0.0, ForcedHedge, 0);
  }

  lemma TradeWithin(state: PolicyState, target: real, reason: Reason)
    requires state.Valid()
    ensures Abs(TradeToTarget(state, target, reason).netDeltaAfter) <= Abs(target) + state.deltaPerContract / 2.0
  {
    RoundedHedgeIsOptimal(state, target, reason, 0);
  }

  lemma NearTargetHolds(state: PolicyState, target: real, reason: Reason)
    requires state.Valid() && Abs(target - state.netDelta) <= state.deltaPerContract / 2.0
    ensures TradeToTarget(state, target, reason).netDeltaAfter == state.netDelta
  {
    RequestIsZero(state, target, reason);
    HedgeAtLeastOne(0, state.deltaPerContract);
  }

  /** A net delta a whole number of contracts from within `width` of a multiple of them is itself near zero, or far. */
  lemma NearMultiple(net: real, n: int, multiple: int, offset: real, width: real, d: real)
    requires d > 0.0 && Abs(offset) <= width < d / 2.0
    requires net + HedgeDelta(n, d) == HedgeDelta(multiple, d) + offset
    ensures Abs(net) <= width || Abs(net) > d / 2.0
  {
    HedgeDifference(multiple, n, d);
    HedgeAtLeastOne(multiple - n, d);
  }

  lemma HedgeNegated(n: int, d: real)
    ensures HedgeDelta(-n, d) == -HedgeDelta(n, d)
  {
    HedgeDifference(0, n, d);
    assert HedgeDelta(0, d) == 0.0 && 0 - n == -n;
  }

  lemma LastMultipleBelow(limit: real, maximum: real, d: real)
    requires d > 0.0
    ensures LastMultiple(limit, maximum, d) <= limit + maximum < LastMultiple(limit, maximum, d) + d
  {
    var m := ((limit + maximum) / d).Floor;
    QuotientTimes(limit + maximum, d);
    ScaleOrder(m as real, (limit + maximum) / d, d);
    HedgeDifference(m + 1, m, d);
    HedgeAtLeastOne(1, d);
    assert HedgeDelta(1, d) == d;
    ScaleDifference((m + 1) as real, (limit + maximum) / d, d);
    ScaleSign((m + 1) as real - (limit + maximum) / d, d);
  }

  /** The targets a threshold policy can reach over the limit are all reached from within its threshold. */
  lemma ThresholdSafe(state: PolicyState, maximum: real, target: real, limit: real)
    requires state.Valid() && 0.0 <= maximum < Abs(state.netDelta) <= state.deltaPerContract / 2.0
    requires limit >= state.deltaPerContract / 2.0
    requires Abs(target) + state.deltaPerContract / 2.0
             <= LastMultiple(limit, maximum, state.deltaPerContract) + maximum
    ensures Abs(TradeToTarget(state, target, BandBreached).netDeltaAfter) <= limit
  {
    var d, net := state.deltaPerContract, state.netDelta;
    var decision := TradeToTarget(state, target, BandBreached);
    var n, after := decision.requested, decision.netDeltaAfter;
    TradeWithin(state, target, BandBreached);
    TradeAccounts(state, target, BandBreached);
    LastMultipleBelow(limit, maximum, d);
    var m := ((limit + maximum) / d).Floor;
    if after > limit {
      NearMultiple(net, n, m, after - HedgeDelta(m, d), maximum, d);
    } else if -after > limit {
      HedgeNegated(n, d);
      NearMultiple(-net, -n, m, -after - HedgeDelta(m, d), maximum, d);
    }
  }

  lemma BandSafe(state: PolicyState, lower: real, upper: real, limit: real)
    requires state.Valid() && Abs(state.netDelta) <= state.deltaPerContract / 2.0 <= limit
    requires lower <= 0.0 || lower + state.deltaPerContract / 2.0 <= limit
    requires upper >= 0.0 || -upper + state.deltaPerContract / 2.0 <= limit
    ensures Abs(TradeToBand(state, lower, upper).netDeltaAfter) <= limit
  {
    if state.netDelta < lower {
      TradeWithin(state, lower, BandBreached);
      if lower <= 0.0 {
        NearTargetHolds(state, lower, BandBreached);
      }
    } else if state.netDelta > upper {
      TradeWithin(state, upper, BandBreached);
      if upper >= 0.0 {
        NearTargetHolds(state, upper, BandBreached);
      }
    }
  }

  lemma HedgeableKeeps(policy: Policy, state: PolicyState, limit: real)
    requires policy.Valid() && state.Valid() && Hedgeable(policy, state.deltaPerContract, limit)
    ensures !DeltaControl(policy, state, limit).GiveUp?
  {
    GivesUpInside(policy, state, limit);
    if Abs(state.netDelta) <= state.deltaPerContract / 2.0 {
      match policy
      case NoHedge =>
      case FixedInterval(_, target) => TradeWithin(state, target, ScheduledRebalance);
      case DeltaThreshold(maximum, target) =>
        TradeWithin(state, target, BandBreached);
        if maximum < Abs(state.netDelta) && Abs(target) + state.deltaPerContract / 2.0 > limit {
          ThresholdSafe(state, maximum, target, limit);
        }
      case ConstantBand(lower, upper) => BandSafe(state, lower, upper, limit);
      case WhalleyWilmott(_, _, _, _) =>
        WhalleyWilmottEndsAtNearestBoundary(policy, state);
        BandSafe(state, -HalfWidthAt(policy, state), HalfWidthAt(policy, state), limit);
    }
  }

  // ---- Where it is given up ----

  /** A state from which the policy trades to `target`. */
  ghost predicate TradesTo(policy: Policy, state: PolicyState, target: real)
    requires policy.Valid() && state.Valid()
  {
    exists reason :: Decide(policy, state) == TradeToTarget(state, target, reason)
  }

  /** The policy gives up at every first step with this net delta. */
  ghost predicate GivesUpAt(policy: Policy, d: real, limit: real, net: real)
    requires policy.Valid()
  {
    forall state: PolicyState ::
      state.Valid() && state.deltaPerContract == d && state.netDelta == net && state.stepIndex == 0 ==>
        DeltaControl(policy, state, limit).GiveUp?
  }

  /** A net delta over the limit that a hedge to the target can end at. */
  lemma Beyond(target: real, d: real, limit: real) returns (a: real)
    requires d > 0.0 && limit >= d / 2.0 && Abs(target) + d / 2.0 > limit
    ensures Abs(a) > limit && Abs(a - target) < d / 2.0 && (a > 0.0 <==> target >= 0.0)
  {
    var size := Abs(target);
    var low := if size - d / 2.0 > limit then size - d / 2.0 else limit;
    var x := (low + size + d / 2.0) / 2.0;
    a := if target >= 0.0 then x else -x;
  }

  /** Trading to a target from `net` ends at `net` and `n` contracts, over the limit. */
  lemma TradeGivesUp(policy: Policy, state: PolicyState, limit: real, target: real, n: int)
    requires policy.Valid() && state.Valid() && limit >= state.deltaPerContract / 2.0 && TradesTo(policy, state, target)
    requires Abs(state.netDelta) <= state.deltaPerContract / 2.0
    requires
      var after := state.netDelta + HedgeDelta(n, state.deltaPerContract);
      Abs(after) > limit && Abs(after - target) < state.deltaPerContract / 2.0
    ensures DeltaControl(policy, state, limit).GiveUp?
  {
    var reason :| Decide(policy, state) == TradeToTarget(state, target, reason);
    Lands(state, target, reason, n);
    GivesUpInside(policy, state, limit);
  }

  lemma FixedGivesUp(policy: Policy, d: real, limit: real) returns (net: real)
    requires policy.FixedInterval? && policy.Valid() && d > 0.0 && limit >= d / 2.0 && !TargetsWithin(policy, d, limit)
    ensures GivesUpAt(policy, d, limit, net) && Abs(net) <= d / 2.0
  {
    var target := policy.fixedTarget;
    var a := Beyond(target, d, limit);
    var n;
    net, n := Reduce(a, d);
    forall state: PolicyState
      | state.Valid() && state.deltaPerContract == d && state.netDelta == net && state.stepIndex == 0
      ensures DeltaControl(policy, state, limit).GiveUp?
    {
      assert Decide(policy, state) == TradeToTarget(state, target, ScheduledRebalance);
      TradeGivesUp(policy, state, limit, target, n);
    }
  }

  lemma BandGivesUp(policy: Policy, d: real, limit: real) returns (net: real)
    requires policy.ConstantBand? && policy.Valid() && d > 0.0 && limit >= d / 2.0 && !TargetsWithin(policy, d, limit)
    ensures GivesUpAt(policy, d, limit, net) && Abs(net) <= d / 2.0
  {
    var low := policy.lower > 0.0 && policy.lower + d / 2.0 > limit;
    var target := if low then policy.lower else policy.upper;
    var a := Beyond(target, d, limit);
    var n;
    net, n := Reduce(a, d);
    HedgeAtLeastOne(n, d);
    assert if low then net < policy.lower else net > policy.upper;
    forall state: PolicyState
      | state.Valid() && state.deltaPerContract == d && state.netDelta == net && state.stepIndex == 0
      ensures DeltaControl(policy, state, limit).GiveUp?
    {
      assert Decide(policy, state) == TradeToTarget(state, target, BandBreached);
      TradeGivesUp(policy, state, limit, target, n);
    }
  }

  /** A point strictly between two neighbouring multiples' surroundings is near no multiple. */
  lemma BetweenMultiples(net: real, n: int, multiple: int, x: real, width: real, d: real)
    requires d > 0.0 && net + HedgeDelta(n, d) == x
    requires HedgeDelta(multiple, d) + width < x < HedgeDelta(multiple, d) + d - width
    ensures Abs(net) > width
  {
    HedgeDifference(n, multiple, d);
    HedgeAtLeastOne(n - multiple, d);
    assert HedgeDelta(n - multiple, d) == x - net - HedgeDelta(multiple, d);
  }

  /** A target so far out that every hedge to it ends over the limit. */
  lemma FarThresholdGivesUp(policy: Policy, d: real, limit: real) returns (net: real)
    requires policy.DeltaThreshold? && policy.Valid() && d > 0.0 && limit >= d / 2.0
    requires policy.maximum < d / 2.0 && Abs(policy.thresholdTarget) - d / 2.0 > limit
    ensures GivesUpAt(policy, d, limit, net) && Abs(net) <= d / 2.0
  {
    net := d / 2.0;
    forall state: PolicyState
      | state.Valid() && state.deltaPerContract == d && state.netDelta == net && state.stepIndex == 0
      ensures DeltaControl(policy, state, limit).GiveUp?
    {
      RoundedHedgeIsOptimal(state, policy.thresholdTarget, BandBreached, 0);
      GivesUpInside(policy, state, limit);
    }
  }

  lemma ThresholdGivesUp(policy: Policy, d: real, limit: real) returns (net: real)
    requires policy.DeltaThreshold? && policy.Valid() && d > 0.0 && limit >= d / 2.0 && !TargetsWithin(policy, d, limit)
    ensures GivesUpAt(policy, d, limit, net) && Abs(net) <= d / 2.0
  {
    var maximum, target := policy.maximum, policy.thresholdTarget;
    var size, multiple := Abs(target), LastMultiple(limit, maximum, d);
    if size - d / 2.0 > limit {
      net := FarThresholdGivesUp(policy, d, limit);
      return;
    }
    LastMultipleBelow(limit, maximum, d);
    var low := if multiple + maximum > limit then multiple + maximum else limit;
    var high := if size + d / 2.0 < multiple + d - maximum then size + d / 2.0 else multiple + d - maximum;
    var x := (low + high) / 2.0;
    var a := if target >= 0.0 then x else -x;
    var n;
    net, n := Reduce(a, d);
    var m := ((limit + maximum) / d).Floor;
    HedgeNegated(n, d);
    if target >= 0.0 {
      BetweenMultiples(net, n, m, x, maximum, d);
    } else {
      BetweenMultiples(-net, -n, m, x, maximum, d);
    }
    forall state: PolicyState
      | state.Valid() && state.deltaPerContract == d && state.netDelta == net && state.stepIndex == 0
      ensures DeltaControl(policy, state, limit).GiveUp?
    {
      assert Decide(policy, state) == TradeToTarget(state, target, BandBreached);
      TradeGivesUp(policy, state, limit, target, n);
    }
  }

  /** A net delta within half a contract of zero at which an unhedgeable policy gives up. */
  lemma GivesUpSomewhere(policy: Policy, d: real, limit: real) returns (net: real)
    requires policy.Valid() && d > 0.0 && !Hedgeable(policy, d, limit)
    ensures GivesUpAt(policy, d, limit, net) && Abs(net) <= d / 2.0
  {
    if limit < d / 2.0 {
      net := d / 2.0;
      forall state: PolicyState
        | state.Valid() && state.deltaPerContract == d && state.netDelta == net && state.stepIndex == 0
        ensures DeltaControl(policy, state, limit).GiveUp?
      {
        HalfContractGivesUp(policy, state, limit);
      }
    } else if policy.FixedInterval? {
      net := FixedGivesUp(policy, d, limit);
    } else if policy.ConstantBand? {
      net := BandGivesUp(policy, d, limit);
    } else {
      net := ThresholdGivesUp(policy, d, limit);
    }
  }

  /**
   A policy never makes a run give up exactly when the limit covers half a contract and the policy's own
   targets, each with half a contract on top, wherever they can be traded to from near zero.
   */
  lemma NeverGivesUpExactlyWhen(policy: Policy, d: real, limit: real)
    requires policy.Valid() && d > 0.0
    ensures NeverGivesUp(policy, d, limit) <==> Hedgeable(policy, d, limit)
  {
    if Hedgeable(policy, d, limit) {
      forall state: PolicyState | state.Valid() && state.deltaPerContract == d
        ensures !DeltaControl(policy, state, limit).GiveUp?
      {
        HedgeableKeeps(policy, state, limit);
      }
    } else {
      var net := GivesUpSomewhere(policy, d, limit);
      var state := PolicyState(0, net, 0.0, net, 0.0, 1.0, d);
      assert state.Valid() && DeltaControl(policy, state, limit).GiveUp?;
    }
  }
}
