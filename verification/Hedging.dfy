/** Hedge policies: each decides how many futures contracts to trade from the net delta it sees. */
module Hedging {
  import opened Money

  datatype Action = Hold | BuyHedge | SellHedge

  datatype Reason =
    | NeverHedges
    | OutsideScheduledStep
    | ScheduledRebalance
    | InsideBand
    | BandBreached
    | RoundedQuantityZero
    | ForcedHedge
    | Unhedgeable

  datatype PolicyState = PolicyState(
    stepIndex: nat,
    optionDelta: real,
    hedgeDelta: real,
    netDelta: real,
    optionGamma: real,
    spot: real,
    deltaPerContract: real)
  {
    predicate Valid() {
      netDelta == optionDelta + hedgeDelta && deltaPerContract > 0.0 && spot > 0.0
    }
  }

  datatype Decision = Decision(
    netDeltaBefore: real,
    target: real,
    action: Action,
    continuousQuantity: real,
    requested: int,
    executed: int,
    optionDeltaAfter: real,
    hedgeDeltaAfter: real,
    netDeltaAfter: real,
    residual: real,
    reason: Reason)

  /**
   The five policies. The cube root of the Whalley-Wilmott band is a parameter; all that is used of
   it is that it is not negative where its argument is not.
   */
  datatype Policy =
    | NoHedge
    | FixedInterval(interval: nat, fixedTarget: real)
    | DeltaThreshold(maximum: real, thresholdTarget: real)
    | ConstantBand(lower: real, upper: real)
    | WhalleyWilmott(costRate: real, riskAversion: real, maximumHalfWidth: real, cubeRoot: real -> real)
  {
    /** What the constructors of the source demand. */
    ghost predicate Valid() {
      match this
      case NoHedge => true
      case FixedInterval(interval, _) => interval > 0
      case DeltaThreshold(maximum, _) => maximum >= 0.0
      case ConstantBand(lower, upper) => lower < upper
      case WhalleyWilmott(costRate, riskAversion, maximumHalfWidth, cubeRoot) =>
        && costRate >= 0.0 && riskAversion > 0.0 && maximumHalfWidth > 0.0
        && (forall x :: x >= 0.0 ==> cubeRoot(x) >= 0.0)
    }
  }

  /** What the half width of the Whalley-Wilmott band is the cube root of. */
  function CubedWidth(costRate: real, riskAversion: real, spot: real, gamma: real): real
    requires riskAversion > 0.0
  {
    3.0 * costRate * spot * (gamma * gamma) / (2.0 * riskAversion)
  }

  function HalfWidth(
    costRate: real, riskAversion: real, maximumHalfWidth: real, cubeRoot: real -> real, spot: real, gamma: real): real
    requires riskAversion > 0.0
  {
    var raw := cubeRoot(CubedWidth(costRate, riskAversion, spot, gamma));
    if raw < maximumHalfWidth then raw else maximumHalfWidth
  }

  function HoldDecision(state: PolicyState, target: real, reason: Reason): Decision {
    Decision(
      state.netDelta, target, Hold, 0.0, 0, 0,
      state.optionDelta, state.hedgeDelta, state.netDelta, state.netDelta - target, reason)
  }

  /** The delta of a number of futures contracts. */
  function HedgeDelta(contracts: int, deltaPerContract: real): real {
    Scaled(contracts as real, deltaPerContract)
  }

  function TradeToTarget(state: PolicyState, target: real, reason: Reason): Decision
    requires state.Valid()
  {
    var continuous := (target - state.netDelta) / state.deltaPerContract;
    var requested := HalfEven(continuous);
    var after := state.netDelta + HedgeDelta(requested, state.deltaPerContract);
    if requested == 0 then
      Decision(
        state.netDelta, target, Hold, continuous, 0, 0,
        state.optionDelta, state.hedgeDelta, after, after - target, RoundedQuantityZero)
    else
      Decision(
        state.netDelta, target, if requested > 0 then BuyHedge else SellHedge, continuous, requested, requested,
        state.optionDelta, state.hedgeDelta + HedgeDelta(requested, state.deltaPerContract), after, after - target,
        reason)
  }

  function TradeToBand(state: PolicyState, lower: real, upper: real): Decision
    requires state.Valid()
  {
    if lower <= state.netDelta <= upper then HoldDecision(state, state.netDelta, InsideBand)
    else TradeToTarget(state, if state.netDelta < lower then lower else upper, BandBreached)
  }

  function Decide(policy: Policy, state: PolicyState): Decision
    requires policy.Valid() && state.Valid()
  {
    match policy
    case NoHedge => HoldDecision(state, state.netDelta, NeverHedges)
    case FixedInterval(interval, target) =>
      if state.stepIndex % interval != 0 then HoldDecision(state, target, OutsideScheduledStep)
      else TradeToTarget(state, target, ScheduledRebalance)
    case DeltaThreshold(maximum, target) =>
      if Abs(state.netDelta) <= maximum then HoldDecision(state, target, InsideBand)
      else TradeToTarget(state, target, BandBreached)
    case ConstantBand(lower, upper) => TradeToBand(state, lower, upper)
    case WhalleyWilmott(costRate, riskAversion, maximumHalfWidth, cubeRoot) =>
      var half := HalfWidth(costRate, riskAversion, maximumHalfWidth, cubeRoot, state.spot, Abs(state.optionGamma));
      TradeToBand(state, -half, half)
  }

  function ForceDeltaReduction(state: PolicyState): Decision
    requires state.Valid()
  {
    TradeToTarget(state, 0.0, ForcedHedge)
  }

  // ---- Rounding a hedge to whole contracts ----

  lemma ScaleDifference(x: real, y: real, d: real)
    ensures Scaled(x - y, d) == Scaled(x, d) - Scaled(y, d)
  {
  }

  lemma ScaleSign(x: real, d: real)
    requires d > 0.0
    ensures x >= 0.0 ==> Scaled(x, d) >= 0.0
    ensures x > 0.0 ==> Scaled(x, d) > 0.0
  {
  }

  lemma ScaleDistance(x: real, y: real, d: real)
    requires d > 0.0
    ensures Scaled(Abs(x - y), d) == Abs(Scaled(x, d) - Scaled(y, d))
  {
    if x >= y {
      ScaleDifference(x, y, d);
      ScaleSign(x - y, d);
    } else {
      ScaleDifference(y, x, d);
      ScaleSign(y - x, d);
    }
  }

  lemma ScaleOrder(x: real, y: real, d: real)
    requires d > 0.0 && x <= y
    ensures Scaled(x, d) <= Scaled(y, d)
  {
    ScaleDifference(y, x, d);
    ScaleSign(y - x, d);
  }

  /** How far from the target a trade of some contracts leaves the net delta. */
  function Miss(net: real, target: real, d: real, contracts: int): real {
    Abs(net + HedgeDelta(contracts, d) - target)
  }

  /** A trade of `n` contracts misses the target by the distance from `n` to the continuous quantity, in contracts. */
  lemma TradedDistance(net: real, target: real, d: real, n: int, continuous: real)
    requires d > 0.0 && Scaled(continuous, d) == target - net
    ensures Scaled(Abs(n as real - continuous), d) == Miss(net, target, d, n)
  {
    ScaleDistance(n as real, continuous, d);
  }

  /** The number of contracts nearer to the continuous quantity misses the target by less. */
  lemma NearerMissesLess(net: real, target: real, d: real, n: int, m: int, continuous: real)
    requires d > 0.0 && Scaled(continuous, d) == target - net
    requires Abs(n as real - continuous) <= Abs(m as real - continuous)
    ensures Miss(net, target, d, n) <= Miss(net, target, d, m)
  {
    TradedDistance(net, target, d, n, continuous);
    TradedDistance(net, target, d, m, continuous);
    ScaleOrder(Abs(n as real - continuous), Abs(m as real - continuous), d);
  }

  lemma WithinHalfMissesHalf(net: real, target: real, d: real, n: int, continuous: real)
    requires d > 0.0 && Scaled(continuous, d) == target - net && Abs(n as real - continuous) <= 0.5
    ensures Miss(net, target, d, n) <= d / 2.0
  {
    TradedDistance(net, target, d, n, continuous);
    ScaleOrder(Abs(n as real - continuous), 0.5, d);
  }

  lemma RoundedDistance(net: real, target: real, d: real, requested: int, other: int, continuous: real)
    requires d > 0.0 && Scaled(continuous, d) == target - net && requested == HalfEven(continuous)
    ensures Miss(net, target, d, requested) <= Miss(net, target, d, other)
    ensures Miss(net, target, d, requested) <= d / 2.0
  {
    HalfEvenNearest(continuous, other);
    NearerMissesLess(net, target, d, requested, other, continuous);
    WithinHalfMissesHalf(net, target, d, requested, continuous);
  }

  lemma QuotientTimes(x: real, d: real)
    requires d > 0.0
    ensures Scaled(x / d, d) == x
  {
  }

  /**
   The rounded hedge is optimal: no other whole number of contracts ends nearer the target, and it
   ends within half a contract of it.
   */
  lemma RoundedHedgeIsOptimal(state: PolicyState, target: real, reason: Reason, other: int)
    requires state.Valid()
    ensures
      var decision := TradeToTarget(state, target, reason);
      && Abs(decision.netDeltaAfter - target)
         <= Abs(state.netDelta + HedgeDelta(other, state.deltaPerContract) - target)
      && Abs(decision.netDeltaAfter - target) <= state.deltaPerContract / 2.0
  {
    var d := state.deltaPerContract;
    var continuous := (target - state.netDelta) / d;
    QuotientTimes(target - state.netDelta, d);
    RoundedDistance(state.netDelta, target, d, HalfEven(continuous), other, continuous);
  }

  lemma QuotientWithinHalf(x: real, d: real)
    requires d > 0.0
    ensures Abs(x / d) <= 0.5 <==> Abs(x) <= d / 2.0
  {
    var q := x / d;
    QuotientTimes(x, d);
    ScaleDistance(q, 0.0, d);
    if Abs(q) <= 0.5 {
      ScaleOrder(Abs(q), 0.5, d);
    } else {
      ScaleDifference(Abs(q), 0.5, d);
      ScaleSign(Abs(q) - 0.5, d);
    }
  }

  /** A request is zero exactly when the net delta is already within half a contract of the target. */
  lemma RequestIsZero(state: PolicyState, target: real, reason: Reason)
    requires state.Valid()
    ensures TradeToTarget(state, target, reason).requested == 0
            <==> Abs(target - state.netDelta) <= state.deltaPerContract / 2.0
  {
    HalfEvenSign((target - state.netDelta) / state.deltaPerContract);
    QuotientWithinHalf(target - state.netDelta, state.deltaPerContract);
  }

  /** A decision that acts only outside a band and then ends within half a contract of the nearest boundary. */
  ghost predicate EndsAtNearestBoundary(decision: Decision, state: PolicyState, lower: real, upper: real) {
    var nearest := if state.netDelta < lower then lower else if state.netDelta > upper then upper else state.netDelta;
    && Abs(decision.netDeltaAfter - nearest) <= state.deltaPerContract / 2.0
    && (decision.requested != 0 ==> state.netDelta < lower || state.netDelta > upper)
    && (decision.requested > 0 ==> state.netDelta < lower)
    && (decision.requested < 0 ==> state.netDelta > upper)
  }

  lemma RequestSign(state: PolicyState, target: real, reason: Reason)
    requires state.Valid()
    ensures TradeToTarget(state, target, reason).requested > 0 ==> state.netDelta < target
    ensures TradeToTarget(state, target, reason).requested < 0 ==> state.netDelta > target
  {
    var continuous := (target - state.netDelta) / state.deltaPerContract;
    HalfEvenSign(continuous);
    QuotientTimes(target - state.netDelta, state.deltaPerContract);
    if continuous >= 0.0 {
      ScaleOrder(0.0, continuous, state.deltaPerContract);
    } else {
      ScaleOrder(continuous, 0.0, state.deltaPerContract);
    }
  }

  lemma BandPolicyEndsAtNearestBoundary(state: PolicyState, lower: real, upper: real)
    requires state.Valid() && lower <= upper
    ensures EndsAtNearestBoundary(TradeToBand(state, lower, upper), state, lower, upper)
  {
    if !(lower <= state.netDelta <= upper) {
      var target := if state.netDelta < lower then lower else upper;
      RoundedHedgeIsOptimal(state, target, BandBreached, 0);
      RequestSign(state, target, BandBreached);
    }
  }

  lemma CubedWidthIsPositive(costRate: real, riskAversion: real, spot: real, gamma: real)
    requires costRate >= 0.0 && riskAversion > 0.0 && spot >= 0.0
    ensures CubedWidth(costRate, riskAversion, spot, gamma) >= 0.0
  {
    assert gamma * gamma >= 0.0;
    assert 3.0 * costRate * spot >= 0.0;
    assert 3.0 * costRate * spot * (gamma * gamma) >= 0.0;
  }

  /** Half the width of the band the Whalley-Wilmott policy uses at a state. */
  function HalfWidthAt(policy: Policy, state: PolicyState): real
    requires policy.WhalleyWilmott? && policy.riskAversion > 0.0
  {
    HalfWidth(
      policy.costRate, policy.riskAversion, policy.maximumHalfWidth, policy.cubeRoot, state.spot,
      Abs(state.optionGamma))
  }

  /**
   The Whalley-Wilmott band is centred on zero and its half width is the cube root, capped at the configured
   maximum; outside it the policy ends within half a contract of the nearer boundary.
   */
  lemma WhalleyWilmottEndsAtNearestBoundary(policy: Policy, state: PolicyState)
    requires policy.WhalleyWilmott? && policy.Valid() && state.Valid()
    ensures
      var half, raw :=
        HalfWidthAt(policy, state),
        policy.cubeRoot(CubedWidth(policy.costRate, policy.riskAversion, state.spot, Abs(state.optionGamma)));
      && 0.0 <= half <= policy.maximumHalfWidth && half <= raw && (half == raw || half == policy.maximumHalfWidth)
      && EndsAtNearestBoundary(Decide(policy, state), state, -half, half)
  {
    CubedWidthIsPositive(policy.costRate, policy.riskAversion, state.spot, Abs(state.optionGamma));
    BandPolicyEndsAtNearestBoundary(state, -HalfWidthAt(policy, state), HalfWidthAt(policy, state));
  }

  /** A decision's trade is the whole change of the hedge delta and of the net delta. */
  ghost predicate Accounts(decision: Decision, state: PolicyState) {
    && decision.executed == decision.requested
    && decision.netDeltaAfter == state.netDelta + HedgeDelta(decision.requested, state.deltaPerContract)
    && decision.hedgeDeltaAfter == state.hedgeDelta + HedgeDelta(decision.requested, state.deltaPerContract)
    && (decision.action == Hold <==> decision.requested == 0)
    && (decision.action == BuyHedge <==> decision.requested > 0)
    && decision.residual == decision.netDeltaAfter - decision.target
  }

  lemma TradeAccounts(state: PolicyState, target: real, reason: Reason)
    requires state.Valid()
    ensures Accounts(TradeToTarget(state, target, reason), state)
  {
    assert HedgeDelta(0, state.deltaPerContract) == 0.0;
  }

  lemma HoldAccounts(state: PolicyState, target: real, reason: Reason)
    ensures Accounts(HoldDecision(state, target, reason), state)
  {
    assert HedgeDelta(0, state.deltaPerContract) == 0.0;
  }

  lemma BandAccounts(state: PolicyState, lower: real, upper: real)
    requires state.Valid()
    ensures Accounts(TradeToBand(state, lower, upper), state)
  {
    HoldAccounts(state, state.netDelta, InsideBand);
    TradeAccounts(state, if state.netDelta < lower then lower else upper, BandBreached);
  }

  /** Every policy's decision accounts for itself. */
  lemma DecisionAccounts(policy: Policy, state: PolicyState)
    requires policy.Valid() && state.Valid()
    ensures Accounts(Decide(policy, state), state)
  {
    match policy
    case NoHedge => HoldAccounts(state, state.netDelta, NeverHedges);
    case FixedInterval(_, target) =>
      HoldAccounts(state, target, OutsideScheduledStep);
      TradeAccounts(state, target, ScheduledRebalance);
    case DeltaThreshold(_, target) =>
      HoldAccounts(state, target, InsideBand);
      TradeAccounts(state, target, BandBreached);
    case ConstantBand(lower, upper) => BandAccounts(state, lower, upper);
    case WhalleyWilmott(costRate, riskAversion, maximumHalfWidth, cubeRoot) =>
      var half := HalfWidth(costRate, riskAversion, maximumHalfWidth, cubeRoot, state.spot, Abs(state.optionGamma));
      BandAccounts(state, -half, half);
  }

  // ---- The forced hedge ----

  /** What the state loop does with a policy decision: keep it, replace it by the forced hedge, or give up. */
  datatype Control = Keep(decision: Decision) | Force(decision: Decision) | GiveUp(predicted: real)

  function DeltaControl(policy: Policy, state: PolicyState, limit: real): Control
    requires policy.Valid() && state.Valid()
  {
    var decision := Decide(policy, state);
    if Abs(decision.netDeltaAfter) > limit then
      var forced := ForceDeltaReduction(state);
      var reduces := forced.requested != 0 && Abs(forced.netDeltaAfter) < Abs(state.netDelta);
      if !reduces || Abs(forced.netDeltaAfter) > limit then GiveUp(forced.netDeltaAfter) else Force(forced)
    else Keep(decision)
  }

  /** The forced hedge reduces the net delta exactly when that is more than half a contract. */
  lemma ForcedHedgeReduces(state: PolicyState)
    requires state.Valid()
    ensures
      var forced := ForceDeltaReduction(state);
      (forced.requested != 0 && Abs(forced.netDeltaAfter) < Abs(state.netDelta))
      <==> Abs(state.netDelta) > state.deltaPerContract / 2.0
  {
    RequestIsZero(state, 0.0, ForcedHedge);
    RoundedHedgeIsOptimal(state, 0.0, ForcedHedge, 0);
  }

  /**
   Exactly when the run gives up: the policy's decision ends over the limit, and either the net
   delta was within half a contract of zero or even the nearest whole hedge stays over the limit.
   */
  lemma GivesUpExactlyWhen(policy: Policy, state: PolicyState, limit: real)
    requires policy.Valid() && state.Valid()
    ensures
      DeltaControl(policy, state, limit).GiveUp?
      <==> (&& Abs(Decide(policy, state).netDeltaAfter) > limit
            && (|| Abs(state.netDelta) <= state.deltaPerContract / 2.0
                || Abs(ForceDeltaReduction(state).netDeltaAfter) > limit))
  {
    ForcedHedgeReduces(state);
  }

  /** Whatever is not given up ends within the limit and accounts for itself. */
  lemma ControlledDeltaWithinLimit(policy: Policy, state: PolicyState, limit: real)
    requires policy.Valid() && state.Valid() && !DeltaControl(policy, state, limit).GiveUp?
    ensures
      var decision := DeltaControl(policy, state, limit).decision;
      Abs(decision.netDeltaAfter) <= limit && Accounts(decision, state)
  {
    DecisionAccounts(policy, state);
    TradeAccounts(state, 0.0, ForcedHedge);
  }

  /** With a limit of at least half a contract, a net delta over the limit is always brought back within it. */
  lemma BreachIsAlwaysHedged(policy: Policy, state: PolicyState, limit: real)
    requires policy.Valid() && state.Valid()
    requires Abs(state.netDelta) > limit >= state.deltaPerContract / 2.0
    ensures !DeltaControl(policy, state, limit).GiveUp?
    ensures Abs(Decide(policy, state).netDeltaAfter) > limit ==>
              DeltaControl(policy, state, limit) == Force(ForceDeltaReduction(state))
  {
    GivesUpExactlyWhen(policy, state, limit);
    RoundedHedgeIsOptimal(state, 0.0, ForcedHedge, 0);
  }
}
