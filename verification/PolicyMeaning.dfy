/** What each hedge policy asks for at a state, and what is done with it, told from the net delta alone. */
module PolicyMeaning {
  import opened Money
  import opened Hedging

  /** A whole number of contracts that ends nearest the target; of two that end equally near, the even one. */
  predicate NearestTrade(state: PolicyState, target: real, contracts: int) {
    var miss, d := Abs(state.netDelta + HedgeDelta(contracts, state.deltaPerContract) - target), state.deltaPerContract;
    miss <= d / 2.0 && (miss == d / 2.0 ==> contracts % 2 == 0)
  }

  /** A decision that trades to a target, for the reason given or for none when nothing is to be traded. */
  predicate Aims(decision: Decision, state: PolicyState, target: real, reason: Reason) {
    && decision.target == target && NearestTrade(state, target, decision.requested)
    && decision.continuousQuantity * state.deltaPerContract == target - state.netDelta
    && decision.reason == if decision.requested == 0 then RoundedQuantityZero else reason
  }

  /** A decision that trades nothing. */
  predicate Holds(decision: Decision, target: real, reason: Reason) {
    decision.target == target && decision.requested == 0 && decision.continuousQuantity == 0.0
    && decision.reason == reason
  }

  /** Inside the band nothing is traded; outside it the nearer boundary is traded to. */
  predicate KeepsBand(decision: Decision, state: PolicyState, lower: real, upper: real) {
    if state.netDelta < lower then Aims(decision, state, lower, BandBreached)
    else if state.netDelta > upper then Aims(decision, state, upper, BandBreached)
    else Holds(decision, state.netDelta, InsideBand)
  }

  /** The step is one of every `interval`, counting from zero. */
  ghost predicate OnSchedule(step: nat, interval: nat) {
    exists k: nat :: step == k * interval
  }

  /** What a policy asks for. */
  ghost predicate Asks(policy: Policy, state: PolicyState, decision: Decision)
    requires policy.Valid()
  {
    match policy
    case NoHedge => Holds(decision, state.netDelta, NeverHedges)
    case FixedInterval(interval, target) =>
      if OnSchedule(state.stepIndex, interval) then Aims(decision, state, target, ScheduledRebalance)
      else Holds(decision, target, OutsideScheduledStep)
    case DeltaThreshold(maximum, target) =>
      if -maximum <= state.netDelta <= maximum then Holds(decision, target, InsideBand)
      else Aims(decision, state, target, BandBreached)
    case ConstantBand(lower, upper) => KeepsBand(decision, state, lower, upper)
    case WhalleyWilmott(_, _, _, _) =>
      KeepsBand(decision, state, -HalfWidthAt(policy, state), HalfWidthAt(policy, state))
  }

  /** So many contracts carry so many times the delta of one. */
  lemma ContractsDelta(contracts: int, d: real)
    ensures HedgeDelta(contracts, d) == contracts as real * d
  {
  }

  lemma MultipleOf(step: nat, interval: nat)
    requires interval > 0
    ensures step % interval == 0 <==> OnSchedule(step, interval)
  {
    var q := step / interval;
    assert step == q * interval + step % interval;
    if k: nat :| step == k * interval {
      assert (k - q) * interval == step % interval;
      SmallMultiple(k - q, interval);
    }
  }

  lemma SmallMultiple(x: int, interval: int)
    requires 0 <= x * interval < interval
    ensures x == 0
  {
    MultiplesGrow(x, interval);
  }

  lemma MultiplesGrow(x: int, interval: int)
    requires interval > 0
    ensures x > 0 ==> x * interval >= interval
    ensures x < 0 ==> x * interval <= -interval
  {
  }

  /** Half a contract of delta is half a contract: rounding compares the same in contracts as in delta. */
  lemma HalfContract(distance: real, d: real)
    requires d > 0.0 && distance >= 0.0
    ensures Scaled(distance, d) <= d / 2.0 <==> distance <= 0.5
    ensures Scaled(distance, d) == d / 2.0 <==> distance == 0.5
  {
    if distance <= 0.5 {
      ScaleOrder(distance, 0.5, d);
    } else {
      ScaleDifference(distance, 0.5, d);
      ScaleSign(distance - 0.5, d);
    }
    if distance < 0.5 {
      ScaleDifference(0.5, distance, d);
      ScaleSign(0.5 - distance, d);
    }
  }

  /** The requested contracts are the nearest trade, and no other number is. */
  lemma RequestIsNearest(state: PolicyState, target: real, reason: Reason, contracts: int)
    requires state.Valid()
    ensures NearestTrade(state, target, contracts)
            <==> contracts == TradeToTarget(state, target, reason).requested
  {
    var continuous := (target - state.netDelta) / state.deltaPerContract;
    QuotientTimes(target - state.netDelta, state.deltaPerContract);
    NearestIsRounded(state, target, contracts, continuous);
  }

  lemma NearestIsRounded(state: PolicyState, target: real, contracts: int, continuous: real)
    requires state.deltaPerContract > 0.0 && Scaled(continuous, state.deltaPerContract) == target - state.netDelta
    ensures NearestTrade(state, target, contracts) <==> contracts == HalfEven(continuous)
  {
    TradedDistance(state.netDelta, target, state.deltaPerContract, contracts, continuous);
    HalfContract(Abs(contracts as real - continuous), state.deltaPerContract);
    HalfEvenCharacterized(continuous, contracts);
  }

  lemma TradeAims(state: PolicyState, target: real, reason: Reason)
    requires state.Valid()
    ensures Aims(TradeToTarget(state, target, reason), state, target, reason)
  {
    RequestIsNearest(state, target, reason, TradeToTarget(state, target, reason).requested);
    QuotientTimes(target - state.netDelta, state.deltaPerContract);
  }

  lemma BandKept(state: PolicyState, lower: real, upper: real)
    requires state.Valid() && lower <= upper
    ensures KeepsBand(TradeToBand(state, lower, upper), state, lower, upper)
  {
    TradeAims(state, lower, BandBreached);
    TradeAims(state, upper, BandBreached);
  }

  /** Every policy asks for what it stands for. */
  lemma PolicyAsks(policy: Policy, state: PolicyState)
    requires policy.Valid() && state.Valid()
    ensures Asks(policy, state, Decide(policy, state))
  {
    match policy
    case NoHedge =>
    case FixedInterval(interval, target) =>
      MultipleOf(state.stepIndex, interval);
      TradeAims(state, target, ScheduledRebalance);
    case DeltaThreshold(_, target) => TradeAims(state, target, BandBreached);
    case ConstantBand(lower, upper) => BandKept(state, lower, upper);
    case WhalleyWilmott(_, _, _, _) =>
      WhalleyWilmottEndsAtNearestBoundary(policy, state);
      BandKept(state, -HalfWidthAt(policy, state), HalfWidthAt(policy, state));
  }

  /**
   The half width of the Whalley-Wilmott band, where the cube root is one: below its cap it solves
   `2 * riskAversion * width^3 == 3 * costRate * spot * gamma^2`.
   */
  lemma WidthSolvesItsEquation(policy: Policy, state: PolicyState)
    requires policy.WhalleyWilmott? && policy.Valid() && state.Valid()
    requires forall x: real :: x >= 0.0 ==> policy.cubeRoot(x) * policy.cubeRoot(x) * policy.cubeRoot(x) == x
    ensures
      var width, gamma := HalfWidthAt(policy, state), state.optionGamma;
      width < policy.maximumHalfWidth ==>
        2.0 * policy.riskAversion * (width * width * width) == 3.0 * policy.costRate * state.spot * (gamma * gamma)
  {
    var gamma := Abs(state.optionGamma);
    var cubed := CubedWidth(policy.costRate, policy.riskAversion, state.spot, gamma);
    CubedWidthIsPositive(policy.costRate, policy.riskAversion, state.spot, gamma);
    var root := policy.cubeRoot(cubed);
    assert root * root * root == cubed;
    QuotientTwice(3.0 * policy.costRate * state.spot * (gamma * gamma), policy.riskAversion);
    assert gamma * gamma == state.optionGamma * state.optionGamma;
  }

  lemma QuotientTwice(x: real, a: real)
    requires a > 0.0
    ensures 2.0 * a * (x / (2.0 * a)) == x
  {
  }

  /** What becomes of a policy's decision under a limit on the net delta. */
  ghost predicate Controls(policy: Policy, state: PolicyState, limit: real, control: Control)
    requires policy.Valid() && state.Valid()
  {
    var asked := Decide(policy, state);
    match control
    case Keep(decision) => decision == asked && -limit <= asked.netDeltaAfter <= limit
    case Force(decision) =>
      && !(-limit <= asked.netDeltaAfter <= limit)
      && Aims(decision, state, 0.0, ForcedHedge) && Accounts(decision, state)
      && decision.requested != 0 && Abs(decision.netDeltaAfter) < Abs(state.netDelta)
      && -limit <= decision.netDeltaAfter <= limit
    case GiveUp(predicted) =>
      && !(-limit <= asked.netDeltaAfter <= limit)
      && (exists contracts ::
            && NearestTrade(state, 0.0, contracts)
            && predicted == state.netDelta + HedgeDelta(contracts, state.deltaPerContract)
            && (contracts == 0 || Abs(predicted) >= Abs(state.netDelta) || Abs(predicted) > limit))
  }

  /**
   A policy's decision is kept exactly when it ends within the limit; otherwise the nearest trade to zero is forced,
   when it trades, brings the net delta closer and ends within the limit; otherwise the run gives up.
   */
  lemma DeltaIsControlled(policy: Policy, state: PolicyState, limit: real)
    requires policy.Valid() && state.Valid()
    ensures Controls(policy, state, limit, DeltaControl(policy, state, limit))
  {
    var forced := ForceDeltaReduction(state);
    TradeAims(state, 0.0, ForcedHedge);
    TradeAccounts(state, 0.0, ForcedHedge);
    assert forced.netDeltaAfter == state.netDelta + HedgeDelta(forced.requested, state.deltaPerContract);
  }
}
