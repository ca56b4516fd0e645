/** When a run is entered: the checks on the straddle before anything is bought, in their order. */
module EngineEntry {
  import opened Wrappers
  import opened Money
  import opened Engine
  import opened EngineSafety
  import opened EngineTrades

  /** What buying both options costs. */
  function Premium(config: Config, state: MarketState): int
    requires config.Valid()
  {
    var call, put := Bought(config, config.call, state), Bought(config, config.put, state);
    call.grossNotional + call.totalCost + put.grossNotional + put.totalCost
  }

  /** The theta of the straddle for a year. */
  function AnnualTheta(config: Config, state: MarketState): real {
    config.model(config.call, state).theta * (config.units * config.call.multiplier) as real
    + config.model(config.put, state).theta * (config.units * config.put.multiplier) as real
  }

  /** A check fails for a reason. */
  predicate Fails(config: Config, state: MarketState, reason: EntryRejection)
    requires config.Valid()
  {
    var risk := config.risk;
    match reason
    case PremiumAtRisk => Premium(config, state) > Round(risk.startingNav * risk.premiumFraction)
    case OptionSpread => config.requireQuoteQuality && config.relativeSpread > risk.maximumRelativeSpread
    case OptionVolume => config.requireLiquidity && config.volume < 1
    case OptionOpenInterest => config.requireLiquidity && config.openInterest < 1
    case StraddleIntegrity => config.call.multiplier != config.put.multiplier
    case DailyTheta =>
      Round(Abs(AnnualTheta(config, state)) / config.rule.periodsPerYear as real)
      > Round(risk.startingNav * risk.thetaFraction)
  }

  function CheckOrder(): seq<EntryRejection> {
    [PremiumAtRisk, OptionSpread, OptionVolume, OptionOpenInterest, StraddleIntegrity, DailyTheta]
  }

  /** The first check that fails. */
  ghost predicate FailsFirst(config: Config, state: MarketState, reason: EntryRejection)
    requires config.Valid()
  {
    exists k: nat | k < |CheckOrder()| ::
      && reason == CheckOrder()[k] && Fails(config, state, reason)
      && (forall j: nat | j < k :: !Fails(config, state, CheckOrder()[j]))
  }

  lemma EntryFillIsBought(config: Config, contract: Contract, state: MarketState)
    requires config.Valid()
    ensures EntryFill(config, contract, state) == Bought(config, contract, state)
  {
  }

  lemma ThetaIsAnnual(config: Config, state: MarketState)
    ensures Value(config, config.call, state).theta + Value(config, config.put, state).theta
            == AnnualTheta(config, state)
  {
  }

  /** The entry check finds the first failing check, or none. */
  lemma RejectedExactly(config: Config, state: MarketState)
    requires config.Valid() && state.Valid()
    ensures
      match EntryRejected(
        config, EntryFill(config, config.call, state), EntryFill(config, config.put, state), state)
      case None => forall reason :: !Fails(config, state, reason)
      case Some(reason) => FailsFirst(config, state, reason)
  {
    EntryFillIsBought(config, config.call, state);
    EntryFillIsBought(config, config.put, state);
    ThetaIsAnnual(config, state);
    var rejected := EntryRejected(
      config, EntryFill(config, config.call, state), EntryFill(config, config.put, state), state);
    if rejected.Some? {
      var k: nat := match rejected.value
        case PremiumAtRisk => 0
        case OptionSpread => 1
        case OptionVolume => 2
        case OptionOpenInterest => 3
        case StraddleIntegrity => 4
        case DailyTheta => 5;
      assert rejected.value == CheckOrder()[k];
    }
  }

  lemma OneFailsFirst(config: Config, state: MarketState, a: EntryRejection, b: EntryRejection)
    requires config.Valid() && FailsFirst(config, state, a) && FailsFirst(config, state, b)
    ensures a == b
  {
    var i: nat :| i < |CheckOrder()| && a == CheckOrder()[i] && Fails(config, state, a)
                  && forall j: nat | j < i :: !Fails(config, state, CheckOrder()[j]);
    var k: nat :| k < |CheckOrder()| && b == CheckOrder()[k] && Fails(config, state, b)
                  && forall j: nat | j < k :: !Fails(config, state, CheckOrder()[j]);
    assert !(i < k) && !(k < i);
  }

  /**
   A run of three different instruments comes to a result exactly when it has states and no entry check fails at the
   first; otherwise it is refused for the path or for the first check that fails, before anything is booked.
   */
  lemma RunsExactlyWhen(config: Config, states: seq<MarketState>, reason: EntryRejection)
    requires config.Valid() && config.DistinctInstruments() && (forall s <- states :: s.Valid())
    ensures SimulationOf(config, states) == Err(EmptyPath) <==> states == []
    ensures SimulationOf(config, states).Ok?
            <==> states != [] && forall failing :: !Fails(config, states[0], failing)
    ensures SimulationOf(config, states) == Err(EntryRefused(reason))
            <==> states != [] && FailsFirst(config, states[0], reason)
  {
    LedgerNeverRefuses(config, states);
    if states != [] {
      RejectedExactly(config, states[0]);
      EnterEstablishes(config, states[0]);
      RunFromSettles(config, EntryNotional(config, states[0]), states, Enter(config, states[0]).0);
      var rejected := EntryRejected(
        config, EntryFill(config, config.call, states[0]), EntryFill(config, config.put, states[0]), states[0]);
      if rejected.Some? && FailsFirst(config, states[0], reason) {
        OneFailsFirst(config, states[0], rejected.value, reason);
      }
    }
  }
}
