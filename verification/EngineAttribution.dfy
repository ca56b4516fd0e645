/** The attribution of a run against the option profit its fills booked. */
module EngineAttribution {
  import opened Money
  import opened Fills
  import opened Hedging
  import opened Risk
  import opened Engine
  import opened EngineSafety
  import opened EngineLimits
  import opened Attribution

  /** Two valuation records for each state. */
  function AllValuations(config: Config, states: seq<MarketState>): seq<ValuationRecord> {
    if states == [] then []
    else AllValuations(config, states[..|states| - 1]) + ValuePair(config, states[|states| - 1])
  }

  lemma ResolveKeepsValuations(config: Config, run: RunState, state: MarketState, control: Control)
    requires config.Valid() && state.Valid() && Ready(config, run.book)
    requires !Resolve(config, run, state, control).Crash?
    ensures Resolve(config, run, state, control).run.valuations == run.valuations
  {
    match control
    case GiveUp(_) =>
    case Keep(decision) =>
      assert Execute(config, run, state, decision.requested).0.valuations == run.valuations;
    case Force(decision) =>
      assert Execute(config, run, state, decision.requested).0.valuations == run.valuations;
  }

  lemma StepAddsValuations(config: Config, run: RunState, state: MarketState, isFinal: bool)
    requires config.Valid() && state.Valid() && Ready(config, run.book)
    requires !StepState(config, run, state, isFinal).Crash?
    ensures StepState(config, run, state, isFinal).run.valuations == run.valuations + ValuePair(config, state)
  {
    var arrived := Arrive(config, run, state);
    var observed := Observe(config, state, arrived.book);
    var control := DeltaControl(config.policy, observed, config.risk.maximumAbsoluteDelta);
    if !Resolve(config, arrived, state, control).Crash? {
      ResolveKeepsValuations(config, arrived, state, control);
    }
  }

  /** The run has valued exactly the first `n` states. */
  ghost predicate Valued(config: Config, states: seq<MarketState>, n: nat, run: RunState) {
    n <= |states| && run.valuations == AllValuations(config, states[..n])
  }

  lemma ValuedOneMore(config: Config, states: seq<MarketState>, i: nat, run: RunState, after: RunState)
    requires i < |states| && Valued(config, states, i, run)
    requires after.valuations == run.valuations + ValuePair(config, states[i])
    ensures Valued(config, states, i + 1, after)
  {
    assert states[..i + 1][..i] == states[..i];
  }

  lemma StepValues(config: Config, optionCash: int, states: seq<MarketState>, i: nat, run: RunState)
    requires config.Valid() && config.DistinctInstruments() && (forall s <- states :: s.Valid())
    requires i < |states| && BookInv(config, optionCash, run) && Valued(config, states, i, run)
    ensures !StepState(config, run, states[i], i == |states| - 1).Crash?
    ensures Valued(config, states, i + 1, StepState(config, run, states[i], i == |states| - 1).run)
  {
    StepKeeps(config, optionCash, run, states[i], i == |states| - 1);
    StepAddsValuations(config, run, states[i], i == |states| - 1);
    ValuedOneMore(config, states, i, run, StepState(config, run, states[i], i == |states| - 1).run);
  }

  ghost predicate OutcomeValued(config: Config, states: seq<MarketState>, outcome: Outcome) {
    outcome.Ended? && Valued(config, states, outcome.last + 1, outcome.run)
  }

  ghost predicate DistinctTimes(states: seq<MarketState>) {
    forall i, j :: 0 <= i < j < |states| ==> states[i].timestamp != states[j].timestamp
  }

  /** The dictionary finds each state's own valuation of each contract, and nothing else. */
  ghost predicate Indexed(config: Config, states: seq<MarketState>, index: map<Key, ValuationRecord>) {
    && (forall i: nat | i < |states| ::
          && Key(states[i].timestamp, config.call.id) in index
          && index[Key(states[i].timestamp, config.call.id)] == Value(config, config.call, states[i])
          && Key(states[i].timestamp, config.put.id) in index
          && index[Key(states[i].timestamp, config.put.id)] == Value(config, config.put, states[i]))
    && (forall k <- index ::
          && index[k].quantity == config.units
          && (k.contract == config.call.id ==> index[k].multiplier == config.call.multiplier)
          && (k.contract == config.put.id ==> index[k].multiplier == config.put.multiplier)
          && (k.contract == config.call.id || k.contract == config.put.id))
  }

  lemma IndexPair(before: seq<ValuationRecord>, a: ValuationRecord, b: ValuationRecord)
    ensures Index(before + [a, b])
            == Index(before)[Key(a.timestamp, a.contract) := a][Key(b.timestamp, b.contract) := b]
  {
    assert (before + [a, b])[..|before| + 1] == before + [a];
    assert (before + [a])[..|before|] == before;
  }

  lemma IndexedOneMore(config: Config, states: seq<MarketState>, index: map<Key, ValuationRecord>)
    requires config.call.id != config.put.id && DistinctTimes(states) && states != []
    requires Indexed(config, states[..|states| - 1], index)
    ensures
      var last := states[|states| - 1];
      var call, put := Value(config, config.call, last), Value(config, config.put, last);
      Indexed(config, states,
        index[Key(last.timestamp, config.call.id) := call][Key(last.timestamp, config.put.id) := put])
  {
    var last := |states| - 1;
    forall i: nat | i < last ensures states[i].timestamp != states[last].timestamp && states[..last][i] == states[i] {
    }
  }

  lemma {:induction false} ValuationsIndexed(config: Config, states: seq<MarketState>)
    requires config.call.id != config.put.id && DistinctTimes(states)
    ensures Indexed(config, states, Index(AllValuations(config, states)))
  {
    if states == [] {
    } else {
      var last := |states| - 1;
      var before := AllValuations(config, states[..last]);
      ValuationsIndexed(config, states[..last]);
      IndexPair(before, Value(config, config.call, states[last]), Value(config, config.put, states[last]));
      IndexedOneMore(config, states, Index(before));
    }
  }

  /** The attribution the run computes from the states it processed. */
  function RunAttribution(config: Config, states: seq<MarketState>, result: SimulationResult): seq<AttributionRecord>
    requires result.last < |states|
    requires Covers(Index(result.run.valuations), states[..result.last + 1], [config.call.id, config.put.id])
  {
    Records(Index(result.run.valuations), states[..result.last + 1], [config.call.id, config.put.id])
  }

  lemma IndexedCovers(config: Config, states: seq<MarketState>, index: map<Key, ValuationRecord>)
    requires Indexed(config, states, index)
    ensures Covers(index, states, [config.call.id, config.put.id]) && Uniform(index)
  {
    var contracts := [config.call.id, config.put.id];
    forall i, c | 0 <= i < |states| && 0 <= c < |contracts| ensures Key(states[i].timestamp, contracts[c]) in index {
      assert contracts[c] == config.call.id || contracts[c] == config.put.id;
    }
  }

  /** The position's unrounded worth in one option. */
  function UnroundedWorth(config: Config, contract: Contract, state: MarketState): real {
    Scaled(config.model(contract, state).price, config.Units(contract) as real)
  }

  lemma ScaleTwice(price: real, units: int, multiplier: int)
    ensures price * units as real * multiplier as real == Scaled(price, (units * multiplier) as real)
  {
    assert (units * multiplier) as real == units as real * multiplier as real;
  }

  lemma WorthIsUnrounded(config: Config, states: seq<MarketState>, index: map<Key, ValuationRecord>, i: nat)
    requires Indexed(config, states, index) && i < |states|
    ensures Covers(index, [states[i]], [config.call.id, config.put.id])
    ensures WorthAt(index, states[i], [config.call.id, config.put.id])
            == UnroundedWorth(config, config.call, states[i]) + UnroundedWorth(config, config.put, states[i])
  {
    IndexedCovers(config, states, index);
    var contracts := [config.call.id, config.put.id];
    CoversState(index, states, contracts, i);
    ScaleTwice(config.model(config.call, states[i]).price, config.units, config.call.multiplier);
    ScaleTwice(config.model(config.put, states[i]).price, config.units, config.put.multiplier);
    assert contracts[..1] == [config.call.id] && [config.call.id][..0] == [];
    assert WorthAt(index, states[i], []) == 0.0;
    assert WorthAt(index, states[i], [config.call.id]) == Worth(index[Key(states[i].timestamp, config.call.id)]);
  }

  ghost function ValuedKept(config: Config, states: seq<MarketState>): (nat, RunState) -> bool {
    (j: nat, run: RunState) => Valued(config, states, j, run)
  }

  ghost function ValuedEnd(config: Config, states: seq<MarketState>): (nat, RunState, ExitReason) -> bool {
    (j: nat, run: RunState, reason: ExitReason) => Valued(config, states, j + 1, run)
  }

  lemma ValuedLead(config: Config, optionCash: int, states: seq<MarketState>, j: nat, run: RunState)
    requires config.Valid() && config.DistinctInstruments() && (forall s <- states :: s.Valid())
    ensures StepLeads(config, optionCash, states, ValuedKept(config, states), ValuedEnd(config, states), j, run)
  {
    if j < |states| && BookInv(config, optionCash, run) && ValuedKept(config, states)(j, run) {
      StepValues(config, optionCash, states, j, run);
    }
  }

  lemma OutcomeValues(config: Config, optionCash: int, states: seq<MarketState>, entered: RunState)
    requires config.Valid() && config.DistinctInstruments() && (forall s <- states :: s.Valid()) && states != []
    requires JustEntered(config, optionCash, entered)
    ensures OutcomeValued(config, states, LoopOutcome(config, states, entered))
  {
    forall j: nat, r: RunState
      ensures StepLeads(config, optionCash, states, ValuedKept(config, states), ValuedEnd(config, states), j, r)
    {
      ValuedLead(config, optionCash, states, j, r);
    }
    assert states[..0] == [];
    LoopInvariant(config, optionCash, states, 0, entered, ValuedKept(config, states), ValuedEnd(config, states));
  }

  /** The booked option profit, leg by leg: what the entry paid and the two rounded notionals of the exit. */
  lemma OptionProfitOfExit(
    config: Config, optionCash: int, states: seq<MarketState>, entered: RunState, result: SimulationResult)
    requires config.Valid() && config.DistinctInstruments() && (forall s <- states :: s.Valid()) && states != []
    requires BookInv(config, optionCash, entered) && IsSettledRun(config, states, entered, result)
    ensures result.last < |states|
    ensures
      result.reconciliation.optionPnl
      == optionCash + Round(UnroundedWorth(config, config.call, states[result.last]))
         + Round(UnroundedWorth(config, config.put, states[result.last]))
  {
    OutcomeCloses(config, optionCash, states, entered);
    var outcome := LoopOutcome(config, states, entered);
    var final := states[outcome.last];
    CloseOutKeeps(config, optionCash, outcome.run, final);
    ExitNotionalIsRounded(config, config.call, final);
    ExitNotionalIsRounded(config, config.put, final);
  }

  /** The entry paid two rounded notionals. */
  lemma EntryPaysRoundings(config: Config, initial: MarketState)
    requires config.Valid()
    ensures EntryNotional(config, initial)
            == -Round(UnroundedWorth(config, config.call, initial)) - Round(UnroundedWorth(config, config.put, initial))
  {
    EntryNotionalIsRounded(config, config.call, initial);
    EntryNotionalIsRounded(config, config.put, initial);
  }

  lemma EntryNotionalIsRounded(config: Config, contract: Contract, initial: MarketState)
    requires config.Valid()
    ensures EntryFill(config, contract, initial).SignedNotional() == -Round(UnroundedWorth(config, contract, initial))
  {
    var intent := EntryIntent(config, contract);
    assert intent.Units() == config.Units(contract) as real;
  }

  lemma ExitNotionalIsRounded(config: Config, contract: Contract, final: MarketState)
    requires config.Valid()
    ensures ExitNotional(config, contract, final) == Round(UnroundedWorth(config, contract, final))
  {
    var intent := Intent(CloseOption, contract.id, Sell, config.units, contract.multiplier);
    var price := config.model(contract, final).price;
    assert intent.Units() == config.Units(contract) as real;
    assert CloseOptionFill(config, contract, config.units, final) == Simulate(intent, price, config.optionCosts).value;
  }

  lemma FourRoundings(a: real, b: real, c: real, d: real)
    ensures Abs(c + d - a - b - (-Round(a) - Round(b) + Round(c) + Round(d)) as real) <= 2.0
  {
  }

  /** The Greeks of the straddle at a state, for the units and multipliers held. */
  function StraddleGreeks(config: Config, state: MarketState): Greeks {
    var call, put := config.model(config.call, state), config.model(config.put, state);
    var calls, puts := config.Units(config.call) as real, config.Units(config.put) as real;
    Greeks(
      call.delta * calls + put.delta * puts, call.gamma * calls + put.gamma * puts,
      call.theta * calls + put.theta * puts, call.vega * calls + put.vega * puts)
  }

  /** A record of a run: between two states it splits the change of the straddle's worth by the straddle's Greeks. */
  ghost predicate AttributesStraddle(config: Config, from: MarketState, to: MarketState, record: AttributionRecord) {
    && record.start == from.timestamp && record.end == to.timestamp
    && record.exact
       == UnroundedWorth(config, config.call, to) + UnroundedWorth(config, config.put, to)
          - UnroundedWorth(config, config.call, from) - UnroundedWorth(config, config.put, from)
    && PartsOf(
         Accumulated(record.exact, record.delta, record.gamma, record.theta, record.vega),
         StraddleGreeks(config, from), from, to)
    && record.exact == record.delta + record.gamma + record.theta + record.vega + record.residual
  }

  lemma GreeksOfStraddle(config: Config, states: seq<MarketState>, index: map<Key, ValuationRecord>, i: nat)
    requires Indexed(config, states, index) && i < |states|
    requires Covers(index, [states[i]], [config.call.id, config.put.id])
    ensures GreeksAt(index, states[i], [config.call.id, config.put.id]) == StraddleGreeks(config, states[i])
  {
    var contracts := [config.call.id, config.put.id];
    assert [states[i]][0] == states[i] && contracts[..1] == [config.call.id] && [config.call.id][..0] == [];
    assert GreeksAt(index, states[i], []) == Greeks(0.0, 0.0, 0.0, 0.0);
    var call := Value(config, config.call, states[i]);
    assert GreeksAt(index, states[i], [config.call.id]) == Greeks(call.delta, call.gamma, call.theta, call.vega);
  }

  lemma RecordsAttributeStraddle(config: Config, processed: seq<MarketState>, valuations: seq<ValuationRecord>)
    requires config.call.id != config.put.id && DistinctTimes(processed) && processed != []
    requires valuations == AllValuations(config, processed)
    ensures Covers(Index(valuations), processed, [config.call.id, config.put.id])
    ensures
      var records := Records(Index(valuations), processed, [config.call.id, config.put.id]);
      && |records| == |processed| - 1
      && (forall i: nat | i < |records| ::
            AttributesStraddle(config, processed[i], processed[i + 1], records[i]))
  {
    var index, contracts := Index(valuations), [config.call.id, config.put.id];
    ValuationsIndexed(config, processed);
    IndexedCovers(config, processed, index);
    RecordsAttribute(index, processed, contracts);
    var records := Records(index, processed, contracts);
    forall i: nat | i < |records| ensures AttributesStraddle(config, processed[i], processed[i + 1], records[i]) {
      assert AttributesAt(index, processed, contracts, records, i);
      WorthIsUnrounded(config, processed, index, i);
      WorthIsUnrounded(config, processed, index, i + 1);
      GreeksOfStraddle(config, processed, index, i);
    }
  }

  /**
   One record for each step of the run, each of which attributes the straddle; the exact mark changes are within two
   cents of the booked option profit, and the contributions with their residuals add up to them.
   */
  ghost predicate AttributionAgrees(config: Config, states: seq<MarketState>, result: SimulationResult) {
    && result.last < |states|
    && Covers(Index(result.run.valuations), states[..result.last + 1], [config.call.id, config.put.id])
    && |RunAttribution(config, states, result)| == result.last
    && (forall i: nat | i < result.last ::
          AttributesStraddle(config, states[i], states[i + 1], RunAttribution(config, states, result)[i]))
    && Abs(ExactTotal(RunAttribution(config, states, result)) - result.reconciliation.optionPnl as real) <= 2.0
    && ExplainedTotal(RunAttribution(config, states, result)) == ExactTotal(RunAttribution(config, states, result))
  }

  /**
   The exact option mark changes of a run's attribution add up to its booked option profit to
   within two cents: the four option fills are each rounded to a cent and nothing else differs.
   */
  lemma AttributionMatchesBookedProfit(config: Config, states: seq<MarketState>)
    requires config.Valid() && config.DistinctInstruments() && (forall s <- states :: s.Valid())
             && DistinctTimes(states)
    ensures SimulationOf(config, states).Ok? ==> AttributionAgrees(config, states, SimulationOf(config, states).value)
  {
    LedgerNeverRefuses(config, states);
    var simulation := SimulationOf(config, states);
    if simulation.Ok? {
      EnterHasNoDecisions(config, states[0]);
      EntryPaysRoundings(config, states[0]);
      SettledAttribution(
        config, EntryNotional(config, states[0]), states, Enter(config, states[0]).0, simulation.value);
    }
  }

  /** The run valued every state it processed. */
  lemma ResultValuesProcessed(
    config: Config, optionCash: int, states: seq<MarketState>, entered: RunState, result: SimulationResult)
    requires config.Valid() && config.DistinctInstruments() && (forall s <- states :: s.Valid()) && states != []
    requires JustEntered(config, optionCash, entered) && IsSettledRun(config, states, entered, result)
    ensures result.last < |states| && result.run.valuations == AllValuations(config, states[..result.last + 1])
  {
    OutcomeValues(config, optionCash, states, entered);
    var outcome := LoopOutcome(config, states, entered);
    assert result.last == outcome.last && result.run.valuations == outcome.run.valuations by {
      ResultKeepsOutcome(config, optionCash, states, entered, result);
    }
  }

  lemma SettledAttribution(
    config: Config, optionCash: int, states: seq<MarketState>, entered: RunState, result: SimulationResult)
    requires config.Valid() && config.DistinctInstruments() && (forall s <- states :: s.Valid()) && states != []
    requires JustEntered(config, optionCash, entered) && IsSettledRun(config, states, entered, result)
             && DistinctTimes(states)
    requires optionCash
             == -Round(UnroundedWorth(config, config.call, states[0]))
                - Round(UnroundedWorth(config, config.put, states[0]))
    ensures AttributionAgrees(config, states, result)
  {
    ResultValuesProcessed(config, optionCash, states, entered, result);
    OptionProfitOfExit(config, optionCash, states, entered, result);
    AgreesWhenRounded(config, states, result);
  }

  lemma AgreesWhenRounded(config: Config, states: seq<MarketState>, result: SimulationResult)
    requires config.call.id != config.put.id && DistinctTimes(states)
    requires result.last < |states| && result.run.valuations == AllValuations(config, states[..result.last + 1])
    requires
      var first, last := states[0], states[result.last];
      result.reconciliation.optionPnl
      == -Round(UnroundedWorth(config, config.call, first)) - Round(UnroundedWorth(config, config.put, first))
         + Round(UnroundedWorth(config, config.call, last)) + Round(UnroundedWorth(config, config.put, last))
    ensures AttributionAgrees(config, states, result)
  {
    StepsAttribute(config, states, result);
    RunTotals(config, states, result);
    WithinTwoCents(
      config, states[0], states[result.last], ExactTotal(RunAttribution(config, states, result)),
      result.reconciliation.optionPnl);
  }

  lemma StepsAttribute(config: Config, states: seq<MarketState>, result: SimulationResult)
    requires config.call.id != config.put.id && DistinctTimes(states)
    requires result.last < |states| && result.run.valuations == AllValuations(config, states[..result.last + 1])
    ensures Covers(Index(result.run.valuations), states[..result.last + 1], [config.call.id, config.put.id])
    ensures |RunAttribution(config, states, result)| == result.last
    ensures forall i: nat | i < result.last ::
              AttributesStraddle(config, states[i], states[i + 1], RunAttribution(config, states, result)[i])
  {
    var processed := states[..result.last + 1];
    RecordsAttributeStraddle(config, processed, result.run.valuations);
    forall i: nat | i < result.last
      ensures AttributesStraddle(config, states[i], states[i + 1], RunAttribution(config, states, result)[i])
    {
      assert processed[i] == states[i] && processed[i + 1] == states[i + 1];
    }
  }

  lemma RunTotals(config: Config, states: seq<MarketState>, result: SimulationResult)
    requires config.call.id != config.put.id && DistinctTimes(states)
    requires result.last < |states| && result.run.valuations == AllValuations(config, states[..result.last + 1])
    requires Covers(Index(result.run.valuations), states[..result.last + 1], [config.call.id, config.put.id])
    ensures
      var records, first, last := RunAttribution(config, states, result), states[0], states[result.last];
      && ExactTotal(records)
         == UnroundedWorth(config, config.call, last) + UnroundedWorth(config, config.put, last)
            - UnroundedWorth(config, config.call, first) - UnroundedWorth(config, config.put, first)
      && ExplainedTotal(records) == ExactTotal(records)
  {
    var processed := states[..result.last + 1];
    AttributionIsWorthChange(config, processed, result.run.valuations);
    assert processed[0] == states[0] && processed[|processed| - 1] == states[result.last];
  }

  lemma WithinTwoCents(config: Config, first: MarketState, last: MarketState, exact: real, booked: int)
    requires exact == UnroundedWorth(config, config.call, last) + UnroundedWorth(config, config.put, last)
                      - UnroundedWorth(config, config.call, first) - UnroundedWorth(config, config.put, first)
    requires booked == -Round(UnroundedWorth(config, config.call, first))
                       - Round(UnroundedWorth(config, config.put, first))
                       + Round(UnroundedWorth(config, config.call, last))
                       + Round(UnroundedWorth(config, config.put, last))
    ensures Abs(exact - booked as real) <= 2.0
  {
    FourRoundings(
      UnroundedWorth(config, config.call, first), UnroundedWorth(config, config.put, first),
      UnroundedWorth(config, config.call, last), UnroundedWorth(config, config.put, last));
  }

  lemma AttributionIsWorthChange(config: Config, processed: seq<MarketState>, valuations: seq<ValuationRecord>)
    requires config.call.id != config.put.id && DistinctTimes(processed) && processed != []
    requires valuations == AllValuations(config, processed)
    ensures Covers(Index(valuations), processed, [config.call.id, config.put.id])
    ensures
      var records := Records(Index(valuations), processed, [config.call.id, config.put.id]);
      var first, last := processed[0], processed[|processed| - 1];
      && ExactTotal(records)
         == UnroundedWorth(config, config.call, last) + UnroundedWorth(config, config.put, last)
            - UnroundedWorth(config, config.call, first) - UnroundedWorth(config, config.put, first)
      && ExplainedTotal(records) == ExactTotal(records)
  {
    var index := Index(valuations);
    ValuationsIndexed(config, processed);
    IndexedCovers(config, processed, index);
    ExactChangesTelescope(index, processed, [config.call.id, config.put.id]);
    WorthIsUnrounded(config, processed, index, 0);
    WorthIsUnrounded(config, processed, index, |processed| - 1);
  }
}
