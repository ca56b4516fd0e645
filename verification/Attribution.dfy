/** Greek attribution of the option marks, interval by interval, and what its exact changes add up to. */
module Attribution {
  import opened Fills
  import opened Engine

  datatype AttributionRecord = AttributionRecord(
    start: int,
    end: int,
    exact: real,
    delta: real,
    gamma: real,
    theta: real,
    vega: real,
    residual: real)

  datatype Key = Key(timestamp: int, contract: InstrumentId)

  /** The dictionary of valuations; a later record of the same key replaces an earlier one. */
  function Index(valuations: seq<ValuationRecord>): map<Key, ValuationRecord> {
    if valuations == [] then map[]
    else
      var last := valuations[|valuations| - 1];
      Index(valuations[..|valuations| - 1])[Key(last.timestamp, last.contract) := last]
  }

  datatype Accumulated = Accumulated(exact: real, delta: real, gamma: real, theta: real, vega: real)

  /** What one contract contributes to an interval, each Greek as it was at the interval's start. */
  function Contribution(
    previous: ValuationRecord, current: ValuationRecord, from: MarketState, to: MarketState): Accumulated
  {
    var spotChange := to.spot - from.spot;
    Accumulated(
      (current.unitPrice - previous.unitPrice) * previous.quantity as real * previous.multiplier as real,
      previous.delta * spotChange,
      0.5 * previous.gamma * (spotChange * spotChange),
      previous.theta * to.stepYearFraction,
      previous.vega * (to.impliedVolatility - from.impliedVolatility))
  }

  function Add(total: Accumulated, part: Accumulated): Accumulated {
    Accumulated(
      total.exact + part.exact, total.delta + part.delta, total.gamma + part.gamma,
      total.theta + part.theta, total.vega + part.vega)
  }

  ghost predicate Covers(index: map<Key, ValuationRecord>, states: seq<MarketState>, contracts: seq<InstrumentId>) {
    forall i, c | 0 <= i < |states| && 0 <= c < |contracts| :: Key(states[i].timestamp, contracts[c]) in index
  }

  function Accumulate(
    index: map<Key, ValuationRecord>, from: MarketState, to: MarketState, contracts: seq<InstrumentId>): Accumulated
    requires Covers(index, [from, to], contracts)
  {
    if contracts == [] then Accumulated(0.0, 0.0, 0.0, 0.0, 0.0)
    else
      var last := |contracts| - 1;
      var contract := contracts[last];
      assert [from, to][0] == from && [from, to][1] == to;
      assert Key([from, to][0].timestamp, contract) in index && Key([from, to][1].timestamp, contract) in index;
      Add(
        Accumulate(index, from, to, contracts[..last]),
        Contribution(index[Key(from.timestamp, contract)], index[Key(to.timestamp, contract)], from, to))
  }

  function Interval(
    index: map<Key, ValuationRecord>, from: MarketState, to: MarketState,
    contracts: seq<InstrumentId>): AttributionRecord
    requires Covers(index, [from, to], contracts)
  {
    var total := Accumulate(index, from, to, contracts);
    AttributionRecord(
      from.timestamp, to.timestamp, total.exact, total.delta, total.gamma, total.theta, total.vega,
      total.exact - (total.delta + total.gamma + total.theta + total.vega))
  }

  /** The attribution as a sequence. */
  function Records(
    index: map<Key, ValuationRecord>, states: seq<MarketState>, contracts: seq<InstrumentId>): seq<AttributionRecord>
    requires Covers(index, states, contracts)
  {
    if |states| < 2 then []
    else
      var last := |states| - 1;
      CoversLast(index, states, contracts);
      Records(index, states[..last], contracts) + [Interval(index, states[last - 1], states[last], contracts)]
  }

  lemma CoversLast(index: map<Key, ValuationRecord>, states: seq<MarketState>, contracts: seq<InstrumentId>)
    requires Covers(index, states, contracts) && |states| >= 2
    ensures Covers(index, states[..|states| - 1], contracts)
    ensures Covers(index, [states[|states| - 2], states[|states| - 1]], contracts)
  {
  }

  /** The attribution loop: one record for each pair of neighbouring states. */
  method CalculateGreekAttribution(
    states: seq<MarketState>, valuations: seq<ValuationRecord>, contracts: seq<InstrumentId>)
    returns (records: seq<AttributionRecord>)
    requires Covers(Index(valuations), states, contracts)
    ensures records == Records(Index(valuations), states, contracts)
  {
    var index: map<Key, ValuationRecord> := map[];
    var n := 0;
    while n < |valuations|
      invariant 0 <= n <= |valuations|
      invariant index == Index(valuations[..n])
    {
      assert valuations[..n + 1][..n] == valuations[..n];
      index := index[Key(valuations[n].timestamp, valuations[n].contract) := valuations[n]];
      n := n + 1;
    }
    assert valuations[..n] == valuations;
    records := [];
    var i := 1;
    while i < |states|
      invariant 1 <= i
      invariant i <= |states| ==>
                  Covers(index, states[..i], contracts) && records == Records(index, states[..i], contracts)
      invariant i > |states| ==> states == [] && records == []
    {
      var from, to := states[i - 1], states[i];
      var record := AttributeInterval(index, from, to, contracts);
      assert states[..i + 1][..i] == states[..i];
      records := records + [record];
      i := i + 1;
    }
    if i == |states| {
      assert states[..i] == states;
    }
  }

  lemma AccumulateStep(
    index: map<Key, ValuationRecord>, from: MarketState, to: MarketState, contracts: seq<InstrumentId>, c: nat)
    requires Covers(index, [from, to], contracts) && c < |contracts|
    ensures Key(from.timestamp, contracts[c]) in index && Key(to.timestamp, contracts[c]) in index
    ensures Covers(index, [from, to], contracts[..c]) && Covers(index, [from, to], contracts[..c + 1])
    ensures Accumulate(index, from, to, contracts[..c + 1])
            == Add(
                 Accumulate(index, from, to, contracts[..c]),
                 Contribution(
                   index[Key(from.timestamp, contracts[c])], index[Key(to.timestamp, contracts[c])], from, to))
  {
    assert [from, to][0] == from && [from, to][1] == to;
    assert Key([from, to][0].timestamp, contracts[c]) in index && Key([from, to][1].timestamp, contracts[c]) in index;
    assert contracts[..c + 1][..c] == contracts[..c];
  }

  /** One interval, contract by contract. */
  method AttributeInterval(
    index: map<Key, ValuationRecord>, from: MarketState, to: MarketState, contracts: seq<InstrumentId>)
    returns (record: AttributionRecord)
    requires Covers(index, [from, to], contracts)
    ensures record == Interval(index, from, to, contracts)
  {
    var exact, delta, gamma, theta, vega := 0.0, 0.0, 0.0, 0.0, 0.0;
    var c := 0;
    while c < |contracts|
      invariant 0 <= c <= |contracts|
      invariant Covers(index, [from, to], contracts[..c])
      invariant Accumulated(exact, delta, gamma, theta, vega) == Accumulate(index, from, to, contracts[..c])
    {
      AccumulateStep(index, from, to, contracts, c);
      var previous, current := index[Key(from.timestamp, contracts[c])], index[Key(to.timestamp, contracts[c])];
      var part := Contribution(previous, current, from, to);
      delta, gamma, theta, vega := delta + part.delta, gamma + part.gamma, theta + part.theta, vega + part.vega;
      exact := exact + part.exact;
      c := c + 1;
    }
    assert contracts[..c] == contracts;
    record := AttributionRecord(
      from.timestamp, to.timestamp, exact, delta, gamma, theta, vega, exact - (delta + gamma + theta + vega));
  }

  // ---- The exact changes telescope ----

  function ExactTotal(records: seq<AttributionRecord>): real {
    if records == [] then 0.0 else ExactTotal(records[..|records| - 1]) + records[|records| - 1].exact
  }

  function ExplainedTotal(records: seq<AttributionRecord>): real {
    if records == [] then 0.0
    else
      var r := records[|records| - 1];
      ExplainedTotal(records[..|records| - 1]) + r.delta + r.gamma + r.theta + r.vega + r.residual
  }

  /** What the position's quantity of an option is worth at its unrounded price. */
  function Worth(record: ValuationRecord): real {
    record.unitPrice * record.quantity as real * record.multiplier as real
  }

  function WorthAt(index: map<Key, ValuationRecord>, state: MarketState, contracts: seq<InstrumentId>): real
    requires Covers(index, [state], contracts)
  {
    if contracts == [] then 0.0
    else
      var last := |contracts| - 1;
      assert [state][0] == state && Key([state][0].timestamp, contracts[last]) in index;
      WorthAt(index, state, contracts[..last]) + Worth(index[Key(state.timestamp, contracts[last])])
  }

  /** Every valuation of a contract is of the same position. */
  ghost predicate Uniform(index: map<Key, ValuationRecord>) {
    forall k, l | k in index && l in index && k.contract == l.contract ::
      index[k].quantity == index[l].quantity && index[k].multiplier == index[l].multiplier
  }

  lemma PriceChange(x: real, y: real, q: real, m: real)
    ensures (y - x) * q * m == y * q * m - x * q * m
  {
    assert (y - x) * q == y * q - x * q;
  }

  lemma {:induction false} IntervalIsWorthChange(
    index: map<Key, ValuationRecord>, from: MarketState, to: MarketState, contracts: seq<InstrumentId>)
    requires Covers(index, [from, to], contracts) && Uniform(index)
    ensures Covers(index, [from], contracts) && Covers(index, [to], contracts)
    ensures Accumulate(index, from, to, contracts).exact
            == WorthAt(index, to, contracts) - WorthAt(index, from, contracts)
  {
    assert [from, to][0] == from && [from, to][1] == to;
    forall c | 0 <= c < |contracts|
      ensures Key(from.timestamp, contracts[c]) in index && Key(to.timestamp, contracts[c]) in index
    {
      assert Key([from, to][0].timestamp, contracts[c]) in index && Key([from, to][1].timestamp, contracts[c]) in index;
    }
    if contracts == [] {
    } else {
      var last := |contracts| - 1;
      IntervalIsWorthChange(index, from, to, contracts[..last]);
      var previous, current := index[Key(from.timestamp, contracts[last])], index[Key(to.timestamp, contracts[last])];
      ContributionIsWorthChange(previous, current, from, to);
    }
  }

  lemma ContributionIsWorthChange(
    previous: ValuationRecord, current: ValuationRecord, from: MarketState, to: MarketState)
    requires previous.quantity == current.quantity && previous.multiplier == current.multiplier
    ensures Contribution(previous, current, from, to).exact == Worth(current) - Worth(previous)
  {
    PriceChange(previous.unitPrice, current.unitPrice, previous.quantity as real, previous.multiplier as real);
  }

  lemma CoversState(index: map<Key, ValuationRecord>, states: seq<MarketState>, contracts: seq<InstrumentId>, i: nat)
    requires Covers(index, states, contracts) && i < |states|
    ensures Covers(index, [states[i]], contracts)
  {
  }

  /**
   The exact changes add up to the change in worth between the first and the last state, and the
   contributions with their residuals add up to the same.
   */
  lemma {:induction false} ExactChangesTelescope(
    index: map<Key, ValuationRecord>, states: seq<MarketState>, contracts: seq<InstrumentId>)
    requires Covers(index, states, contracts) && Uniform(index) && states != []
    ensures Covers(index, [states[0]], contracts) && Covers(index, [states[|states| - 1]], contracts)
    ensures ExactTotal(Records(index, states, contracts))
            == WorthAt(index, states[|states| - 1], contracts) - WorthAt(index, states[0], contracts)
    ensures ExplainedTotal(Records(index, states, contracts)) == ExactTotal(Records(index, states, contracts))
  {
    CoversState(index, states, contracts, 0);
    CoversState(index, states, contracts, |states| - 1);
    if |states| >= 2 {
      var last := |states| - 1;
      CoversLast(index, states, contracts);
      ExactChangesTelescope(index, states[..last], contracts);
      IntervalIsWorthChange(index, states[last - 1], states[last], contracts);
    }
  }

  // ---- What the parts mean ----

  /** The Greeks of all contracts valued at a state, as the position holds them. */
  datatype Greeks = Greeks(delta: real, gamma: real, theta: real, vega: real)

  function GreeksAt(index: map<Key, ValuationRecord>, state: MarketState, contracts: seq<InstrumentId>): Greeks
    requires Covers(index, [state], contracts)
  {
    if contracts == [] then Greeks(0.0, 0.0, 0.0, 0.0)
    else
      var last := |contracts| - 1;
      assert [state][0] == state && Key([state][0].timestamp, contracts[last]) in index;
      var record := index[Key(state.timestamp, contracts[last])];
      var front := GreeksAt(index, state, contracts[..last]);
      Greeks(
        front.delta + record.delta, front.gamma + record.gamma, front.theta + record.theta, front.vega + record.vega)
  }

  function Product(x: real, y: real): real {
    x * y
  }

  lemma ProductAdds(x: real, y: real, z: real)
    ensures Product(x + y, z) == Product(x, z) + Product(y, z)
  {
  }

  /** The parts of one contract, as products of a Greek and a move. */
  lemma ContributionParts(previous: ValuationRecord, current: ValuationRecord, from: MarketState, to: MarketState)
    ensures
      var part, move := Contribution(previous, current, from, to), to.spot - from.spot;
      && part.delta == Product(previous.delta, move)
      && part.gamma == Product(previous.gamma, Product(move, move) / 2.0)
      && part.theta == Product(previous.theta, to.stepYearFraction)
      && part.vega == Product(previous.vega, to.impliedVolatility - from.impliedVolatility)
  {
    var move := to.spot - from.spot;
    HalfOutside(previous.gamma, Product(move, move));
  }

  lemma HalfOutside(gamma: real, square: real)
    ensures 0.5 * gamma * square == Product(gamma, square / 2.0)
  {
  }

  lemma CoversFrom(index: map<Key, ValuationRecord>, from: MarketState, to: MarketState, contracts: seq<InstrumentId>)
    requires Covers(index, [from, to], contracts)
    ensures Covers(index, [from], contracts) && Covers(index, [to], contracts)
  {
    assert [from, to][0] == from && [from, to][1] == to;
    forall c | 0 <= c < |contracts|
      ensures Key(from.timestamp, contracts[c]) in index && Key(to.timestamp, contracts[c]) in index
    {
      assert Key([from, to][0].timestamp, contracts[c]) in index && Key([from, to][1].timestamp, contracts[c]) in index;
    }
  }

  /** The parts of an interval as products of the position's Greeks before it and the moves over it. */
  ghost predicate PartsOf(total: Accumulated, greeks: Greeks, from: MarketState, to: MarketState) {
    var move := to.spot - from.spot;
    && total.delta == Product(greeks.delta, move)
    && total.gamma == Product(greeks.gamma, Product(move, move) / 2.0)
    && total.theta == Product(greeks.theta, to.stepYearFraction)
    && total.vega == Product(greeks.vega, to.impliedVolatility - from.impliedVolatility)
  }

  lemma PartsAdd(
    total: Accumulated, greeks: Greeks, record: ValuationRecord, part: Accumulated, from: MarketState, to: MarketState)
    requires PartsOf(total, greeks, from, to)
    requires PartsOf(part, Greeks(record.delta, record.gamma, record.theta, record.vega), from, to)
    ensures PartsOf(
              Add(total, part),
              Greeks(
                greeks.delta + record.delta, greeks.gamma + record.gamma, greeks.theta + record.theta,
                greeks.vega + record.vega),
              from, to)
  {
    var move := to.spot - from.spot;
    ProductAdds(greeks.delta, record.delta, move);
    ProductAdds(greeks.gamma, record.gamma, Product(move, move) / 2.0);
    ProductAdds(greeks.theta, record.theta, to.stepYearFraction);
    ProductAdds(greeks.vega, record.vega, to.impliedVolatility - from.impliedVolatility);
  }

  /**
   An interval is explained by the Greeks of the whole position at its start: delta times the move of the spot, half
   gamma times its square, theta times the time that passed, vega times the move of the volatility.
   */
  lemma {:induction false} IntervalPartsAreGreeks(
    index: map<Key, ValuationRecord>, from: MarketState, to: MarketState, contracts: seq<InstrumentId>)
    requires Covers(index, [from, to], contracts)
    ensures Covers(index, [from], contracts)
    ensures PartsOf(Accumulate(index, from, to, contracts), GreeksAt(index, from, contracts), from, to)
  {
    CoversFrom(index, from, to, contracts);
    if contracts == [] {
      assert Product(0.0, to.spot - from.spot) == 0.0;
    } else {
      var last := |contracts| - 1;
      IntervalPartsAreGreeks(index, from, to, contracts[..last]);
      assert contracts[..last + 1] == contracts;
      AccumulateStep(index, from, to, contracts, last);
      var previous, current := index[Key(from.timestamp, contracts[last])], index[Key(to.timestamp, contracts[last])];
      ContributionParts(previous, current, from, to);
      PartsAdd(
        Accumulate(index, from, to, contracts[..last]), GreeksAt(index, from, contracts[..last]), previous,
        Contribution(previous, current, from, to), from, to);
    }
  }

  /** The worth of a position moved by exactly what the position's Greeks make of the moves. */
  ghost predicate MovesByGreeks(
    index: map<Key, ValuationRecord>, from: MarketState, to: MarketState, contracts: seq<InstrumentId>)
    requires Covers(index, [from], contracts) && Covers(index, [to], contracts)
  {
    var greeks, move := GreeksAt(index, from, contracts), to.spot - from.spot;
    WorthAt(index, to, contracts) - WorthAt(index, from, contracts)
    == Product(greeks.delta, move) + Product(greeks.gamma, Product(move, move) / 2.0)
       + Product(greeks.theta, to.stepYearFraction)
       + Product(greeks.vega, to.impliedVolatility - from.impliedVolatility)
  }

  /** What every record of an attribution is: its interval, the change in worth, and the parts of it. */
  ghost predicate IsAttribution(
    index: map<Key, ValuationRecord>, from: MarketState, to: MarketState, contracts: seq<InstrumentId>,
    record: AttributionRecord)
    requires Covers(index, [from], contracts) && Covers(index, [to], contracts)
  {
    && record.start == from.timestamp && record.end == to.timestamp
    && record.exact == WorthAt(index, to, contracts) - WorthAt(index, from, contracts)
    && PartsOf(
         Accumulated(record.exact, record.delta, record.gamma, record.theta, record.vega),
         GreeksAt(index, from, contracts), from, to)
    && record.exact == record.delta + record.gamma + record.theta + record.vega + record.residual
    && (record.residual == 0.0 <==> MovesByGreeks(index, from, to, contracts))
  }

  lemma IntervalIsAttribution(
    index: map<Key, ValuationRecord>, from: MarketState, to: MarketState, contracts: seq<InstrumentId>)
    requires Covers(index, [from, to], contracts) && Uniform(index)
    ensures Covers(index, [from], contracts) && Covers(index, [to], contracts)
    ensures IsAttribution(index, from, to, contracts, Interval(index, from, to, contracts))
  {
    IntervalIsWorthChange(index, from, to, contracts);
    IntervalPartsAreGreeks(index, from, to, contracts);
  }

  ghost predicate AttributesAt(
    index: map<Key, ValuationRecord>, states: seq<MarketState>, contracts: seq<InstrumentId>,
    records: seq<AttributionRecord>, i: nat)
    requires i < |records| && i + 1 < |states|
  {
    && Covers(index, [states[i]], contracts) && Covers(index, [states[i + 1]], contracts)
    && IsAttribution(index, states[i], states[i + 1], contracts, records[i])
  }

  /**
   Every record of an attribution covers two neighbouring states, in order, and splits the change in worth between
   them; its residual vanishes exactly when the worth moved by the Greeks.
   */
  lemma {:induction false} RecordsAttribute(
    index: map<Key, ValuationRecord>, states: seq<MarketState>, contracts: seq<InstrumentId>)
    requires Covers(index, states, contracts) && Uniform(index)
    ensures
      var records := Records(index, states, contracts);
      && |records| == (if states == [] then 0 else |states| - 1)
      && (forall i: nat | i < |records| :: AttributesAt(index, states, contracts, records, i))
  {
    if |states| < 2 {
    } else {
      var last := |states| - 1;
      CoversLast(index, states, contracts);
      RecordsAttribute(index, states[..last], contracts);
      IntervalIsAttribution(index, states[last - 1], states[last], contracts);
      var records, front := Records(index, states, contracts), Records(index, states[..last], contracts);
      forall i: nat | i < |records| ensures AttributesAt(index, states, contracts, records, i) {
        if i < |front| {
          assert AttributesAt(index, states[..last], contracts, front, i);
        }
      }
    }
  }
}
