/** The largest fall of a run's portfolio value below an earlier one. */
module Drawdown {
  import opened Engine

  /** The portfolio values a summary looks at: the start, each decision before and after its fill, the end. */
  function ValuesOf(startingNav: int, decisions: seq<DecisionRecord>, terminal: int): (values: seq<int>)
    ensures values != []
  {
    [startingNav] + DecisionValues(decisions) + [terminal]
  }

  function DecisionValues(decisions: seq<DecisionRecord>): seq<int> {
    if decisions == [] then []
    else
      var last := decisions[|decisions| - 1];
      DecisionValues(decisions[..|decisions| - 1]) + [last.valueBefore, last.valueAfter]
  }

  /** The fall from an earlier value, or the same one, to a later. */
  function Fall(values: seq<int>, i: nat, j: nat): int
    requires i <= j < |values|
  {
    values[i] - values[j]
  }

  /** One pass that remembers the peak finds the largest fall over all earlier and later pairs. */
  method MaximumDrawdown(values: seq<int>) returns (drawdown: int)
    requires values != []
    ensures drawdown >= 0
    ensures exists i: nat, j: nat | i <= j < |values| :: drawdown == Fall(values, i, j)
    ensures forall i: nat, j: nat | i <= j < |values| :: Fall(values, i, j) <= drawdown
  {
    var peak := values[0];
    drawdown := 0;
    ghost var top: nat, from: nat, to: nat := 0, 0, 0;
    var k := 0;
    while k < |values|
      invariant 0 <= k <= |values|
      invariant (if k == 0 then top == 0 else top < k) && peak == values[top]
      invariant forall i: nat | i < k :: values[i] <= peak
      invariant from <= to && (if k == 0 then to == 0 else to < k) && drawdown == Fall(values, from, to) >= 0
      invariant forall i: nat, j: nat | i <= j < k :: Fall(values, i, j) <= drawdown
    {
      var current := values[k];
      if current > peak {
        peak, top := current, k;
      }
      if peak - current > drawdown {
        drawdown := peak - current;
        from, to := top, k;
      }
      k := k + 1;
    }
  }

  /** The drawdown of a summary, which is at least the loss of the whole run. */
  method SummarizeDrawdown(startingNav: int, decisions: seq<DecisionRecord>, terminal: int) returns (drawdown: int)
    ensures
      var values := ValuesOf(startingNav, decisions, terminal);
      && (exists i: nat, j: nat | i <= j < |values| :: drawdown == Fall(values, i, j))
      && (forall i: nat, j: nat | i <= j < |values| :: Fall(values, i, j) <= drawdown)
    ensures drawdown >= startingNav - terminal
  {
    var values := [startingNav];
    var i := 0;
    while i < |decisions|
      invariant 0 <= i <= |decisions|
      invariant values == [startingNav] + DecisionValues(decisions[..i])
    {
      assert decisions[..i + 1][..i] == decisions[..i];
      values := values + [decisions[i].valueBefore, decisions[i].valueAfter];
      i := i + 1;
    }
    assert decisions[..i] == decisions;
    values := values + [terminal];
    assert values == ValuesOf(startingNav, decisions, terminal);
    drawdown := MaximumDrawdown(values);
    assert Fall(values, 0, |values| - 1) == startingNav - terminal;
  }
}
