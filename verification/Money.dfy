/**
 Currency arithmetic. An amount that has been rounded is a whole number of cents and is an
 `int`; an amount that has not is a `real` number of cents, so that one is one hundredth of a
 rupee. Rounding is half to even, as `money` does it.
 */
module Money {

  function Abs(x: real): real {
    if x < 0.0 then -x else x
  }

  function AbsInt(x: int): nat {
    if x < 0 then -x else x
  }

  /** An amount per unit over a number of units. */
  function Scaled(amount: real, units: real): real {
    amount * units
  }

  /** The nearest whole number; a tie goes to the even neighbour. */
  function HalfEven(x: real): (n: int)
    ensures x == x.Floor as real ==> n == x.Floor
    ensures -0.5 <= n as real - x <= 0.5
  {
    var below := x.Floor;
    var rest := x - below as real;
    if rest < 0.5 || (rest == 0.5 && below % 2 == 0) then below else below + 1
  }

  /** `money` on an amount in cents. */
  function Round(amount: real): (cents: int)
    ensures amount == amount.Floor as real ==> cents == amount.Floor
    ensures -0.5 <= cents as real - amount <= 0.5
  {
    HalfEven(amount)
  }

  /**
   What half-even rounding means: a whole number is the rounded value exactly when it lies within
   half a unit, and is even if it lies at half a unit.
   */
  lemma HalfEvenCharacterized(x: real, n: int)
    ensures n == HalfEven(x) <==>
            Abs(n as real - x) <= 0.5 && (Abs(n as real - x) == 0.5 ==> n % 2 == 0)
  {
    var below := x.Floor;
    if Abs(n as real - x) <= 0.5 {
      assert below - 1 < n <= below + 1;
    }
  }

  /** No whole number is nearer than the rounded one. */
  lemma HalfEvenNearest(x: real, n: int)
    ensures Abs(HalfEven(x) as real - x) <= Abs(n as real - x)
  {
    if n != HalfEven(x) {
      assert n as real <= HalfEven(x) as real - 1.0 || n as real >= HalfEven(x) as real + 1.0;
    }
  }

  /** Rounding keeps order. */
  lemma HalfEvenMonotone(x: real, y: real)
    requires x <= y
    ensures HalfEven(x) <= HalfEven(y)
  {
    assert x.Floor <= y.Floor;
  }

  /** Rounding is odd, so a debit rounds as the credit of the same size does. */
  lemma HalfEvenOdd(x: real)
    ensures HalfEven(-x) == -HalfEven(x)
  {
    HalfEvenCharacterized(x, HalfEven(x));
    HalfEvenCharacterized(-x, -HalfEven(x));
  }

  /** Rounding never changes the sign of an amount. */
  lemma HalfEvenSign(x: real)
    ensures x >= 0.0 ==> HalfEven(x) >= 0
    ensures x <= 0.0 ==> HalfEven(x) <= 0
    ensures HalfEven(x) == 0 <==> Abs(x) <= 0.5
  {
    HalfEvenCharacterized(x, 0);
    if x >= 0.0 {
      HalfEvenMonotone(0.0, x);
    }
    if x <= 0.0 {
      HalfEvenMonotone(x, 0.0);
    }
  }
}
