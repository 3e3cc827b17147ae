/** The Poisson point probability used for each team's goal count.

    The exponential function is a call into the host's maths library; the model
    takes it as a parameter whose only known property is that it is positive. */
module PoissonModel {

  /** An exponential function: all that is assumed of it is positivity. */
  type ExpFn = f: real -> real | forall x: real :: f(x) > 0.0 witness (x: real) => 1.0

  /** The rate substituted for a non-positive expected-goal value. */
  const FloorRate: real := 0.5

  /** x raised to a natural power, as Python's `**` with an integer exponent. */
  function Pow(x: real, k: nat): real
  {
    if k == 0 then 1.0 else x * Pow(x, k - 1)
  }

  /** A positive base has positive powers. */
  lemma {:induction false} PowPositive(x: real, k: nat)
    requires x > 0.0
    ensures Pow(x, k) > 0.0
  {
    if k > 0 {
      PowPositive(x, k - 1);
    }
  }

  /** Reals no smaller than one: the values of a factorial. */
  type AtLeastOne = r: real | r >= 1.0 witness 1.0

  /** k!, taken directly as a real: app.py divides a float by the integer k!. */
  function Factorial(k: nat): AtLeastOne
  {
    if k == 0 then 1.0 else (k as real) * Factorial(k - 1)
  }

  /** The rate actually evaluated: a non-positive rate is replaced by the floor. */
  function EffectiveRate(rate: real): (r: real)
    ensures r > 0.0
    ensures rate > 0.0 ==> r == rate
  {
    if rate <= 0.0 then FloorRate else rate
  }

  /** P(X = k) for X ~ Poisson(rate), with the rate floor applied first: strictly
      positive for every goal count and every rate. */
  function Poisson(k: nat, rate: real, exp: ExpFn): (r: real)
    ensures r > 0.0
  {
    var l := EffectiveRate(rate);
    var pw := Pow(l, k);
    var e := exp(-l);
    PowPositive(l, k);
    PositiveProduct(pw, e);
    PositiveQuotient(pw * e, Factorial(k));
    pw * e / Factorial(k)
  }

  lemma PositiveProduct(x: real, y: real)
    requires x > 0.0 && y > 0.0
    ensures x * y > 0.0
  {
  }

  lemma PositiveQuotient(num: real, den: real)
    requires num > 0.0 && den > 0.0
    ensures num / den > 0.0
  {
  }

  /** Every non-positive rate yields exactly the distribution of rate 0.5. */
  lemma FlooredRateAgrees(k: nat, rate: real, exp: ExpFn)
    requires rate <= 0.0
    ensures Poisson(k, rate, exp) == Poisson(k, FloorRate, exp)
  {
    var l := EffectiveRate(rate);
    assert l == FloorRate;
    assert Poisson(k, rate, exp) == Pow(l, k) * exp(-l) / Factorial(k);
  }
}
