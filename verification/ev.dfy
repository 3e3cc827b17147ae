/** Expected value of a single bet at decimal odds. */
module ExpectedValue {

  /** The expected profit per unit staked on an event of the given probability at the
      given decimal odds; a non-positive odd has no payout and scores zero. */
  function Ev(probability: real, odd: real): (r: real)
    ensures odd > 0.0 ==> (r > 0.0 <==> probability * odd > 1.0)
    ensures odd > 0.0 ==> (r == 0.0 <==> probability * odd == 1.0)
    ensures odd <= 0.0 ==> r == 0.0
  {
    if odd > 0.0 then probability * odd - 1.0 else 0.0
  }

  /** At positive odds a bet has positive value exactly when its probability beats the
      probability implied by the odds, 1 / odd. */
  lemma EvBeatsImpliedProbability(probability: real, odd: real)
    requires odd > 0.0
    ensures Ev(probability, odd) > 0.0 <==> probability > 1.0 / odd
  {
    if probability > 1.0 / odd {
      ScaleStrict(1.0 / odd, probability, odd);
      assert (1.0 / odd) * odd == 1.0;
    } else {
      ScaleWeak(probability, 1.0 / odd, odd);
      assert (1.0 / odd) * odd == 1.0;
    }
  }

  /** At fixed positive odds a more likely event never has the smaller value. */
  lemma EvMonotone(lower: real, higher: real, odd: real)
    requires odd > 0.0
    requires lower <= higher
    ensures Ev(lower, odd) <= Ev(higher, odd)
  {
    var low := lower * odd;
    var high := higher * odd;
    assert low <= high by { ScaleWeak(lower, higher, odd); }
    assert Ev(lower, odd) == low - 1.0;
    assert Ev(higher, odd) == high - 1.0;
  }

  /** The fair odd of a possible event, the reciprocal of its probability, breaks even. */
  lemma FairOddBreaksEven(probability: real)
    requires probability > 0.0
    ensures Ev(probability, 1.0 / probability) == 0.0
  {
    assert probability * (1.0 / probability) == 1.0;
  }

  lemma ScaleStrict(x: real, y: real, c: real)
    requires x < y && c > 0.0
    ensures x * c < y * c
  {
  }

  lemma ScaleWeak(x: real, y: real, c: real)
    requires x <= y && c > 0.0
    ensures x * c <= y * c
  {
  }
}
