/** The scoreline matrix: one record per (home goals, away goals) pair, each
    holding the product of the two teams' goal-count probabilities.

    The grid is built from two marginals, one per team (nat -> real); the match
    instantiates both with the Poisson point probability of the team's rate. */
module Scorelines {
  import opened PoissonModel

  /** One record of the matrix. */
  datatype Cell = Cell(home: nat, away: nat, prob: real)

  /** The ceiling used when no other is given. */
  const DefaultMaxGoals: int := 7

  /** Number of goal counts 0, 1, ..., maxGoals; none when maxGoals is negative. */
  function Side(maxGoals: int): nat
  {
    if maxGoals < 0 then 0 else maxGoals + 1
  }

  /** The position of scoreline (h, a) in a row-major grid of width n. */
  function RowMajor(h: nat, a: nat, n: nat): nat
  {
    h * n + a
  }

  /** A team's goal-count distribution: k goals with probability Poisson(k; rate). */
  function PoissonMarginal(rate: real, exp: ExpFn): nat -> real
  {
    (k: nat) => Poisson(k, rate, exp)
  }

  /** The records (h, 0), ..., (h, len - 1), each with probability home(h) * away(a). */
  function Row(h: nat, len: nat, home: nat -> real, away: nat -> real): seq<Cell>
  {
    if len == 0 then []
    else Row(h, len - 1, home, away) + [Cell(h, len - 1, home(h) * away(len - 1))]
  }

  /** The rows 0, ..., count - 1, each of n records, one after the other. */
  function Rows(count: nat, n: nat, home: nat -> real, away: nat -> real): seq<Cell>
  {
    if count == 0 then [] else Rows(count - 1, n, home, away) + Row(count - 1, n, home, away)
  }

  /** The matrix of all scorelines up to maxGoals goals per side, row by row. */
  function MatchMatrix(homeRate: real, awayRate: real, maxGoals: int, exp: ExpFn): (r: seq<Cell>)
    ensures |r| == Side(maxGoals) * Side(maxGoals)
  {
    var n := Side(maxGoals);
    RowsShape(n, n, PoissonMarginal(homeRate, exp), PoissonMarginal(awayRate, exp));
    Rows(n, n, PoissonMarginal(homeRate, exp), PoissonMarginal(awayRate, exp))
  }

  /** Row-major layout: the matrix has n * n records, n = maxGoals + 1 (none when
      maxGoals is negative), and record i is the scoreline (i / n, i % n). */
  lemma MatrixShape(homeRate: real, awayRate: real, maxGoals: int, exp: ExpFn)
    ensures var r := MatchMatrix(homeRate, awayRate, maxGoals, exp);
            var n := Side(maxGoals);
            |r| == n * n &&
            forall i :: 0 <= i < |r| ==> r[i].home == i / n && r[i].away == i % n
  {
    var n := Side(maxGoals);
    RowsShape(n, n, PoissonMarginal(homeRate, exp), PoissonMarginal(awayRate, exp));
  }

  /** Each record carries the product of the home team's and the away team's
      Poisson probabilities for its own goal counts. */
  lemma MatrixProbabilities(homeRate: real, awayRate: real, maxGoals: int, exp: ExpFn)
    ensures forall c :: c in MatchMatrix(homeRate, awayRate, maxGoals, exp) ==>
              c.prob == PoissonMarginal(homeRate, exp)(c.home) * PoissonMarginal(awayRate, exp)(c.away)
  {
    var n := Side(maxGoals);
    RowsCarry(n, n, PoissonMarginal(homeRate, exp), PoissonMarginal(awayRate, exp));
  }

  /** Each scoreline with both counts in [0, maxGoals] sits at position h * n + a,
      no two records share a scoreline, and no record exceeds maxGoals on either side:
      every scoreline of the square appears exactly once. */
  lemma EachScorelineOnce(homeRate: real, awayRate: real, maxGoals: int, exp: ExpFn)
    ensures var r := MatchMatrix(homeRate, awayRate, maxGoals, exp);
            var n := Side(maxGoals);
            forall h: nat, a: nat :: h <= maxGoals && a <= maxGoals ==>
              RowMajor(h, a, n) < |r| && r[RowMajor(h, a, n)].home == h && r[RowMajor(h, a, n)].away == a
    ensures var r := MatchMatrix(homeRate, awayRate, maxGoals, exp);
            forall i, j :: 0 <= i < j < |r| ==>
              r[i].home != r[j].home || r[i].away != r[j].away
    ensures forall c :: c in MatchMatrix(homeRate, awayRate, maxGoals, exp) ==>
              c.home <= maxGoals && c.away <= maxGoals
  {
    var n := Side(maxGoals);
    GridEachOnce(n, PoissonMarginal(homeRate, exp), PoissonMarginal(awayRate, exp));
  }

  /** A square grid of width n holds every scoreline below n exactly once. */
  lemma GridEachOnce(n: nat, home: nat -> real, away: nat -> real)
    ensures var r := Rows(n, n, home, away);
            forall h: nat, a: nat :: h < n && a < n ==>
              RowMajor(h, a, n) < |r| && r[RowMajor(h, a, n)].home == h && r[RowMajor(h, a, n)].away == a
    ensures var r := Rows(n, n, home, away);
            forall i, j :: 0 <= i < j < |r| ==>
              r[i].home != r[j].home || r[i].away != r[j].away
    ensures forall c :: c in Rows(n, n, home, away) ==> c.home < n && c.away < n
  {
    GridCoverage(n, home, away);
    GridInjective(n, home, away);
    RowsCarry(n, n, home, away);
  }

  lemma GridCoverage(n: nat, home: nat -> real, away: nat -> real)
    ensures var r := Rows(n, n, home, away);
            forall h: nat, a: nat :: h < n && a < n ==>
              RowMajor(h, a, n) < |r| && r[RowMajor(h, a, n)].home == h && r[RowMajor(h, a, n)].away == a
  {
    var r := Rows(n, n, home, away);
    RowsShape(n, n, home, away);
    forall h: nat, a: nat | h < n && a < n
      ensures RowMajor(h, a, n) < |r| && r[RowMajor(h, a, n)].home == h && r[RowMajor(h, a, n)].away == a
    {
      var i := RowMajor(h, a, n);
      RowMajorIndex(h, a, n);
      MulMonotone(h + 1, n, n);
      Distribute(h, n);
      assert i < n * n;
    }
  }

  lemma GridInjective(n: nat, home: nat -> real, away: nat -> real)
    ensures var r := Rows(n, n, home, away);
            forall i, j :: 0 <= i < j < |r| ==>
              r[i].home != r[j].home || r[i].away != r[j].away
  {
    var r := Rows(n, n, home, away);
    RowsShape(n, n, home, away);
    forall i, j | 0 <= i < j < |r|
      ensures r[i].home != r[j].home || r[i].away != r[j].away
    {
      if r[i].home == r[j].home && r[i].away == r[j].away {
        DivModInjective(i, j, n);
      }
    }
  }

  /** Every record of the matrix has strictly positive probability. */
  lemma MatrixPositive(homeRate: real, awayRate: real, maxGoals: int, exp: ExpFn)
    ensures forall c :: c in MatchMatrix(homeRate, awayRate, maxGoals, exp) ==> c.prob > 0.0
  {
    var n := Side(maxGoals);
    var home := PoissonMarginal(homeRate, exp);
    var away := PoissonMarginal(awayRate, exp);
    forall k: nat
      ensures home(k) > 0.0 && away(k) > 0.0
    {
      MarginalPositive(homeRate, exp, k);
      MarginalPositive(awayRate, exp, k);
    }
    GridPositive(n, n, home, away);
  }

  lemma MarginalPositive(rate: real, exp: ExpFn, k: nat)
    ensures PoissonMarginal(rate, exp)(k) > 0.0
  {
    assert PoissonMarginal(rate, exp)(k) == Poisson(k, rate, exp);
  }

  /** Positive marginals give a grid of positive records. */
  lemma GridPositive(count: nat, n: nat, home: nat -> real, away: nat -> real)
    requires forall k: nat :: home(k) > 0.0 && away(k) > 0.0
    ensures forall c :: c in Rows(count, n, home, away) ==> c.prob > 0.0
  {
    RowsCarry(count, n, home, away);
    forall c | c in Rows(count, n, home, away)
      ensures c.prob > 0.0
    {
      PositiveProduct(home(c.home), away(c.away));
    }
  }

  /** The matrix built with the two nested loops of app.py: for each home count,
      for each away count, append the record with the product of the marginals. */
  method BuildGrid(n: nat, home: nat -> real, away: nat -> real) returns (r: seq<Cell>)
    ensures r == Rows(n, n, home, away)
  {
    r := [];
    var h := 0;
    while h < n
      invariant 0 <= h <= n
      invariant r == Rows(h, n, home, away)
    {
      var a := 0;
      while a < n
        invariant 0 <= a <= n
        invariant r == Rows(h, n, home, away) + Row(h, a, home, away)
      {
        var probHome := home(h);
        var probAway := away(a);
        r := r + [Cell(h, a, probHome * probAway)];
        assert probHome * probAway == home(h) * away(a);
        assert Row(h, a + 1, home, away) == Row(h, a, home, away) + [Cell(h, a, home(h) * away(a))];
        a := a + 1;
      }
      h := h + 1;
    }
  }

  /** The matrix computation of app.py, with both marginals Poisson. */
  method BuildMatrix(homeRate: real, awayRate: real, maxGoals: int, exp: ExpFn) returns (r: seq<Cell>)
    ensures r == MatchMatrix(homeRate, awayRate, maxGoals, exp)
  {
    var n := Side(maxGoals);
    r := BuildGrid(n, PoissonMarginal(homeRate, exp), PoissonMarginal(awayRate, exp));
  }

  // ----- arithmetic and induction helpers -----

  lemma {:induction false} RowShape(h: nat, len: nat, home: nat -> real, away: nat -> real)
    ensures |Row(h, len, home, away)| == len
    ensures forall j :: 0 <= j < len ==>
              Row(h, len, home, away)[j] == Cell(h, j, home(h) * away(j))
  {
    if len > 0 {
      RowShape(h, len - 1, home, away);
    }
  }

  /** The first count rows of a grid of width n hold exactly the scorelines (i / n, i % n). */
  lemma {:induction false} RowsShape(count: nat, n: nat, home: nat -> real, away: nat -> real)
    ensures |Rows(count, n, home, away)| == count * n
    ensures forall i :: 0 <= i < |Rows(count, n, home, away)| ==>
              Rows(count, n, home, away)[i].home == i / n &&
              Rows(count, n, home, away)[i].away == i % n
  {
    if count > 0 {
      var prefix := Rows(count - 1, n, home, away);
      var last := Row(count - 1, n, home, away);
      RowsShape(count - 1, n, home, away);
      RowShape(count - 1, n, home, away);
      var r := prefix + last;
      assert |r| == count * n by {
        Distribute(count - 1, n);
      }
      forall i | 0 <= i < |r|
        ensures r[i].home == i / n && r[i].away == i % n
      {
        if i >= |prefix| {
          var j := i - |prefix|;
          RowMajorIndex(count - 1, j, n);
          assert r[i] == last[j];
        } else {
          assert r[i] == prefix[i];
        }
      }
    }
  }

  /** Every record of row h is in row h, below column len, and carries home(h) * away(a). */
  lemma {:induction false} RowMembers(h: nat, len: nat, home: nat -> real, away: nat -> real)
    ensures forall c :: c in Row(h, len, home, away) ==>
              c.home == h && c.away < len && c.prob == home(h) * away(c.away)
  {
    if len > 0 {
      RowMembers(h, len - 1, home, away);
    }
  }

  /** Every record of a grid lies inside it and carries the product of the marginals
      at its scoreline. */
  lemma {:induction false} RowsCarry(count: nat, n: nat, home: nat -> real, away: nat -> real)
    ensures forall c :: c in Rows(count, n, home, away) ==>
              c.home < count && c.away < n && c.prob == home(c.home) * away(c.away)
  {
    if count > 0 {
      var prefix := Rows(count - 1, n, home, away);
      var last := Row(count - 1, n, home, away);
      RowsCarry(count - 1, n, home, away);
      RowMembers(count - 1, n, home, away);
      forall c: Cell | c in prefix + last
        ensures c.home < count && c.away < n && c.prob == home(c.home) * away(c.away)
      {
        if c in prefix {
          assert c.home < count - 1;
        } else {
          assert c in last;
        }
      }
    }
  }

  /** Position h * n + a of a row-major grid of width n holds row h, column a. */
  lemma RowMajorIndex(h: nat, a: nat, n: nat)
    requires a < n
    ensures (h * n + a) / n == h
    ensures (h * n + a) % n == a
  {
    var i := h * n + a;
    var q := i / n;
    var m := i % n;
    assert i == q * n + m;
    if q < h {
      MulMonotone(q + 1, h, n);
      assert false;
    } else if q > h {
      MulMonotone(h + 1, q, n);
      assert false;
    }
  }

  lemma MulMonotone(x: nat, y: nat, n: nat)
    requires x <= y
    ensures x * n <= y * n
  {
  }

  lemma Distribute(c: nat, n: nat)
    ensures c * n + n == (c + 1) * n
  {
  }

  lemma DivModInjective(i: nat, j: nat, n: nat)
    requires n > 0
    requires i / n == j / n && i % n == j % n
    ensures i == j
  {
    assert i == (i / n) * n + i % n;
    assert j == (j / n) * n + j % n;
  }
}
