/** Reduction of the scoreline matrix to the probabilities of the betting markets:
    match result (1X2), over/under 2.5 goals, and both teams to score. */
module MarketAggregation {
  import opened PoissonModel
  import opened Scorelines

  /** The home side scores more. */
  predicate HomeWins(c: Cell) { c.home > c.away }

  /** Both sides score the same. */
  predicate IsDraw(c: Cell) { c.home == c.away }

  /** The away side scores more. */
  predicate AwayWins(c: Cell) { c.home < c.away }

  /** app.py compares the integer goal total with the float 2.5. */
  predicate OverTwoAndHalf(c: Cell) { (c.home + c.away) as real > 2.5 }

  /** Both sides score at least once. */
  predicate BothScore(c: Cell) { c.home > 0 && c.away > 0 }

  /** Every scoreline: summing over it gives the total mass of the matrix. */
  predicate AnyScoreline(c: Cell) { true }

  /** Three or more goals in all. */
  predicate AtLeastThreeGoals(c: Cell) { c.home + c.away >= 3 }

  /** At most two goals in all. */
  predicate AtMostTwoGoals(c: Cell) { c.home + c.away <= 2 }

  /** At least one side fails to score. */
  predicate SomeSideBlank(c: Cell) { c.home == 0 || c.away == 0 }

  /** The sum of the probabilities of the records that satisfy keep. */
  function Mass(cells: seq<Cell>, keep: Cell -> bool): real
  {
    if |cells| == 0 then 0.0
    else (if keep(cells[0]) then cells[0].prob else 0.0) + Mass(cells[1..], keep)
  }

  /** The total probability mass of the records. */
  function Total(cells: seq<Cell>): real
  {
    Mass(cells, AnyScoreline)
  }

  /** The market probabilities computed from one matrix. */
  datatype Markets = Markets(
    homeWin: real, draw: real, awayWin: real,
    over25: real, under25: real,
    bttsYes: real, bttsNo: real)

  /** Market probabilities: 1X2 and the "yes" sides are sums over the matching
      records; the under and "no" sides are complements to one, so they absorb the
      mass the truncated matrix leaves out. */
  function MarketProbabilities(cells: seq<Cell>): (m: Markets)
    ensures m.homeWin + m.draw + m.awayWin == Total(cells)
    ensures m.over25 + m.under25 == 1.0
    ensures m.bttsYes + m.bttsNo == 1.0
  {
    ResultPartition(cells);
    var over := Mass(cells, OverTwoAndHalf);
    var btts := Mass(cells, BothScore);
    Markets(Mass(cells, HomeWins), Mass(cells, IsDraw), Mass(cells, AwayWins),
            over, 1.0 - over, btts, 1.0 - btts)
  }

  /** Mass distributes over concatenation. */
  lemma {:induction false} MassAppend(a: seq<Cell>, b: seq<Cell>, keep: Cell -> bool)
    ensures Mass(a + b, keep) == Mass(a, keep) + Mass(b, keep)
  {
    if |a| == 0 {
      assert a + b == b;
    } else {
      assert (a + b)[0] == a[0];
      assert (a + b)[1..] == a[1..] + b;
      MassAppend(a[1..], b, keep);
    }
  }

  /** Home win, draw and away win split every record: their masses add up to the total. */
  lemma {:induction false} ResultPartition(cells: seq<Cell>)
    ensures Mass(cells, HomeWins) + Mass(cells, IsDraw) + Mass(cells, AwayWins) == Total(cells)
  {
    if |cells| > 0 {
      ResultPartition(cells[1..]);
    }
  }

  /** Two predicates that are each other's negation split the total mass. */
  lemma {:induction false} MassComplement(cells: seq<Cell>, keep: Cell -> bool, other: Cell -> bool)
    requires forall c :: other(c) == !keep(c)
    ensures Mass(cells, keep) + Mass(cells, other) == Total(cells)
  {
    if |cells| > 0 {
      MassComplement(cells[1..], keep, other);
    }
  }

  /** Predicates that agree on every record select the same mass. */
  lemma {:induction false} MassCongruent(cells: seq<Cell>, p: Cell -> bool, q: Cell -> bool)
    requires forall c :: c in cells ==> p(c) == q(c)
    ensures Mass(cells, p) == Mass(cells, q)
  {
    if |cells| > 0 {
      MassCongruent(cells[1..], p, q);
    }
  }

  /** With non-negative records, every selection has mass between zero and the total. */
  lemma {:induction false} MassBounds(cells: seq<Cell>, keep: Cell -> bool)
    requires forall c :: c in cells ==> c.prob >= 0.0
    ensures 0.0 <= Mass(cells, keep) <= Total(cells)
  {
    if |cells| > 0 {
      MassBounds(cells[1..], keep);
    }
  }

  /** "Over 2.5" sums exactly the records with three or more goals. */
  lemma OverMeansThreeOrMore(cells: seq<Cell>)
    ensures MarketProbabilities(cells).over25 == Mass(cells, AtLeastThreeGoals)
  {
    MassCongruent(cells, OverTwoAndHalf, AtLeastThreeGoals);
  }

  /** "Under 2.5" is the mass of the records with at most two goals plus the mass the
      matrix leaves out (one minus its total). */
  lemma UnderAbsorbsTail(cells: seq<Cell>)
    ensures MarketProbabilities(cells).under25 == Mass(cells, AtMostTwoGoals) + (1.0 - Total(cells))
  {
    MassComplement(cells, OverTwoAndHalf, AtMostTwoGoals);
  }

  /** "BTTS no" is the mass of the records where a side is blank plus the mass the
      matrix leaves out. */
  lemma BttsNoAbsorbsTail(cells: seq<Cell>)
    ensures MarketProbabilities(cells).bttsNo == Mass(cells, SomeSideBlank) + (1.0 - Total(cells))
  {
    MassComplement(cells, BothScore, SomeSideBlank);
  }

  /** With non-negative records, each summed market lies between zero and the total
      mass, and each complement is at least one minus the total. */
  lemma MarketBounds(cells: seq<Cell>)
    requires forall c :: c in cells ==> c.prob >= 0.0
    ensures var m := MarketProbabilities(cells);
            && 0.0 <= m.homeWin <= Total(cells)
            && 0.0 <= m.draw <= Total(cells)
            && 0.0 <= m.awayWin <= Total(cells)
            && 0.0 <= m.over25 <= Total(cells)
            && 0.0 <= m.bttsYes <= Total(cells)
            && m.under25 >= 1.0 - Total(cells)
            && m.bttsNo >= 1.0 - Total(cells)
  {
    MassBounds(cells, HomeWins);
    MassBounds(cells, IsDraw);
    MassBounds(cells, AwayWins);
    MassBounds(cells, OverTwoAndHalf);
    MassBounds(cells, BothScore);
  }

  /** f(0) + ... + f(len - 1): the mass of one marginal up to len - 1 goals. */
  function SumTo(len: nat, f: nat -> real): real
  {
    if len == 0 then 0.0 else SumTo(len - 1, f) + f(len - 1)
  }

  /** Independence: the total mass of a grid is the product of the masses of its
      two marginals over the goal counts the grid covers. */
  lemma {:induction false} GridMassFactors(count: nat, n: nat, home: nat -> real, away: nat -> real)
    ensures Total(Rows(count, n, home, away)) == SumTo(count, home) * SumTo(n, away)
  {
    if count > 0 {
      var prefix := Rows(count - 1, n, home, away);
      var last := Row(count - 1, n, home, away);
      MassAppend(prefix, last, AnyScoreline);
      GridMassFactors(count - 1, n, home, away);
      RowMassFactors(count - 1, n, home, away);
      FactorRight(SumTo(count - 1, home), home(count - 1), SumTo(n, away));
    }
  }

  /** One row of the grid carries its home probability times the away marginal's mass. */
  lemma {:induction false} RowMassFactors(h: nat, len: nat, home: nat -> real, away: nat -> real)
    ensures Total(Row(h, len, home, away)) == home(h) * SumTo(len, away)
  {
    if len > 0 {
      var c := Cell(h, len - 1, home(h) * away(len - 1));
      MassAppend(Row(h, len - 1, home, away), [c], AnyScoreline);
      assert [c][1..] == [];
      RowMassFactors(h, len - 1, home, away);
      FactorLeft(home(h), SumTo(len - 1, away), away(len - 1));
    }
  }

  /** The matrix's total mass is the product of each team's probability of scoring at
      most maxGoals goals. */
  lemma MatrixMassFactors(homeRate: real, awayRate: real, maxGoals: int, exp: ExpFn)
    ensures Total(MatchMatrix(homeRate, awayRate, maxGoals, exp))
            == SumTo(Side(maxGoals), PoissonMarginal(homeRate, exp))
               * SumTo(Side(maxGoals), PoissonMarginal(awayRate, exp))
  {
    MatrixIsGrid(homeRate, awayRate, maxGoals, exp);
    SquareGridMassFactors(homeRate, awayRate, Side(maxGoals), exp);
  }

  /** The three results of the match share exactly the product of the two teams'
      probabilities of scoring at most maxGoals goals. */
  lemma ResultMassFactors(homeRate: real, awayRate: real, maxGoals: int, exp: ExpFn)
    ensures var m := MarketProbabilities(MatchMatrix(homeRate, awayRate, maxGoals, exp));
            m.homeWin + m.draw + m.awayWin
            == SumTo(Side(maxGoals), PoissonMarginal(homeRate, exp))
               * SumTo(Side(maxGoals), PoissonMarginal(awayRate, exp))
  {
    MatrixMassFactors(homeRate, awayRate, maxGoals, exp);
  }

  lemma SquareGridMassFactors(homeRate: real, awayRate: real, n: nat, exp: ExpFn)
    ensures Total(Rows(n, n, PoissonMarginal(homeRate, exp), PoissonMarginal(awayRate, exp)))
            == SumTo(n, PoissonMarginal(homeRate, exp)) * SumTo(n, PoissonMarginal(awayRate, exp))
  {
    GridMassFactors(n, n, PoissonMarginal(homeRate, exp), PoissonMarginal(awayRate, exp));
  }

  lemma MatrixIsGrid(homeRate: real, awayRate: real, maxGoals: int, exp: ExpFn)
    ensures MatchMatrix(homeRate, awayRate, maxGoals, exp)
            == Rows(Side(maxGoals), Side(maxGoals), PoissonMarginal(homeRate, exp), PoissonMarginal(awayRate, exp))
  {
  }

  /** Over the match matrix every summed market lies between zero and the matrix's
      total mass, and each complement is at least one minus that mass. */
  lemma MatchMarketBounds(homeRate: real, awayRate: real, maxGoals: int, exp: ExpFn)
    ensures var cells := MatchMatrix(homeRate, awayRate, maxGoals, exp);
            var m := MarketProbabilities(cells);
            && 0.0 <= m.homeWin <= Total(cells)
            && 0.0 <= m.draw <= Total(cells)
            && 0.0 <= m.awayWin <= Total(cells)
            && 0.0 <= m.over25 <= Total(cells)
            && 0.0 <= m.bttsYes <= Total(cells)
            && m.under25 >= 1.0 - Total(cells)
            && m.bttsNo >= 1.0 - Total(cells)
  {
    var cells := MatchMatrix(homeRate, awayRate, maxGoals, exp);
    MatrixPositive(homeRate, awayRate, maxGoals, exp);
    MarketBounds(cells);
  }

  lemma FactorLeft(x: real, y: real, z: real)
    ensures x * y + x * z == x * (y + z)
  {
  }

  lemma FactorRight(x: real, y: real, z: real)
    ensures x * z + y * z == (x + y) * z
  {
  }
}
