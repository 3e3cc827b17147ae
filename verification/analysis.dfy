/** One analysis of a fixture, end to end: rates from the venue averages, the
    scoreline matrix up to a goal cap, the market probabilities, and the ranked list
    of value bets at the given odds. */
module MatchAnalysis {
  import opened PoissonModel
  import opened Scorelines
  import opened MarketAggregation
  import opened GoalRates
  import opened ValueBets

  /** Everything an analysis derives. */
  datatype Analysis = Analysis(rates: MatchRates, cells: seq<Cell>, markets: Markets, ranked: seq<Bet>)

  /** The analysis with the matrix cut at maxGoals goals per side. */
  function AnalyseUpTo(homeAtHome: VenueAverages, awayAway: VenueAverages, odds: Odds,
                       key: real -> real, maxGoals: int, exp: ExpFn): (r: Analysis)
    ensures r.rates.home > 0.0 && r.rates.away > 0.0
    ensures |r.cells| == Side(maxGoals) * Side(maxGoals)
    ensures r.markets.homeWin + r.markets.draw + r.markets.awayWin == Total(r.cells)
    ensures r.markets.over25 + r.markets.under25 == 1.0
    ensures r.markets.bttsYes + r.markets.bttsNo == 1.0
    ensures Descending(r.ranked, key)
    ensures forall b :: b in r.ranked <==> b in Candidates(r.markets, odds) && b.ev > 0.0
    ensures TiesInEvaluationOrder(r.ranked, key)
  {
    var rates := Rates(homeAtHome, awayAway);
    var cells := MatchMatrix(rates.home, rates.away, maxGoals, exp);
    MatrixShape(rates.home, rates.away, maxGoals, exp);
    var markets := MarketProbabilities(cells);
    Analysis(rates, cells, markets, RankedBets(markets, odds, key))
  }

  /** The analysis as run: the matrix stops at the default cap. */
  function Analyse(homeAtHome: VenueAverages, awayAway: VenueAverages, odds: Odds,
                   key: real -> real, exp: ExpFn): (r: Analysis)
    ensures r.rates.home > 0.0 && r.rates.away > 0.0
    ensures |r.cells| == 64
    ensures r.markets.homeWin + r.markets.draw + r.markets.awayWin == Total(r.cells)
    ensures r.markets.over25 + r.markets.under25 == 1.0
    ensures r.markets.bttsYes + r.markets.bttsNo == 1.0
    ensures Descending(r.ranked, key)
    ensures forall b :: b in r.ranked <==> b in Candidates(r.markets, odds) && b.ev > 0.0
    ensures TiesInEvaluationOrder(r.ranked, key)
  {
    AnalyseUpTo(homeAtHome, awayAway, odds, key, DefaultMaxGoals, exp)
  }

  /** Every cell of the analysis's matrix is positive, and every market it reports
      is bounded by the matrix's mass. */
  lemma AnalysisMarketsBounded(homeAtHome: VenueAverages, awayAway: VenueAverages, odds: Odds,
                               key: real -> real, maxGoals: int, exp: ExpFn)
    ensures var r := AnalyseUpTo(homeAtHome, awayAway, odds, key, maxGoals, exp);
            && (forall c :: c in r.cells ==> c.prob > 0.0)
            && 0.0 <= r.markets.homeWin <= Total(r.cells)
            && 0.0 <= r.markets.draw <= Total(r.cells)
            && 0.0 <= r.markets.awayWin <= Total(r.cells)
            && 0.0 <= r.markets.over25 <= Total(r.cells)
            && 0.0 <= r.markets.bttsYes <= Total(r.cells)
  {
    var rates := Rates(homeAtHome, awayAway);
    MatrixPositive(rates.home, rates.away, maxGoals, exp);
    MatchMarketBounds(rates.home, rates.away, maxGoals, exp);
  }
}
