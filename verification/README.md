# Poisson value-bet engine

A Dafny model of the probability engine of a football expected-value (EV) betting
app. The engine works in four steps:

1. It derives an expected-goal rate for each side from season averages.
2. It builds the matrix of scoreline probabilities from two independent Poisson
   marginals.
3. It reduces the matrix to market probabilities: match result (1X2), over/under
   2.5 goals, and both teams to score (BTTS).
4. It compares those probabilities with the bookmaker's decimal odds and lists the
   markets of positive EV, largest first.

Modules, one per stage of the engine:

| file | module | models |
|---|---|---|
| poisson.dfy | `PoissonModel` | `poisson_probability`: rate floor, λ^k·e^(−λ)/k! |
| scoreline.dfy | `Scorelines` | `calculate_match_probabilities`: the row-major matrix |
| markets.dfy | `MarketAggregation` | `calculate_market_probabilities` |
| ev.dfy | `ExpectedValue` | `calculate_ev` |
| rates.dfy | `GoalRates` | the expected-goal formula of the analysis |
| ranking.dfy | `ValueBets` | the positive-EV list and its descending sort |
| analysis.dfy | `MatchAnalysis` | the pipeline: rates, matrix, markets, list |

Modelling choices:

- **Floats are reals.** Python floats are modelled as Dafny `real`, and goal counts
  as `nat`.
- **`exp` is a parameter.** `math.exp` is a parameter of type `ExpFn`. The only
  thing assumed about it is that it is positive.
- **The grid is generic.** It is defined over any two marginals `nat -> real`.
  The match plugs in `PoissonMarginal(rate, exp)` on both sides.
- **A negative cap gives an empty matrix.** `max_goals` is an `int`. A negative
  value gives an empty `range`, so the matrix has `Side(maxGoals)` = max(0,
  maxGoals + 1) goal counts per side.
- **The sort key is a parameter.** app.py sorts on the EV as printed: a
  percentage rounded to one decimal, then parsed back into a float. The model
  takes this key as a parameter `key: real -> real`. Rounding is monotone, so the
  facts that need a monotone key apply to it.
- **The sort is stable.** The model sorts by a stable insertion sort, because
  Python's `sorted(..., reverse=True)` keeps equal keys in their input order.

Behaviour of app.py that the model keeps as written:

- **Rate floor.** app.py does not require positive rates.
  `poisson_probability` silently replaces any rate ≤ 0 by 0.5.
- **Odds between 0 and 1.** `calculate_ev` returns 0 only for odds ≤ 0. An odd in
  (0, 1] still gives `p·odd − 1`.
- **Thresholds.** app.py has only the 2.5-goal threshold.
- **Missing components.** app.py has no Kelly fraction, bet classification,
  bankroll allocation or combined wager. None of them is modelled.

## Model

| member | source | states |
|---|---|---|
| PoissonModel.EffectiveRate | app.py:55-56 | The rate evaluated is always strictly positive, and equals the given rate whenever that rate is positive. |
| PoissonModel.Poisson | app.py:54-57 | The point probability λ^k·e^(−λ)/k!, with the rate floor applied first, is strictly positive for every goal count and every rate, including non-positive ones. |
| PoissonModel.FlooredRateAgrees | app.py:54-57 | Any rate ≤ 0 gives exactly the same probability as rate 0.5, for every goal count. |
| Scorelines.MatchMatrix | app.py:59-67 | The matrix holds (max_goals+1)² records, and none for a negative cap, as `range(max_goals + 1)` is then empty. |
| Scorelines.MatrixShape | app.py:59-67 | The matrix has (max_goals+1)² records (none for a negative cap). Record i is the scoreline (i / n, i % n): row-major order. |
| Scorelines.EachScorelineOnce | app.py:60-62 | Every scoreline (h, a) with both counts in [0, max_goals] sits at position h·n + a. No two records share a scoreline, and no record exceeds the cap: each pair appears exactly once. |
| Scorelines.MatrixProbabilities | app.py:63-66 | Each record's probability is the home team's Poisson probability of its home count times the away team's Poisson probability of its away count. |
| Scorelines.MatrixPositive | app.py:63-66 | Every record has strictly positive probability. |
| Scorelines.RowsShape | app.py:60-66 | For any two marginals, the first count rows of a width-n grid hold count·n records, and record i is the scoreline (i / n, i % n). |
| Scorelines.RowsCarry | app.py:60-66 | For any two marginals, every record of the grid lies inside it and carries home(h)·away(a) for its own scoreline (h, a). |
| Scorelines.GridEachOnce | app.py:60-62 | A square grid of width n holds every scoreline below n at position h·n + a, and holds no scoreline twice. |
| Scorelines.GridPositive | app.py:63-66 | Positive marginals give a grid whose every record is positive. |
| Scorelines.BuildGrid | app.py:60-67 | The two nested loops, appending one product record per (home, away) pair, produce exactly the recursive row-major grid. |
| Scorelines.BuildMatrix | app.py:59-67 | The loop-built Poisson matrix is the matrix the market lemmas reason about. |
| MarketAggregation.MarketProbabilities | app.py:69-78 | home_win + draw + away_win equals the matrix's total mass. over_2.5 + under_2.5 = 1 and btts_yes + btts_no = 1 exactly. |
| MarketAggregation.ResultPartition | app.py:71-73 | Home win (h > a), draw (h = a) and away win (h < a) partition the records: their masses add to the total mass. |
| MarketAggregation.MassComplement | app.py:74-77 | Two complementary predicates split the total mass. |
| MarketAggregation.OverMeansThreeOrMore | app.py:74 | over_2.5 sums exactly the records with h + a ≥ 3. |
| MarketAggregation.UnderAbsorbsTail | app.py:74-75 | under_2.5 is the mass of records with h + a ≤ 2 plus the mass the truncated matrix leaves out (1 − total). |
| MarketAggregation.BttsNoAbsorbsTail | app.py:76-77 | btts_no is the mass of records where a side scores 0 plus the mass left out (1 − total). |
| MarketAggregation.MarketBounds | app.py:71-77 | With non-negative records, each summed market lies in [0, total mass], and under_2.5 and btts_no are at least 1 − total. |
| MarketAggregation.MatchMarketBounds | app.py:59-78 | The same bounds hold for every Poisson match matrix, at any rates and cap. |
| MarketAggregation.GridMassFactors | app.py:60-66 | Independence: a product grid's total mass is the product of the two marginals' masses over the counts it covers. |
| MarketAggregation.MatrixMassFactors | app.py:59-67 | The match matrix's total mass is P(home ≤ cap) · P(away ≤ cap) under the two Poisson marginals. |
| MarketAggregation.ResultMassFactors | app.py:59-73 | home_win + draw + away_win = P(home ≤ cap) · P(away ≤ cap). |
| ExpectedValue.Ev | app.py:80-83 | At positive odds EV > 0 iff p·odd > 1, and EV = 0 iff p·odd = 1. At non-positive odds EV is 0. |
| ExpectedValue.EvBeatsImpliedProbability | app.py:80-83 | At positive odds a bet has positive EV exactly when p exceeds the implied probability 1/odd. |
| ExpectedValue.EvMonotone | app.py:80-83 | At fixed positive odds, EV never decreases as the probability grows. |
| ExpectedValue.FairOddBreaksEven | app.py:80-83 | At the fair odd 1/p the EV is exactly 0. |
| GoalRates.ExpectedGoals | app.py:175-176 | The rate is strictly positive for every input. It is the mean of the two averages when their sum is positive, and the 1.0 fallback otherwise. |
| GoalRates.Rates | app.py:170-176 | The home rate pairs the home team's home scoring with the visitors' away conceding, the away rate the other way round, and both are strictly positive. |
| GoalRates.ExpectedGoalsBetween | app.py:175-176 | When the sum is positive, the rate lies between the two averages it comes from. |
| GoalRates.FloorNeverApplies | app.py:55-56 | The derived rates are never floored: the Poisson model evaluates exactly the derived rate. |
| ValueBets.Offer | app.py:208-276 | A market's bet carries that market's probability and odd. At a positive odd its EV is positive iff probability × odd > 1, and zero iff the product is exactly 1. At a non-positive odd its EV is 0. |
| ValueBets.Candidates | app.py:208-276 | The seven bets are in evaluation order (home, draw, away, over, under, BTTS yes, BTTS no). Each market's bet is among them, and each of them is the bet for its own market. |
| ValueBets.PositiveEv | app.py:211-276 | A bet is kept iff it is a candidate and its EV is strictly positive. Never more bets than candidates. |
| ValueBets.Insert | app.py:282 | Inserting adds exactly the one bet: the multiset of the result is the input's plus that bet. |
| ValueBets.InsertKeepsDescending | app.py:282 | Inserting into a list sorted by descending key keeps it sorted. |
| ValueBets.SortByKey | app.py:282 | The result is in non-increasing key order and is a permutation of the input. |
| ValueBets.SortIsStable | app.py:282 | For every key value, the bets carrying it keep their input order (Python's sort is stable). |
| ValueBets.MonotoneKeyRespectsValue | app.py:282 | Under a monotone key, a bet lists below a bet of smaller EV only when their keys tie. |
| ValueBets.RankedBets | app.py:200-282 | The list is sorted by descending key. It holds exactly the candidates of positive EV, as a permutation of the filtered list, and has at most 7 entries. Bets whose keys tie appear in evaluation order: home, draw, away, over, under, BTTS yes, BTTS no. |
| ValueBets.PositiveEvKeepsOrder | app.py:211-276 | Keeping only the positive-EV bets preserves the order in which the markets are evaluated. |
| ValueBets.SortedTiesInOrder | app.py:282 | Stably sorting a list that is in evaluation order leaves every group of tied keys in evaluation order. |
| ValueBets.TiesFromClasses | app.py:282 | If, for every key value, the bets with that key are in evaluation order, then any two bets with equal keys are in evaluation order. |
| ValueBets.RankedExactlyTheValueBets | app.py:208-276 | With odds of at least 1.01, a market is listed iff its probability times its odd exceeds 1. |
| ValueBets.RankedAreOffers | app.py:209-276 | Every listed bet is the offer for its own market: that market's probability, its odd, and their EV, which is positive. |
| MatchAnalysis.AnalyseUpTo | app.py:175-282 | The pipeline gives positive rates and a matrix of (cap+1)² records, none for a negative cap. Its 1X2 sum equals the matrix mass, its complements are exact, and its list is sorted, holds exactly the positive-EV markets, and keeps tied keys in evaluation order. |
| MatchAnalysis.Analyse | app.py:175-282 | The analysis as run, with the default cap of 7 goals, has positive rates and 64 records. Its 1X2 sum equals the matrix mass, its complements are exact, and its list is sorted, holds exactly the positive-EV markets, and keeps tied keys in evaluation order. |
| MatchAnalysis.AnalysisMarketsBounded | app.py:193-194 | In the pipeline every record is positive and every summed market lies in [0, total mass]. |

## Left out

- The Streamlit page is not modelled: selectboxes, number inputs, metrics, columns, the dataframe and messages. It is presentation.
- `get_team_statistics`, the API configuration and the team-ID table are not modelled. They are HTTP I/O and static data.
- Parsing the API's JSON into floats is not modelled. This covers `float(... or 0)`, the `try/except` and `st.stop()`. The model starts from the four averages as reals.
- The matrix's total mass is not proved to be ≤ 1, and each cell is not proved to be ≤ 1. Either needs the series of `exp`, and `exp` is a parameter known only to be positive. The model proves positivity and states the factorisation of the mass instead.
- IEEE floating-point rounding is not modelled. All arithmetic is exact over `real`.
- The recurrence P(k+1) = P(k)·λ/(k+1) between successive Poisson terms is not modelled.
- The `Prob` and `EV` display strings are not modelled. Each bet carries the raw probability, odd and EV.
- ValueBets.SortByKey: the sort key is a parameter. app.py's actual key, the EV as a percentage printed with one decimal and parsed back, is not modelled. So the list is proved ordered by the key, not by the exact EV. `MonotoneKeyRespectsValue` bounds how far the two can differ.
- ValueBets.RankedExactlyTheValueBets: stated for odds of at least 1.01, the number inputs' minimum. The list itself is defined for any odds.
- MatchAnalysis.AnalyseUpTo: the goal cap is a parameter. The analysis always uses the default 7, and `MatchAnalysis.Analyse` restates the pipeline's facts for that cap. The bounds of `AnalysisMarketsBounded` are stated for every cap, 7 included, rather than for 7 alone.
- Kelly fractions, bet classification, bankroll allocation and combined wagers are not modelled, because app.py contains none of them.
