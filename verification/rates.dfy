/** The expected-goal rates fed into the Poisson model, derived from each team's
    season averages at the venue it plays. */
module GoalRates {
  import opened PoissonModel

  /** The rate used when a team's scored and conceded averages add to nothing. */
  const FallbackRate: real := 1.0

  /** One team's average goals scored and conceded per game at one venue. */
  datatype VenueAverages = VenueAverages(goalsFor: real, goalsAgainst: real)

  /** The two expected-goal rates of a match. */
  datatype MatchRates = MatchRates(home: real, away: real)

  /** The mean of a side's scoring average and its opponent's conceding average, or
      the fallback when their sum is not positive. */
  function ExpectedGoals(scored: real, conceded: real): (r: real)
    ensures r > 0.0
    ensures scored + conceded > 0.0 ==> r + r == scored + conceded
    ensures scored + conceded <= 0.0 ==> r == FallbackRate
  {
    if scored + conceded > 0.0 then (scored + conceded) / 2.0 else FallbackRate
  }

  /** The home side's rate pairs its home scoring with the visitors' away conceding,
      and the other way round for the away side. */
  function Rates(homeAtHome: VenueAverages, awayAway: VenueAverages): (r: MatchRates)
    ensures r.home == ExpectedGoals(homeAtHome.goalsFor, awayAway.goalsAgainst)
    ensures r.away == ExpectedGoals(awayAway.goalsFor, homeAtHome.goalsAgainst)
    ensures r.home > 0.0 && r.away > 0.0
  {
    MatchRates(ExpectedGoals(homeAtHome.goalsFor, awayAway.goalsAgainst),
               ExpectedGoals(awayAway.goalsFor, homeAtHome.goalsAgainst))
  }

  /** A derived rate lies between the two averages it is formed from, whenever
      their sum is positive. */
  lemma ExpectedGoalsBetween(scored: real, conceded: real)
    requires scored + conceded > 0.0
    ensures var r := ExpectedGoals(scored, conceded);
            (scored <= r <= conceded) || (conceded <= r <= scored)
  {
  }

  /** The derived rates are always positive, so the Poisson rate floor never fires on
      them: the rate the model evaluates is the rate derived here. */
  lemma FloorNeverApplies(homeAtHome: VenueAverages, awayAway: VenueAverages)
    ensures var r := Rates(homeAtHome, awayAway);
            EffectiveRate(r.home) == r.home && EffectiveRate(r.away) == r.away
  {
  }
}
