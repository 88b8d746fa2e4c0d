/**
 * The score calculator: the hard-constraint violations added up, and the
 * score that is their negation when any constraint is violated and the
 * heuristic value otherwise.
 */
module ScoreCalculator {
  import opened Weeks
  import opened Registry
  import opened Permutation
  import opened Incidence
  import opened Constraints

  /** What the evaluator needs: matrices of one shape and constraint indices inside them. */
  predicate Evaluable(h: seq<seq<nat>>, a: seq<seq<nat>>, mg: seq<nat>, cfg: Config) {
    Shaped(h, |h|) && Shaped(a, |h|) && ValidConfig(cfg, |h|, |mg|)
  }

  /**
   * The seven fixed checks of get_constraints: the four international
   * matchups at their London and Mexico gameslots, and the Eagles, Lions and
   * Cowboys hosting the opener and the first two Thanksgiving games. Together
   * they lie in 0..7, and they are 0 exactly when all seven hold.
   */
  function FixedChecks(h: seq<seq<nat>>, mg: seq<nat>, cfg: Config): (r: nat)
    requires Shaped(h, |h|) && ValidConfig(cfg, |h|, |mg|)
    ensures r <= 7
    ensures r == 0 <==>
              (&& mg[cfg.raidersSeahawks] == LondonGames[0]
               && mg[cfg.chargersTitans] == LondonGames[1]
               && mg[cfg.jaguarsEagles] == LondonGames[2]
               && mg[cfg.ramsChiefs] == MexicoGames[0]
               && h[cfg.eagles][0] == 1
               && h[cfg.lions][ThanksgivingGameslots[0]] == 1
               && h[cfg.cowboys][ThanksgivingGameslots[1]] == 1)
  {
    FixedMatchup(mg, cfg.raidersSeahawks, LondonGames[0])
    + FixedMatchup(mg, cfg.chargersTitans, LondonGames[1])
    + FixedMatchup(mg, cfg.jaguarsEagles, LondonGames[2])
    + FixedMatchup(mg, cfg.ramsChiefs, MexicoGames[0])
    + FixedHomeGame(h, cfg.eagles, 0)
    + FixedHomeGame(h, cfg.lions, ThanksgivingGameslots[0])
    + FixedHomeGame(h, cfg.cowboys, ThanksgivingGameslots[1])
  }

  /** get_constraints: one game per week, the fixed checks and the Jets/Giants stadium. */
  function Violations(h: seq<seq<nat>>, a: seq<seq<nat>>, mg: seq<nat>, cfg: Config): int
    requires Evaluable(h, a, mg, cfg)
  {
    OneGamePerWeek(h, a) + FixedChecks(h, mg, cfg) + SharedStadium(h, cfg.jets, cfg.giants)
  }

  /** get_heuristic: the constant 0, whatever the schedule. */
  function Heuristic(h: seq<seq<nat>>, a: seq<seq<nat>>, mg: seq<nat>): int {
    0
  }

  /**
   * get_score: minus the violations when there are any, otherwise the
   * heuristic. The result is never positive, and negative exactly when some
   * violation is counted.
   */
  function Score(h: seq<seq<nat>>, a: seq<seq<nat>>, mg: seq<nat>, cfg: Config): (r: int)
    requires Evaluable(h, a, mg, cfg)
    ensures r <= 0
    ensures r < 0 <==> Violations(h, a, mg, cfg) > 0
  {
    var v := Violations(h, a, mg, cfg);
    if v > 0 then -v else Heuristic(h, a, mg)
  }

  /**
   * The season a schedule is scored against: the matchup table, the number
   * of teams, and the team and matchup indices the constraints name.
   */
  datatype Season = Season(matchupTeam: seq<Matchup>, numTeams: nat, cfg: Config)

  /** One matchup per gameslot, every matchup between two registered teams, and resolved constraint indices. */
  predicate ValidSeason(season: Season) {
    && |season.matchupTeam| == NumGameslots
    && WellFormed(season.numTeams, season.matchupTeam)
    && ValidConfig(season.cfg, season.numTeams, NumGameslots)
  }

  /** The score of an assignment: get_score on the matrices derived from it. */
  function ScheduleScore(season: Season, mg: seq<nat>): int
    requires ValidSeason(season) && |mg| == NumGameslots
  {
    var mt := season.matchupTeam;
    Score(HomeMatrix(mt, mg, season.numTeams, |mt|), AwayMatrix(mt, mg, season.numTeams, |mt|), mg, season.cfg)
  }

  /**
   * With violations the score is exactly their negation; without, it is the
   * heuristic value, so every feasible schedule scores 0.
   */
  lemma ScoreCases(h: seq<seq<nat>>, a: seq<seq<nat>>, mg: seq<nat>, cfg: Config)
    requires Evaluable(h, a, mg, cfg)
    ensures Violations(h, a, mg, cfg) > 0 ==> Score(h, a, mg, cfg) == -Violations(h, a, mg, cfg)
    ensures Violations(h, a, mg, cfg) <= 0 ==> Score(h, a, mg, cfg) == Heuristic(h, a, mg) == 0
  {
  }

  /**
   * When no team has as many games as there are weeks (so one game per week
   * cannot go negative), a nonnegative score means every hard constraint
   * holds: no week with other than one game beyond one bye per team, all
   * seven fixed checks, and no shared-stadium clash; and conversely.
   */
  lemma ScoreNonNegativeMeaning(h: seq<seq<nat>>, a: seq<seq<nat>>, mg: seq<nat>, cfg: Config)
    requires Evaluable(h, a, mg, cfg)
    requires forall t :: 0 <= t < |h| ==> Sum(h[t]) + Sum(a[t]) < NumWeeks
    ensures Score(h, a, mg, cfg) >= 0 <==>
              (OneGamePerWeek(h, a) == 0 && FixedChecks(h, mg, cfg) == 0 && SharedStadium(h, cfg.jets, cfg.giants) == 0)
  {
    OneGamePerWeekNonNegative(h, a);
  }

  /**
   * A schedule where every team has exactly one bye and plays once in every
   * other week, all seven fixed checks hold and the stadium is never shared
   * scores 0.
   */
  lemma FeasibleScheduleScoresZero(h: seq<seq<nat>>, a: seq<seq<nat>>, mg: seq<nat>, cfg: Config)
    requires Evaluable(h, a, mg, cfg)
    requires forall t :: 0 <= t < |h| ==> OneBye(h, a, t)
    requires FixedChecks(h, mg, cfg) == 0 && SharedStadium(h, cfg.jets, cfg.giants) == 0
    ensures Score(h, a, mg, cfg) == 0
  {
    OneGamePerWeekSatisfied(h, a);
  }
}
