/**
 * The two schedule filters of the web front end. A matchup filter accepts a
 * schedule, given as its gameslot-to-matchup-index map, whose gameslot holds
 * the wanted matchup; an opener filter accepts a decoded schedule whose
 * first game of week 1 has the wanted away team. Both are values: their
 * constructors store the arguments unchanged and `Filter` changes nothing.
 */
module WebFilters {
  /**
   * A decoded schedule as the web pages list it: week number (1 to 17) to
   * its games, each [home, away, day label], with the row's year and score.
   */
  datatype Listing = Listing(schedule: map<nat, seq<seq<string>>>, year: int, score: real)

  /** The matchup ([home, away]) wanted at one gameslot, and the matchup table it is looked up in. */
  datatype MatchupFilter = MatchupFilter(matchup: seq<string>, gameslot: nat, matchupTeam: seq<seq<string>>)
  {
    /** The schedule assigns the filter's gameslot a matchup index the table holds. */
    predicate Applicable(gameslotMatchups: map<nat, nat>)
    {
      gameslot in gameslotMatchups && gameslotMatchups[gameslot] < |matchupTeam|
    }

    /** Whether the matchup the schedule plays at the filter's gameslot is the wanted one. */
    predicate Filter(gameslotMatchups: map<nat, nat>)
      requires Applicable(gameslotMatchups)
    {
      matchupTeam[gameslotMatchups[gameslot]] == matchup
    }
  }

  /**
   * The filter consults only the entry at its own gameslot: changing the
   * matchup index of any other gameslot changes neither applicability nor
   * the answer.
   */
  lemma MatchupFilterLocal(f: MatchupFilter, gm: map<nat, nat>, g: nat, v: nat)
    requires f.Applicable(gm) && g != f.gameslot
    ensures f.Applicable(gm[g := v])
    ensures f.Filter(gm[g := v]) == f.Filter(gm)
  {
  }

  /** The away team wanted in the season's first game. */
  datatype OpenerFilter = OpenerFilter(opener: string)
  {
    /** The decoded schedule has a first game of week 1 with an away team. */
    predicate Applicable(s: Listing)
    {
      1 in s.schedule && |s.schedule[1]| > 0 && |s.schedule[1][0]| > 1
    }

    /** Whether element 1 (the away team) of the first game of week 1 is the opener. */
    predicate Filter(s: Listing)
      requires Applicable(s)
    {
      s.schedule[1][0][1] == opener
    }
  }

  /**
   * The opener filter looks at no other week and no other game: replacing
   * any week but week 1, or any game of week 1 but the first, or the year
   * and score, leaves the answer unchanged; putting the opener in as the
   * first game's away team makes the listing pass.
   */
  lemma OpenerFilterLocal(o: OpenerFilter, s: Listing, w: nat, week: seq<seq<string>>, k: nat, game: seq<string>,
                          year: int, score: real)
    requires o.Applicable(s)
    ensures w != 1 ==> o.Applicable(s.(schedule := s.schedule[w := week]))
                       && o.Filter(s.(schedule := s.schedule[w := week])) == o.Filter(s)
    ensures 0 < k < |s.schedule[1]| ==> o.Applicable(s.(schedule := s.schedule[1 := s.schedule[1][k := game]]))
                                        && o.Filter(s.(schedule := s.schedule[1 := s.schedule[1][k := game]])) == o.Filter(s)
    ensures o.Filter(s.(year := year, score := score)) == o.Filter(s)
    ensures o.Filter(s.(schedule := s.schedule[1 := s.schedule[1][0 := s.schedule[1][0][1 := o.opener]]]))
  {
  }
}
