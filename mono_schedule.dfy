/**
 * The self-contained schedule object used by the primary genetic search: it
 * carries its own team dictionary and matchup table, computes its error
 * with its own constraint methods, scores a feasible schedule with a random
 * value in [1, 1000], and can look for an improving swap by trying every
 * pair of matchups.
 */
module MonolithicSchedule {
  import opened Weeks
  import opened Registry
  import opened Permutation
  import opened Incidence
  import opened Constraints
  import opened Crossover
  import opened RandomSource
  import opened ScoreCalculator

  /**
   * The tables a schedule is built from: one matchup per gameslot, a
   * dictionary numbering the teams 0 .. |teams| - 1, matchups between
   * registered teams, and every team and matchup the constraints name.
   */
  ghost predicate Registered(teams: map<string, nat>, matchupTeam: seq<Matchup>) {
    && |matchupTeam| == NumGameslots
    && IsBijection(teams)
    && WellFormed(|teams|, matchupTeam)
    && ResolveConfig(teams, matchupTeam).Some?
  }

  /** The season the tables describe. */
  function SeasonOf(teams: map<string, nat>, matchupTeam: seq<Matchup>): (season: Season)
    requires Registered(teams, matchupTeam)
    ensures ValidSeason(season)
    ensures season.matchupTeam == matchupTeam && season.numTeams == |teams|
    ensures Some(season.cfg) == ResolveConfig(teams, matchupTeam)
  {
    ResolveConfigMeaning(teams, matchupTeam);
    Season(matchupTeam, |teams|, ResolveConfig(teams, matchupTeam).value)
  }

  /**
   * The season's constraint indices are the dictionary's indices of the
   * named teams and the lookups of the named matchups.
   */
  lemma SeasonOfNames(teams: map<string, nat>, matchupTeam: seq<Matchup>)
    requires Registered(teams, matchupTeam)
    ensures Eagles in teams && Lions in teams && Cowboys in teams && Jets in teams && Giants in teams
    ensures var cfg := SeasonOf(teams, matchupTeam).cfg;
            && cfg.eagles == teams[Eagles] && cfg.lions == teams[Lions]
            && cfg.cowboys == teams[Cowboys] && cfg.jets == teams[Jets] && cfg.giants == teams[Giants]
            && Some(cfg.raidersSeahawks) == MatchupIndexByName(teams, matchupTeam, Raiders, Seahawks)
            && Some(cfg.chargersTitans) == MatchupIndexByName(teams, matchupTeam, Chargers, Titans)
            && Some(cfg.jaguarsEagles) == MatchupIndexByName(teams, matchupTeam, Jaguars, Eagles)
            && Some(cfg.ramsChiefs) == MatchupIndexByName(teams, matchupTeam, Rams, Chiefs)
  {
    ResolveConfigMeaning(teams, matchupTeam);
  }

  /**
   * _get_error in its own order: one game per week, the three home games,
   * the Giants/Jets stadium, then the four international matchups.
   */
  function SourceOrderError(h: seq<seq<nat>>, a: seq<seq<nat>>, mg: seq<nat>, cfg: Config): int
    requires Evaluable(h, a, mg, cfg)
  {
    OneGamePerWeek(h, a)
    + FixedHomeGame(h, cfg.eagles, 0)
    + FixedHomeGame(h, cfg.lions, ThanksgivingGameslots[0])
    + FixedHomeGame(h, cfg.cowboys, ThanksgivingGameslots[1])
    + SharedStadium(h, cfg.giants, cfg.jets)
    + FixedMatchup(mg, cfg.raidersSeahawks, LondonGames[0])
    + FixedMatchup(mg, cfg.chargersTitans, LondonGames[1])
    + FixedMatchup(mg, cfg.jaguarsEagles, LondonGames[2])
    + FixedMatchup(mg, cfg.ramsChiefs, MexicoGames[0])
  }

  /** The error counts the same violations as the modular score calculator. */
  lemma SourceOrderErrorIsViolations(h: seq<seq<nat>>, a: seq<seq<nat>>, mg: seq<nat>, cfg: Config)
    requires Evaluable(h, a, mg, cfg)
    ensures SourceOrderError(h, a, mg, cfg) == Violations(h, a, mg, cfg)
  {
    SharedStadiumSymmetric(h, cfg.giants, cfg.jets);
  }

  /** The error of an assignment, on the matrices derived from it. */
  function ScheduleError(season: Season, mg: seq<nat>): int
    requires ValidSeason(season) && |mg| == NumGameslots
  {
    var mt := season.matchupTeam;
    SourceOrderError(HomeMatrix(mt, mg, season.numTeams, |mt|), AwayMatrix(mt, mg, season.numTeams, |mt|), mg, season.cfg)
  }

  /** get_score's rule: minus the error, or a random value in [1, 1000] when the error is 0. */
  predicate ScoreFits(r: int, error: int) {
    if error == 0 then 1 <= r <= 1000 else r == -error
  }

  /**
   * A score obtained by the rule is nonnegative exactly when the modular
   * score is, and a negative one equals the modular score.
   */
  lemma ScoreAgreesWithModular(season: Season, mg: seq<nat>, r: int)
    requires ValidSeason(season) && |mg| == NumGameslots
    requires ScoreFits(r, ScheduleError(season, mg))
    ensures r >= 0 <==> ScheduleScore(season, mg) >= 0
    ensures r < 0 ==> r == ScheduleScore(season, mg)
  {
    var mt := season.matchupTeam;
    SourceOrderErrorIsViolations(HomeMatrix(mt, mg, season.numTeams, |mt|), AwayMatrix(mt, mg, season.numTeams, |mt|), mg, season.cfg);
  }

  /**
   * What a rejected trial swap tells about the error it reached: its score
   * was at most `current`, so either it was infeasible with -error <= current,
   * or it was feasible (score at least 1) and `current` is at least 1.
   */
  predicate NoGain(current: int, error: int) {
    if error == 0 then current >= 1 else -error <= current
  }

  /** The trial of pair (i, j) on `orig` found no gain over `current`. */
  ghost predicate Rejects(season: Season, current: int, orig: seq<nat>, i: nat, j: nat)
    requires ValidSeason(season) && IsPermutation(orig, NumGameslots) && i < NumGameslots && j < NumGameslots
  {
    NoGain(current, ScheduleError(season, Swapped(orig, i, j)))
  }

  /**
   * Every pair (p, q), p < q, that try_swap_all tries before (i, j) in
   * lexicographic order was rejected; with i = NUM_MATCHUPS, every pair.
   */
  ghost predicate RejectedBefore(season: Season, current: int, orig: seq<nat>, i: nat, j: nat)
    requires ValidSeason(season) && IsPermutation(orig, NumGameslots)
  {
    forall p, q :: 0 <= p < q < NumGameslots && (p < i || (p == i && q < j)) ==> Rejects(season, current, orig, p, q)
  }

  /** A rejected trial extends the rejected prefix by one pair; a finished row moves it to the next row. */
  lemma RejectedStep(season: Season, current: int, orig: seq<nat>, i: nat, j: nat)
    requires ValidSeason(season) && IsPermutation(orig, NumGameslots) && i < j < NumGameslots
    requires RejectedBefore(season, current, orig, i, j)
    requires Rejects(season, current, orig, i, j)
    ensures RejectedBefore(season, current, orig, i, j + 1)
    ensures j + 1 == NumGameslots ==> RejectedBefore(season, current, orig, i + 1, 0)
  {
  }

  /** A cached score, when there is one, fits the assignment's error. */
  ghost predicate CacheHolds(season: Season, mg: seq<nat>, score: Option<int>)
    requires ValidSeason(season) && |mg| == NumGameslots
  {
    score.Some? ==> ScoreFits(score.value, ScheduleError(season, mg))
  }

  class NFLSchedule {
    /** teams: team name to index. */
    const teams: map<string, nat>
    /** matchup_team: home and away team of every matchup. */
    const matchupTeam: seq<Matchup>
    /** The season the tables describe, with the constraint indices resolved. */
    ghost const season: Season
    var matchupGameslot: array<nat>
    var score: Option<int>
    var hometeamGameslot: seq<seq<nat>>
    var awayteamGameslot: seq<seq<nat>>

    /** The tables are registered and `season` is what they describe; this reads no mutable state. */
    ghost predicate Resolved() {
      Registered(teams, matchupTeam) && season == SeasonOf(teams, matchupTeam)
    }

    /** The assignment is a permutation and a cached score fits the assignment's error. */
    ghost predicate Valid()
      reads this, matchupGameslot
    {
      && ValidSeason(season) && season.matchupTeam == matchupTeam && season.numTeams == |teams|
      && IsPermutation(matchupGameslot[..], NumGameslots)
      && CacheHolds(season, matchupGameslot[..], score)
    }

    /** The matrices hold the current assignment's incidence. */
    ghost predicate MatricesCurrent()
      reads this, matchupGameslot
      requires Valid()
    {
      && hometeamGameslot == HomeMatrix(matchupTeam, matchupGameslot[..], |teams|, NumGameslots)
      && awayteamGameslot == AwayMatrix(matchupTeam, matchupGameslot[..], |teams|, NumGameslots)
    }

    /**
     * A fresh schedule over the given tables: matchup i at gameslot i, no
     * score yet. `season` is the ghost description of the tables that the
     * error is stated against.
     */
    constructor (teams: map<string, nat>, matchupTeam: seq<Matchup>, ghost season: Season)
      requires ValidSeason(season) && season.matchupTeam == matchupTeam && season.numTeams == |teams|
      ensures Valid() && this.teams == teams && this.matchupTeam == matchupTeam && this.season == season
      ensures fresh(matchupGameslot)
      ensures matchupGameslot[..] == Identity(NumGameslots) && score == None
    {
      this.teams := teams;
      this.matchupTeam := matchupTeam;
      this.season := season;
      matchupGameslot := new nat[|matchupTeam|](i => i);
      score := None;
      hometeamGameslot := [];
      awayteamGameslot := [];
    }

    /** __eq__: element-wise equality of the two assignments. */
    method Equals(other: NFLSchedule) returns (r: bool)
      requires matchupGameslot.Length == other.matchupGameslot.Length
      ensures r <==> matchupGameslot[..] == other.matchupGameslot[..]
    {
      r := true;
      var k := 0;
      while k < matchupGameslot.Length
        invariant 0 <= k <= matchupGameslot.Length
        invariant r <==> matchupGameslot[..k] == other.matchupGameslot[..k]
      {
        if matchupGameslot[k] != other.matchupGameslot[k] {
          r := false;
        }
        assert matchupGameslot[..k + 1] == matchupGameslot[..k] + [matchupGameslot[k]];
        assert other.matchupGameslot[..k + 1] == other.matchupGameslot[..k] + [other.matchupGameslot[k]];
        k := k + 1;
      }
      assert matchupGameslot[..] == matchupGameslot[..k];
      assert other.matchupGameslot[..] == other.matchupGameslot[..k];
    }

    /** get_matchups: an independent copy of the assignment. */
    method GetMatchups() returns (m: array<nat>)
      ensures fresh(m) && m[..] == matchupGameslot[..]
    {
      var src := matchupGameslot;
      m := new nat[src.Length](i requires 0 <= i < src.Length reads src => src[i]);
    }

    /** set_matchups: a new array holding the given assignment, score cleared. */
    method SetMatchups(matchups: seq<nat>)
      requires ValidSeason(season) && season.matchupTeam == matchupTeam && season.numTeams == |teams|
      requires IsPermutation(matchups, NumGameslots)
      modifies this
      ensures Valid() && fresh(matchupGameslot)
      ensures matchupGameslot[..] == matchups && score == None
      ensures hometeamGameslot == old(hometeamGameslot) && awayteamGameslot == old(awayteamGameslot)
    {
      matchupGameslot := new nat[|matchups|](i requires 0 <= i < |matchups| => matchups[i]);
      score := None;
    }

    /**
     * reproduce: a fresh child over the first parent's tables, its
     * assignment a one-point crossover of the parents' at a random split in
     * [1, NUM_MATCHUPS - 1], repaired.
     */
    static method Reproduce(rng: Random, s1: NFLSchedule, s2: NFLSchedule) returns (child: NFLSchedule)
      requires s1.Valid() && s2.Valid()
      modifies rng
      ensures fresh(child) && fresh(child.matchupGameslot)
      ensures child.Valid() && child.teams == s1.teams && child.matchupTeam == s1.matchupTeam && child.season == s1.season
      ensures child.score == None
      ensures CrossoverChild(s1.matchupGameslot[..], s2.matchupGameslot[..], child.matchupGameslot[..], NumGameslots)
    {
      child := new NFLSchedule(s1.teams, s1.matchupTeam, s1.season);
      var split := Recombine(rng, child.matchupGameslot, s1.matchupGameslot[..], s2.matchupGameslot[..]);
      assert ChildAt(s1.matchupGameslot[..], s2.matchupGameslot[..], child.matchupGameslot[..], NumGameslots, split);
    }

    /** _set_home_away_matrix: the incidence matrices of the current assignment. */
    method SetHomeAwayMatrix()
      requires Valid()
      modifies this
      ensures Valid() && MatricesCurrent()
      ensures unchanged(this`matchupGameslot) && unchanged(this`score)
    {
      hometeamGameslot, awayteamGameslot := BuildIncidence(matchupTeam, matchupGameslot[..], |teams|);
    }

    /**
     * shuffle: `iterations` swaps of randomly drawn matchup pairs, applied in
     * order; the score is cleared only when at least one swap was made.
     */
    method Shuffle(rng: Random, iterations: nat) returns (ghost pairs: seq<(nat, nat)>)
      requires Valid()
      modifies this, matchupGameslot, rng
      ensures Valid() && matchupGameslot == old(matchupGameslot)
      ensures |pairs| == iterations
      ensures forall k :: 0 <= k < |pairs| ==> pairs[k].0 < NumGameslots && pairs[k].1 < NumGameslots
      ensures matchupGameslot[..] == ApplySwaps(old(matchupGameslot[..]), pairs)
      ensures score == if iterations > 0 then None else old(score)
    {
      ghost var start := matchupGameslot[..];
      pairs := [];
      for i := 0 to iterations
        invariant matchupGameslot == old(matchupGameslot)
        invariant |pairs| == i
        invariant forall k :: 0 <= k < |pairs| ==> pairs[k].0 < NumGameslots && pairs[k].1 < NumGameslots
        invariant matchupGameslot[..] == ApplySwaps(start, pairs)
        invariant IsPermutation(matchupGameslot[..], NumGameslots)
        invariant score == old(score)
      {
        var m1: nat := rng.RandInt(0, matchupGameslot.Length - 1);
        var m2: nat := rng.RandInt(0, matchupGameslot.Length - 1);
        SwapFacts(matchupGameslot[..], NumGameslots, m1, m2);
        ghost var before := matchupGameslot[..];
        matchupGameslot[m1], matchupGameslot[m2] := matchupGameslot[m2], matchupGameslot[m1];
        assert matchupGameslot[..] == Swapped(before, m1, m2);
        pairs := pairs + [(m1, m2)];
        assert pairs[..|pairs| - 1] == pairs[..i];
      }
      if iterations > 0 {
        score := None;
      }
    }

    /** swap: matchups i and j exchange gameslots; the score is cleared. */
    method Swap(i: nat, j: nat)
      requires Valid() && i < NumGameslots && j < NumGameslots
      modifies this, matchupGameslot
      ensures Valid() && matchupGameslot == old(matchupGameslot)
      ensures matchupGameslot[..] == Swapped(old(matchupGameslot[..]), i, j)
      ensures score == None
    {
      SwapFacts(matchupGameslot[..], NumGameslots, i, j);
      ghost var before := matchupGameslot[..];
      matchupGameslot[i], matchupGameslot[j] := matchupGameslot[j], matchupGameslot[i];
      assert matchupGameslot[..] == Swapped(before, i, j);
      score := None;
    }

    /** copy: a fresh schedule over the same tables with its own equal array and the same cached score. */
    method Copy() returns (c: NFLSchedule)
      requires Valid()
      ensures fresh(c) && fresh(c.matchupGameslot)
      ensures c.Valid() && c.teams == teams && c.matchupTeam == matchupTeam && c.season == season
      ensures c.matchupGameslot[..] == matchupGameslot[..] && c.score == score
    {
      c := new NFLSchedule(teams, matchupTeam, season);
      var src := matchupGameslot;
      var m := new nat[src.Length](i requires 0 <= i < src.Length reads src => src[i]);
      assert m[..] == src[..];
      c.matchupGameslot := m;
      c.score := score;
      assert c.matchupGameslot[..] == matchupGameslot[..];
    }

    /**
     * get_matchup_index: the smallest matchup index pairing the two named
     * teams; None where the source raises (an unknown name or no such
     * matchup).
     */
    method GetMatchupIndex(hometeam: string, awayteam: string) returns (r: Option<nat>)
      ensures r == MatchupIndexByName(teams, matchupTeam, hometeam, awayteam)
    {
      if hometeam !in teams || awayteam !in teams {
        return None;
      }
      var homeIndex := teams[hometeam];
      var awayIndex := teams[awayteam];
      for i := 0 to |matchupTeam|
        invariant FindFrom(matchupTeam, homeIndex, awayIndex, i) == FindFrom(matchupTeam, homeIndex, awayIndex, 0)
      {
        if matchupTeam[i].home == homeIndex && matchupTeam[i].away == awayIndex {
          return Some(i);
        }
      }
      return None;
    }

    /** _get_error: the constraint checks of the current matrices, in the source's order. */
    method GetError() returns (error: int)
      requires Valid() && Resolved() && MatricesCurrent()
      ensures error == ScheduleError(season, matchupGameslot[..])
    {
      SeasonOfNames(teams, matchupTeam);
      var h, a := hometeamGameslot, awayteamGameslot;
      error := OneGamePerWeek(h, a);
      error := error + FixedHomeGame(h, teams[Eagles], 0);
      error := error + FixedHomeGame(h, teams[Lions], ThanksgivingGameslots[0]);
      error := error + FixedHomeGame(h, teams[Cowboys], ThanksgivingGameslots[1]);
      var stadium := SharedStadiumLoop(h, teams[Giants], teams[Jets]);
      error := error + stadium;
      var rs := GetMatchupIndex(Raiders, Seahawks);
      error := error + FixedMatchup(matchupGameslot[..], rs.value, LondonGames[0]);
      var ct := GetMatchupIndex(Chargers, Titans);
      error := error + FixedMatchup(matchupGameslot[..], ct.value, LondonGames[1]);
      var je := GetMatchupIndex(Jaguars, Eagles);
      error := error + FixedMatchup(matchupGameslot[..], je.value, LondonGames[2]);
      var rc := GetMatchupIndex(Rams, Chiefs);
      error := error + FixedMatchup(matchupGameslot[..], rc.value, MexicoGames[0]);
    }

    /** The computing branch of get_score: fresh matrices, the error, and the score it gives. */
    method Evaluate(rng: Random) returns (r: int)
      requires Valid() && Resolved()
      modifies this, rng
      ensures Valid() && unchanged(this`matchupGameslot) && unchanged(this`score)
      ensures ScoreFits(r, ScheduleError(season, matchupGameslot[..]))
    {
      SetHomeAwayMatrix();
      var error := GetError();
      if error == 0 {
        r := rng.RandInt(1, 1000);
      } else {
        r := -error;
      }
    }

    /**
     * get_score: computed and cached when no score is cached: minus the
     * error, or a random value in [1, 1000] for a schedule without error. A
     * cached score is returned as it is.
     */
    method GetScore(rng: Random) returns (r: int)
      requires Valid() && Resolved()
      modifies this, rng
      ensures Valid() && unchanged(this`matchupGameslot)
      ensures score == Some(r)
      ensures ScoreFits(r, ScheduleError(season, matchupGameslot[..]))
      ensures old(score).Some? ==> r == old(score).value
    {
      if score.None? {
        r := Evaluate(rng);
        score := Some(r);
      } else {
        r := score.value;
      }
    }

    /** constraints_satisfied: whether the score is nonnegative. */
    method ConstraintsSatisfied(rng: Random) returns (b: bool)
      requires Valid() && Resolved()
      modifies this, rng
      ensures Valid() && unchanged(this`matchupGameslot)
      ensures b <==> ScheduleScore(season, matchupGameslot[..]) >= 0
    {
      var s := GetScore(rng);
      ScoreAgreesWithModular(season, matchupGameslot[..], s);
      b := s >= 0;
    }

    /** One trial of try_swap_all: swap (i, j), keep it if the score beats `current`, otherwise swap back. */
    method TryPair(rng: Random, i: nat, j: nat, current: int, ghost orig: seq<nat>) returns (improved: bool)
      requires Valid() && Resolved() && matchupGameslot[..] == orig && i < NumGameslots && j < NumGameslots
      modifies this, matchupGameslot, rng
      ensures Valid() && matchupGameslot == old(matchupGameslot)
      ensures improved ==> matchupGameslot[..] == Swapped(orig, i, j) && score.Some? && score.value > current
      ensures !improved ==> matchupGameslot[..] == orig && Rejects(season, current, orig, i, j)
      ensures !improved ==> score == None
    {
      Swap(i, j);
      var s := GetScore(rng);
      if s > current {
        return true;
      }
      SwapFacts(orig, NumGameslots, i, j);
      Swap(i, j);
      return false;
    }

    /** One row of try_swap_all: the trials (i, j) for j = i + 1, i + 2, ... */
    method TrySwapsFrom(rng: Random, i: nat, current: int, ghost orig: seq<nat>) returns (improved: bool, ghost j0: nat)
      requires Valid() && Resolved() && matchupGameslot[..] == orig && i < NumGameslots
      requires RejectedBefore(season, current, orig, i, 0)
      modifies this, matchupGameslot, rng
      ensures Valid() && matchupGameslot == old(matchupGameslot)
      ensures improved ==> i < j0 < NumGameslots && matchupGameslot[..] == Swapped(orig, i, j0)
      ensures improved ==> score.Some? && score.value > current
      ensures improved ==> RejectedBefore(season, current, orig, i, j0)
      ensures !improved ==> matchupGameslot[..] == orig
      ensures !improved ==> RejectedBefore(season, current, orig, i + 1, 0)
      ensures !improved ==> score == if i + 1 < NumGameslots then None else old(score)
    {
      j0 := 0;
      var n := matchupGameslot.Length;
      var j := i + 1;
      while j < n
        invariant i + 1 <= j <= n == NumGameslots
        invariant Valid() && matchupGameslot == old(matchupGameslot) && matchupGameslot[..] == orig
        invariant RejectedBefore(season, current, orig, i, j)
        invariant j == n ==> RejectedBefore(season, current, orig, i + 1, 0)
        invariant score == if j > i + 1 then None else old(score)
      {
        improved := TryPair(rng, i, j, current, orig);
        if improved {
          j0 := j;
          return;
        }
        RejectedStep(season, current, orig, i, j);
        j := j + 1;
      }
      improved := false;
    }

    /**
     * try_swap_all: tries the swaps (i, j), i < j, in lexicographic order,
     * keeping the first whose score beats the current one and undoing every
     * other. On success exactly that one transposition is applied and every
     * earlier pair found no gain; on failure the assignment is back as it
     * was and no pair found a gain.
     */
    method TrySwapAll(rng: Random) returns (improved: bool, ghost current: int, ghost i0: nat, ghost j0: nat)
      requires Valid() && Resolved()
      modifies this, matchupGameslot, rng
      ensures Valid() && matchupGameslot == old(matchupGameslot)
      ensures ScoreFits(current, ScheduleError(season, old(matchupGameslot[..])))
      ensures improved ==> i0 < j0 < NumGameslots
                           && matchupGameslot[..] == Swapped(old(matchupGameslot[..]), i0, j0)
                           && score.Some? && score.value > current
      ensures improved ==> RejectedBefore(season, current, old(matchupGameslot[..]), i0, j0)
      ensures !improved ==> matchupGameslot[..] == old(matchupGameslot[..])
      ensures !improved ==> RejectedBefore(season, current, old(matchupGameslot[..]), NumGameslots, 0)
      ensures !improved ==> score == None
    {
      ghost var orig := matchupGameslot[..];
      var currentScore := GetScore(rng);
      current := currentScore;
      i0, j0 := 0, 0;
      var n := matchupGameslot.Length;
      var i := 0;
      while i < n
        invariant 0 <= i <= n == NumGameslots
        invariant Valid() && matchupGameslot == old(matchupGameslot) && matchupGameslot[..] == orig
        invariant RejectedBefore(season, current, orig, i, 0)
        invariant i > 0 ==> score == None
      {
        var found;
        found, j0 := TrySwapsFrom(rng, i, currentScore, orig);
        if found {
          improved, i0 := true, i;
          return;
        }
        i := i + 1;
      }
      improved := false;
    }
  }
}
