/**
 * The schedule object of the modular generator: the matchup-to-gameslot
 * array, updated in place by swaps, shuffles and crossover, with a cached
 * score that every mutation clears and the derived home/away matrices.
 */
module Schedule {
  import opened Weeks
  import opened Registry
  import opened Permutation
  import opened Incidence
  import opened Crossover
  import opened RandomSource
  import opened ScoreCalculator

  /**
   * Swapping the first two matchups in either order gives the same
   * assignment, and a further swap of two other matchups makes it differ.
   */
  lemma SwapOrderScenario(s: seq<nat>)
    requires IsPermutation(s, NumGameslots)
    ensures Swapped(s, 0, 1) == Swapped(s, 1, 0)
    ensures Swapped(Swapped(s, 0, 1), 10, 20) != Swapped(s, 1, 0)
  {
    SwapFacts(s, NumGameslots, 0, 1);
    var t := Swapped(s, 0, 1);
    assert Swapped(t, 10, 20)[10] == s[20] != s[10] == t[10];
  }

  /** A cached score, when there is one, is the assignment's score. */
  ghost predicate CacheHolds(season: Season, mg: seq<nat>, score: Option<int>)
    requires ValidSeason(season) && |mg| == NumGameslots
  {
    score.Some? ==> score.value == ScheduleScore(season, mg)
  }

  class NFLSchedule {
    /** The season this schedule belongs to (the module-level tables of the source). */
    const season: Season
    /** matchup_gameslot: the gameslot of every matchup. */
    var matchupGameslot: array<nat>
    /** _score: the cached score, None until computed. */
    var score: Option<int>
    /** hometeam_gameslot and awayteam_gameslot, as last derived. */
    var hometeamGameslot: seq<seq<nat>>
    var awayteamGameslot: seq<seq<nat>>

    /** The assignment is a permutation and a cached score is the assignment's score. */
    ghost predicate Valid()
      reads this, matchupGameslot
    {
      && ValidSeason(season)
      && IsPermutation(matchupGameslot[..], NumGameslots)
      && CacheHolds(season, matchupGameslot[..], score)
    }

    /** A fresh schedule: matchup i at gameslot i, no score yet. */
    constructor (season: Season)
      requires ValidSeason(season)
      ensures Valid() && this.season == season && fresh(matchupGameslot)
      ensures matchupGameslot[..] == Identity(NumGameslots) && score == None
    {
      this.season := season;
      matchupGameslot := new nat[NumGameslots](i => i);
      score := None;
      hometeamGameslot := [];
      awayteamGameslot := [];
    }

    /** __eq__: element-wise equality of the two assignments. */
    method Equals(other: NFLSchedule) returns (r: bool)
      requires matchupGameslot.Length == other.matchupGameslot.Length
      ensures r <==> matchupGameslot[..] == other.matchupGameslot[..]
    {
      r := true;
      var k := 0;
      while k < matchupGameslot.Length
        invariant 0 <= k <= matchupGameslot.Length
        invariant r <==> matchupGameslot[..k] == other.matchupGameslot[..k]
      {
        if matchupGameslot[k] != other.matchupGameslot[k] {
          r := false;
        }
        assert matchupGameslot[..k + 1] == matchupGameslot[..k] + [matchupGameslot[k]];
        assert other.matchupGameslot[..k + 1] == other.matchupGameslot[..k] + [other.matchupGameslot[k]];
        k := k + 1;
      }
      assert matchupGameslot[..] == matchupGameslot[..k];
      assert other.matchupGameslot[..] == other.matchupGameslot[..k];
    }

    /** get_matchups: an independent copy of the assignment. */
    method GetMatchups() returns (m: array<nat>)
      ensures fresh(m) && m[..] == matchupGameslot[..]
    {
      var src := matchupGameslot;
      m := new nat[src.Length](i requires 0 <= i < src.Length reads src => src[i]);
    }

    /** set_matchups: a new array holding the given assignment, score cleared. */
    method SetMatchups(matchups: seq<nat>)
      requires ValidSeason(season) && IsPermutation(matchups, NumGameslots)
      modifies this
      ensures Valid() && fresh(matchupGameslot)
      ensures matchupGameslot[..] == matchups && score == None
      ensures hometeamGameslot == old(hometeamGameslot) && awayteamGameslot == old(awayteamGameslot)
    {
      matchupGameslot := new nat[|matchups|](i requires 0 <= i < |matchups| => matchups[i]);
      score := None;
    }

    /**
     * reproduce: a fresh child whose assignment is a one-point crossover of
     * the parents' at a random split in [1, NUM_MATCHUPS - 1], repaired.
     */
    static method Reproduce(rng: Random, s1: NFLSchedule, s2: NFLSchedule) returns (child: NFLSchedule)
      requires s1.Valid() && s2.Valid() && s1.season == s2.season
      modifies rng
      ensures fresh(child) && fresh(child.matchupGameslot)
      ensures child.Valid() && child.season == s1.season && child.score == None
      ensures CrossoverChild(s1.matchupGameslot[..], s2.matchupGameslot[..], child.matchupGameslot[..], NumGameslots)
    {
      child := new NFLSchedule(s1.season);
      var split := Recombine(rng, child.matchupGameslot, s1.matchupGameslot[..], s2.matchupGameslot[..]);
      assert ChildAt(s1.matchupGameslot[..], s2.matchupGameslot[..], child.matchupGameslot[..], NumGameslots, split);
    }

    /** _set_home_away_matrix: the incidence matrices of the current assignment. */
    method SetHomeAwayMatrix()
      requires Valid()
      modifies this
      ensures Valid() && unchanged(this`matchupGameslot) && unchanged(this`score)
      ensures hometeamGameslot == HomeMatrix(season.matchupTeam, matchupGameslot[..], season.numTeams, NumGameslots)
      ensures awayteamGameslot == AwayMatrix(season.matchupTeam, matchupGameslot[..], season.numTeams, NumGameslots)
    {
      hometeamGameslot, awayteamGameslot := BuildIncidence(season.matchupTeam, matchupGameslot[..], season.numTeams);
    }

    /**
     * shuffle: `iterations` swaps of randomly drawn matchup pairs, applied in
     * order (a pair of equal indices changes nothing); the score is cleared
     * only when at least one swap was made.
     */
    method Shuffle(rng: Random, iterations: nat) returns (ghost pairs: seq<(nat, nat)>)
      requires Valid()
      modifies this, matchupGameslot, rng
      ensures Valid() && matchupGameslot == old(matchupGameslot)
      ensures |pairs| == iterations
      ensures forall k :: 0 <= k < |pairs| ==> pairs[k].0 < NumGameslots && pairs[k].1 < NumGameslots
      ensures matchupGameslot[..] == ApplySwaps(old(matchupGameslot[..]), pairs)
      ensures score == if iterations > 0 then None else old(score)
      ensures hometeamGameslot == old(hometeamGameslot) && awayteamGameslot == old(awayteamGameslot)
    {
      ghost var start := matchupGameslot[..];
      pairs := [];
      for i := 0 to iterations
        invariant matchupGameslot == old(matchupGameslot)
        invariant |pairs| == i
        invariant forall k :: 0 <= k < |pairs| ==> pairs[k].0 < NumGameslots && pairs[k].1 < NumGameslots
        invariant matchupGameslot[..] == ApplySwaps(start, pairs)
        invariant IsPermutation(matchupGameslot[..], NumGameslots)
        invariant score == old(score)
        invariant hometeamGameslot == old(hometeamGameslot) && awayteamGameslot == old(awayteamGameslot)
      {
        var m1: nat := rng.RandInt(0, NumGameslots - 1);
        var m2: nat := rng.RandInt(0, NumGameslots - 1);
        SwapFacts(matchupGameslot[..], NumGameslots, m1, m2);
        ghost var before := matchupGameslot[..];
        matchupGameslot[m1], matchupGameslot[m2] := matchupGameslot[m2], matchupGameslot[m1];
        assert matchupGameslot[..] == Swapped(before, m1, m2);
        pairs := pairs + [(m1, m2)];
        assert pairs[..|pairs| - 1] == pairs[..i];
      }
      if iterations > 0 {
        score := None;
      }
    }

    /** swap: matchups i and j exchange gameslots; the score is cleared. */
    method Swap(i: nat, j: nat)
      requires Valid() && i < NumGameslots && j < NumGameslots
      modifies this, matchupGameslot
      ensures Valid() && matchupGameslot == old(matchupGameslot)
      ensures matchupGameslot[..] == Swapped(old(matchupGameslot[..]), i, j)
      ensures score == None
      ensures hometeamGameslot == old(hometeamGameslot) && awayteamGameslot == old(awayteamGameslot)
    {
      SwapFacts(matchupGameslot[..], NumGameslots, i, j);
      ghost var before := matchupGameslot[..];
      matchupGameslot[i], matchupGameslot[j] := matchupGameslot[j], matchupGameslot[i];
      assert matchupGameslot[..] == Swapped(before, i, j);
      score := None;
    }

    /** copy: a fresh schedule with its own array, equal element-wise, and the same cached score. */
    method Copy() returns (c: NFLSchedule)
      requires Valid()
      ensures fresh(c) && fresh(c.matchupGameslot)
      ensures c.Valid() && c.season == season
      ensures c.matchupGameslot[..] == matchupGameslot[..] && c.score == score
    {
      c := new NFLSchedule(season);
      var src := matchupGameslot;
      var m := new nat[src.Length](i requires 0 <= i < src.Length reads src => src[i]);
      assert m[..] == src[..];
      c.matchupGameslot := m;
      c.score := score;
      assert c.matchupGameslot[..] == matchupGameslot[..];
    }

    /**
     * get_score: computed from freshly derived matrices when no score is
     * cached, and cached; a cached score is returned as it is. Either way it
     * is the assignment's score.
     */
    method GetScore() returns (r: int)
      requires Valid()
      modifies this
      ensures Valid() && unchanged(this`matchupGameslot)
      ensures r == ScheduleScore(season, matchupGameslot[..]) && score == Some(r)
      ensures old(score).Some? ==> r == old(score).value
    {
      if score.None? {
        SetHomeAwayMatrix();
        r := Score(hometeamGameslot, awayteamGameslot, matchupGameslot[..], season.cfg);
        score := Some(r);
      } else {
        r := score.value;
      }
    }

    /** constraints_satisfied: whether the score is nonnegative, i.e. no violation is counted. */
    method ConstraintsSatisfied() returns (b: bool)
      requires Valid()
      modifies this
      ensures Valid() && unchanged(this`matchupGameslot)
      ensures b <==> ScheduleScore(season, matchupGameslot[..]) >= 0
      ensures score == Some(ScheduleScore(season, matchupGameslot[..]))
    {
      var s := GetScore();
      b := s >= 0;
    }
  }
}
