/**
 * The first schedule object of the project: it carries its team dictionary
 * and matchup table, and its only measure is an error (one game per week
 * and three fixed home games), cached in a field where -1 means "not
 * computed yet".
 */
module EarlySchedule {
  import opened Weeks
  import opened Registry
  import opened Permutation
  import opened Incidence
  import opened Constraints
  import opened Crossover
  import opened RandomSource
  import opened ScoreCalculator

  /** The hosts of the three fixed home games: the season opener and the first two Thanksgiving games. */
  datatype Hosts = Hosts(eagles: nat, lions: nat, cowboys: nat)

  /** One matchup per gameslot, matchups between registered teams, and hosts among the teams. */
  predicate ValidTables(mt: seq<Matchup>, numTeams: nat, hosts: Hosts) {
    && |mt| == NumGameslots
    && WellFormed(numTeams, mt)
    && hosts.eagles < numTeams && hosts.lions < numTeams && hosts.cowboys < numTeams
  }

  /** get_error: one game per week plus the three home-game checks, on the matrices of the assignment. */
  function EarlyError(mt: seq<Matchup>, numTeams: nat, hosts: Hosts, mg: seq<nat>): int
    requires ValidTables(mt, numTeams, hosts) && |mg| == NumGameslots
  {
    var h := HomeMatrix(mt, mg, numTeams, NumGameslots);
    var a := AwayMatrix(mt, mg, numTeams, NumGameslots);
    OneGamePerWeek(h, a)
    + FixedHomeGame(h, hosts.eagles, 0)
    + FixedHomeGame(h, hosts.lions, ThanksgivingGameslots[0])
    + FixedHomeGame(h, hosts.cowboys, ThanksgivingGameslots[1])
  }

  /**
   * When no team has as many games as there are weeks, the error is never
   * negative, and it is 0 exactly when every team plays once in every week
   * but one and the three hosts hold the games at gameslots 0, 161 and 162.
   */
  lemma EarlyErrorMeaning(mt: seq<Matchup>, numTeams: nat, hosts: Hosts, mg: seq<nat>)
    requires ValidTables(mt, numTeams, hosts) && IsPermutation(mg, NumGameslots)
    requires forall t :: 0 <= t < numTeams ==>
               Sum(HomeMatrix(mt, mg, numTeams, NumGameslots)[t]) + Sum(AwayMatrix(mt, mg, numTeams, NumGameslots)[t]) < NumWeeks
    ensures EarlyError(mt, numTeams, hosts, mg) >= 0
    ensures EarlyError(mt, numTeams, hosts, mg) == 0 <==>
              (&& OneGamePerWeek(HomeMatrix(mt, mg, numTeams, NumGameslots), AwayMatrix(mt, mg, numTeams, NumGameslots)) == 0
               && mt[Inverse(mg, NumGameslots)[0]].home == hosts.eagles
               && mt[Inverse(mg, NumGameslots)[ThanksgivingGameslots[0]]].home == hosts.lions
               && mt[Inverse(mg, NumGameslots)[ThanksgivingGameslots[1]]].home == hosts.cowboys)
  {
    OneGamePerWeekNonNegative(HomeMatrix(mt, mg, numTeams, NumGameslots), AwayMatrix(mt, mg, numTeams, NumGameslots));
    FixedHomeGameMeaning(mt, mg, numTeams, hosts.eagles, 0);
    FixedHomeGameMeaning(mt, mg, numTeams, hosts.lions, ThanksgivingGameslots[0]);
    FixedHomeGameMeaning(mt, mg, numTeams, hosts.cowboys, ThanksgivingGameslots[1]);
  }

  /**
   * The early error is the part of the later constraint set that it shares:
   * the later violations are the early error plus the four international
   * matchups and the shared stadium, so they are never smaller.
   */
  lemma EarlyErrorWithinViolations(season: Season, mg: seq<nat>)
    requires ValidSeason(season) && |mg| == NumGameslots
    ensures var hosts := Hosts(season.cfg.eagles, season.cfg.lions, season.cfg.cowboys);
            var mt := season.matchupTeam;
            var h := HomeMatrix(mt, mg, season.numTeams, NumGameslots);
            var a := AwayMatrix(mt, mg, season.numTeams, NumGameslots);
            && Violations(h, a, mg, season.cfg)
                 == EarlyError(mt, season.numTeams, hosts, mg)
                    + FixedMatchup(mg, season.cfg.raidersSeahawks, LondonGames[0])
                    + FixedMatchup(mg, season.cfg.chargersTitans, LondonGames[1])
                    + FixedMatchup(mg, season.cfg.jaguarsEagles, LondonGames[2])
                    + FixedMatchup(mg, season.cfg.ramsChiefs, MexicoGames[0])
                    + SharedStadium(h, season.cfg.jets, season.cfg.giants)
            && EarlyError(mt, season.numTeams, hosts, mg) <= Violations(h, a, mg, season.cfg)
  {
  }

  /** The cached error is the sentinel -1 or the error of the assignment. */
  ghost predicate ErrorCache(mt: seq<Matchup>, numTeams: nat, hosts: Hosts, mg: seq<nat>, error: int)
    requires ValidTables(mt, numTeams, hosts) && |mg| == NumGameslots
  {
    error == -1 || error == EarlyError(mt, numTeams, hosts, mg)
  }

  class NFLSchedule {
    /** teams: team name to index. */
    const teams: map<string, nat>
    /** matchup_team: home and away team of every matchup. */
    const matchupTeam: seq<Matchup>
    /** The indices of the three named hosts. */
    ghost const hosts: Hosts
    var matchupGameslot: array<nat>
    /** _error: -1 until computed. */
    var error: int
    var hometeamGameslot: seq<seq<nat>>
    var awayteamGameslot: seq<seq<nat>>

    /** The three names get_error looks up are teams, and `hosts` holds their indices; this reads no mutable state. */
    ghost predicate Resolved() {
      && Eagles in teams && Lions in teams && Cowboys in teams
      && hosts == Hosts(teams[Eagles], teams[Lions], teams[Cowboys])
    }

    /** The assignment is a permutation and the cached error is -1 or the assignment's error. */
    ghost predicate Valid()
      reads this, matchupGameslot
    {
      && ValidTables(matchupTeam, |teams|, hosts)
      && IsPermutation(matchupGameslot[..], NumGameslots)
      && ErrorCache(matchupTeam, |teams|, hosts, matchupGameslot[..], error)
    }

    /**
     * A fresh schedule over the given tables: matchup i at gameslot i, error
     * -1. `hosts` is the ghost description of the named hosts.
     */
    constructor (teams: map<string, nat>, matchupTeam: seq<Matchup>, ghost hosts: Hosts)
      requires ValidTables(matchupTeam, |teams|, hosts)
      ensures Valid() && this.teams == teams && this.matchupTeam == matchupTeam && this.hosts == hosts
      ensures fresh(matchupGameslot)
      ensures matchupGameslot[..] == Identity(NumGameslots) && error == -1
    {
      this.teams := teams;
      this.matchupTeam := matchupTeam;
      this.hosts := hosts;
      matchupGameslot := new nat[|matchupTeam|](i => i);
      error := -1;
      hometeamGameslot := [];
      awayteamGameslot := [];
    }

    /** __eq__: element-wise equality of the two assignments. */
    method Equals(other: NFLSchedule) returns (r: bool)
      requires matchupGameslot.Length == other.matchupGameslot.Length
      ensures r <==> matchupGameslot[..] == other.matchupGameslot[..]
    {
      r := true;
      var k := 0;
      while k < matchupGameslot.Length
        invariant 0 <= k <= matchupGameslot.Length
        invariant r <==> matchupGameslot[..k] == other.matchupGameslot[..k]
      {
        if matchupGameslot[k] != other.matchupGameslot[k] {
          r := false;
        }
        assert matchupGameslot[..k + 1] == matchupGameslot[..k] + [matchupGameslot[k]];
        assert other.matchupGameslot[..k + 1] == other.matchupGameslot[..k] + [other.matchupGameslot[k]];
        k := k + 1;
      }
      assert matchupGameslot[..] == matchupGameslot[..k];
      assert other.matchupGameslot[..] == other.matchupGameslot[..k];
    }

    /**
     * reproduce: a fresh child over the first parent's tables, its
     * assignment a one-point crossover of the parents' at a random split in
     * [1, NUM_MATCHUPS - 1], repaired; its error is -1.
     */
    static method Reproduce(rng: Random, s1: NFLSchedule, s2: NFLSchedule) returns (child: NFLSchedule)
      requires s1.Valid() && s2.Valid()
      modifies rng
      ensures fresh(child) && fresh(child.matchupGameslot)
      ensures child.Valid() && child.teams == s1.teams && child.matchupTeam == s1.matchupTeam && child.hosts == s1.hosts
      ensures child.error == -1
      ensures CrossoverChild(s1.matchupGameslot[..], s2.matchupGameslot[..], child.matchupGameslot[..], NumGameslots)
    {
      child := new NFLSchedule(s1.teams, s1.matchupTeam, s1.hosts);
      var split := Recombine(rng, child.matchupGameslot, s1.matchupGameslot[..], s2.matchupGameslot[..]);
      assert ChildAt(s1.matchupGameslot[..], s2.matchupGameslot[..], child.matchupGameslot[..], NumGameslots, split);
    }

    /** _set_home_away_matrix: the incidence matrices of the current assignment. */
    method SetHomeAwayMatrix()
      requires Valid()
      modifies this
      ensures Valid() && unchanged(this`matchupGameslot) && unchanged(this`error)
      ensures hometeamGameslot == HomeMatrix(matchupTeam, matchupGameslot[..], |teams|, NumGameslots)
      ensures awayteamGameslot == AwayMatrix(matchupTeam, matchupGameslot[..], |teams|, NumGameslots)
    {
      hometeamGameslot, awayteamGameslot := BuildIncidence(matchupTeam, matchupGameslot[..], |teams|);
    }

    /**
     * shuffle: `iterations` swaps of randomly drawn matchup pairs, applied in
     * order; the error is reset to -1 only when at least one swap was made.
     */
    method Shuffle(rng: Random, iterations: nat) returns (ghost pairs: seq<(nat, nat)>)
      requires Valid()
      modifies this, matchupGameslot, rng
      ensures Valid() && matchupGameslot == old(matchupGameslot)
      ensures |pairs| == iterations
      ensures forall k :: 0 <= k < |pairs| ==> pairs[k].0 < NumGameslots && pairs[k].1 < NumGameslots
      ensures matchupGameslot[..] == ApplySwaps(old(matchupGameslot[..]), pairs)
      ensures error == if iterations > 0 then -1 else old(error)
    {
      ghost var start := matchupGameslot[..];
      pairs := [];
      for i := 0 to iterations
        invariant matchupGameslot == old(matchupGameslot)
        invariant |pairs| == i
        invariant forall k :: 0 <= k < |pairs| ==> pairs[k].0 < NumGameslots && pairs[k].1 < NumGameslots
        invariant matchupGameslot[..] == ApplySwaps(start, pairs)
        invariant IsPermutation(matchupGameslot[..], NumGameslots)
        invariant error == old(error)
      {
        var m1: nat := rng.RandInt(0, matchupGameslot.Length - 1);
        var m2: nat := rng.RandInt(0, matchupGameslot.Length - 1);
        SwapFacts(matchupGameslot[..], NumGameslots, m1, m2);
        ghost var before := matchupGameslot[..];
        matchupGameslot[m1], matchupGameslot[m2] := matchupGameslot[m2], matchupGameslot[m1];
        assert matchupGameslot[..] == Swapped(before, m1, m2);
        pairs := pairs + [(m1, m2)];
        assert pairs[..|pairs| - 1] == pairs[..i];
      }
      if iterations > 0 {
        error := -1;
      }
    }

    /** swap: matchups i and j exchange gameslots; the error is reset to -1. */
    method Swap(i: nat, j: nat)
      requires Valid() && i < NumGameslots && j < NumGameslots
      modifies this, matchupGameslot
      ensures Valid() && matchupGameslot == old(matchupGameslot)
      ensures matchupGameslot[..] == Swapped(old(matchupGameslot[..]), i, j)
      ensures error == -1
    {
      SwapFacts(matchupGameslot[..], NumGameslots, i, j);
      ghost var before := matchupGameslot[..];
      matchupGameslot[i], matchupGameslot[j] := matchupGameslot[j], matchupGameslot[i];
      assert matchupGameslot[..] == Swapped(before, i, j);
      error := -1;
    }

    /** copy: a fresh schedule over the same tables with its own equal array and the same cached error. */
    method Copy() returns (c: NFLSchedule)
      requires Valid()
      ensures fresh(c) && fresh(c.matchupGameslot)
      ensures c.Valid() && c.teams == teams && c.matchupTeam == matchupTeam && c.hosts == hosts
      ensures c.matchupGameslot[..] == matchupGameslot[..] && c.error == error
    {
      c := new NFLSchedule(teams, matchupTeam, hosts);
      var src := matchupGameslot;
      var m := new nat[src.Length](i requires 0 <= i < src.Length reads src => src[i]);
      assert m[..] == src[..];
      c.matchupGameslot := m;
      c.error := error;
      assert c.matchupGameslot[..] == matchupGameslot[..];
    }

    /**
     * get_error: computed from fresh matrices and cached when the cache
     * holds -1, otherwise returned as cached; either way the assignment's
     * error.
     */
    method GetError() returns (e: int)
      requires Valid() && Resolved()
      modifies this
      ensures Valid() && unchanged(this`matchupGameslot)
      ensures e == EarlyError(matchupTeam, |teams|, hosts, matchupGameslot[..]) && error == e
    {
      if error == -1 {
        SetHomeAwayMatrix();
        var h, a := hometeamGameslot, awayteamGameslot;
        var total := OneGamePerWeek(h, a);
        total := total + FixedHomeGame(h, teams[Eagles], 0);
        total := total + FixedHomeGame(h, teams[Lions], ThanksgivingGameslots[0]);
        total := total + FixedHomeGame(h, teams[Cowboys], ThanksgivingGameslots[1]);
        error := total;
      }
      e := error;
    }
  }
}
