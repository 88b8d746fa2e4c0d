/**
 * The read-only team/matchup registry: team names indexed in order of first
 * appearance in the matchup list, matchups as (home index, away index) pairs,
 * and the lookups that turn named teams and named matchups into indices.
 */
module Registry {

  datatype Option<T> = None | Some(value: T)

  /** A matchup: the home team's index and the away team's index. */
  datatype Matchup = Matchup(home: nat, away: nat)

  /** Every matchup names teams below `numTeams`. */
  predicate WellFormed(numTeams: nat, matchupTeam: seq<Matchup>) {
    forall i :: 0 <= i < |matchupTeam| ==>
      matchupTeam[i].home < numTeams && matchupTeam[i].away < numTeams
  }

  /** The team names of the data lines in reading order: home, then away, line by line. */
  function Names(lines: seq<(string, string)>): (names: seq<string>)
    ensures |names| == 2 * |lines|
    ensures forall i :: 0 <= i < |lines| ==> names[2 * i] == lines[i].0 && names[2 * i + 1] == lines[i].1
  {
    if lines == [] then []
    else Names(lines[..|lines| - 1]) + [lines[|lines| - 1].0, lines[|lines| - 1].1]
  }

  /** A name not yet seen receives the next free index. */
  function Register(teams: map<string, nat>, name: string): map<string, nat> {
    if name in teams then teams else teams[name := |teams|]
  }

  /** The team dictionary after reading `names` in order. */
  function Indexing(names: seq<string>): map<string, nat> {
    if names == [] then map[]
    else Register(Indexing(names[..|names| - 1]), names[|names| - 1])
  }

  /** `teams` is a bijection from its names onto [0, |teams|). */
  ghost predicate IsBijection(teams: map<string, nat>) {
    && (forall n :: n in teams ==> teams[n] < |teams|)
    && (forall n, m :: n in teams && m in teams && teams[n] == teams[m] ==> n == m)
  }

  lemma {:induction false} IndexingIsBijection(names: seq<string>)
    ensures Indexing(names).Keys == set n | n in names
    ensures IsBijection(Indexing(names))
  {
    if names != [] {
      var init := names[..|names| - 1];
      var last := names[|names| - 1];
      IndexingIsBijection(init);
      assert names == init + [last];
      var t := Indexing(init);
      if last !in t {
        assert t[last := |t|].Keys == t.Keys + {last};
        assert |t[last := |t|]| == |t| + 1;
      }
    }
  }

  /** Once a name has an index, reading more names never changes it. */
  lemma {:induction false} IndexingStable(names: seq<string>, p: nat)
    requires p <= |names|
    ensures forall n :: n in Indexing(names[..p]) ==>
              n in Indexing(names) && Indexing(names)[n] == Indexing(names[..p])[n]
    decreases |names| - p
  {
    if p < |names| {
      assert names[..p] == names[..p + 1][..p];
      assert Indexing(names[..p + 1]) == Register(Indexing(names[..p]), names[p]);
      IndexingStable(names, p + 1);
    } else {
      assert names[..p] == names;
    }
  }

  /**
   * Indices follow first appearance: the name first seen at position `p`
   * receives the number of distinct names seen before it.
   */
  lemma FirstAppearance(names: seq<string>, p: nat)
    requires p < |names| && names[p] !in names[..p]
    ensures names[p] in Indexing(names)
    ensures Indexing(names)[names[p]] == |set n | n in names[..p]|
  {
    IndexingIsBijection(names[..p]);
    assert names[..p] == names[..p + 1][..p];
    assert Indexing(names[..p + 1]) == Register(Indexing(names[..p]), names[p]);
    IndexingStable(names, p + 1);
  }

  /** Name `n` appears on some data line, as home or as away team. */
  ghost predicate Appears(lines: seq<(string, string)>, n: string) {
    exists i :: 0 <= i < |lines| && (lines[i].0 == n || lines[i].1 == n)
  }

  lemma NamesAppear(lines: seq<(string, string)>, n: string)
    ensures n in Names(lines) <==> Appears(lines, n)
  {
    var names := Names(lines);
    if n in names {
      var j :| 0 <= j < |names| && names[j] == n;
      var i := j / 2;
      assert j == 2 * i || j == 2 * i + 1;
    }
    if Appears(lines, n) {
      var i :| 0 <= i < |lines| && (lines[i].0 == n || lines[i].1 == n);
      assert names[2 * i] == lines[i].0 && names[2 * i + 1] == lines[i].1;
    }
  }

  /** Reading line `i` registers its home name, then its away name. */
  lemma IndexingLine(lines: seq<(string, string)>, i: nat)
    requires i < |lines|
    ensures Indexing(Names(lines[..i + 1])) ==
            Register(Register(Indexing(Names(lines[..i])), lines[i].0), lines[i].1)
  {
    assert lines[..i + 1][..i] == lines[..i];
    var names := Names(lines[..i + 1]);
    assert names == Names(lines[..i]) + [lines[i].0, lines[i].1];
    assert names[..|names| - 1] == Names(lines[..i]) + [lines[i].0];
    assert (Names(lines[..i]) + [lines[i].0])[..|names| - 2] == Names(lines[..i]);
  }

  /**
   * Reads the (home, away) name pairs twice, as the source reads its file:
   * first to give every team an index, then to build the matchup list.
   */
  method GetScheduleInfo(lines: seq<(string, string)>) returns (teams: map<string, nat>, matchupTeam: seq<Matchup>)
    ensures teams == Indexing(Names(lines))
    ensures forall n :: n in teams <==> Appears(lines, n)
    ensures IsBijection(teams)
    ensures |matchupTeam| == |lines|
    ensures forall i :: 0 <= i < |lines| ==>
              lines[i].0 in teams && lines[i].1 in teams &&
              matchupTeam[i] == Matchup(teams[lines[i].0], teams[lines[i].1])
    ensures WellFormed(|teams|, matchupTeam)
  {
    teams := IndexTeams(lines);
    IndexingOfLines(lines);
    matchupTeam := MatchupTeams(lines, teams);
  }

  /** First pass: every new name, home then away, receives the next index. */
  method IndexTeams(lines: seq<(string, string)>) returns (teams: map<string, nat>)
    ensures teams == Indexing(Names(lines))
  {
    teams := map[];
    for i := 0 to |lines|
      invariant teams == Indexing(Names(lines[..i]))
    {
      IndexingLine(lines, i);
      if lines[i].0 !in teams {
        teams := teams[lines[i].0 := |teams|];
      }
      if lines[i].1 !in teams {
        teams := teams[lines[i].1 := |teams|];
      }
    }
    assert lines[..|lines|] == lines;
  }

  /** Second pass: one [home index, away index] entry per line. */
  method MatchupTeams(lines: seq<(string, string)>, teams: map<string, nat>) returns (matchupTeam: seq<Matchup>)
    requires forall i :: 0 <= i < |lines| ==> lines[i].0 in teams && lines[i].1 in teams
    ensures |matchupTeam| == |lines|
    ensures forall i :: 0 <= i < |lines| ==> matchupTeam[i] == Matchup(teams[lines[i].0], teams[lines[i].1])
  {
    matchupTeam := [];
    for i := 0 to |lines|
      invariant |matchupTeam| == i
      invariant forall j :: 0 <= j < i ==> matchupTeam[j] == Matchup(teams[lines[j].0], teams[lines[j].1])
    {
      matchupTeam := matchupTeam + [Matchup(teams[lines[i].0], teams[lines[i].1])];
    }
  }

  /** The dictionary built from the lines holds exactly their names, bijectively. */
  lemma IndexingOfLines(lines: seq<(string, string)>)
    ensures forall n :: n in Indexing(Names(lines)) <==> Appears(lines, n)
    ensures IsBijection(Indexing(Names(lines)))
    ensures forall i :: 0 <= i < |lines| ==> lines[i].0 in Indexing(Names(lines)) && lines[i].1 in Indexing(Names(lines))
  {
    var names := Names(lines);
    IndexingIsBijection(names);
    forall n ensures n in Indexing(names) <==> Appears(lines, n) {
      NamesAppear(lines, n);
    }
  }

  /** The first matchup at or after index `i` equal to (home, away), if any. */
  function FindFrom(matchupTeam: seq<Matchup>, home: nat, away: nat, i: nat): (r: Option<nat>)
    requires i <= |matchupTeam|
    ensures r.Some? ==> i <= r.value < |matchupTeam| && matchupTeam[r.value] == Matchup(home, away)
    ensures r.Some? ==> forall j :: i <= j < r.value ==> matchupTeam[j] != Matchup(home, away)
    ensures r.None? ==> forall j :: i <= j < |matchupTeam| ==> matchupTeam[j] != Matchup(home, away)
    decreases |matchupTeam| - i
  {
    if i == |matchupTeam| then None
    else if matchupTeam[i].home == home && matchupTeam[i].away == away then Some(i)
    else FindFrom(matchupTeam, home, away, i + 1)
  }

  /**
   * The index of the matchup (home, away): the smallest such index, or
   * None where the source raises "matchup not found".
   */
  function MatchupIndex(matchupTeam: seq<Matchup>, home: nat, away: nat): (r: Option<nat>)
    ensures r.Some? ==> r.value < |matchupTeam| && matchupTeam[r.value] == Matchup(home, away)
    ensures r.Some? ==> forall j :: 0 <= j < r.value ==> matchupTeam[j] != Matchup(home, away)
    ensures r.None? <==> forall j :: 0 <= j < |matchupTeam| ==> matchupTeam[j] != Matchup(home, away)
  {
    FindFrom(matchupTeam, home, away, 0)
  }

  /**
   * The same lookup by team names: None when a name is not a team (the
   * dictionary lookup fails) or when no matchup pairs the two.
   */
  function MatchupIndexByName(teams: map<string, nat>, matchupTeam: seq<Matchup>, home: string, away: string): (r: Option<nat>)
    ensures r.Some? ==> r.value < |matchupTeam|
  {
    if home in teams && away in teams then MatchupIndex(matchupTeam, teams[home], teams[away]) else None
  }

  /**
   * The lookup by names succeeds exactly when both names are teams and some
   * matchup pairs them, and then finds the first such matchup.
   */
  lemma MatchupIndexByNameMeaning(teams: map<string, nat>, matchupTeam: seq<Matchup>, home: string, away: string)
    ensures var r := MatchupIndexByName(teams, matchupTeam, home, away);
            r.Some? <==> (home in teams && away in teams &&
              exists j :: 0 <= j < |matchupTeam| && matchupTeam[j] == Matchup(teams[home], teams[away]))
    ensures var r := MatchupIndexByName(teams, matchupTeam, home, away);
            r.Some? ==> (matchupTeam[r.value] == Matchup(teams[home], teams[away]) &&
              forall j :: 0 <= j < r.value ==> matchupTeam[j] != Matchup(teams[home], teams[away]))
  {
  }

  /**
   * The team and matchup indices the hard constraints refer to: the season
   * opener host, the two Thanksgiving hosts, the two teams sharing a
   * stadium, and the four international matchups.
   */
  datatype Config = Config(
    eagles: nat, lions: nat, cowboys: nat, jets: nat, giants: nat,
    raidersSeahawks: nat, chargersTitans: nat, jaguarsEagles: nat, ramsChiefs: nat)

  predicate ValidConfig(cfg: Config, numTeams: nat, numMatchups: nat) {
    && cfg.eagles < numTeams && cfg.lions < numTeams && cfg.cowboys < numTeams
    && cfg.jets < numTeams && cfg.giants < numTeams
    && cfg.raidersSeahawks < numMatchups && cfg.chargersTitans < numMatchups
    && cfg.jaguarsEagles < numMatchups && cfg.ramsChiefs < numMatchups
  }

  const Raiders := "Oakland Raiders"
  const Seahawks := "Seattle Seahawks"
  const Chargers := "Los Angeles Chargers"
  const Titans := "Tennessee Titans"
  const Jaguars := "Jacksonville Jaguars"
  const Eagles := "Philadelphia Eagles"
  const Rams := "Los Angeles Rams"
  const Chiefs := "Kansas City Chiefs"
  const Lions := "Detroit Lions"
  const Cowboys := "Dallas Cowboys"
  const Jets := "New York Jets"
  const Giants := "New York Giants"

  /**
   * Resolves the named teams and matchups of the constraint table against the
   * registry; None where the source's dictionary lookup or matchup search fails.
   */
  function ResolveConfig(teams: map<string, nat>, matchupTeam: seq<Matchup>): Option<Config>
  {
    var rs := MatchupIndexByName(teams, matchupTeam, Raiders, Seahawks);
    var ct := MatchupIndexByName(teams, matchupTeam, Chargers, Titans);
    var je := MatchupIndexByName(teams, matchupTeam, Jaguars, Eagles);
    var rc := MatchupIndexByName(teams, matchupTeam, Rams, Chiefs);
    if Eagles in teams && Lions in teams && Cowboys in teams && Jets in teams && Giants in teams
       && rs.Some? && ct.Some? && je.Some? && rc.Some?
    then Some(Config(teams[Eagles], teams[Lions], teams[Cowboys], teams[Jets], teams[Giants],
                     rs.value, ct.value, je.value, rc.value))
    else None
  }

  /**
   * A resolved configuration holds the dictionary's indices of the named
   * teams and the first matchup index of each named pairing; resolution
   * fails exactly when a name is missing or a pairing does not occur; and
   * over a dictionary numbering its teams densely every index is in range.
   */
  lemma ResolveConfigMeaning(teams: map<string, nat>, matchupTeam: seq<Matchup>)
    ensures var r := ResolveConfig(teams, matchupTeam);
            r.Some? ==>
              && Eagles in teams && Lions in teams && Cowboys in teams && Jets in teams && Giants in teams
              && r.value.eagles == teams[Eagles] && r.value.lions == teams[Lions]
              && r.value.cowboys == teams[Cowboys] && r.value.jets == teams[Jets] && r.value.giants == teams[Giants]
              && Some(r.value.raidersSeahawks) == MatchupIndexByName(teams, matchupTeam, Raiders, Seahawks)
              && Some(r.value.chargersTitans) == MatchupIndexByName(teams, matchupTeam, Chargers, Titans)
              && Some(r.value.jaguarsEagles) == MatchupIndexByName(teams, matchupTeam, Jaguars, Eagles)
              && Some(r.value.ramsChiefs) == MatchupIndexByName(teams, matchupTeam, Rams, Chiefs)
    ensures ResolveConfig(teams, matchupTeam).None? <==>
              || Eagles !in teams || Lions !in teams || Cowboys !in teams || Jets !in teams || Giants !in teams
              || MatchupIndexByName(teams, matchupTeam, Raiders, Seahawks).None?
              || MatchupIndexByName(teams, matchupTeam, Chargers, Titans).None?
              || MatchupIndexByName(teams, matchupTeam, Jaguars, Eagles).None?
              || MatchupIndexByName(teams, matchupTeam, Rams, Chiefs).None?
    ensures var r := ResolveConfig(teams, matchupTeam);
            r.Some? && IsBijection(teams) ==> ValidConfig(r.value, |teams|, |matchupTeam|)
  {
  }
}
