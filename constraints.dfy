/**
 * The hard constraints, each a count of violations read from the incidence
 * matrices (team by gameslot, 0/1) and the matchup-to-gameslot assignment.
 */
module Constraints {
  import opened Weeks
  import opened Registry
  import opened Permutation
  import opened Incidence

  /** A team-by-gameslot matrix with `rows` teams and one column per gameslot of the season. */
  predicate Shaped(x: seq<seq<nat>>, rows: nat) {
    |x| == rows && forall t :: 0 <= t < rows ==> |x[t]| == NumGameslots
  }

  /** Team t's games (home plus away) in week w: entry [t][w] of the summed matrix products. */
  function Games(h: seq<seq<nat>>, a: seq<seq<nat>>, t: nat, w: nat): nat
    requires Shaped(h, |h|) && Shaped(a, |h|) && t < |h| && w < NumWeeks
  {
    WeekCount(h[t], w) + WeekCount(a[t], w)
  }

  /** The number of weeks below k in which team t does not play exactly once. */
  function TeamBadWeeks(h: seq<seq<nat>>, a: seq<seq<nat>>, t: nat, k: nat): nat
    requires Shaped(h, |h|) && Shaped(a, |h|) && t < |h| && k <= NumWeeks
  {
    if k == 0 then 0 else TeamBadWeeks(h, a, t, k - 1) + Indicator(Games(h, a, t, k - 1) != 1)
  }

  /** The number of (team, week) cells, over the first k teams, whose game count is not 1. */
  function BadCells(h: seq<seq<nat>>, a: seq<seq<nat>>, k: nat): nat
    requires Shaped(h, |h|) && Shaped(a, |h|) && k <= |h|
  {
    if k == 0 then 0 else BadCells(h, a, k - 1) + TeamBadWeeks(h, a, k - 1, NumWeeks)
  }

  /**
   * one_game_per_week: the cells whose count is not 1, less one per team
   * (every team is allowed its bye week).
   */
  function OneGamePerWeek(h: seq<seq<nat>>, a: seq<seq<nat>>): int
    requires Shaped(h, |h|) && Shaped(a, |h|)
  {
    BadCells(h, a, |h|) - |h|
  }

  lemma {:induction false} SameGamesSameBadWeeks(h: seq<seq<nat>>, a: seq<seq<nat>>, h': seq<seq<nat>>, a': seq<seq<nat>>, t: nat, k: nat)
    requires Shaped(h, |h|) && Shaped(a, |h|) && Shaped(h', |h|) && Shaped(a', |h|) && t < |h| && k <= NumWeeks
    requires forall w :: 0 <= w < NumWeeks ==> Games(h, a, t, w) == Games(h', a', t, w)
    ensures TeamBadWeeks(h, a, t, k) == TeamBadWeeks(h', a', t, k)
  {
    if k > 0 {
      SameGamesSameBadWeeks(h, a, h', a', t, k - 1);
    }
  }

  lemma {:induction false} SameGamesSameBadCells(h: seq<seq<nat>>, a: seq<seq<nat>>, h': seq<seq<nat>>, a': seq<seq<nat>>, k: nat)
    requires Shaped(h, |h|) && Shaped(a, |h|) && Shaped(h', |h|) && Shaped(a', |h|) && k <= |h|
    requires forall t, w :: 0 <= t < |h| && 0 <= w < NumWeeks ==> Games(h, a, t, w) == Games(h', a', t, w)
    ensures BadCells(h, a, k) == BadCells(h', a', k)
  {
    if k > 0 {
      SameGamesSameBadCells(h, a, h', a', k - 1);
      SameGamesSameBadWeeks(h, a, h', a', k - 1, NumWeeks);
    }
  }

  /** one_game_per_week depends only on the per-week game totals. */
  lemma OneGamePerWeekByTotals(h: seq<seq<nat>>, a: seq<seq<nat>>, h': seq<seq<nat>>, a': seq<seq<nat>>)
    requires Shaped(h, |h|) && Shaped(a, |h|) && Shaped(h', |h|) && Shaped(a', |h|)
    requires forall t, w :: 0 <= t < |h| && 0 <= w < NumWeeks ==> Games(h, a, t, w) == Games(h', a', t, w)
    ensures OneGamePerWeek(h, a) == OneGamePerWeek(h', a')
  {
    SameGamesSameBadCells(h, a, h', a', |h|);
  }

  /**
   * Moving a game to another gameslot of the same week (swapping two
   * matchups whose gameslots share a week) leaves one_game_per_week unchanged.
   */
  lemma OneGamePerWeekSameWeekSwap(mt: seq<Matchup>, mg: seq<nat>, numTeams: nat, i: nat, j: nat)
    requires |mt| == NumGameslots && IsPermutation(mg, |mt|) && i < |mt| && j < |mt|
    requires WeekOf(mg[i]) == WeekOf(mg[j])
    ensures IsPermutation(Swapped(mg, i, j), |mt|)
    ensures OneGamePerWeek(HomeMatrix(mt, Swapped(mg, i, j), numTeams, |mt|), AwayMatrix(mt, Swapped(mg, i, j), numTeams, |mt|))
         == OneGamePerWeek(HomeMatrix(mt, mg, numTeams, |mt|), AwayMatrix(mt, mg, numTeams, |mt|))
  {
    SwapFacts(mg, |mt|, i, j);
    var sw := Swapped(mg, i, j);
    var h, a := HomeMatrix(mt, mg, numTeams, |mt|), AwayMatrix(mt, mg, numTeams, |mt|);
    var h', a' := HomeMatrix(mt, sw, numTeams, |mt|), AwayMatrix(mt, sw, numTeams, |mt|);
    SwapColumns(mt, mg, numTeams, i, j);
    forall t, w | 0 <= t < numTeams && 0 <= w < NumWeeks ensures Games(h, a, t, w) == Games(h', a', t, w) {
      WeekCountSwapped(h[t], mg[i], mg[j], w);
      WeekCountSwapped(a[t], mg[i], mg[j], w);
    }
    OneGamePerWeekByTotals(h, a, h', a');
  }

  /** Week `bye` is team t's only week without a game, and it plays once in every other week. */
  predicate ByeWeek(h: seq<seq<nat>>, a: seq<seq<nat>>, t: nat, bye: nat)
    requires Shaped(h, |h|) && Shaped(a, |h|) && t < |h| && bye < NumWeeks
  {
    Games(h, a, t, bye) == 0 && forall w :: 0 <= w < NumWeeks && w != bye ==> Games(h, a, t, w) == 1
  }

  lemma {:induction false} OneByeWeeks(h: seq<seq<nat>>, a: seq<seq<nat>>, t: nat, bye: nat, k: nat)
    requires Shaped(h, |h|) && Shaped(a, |h|) && t < |h| && k <= NumWeeks && bye < NumWeeks
    requires ByeWeek(h, a, t, bye)
    ensures TeamBadWeeks(h, a, t, k) == Indicator(bye < k)
  {
    if k > 0 {
      OneByeWeeks(h, a, t, bye, k - 1);
    }
  }

  /** Team t has a bye week. */
  predicate OneBye(h: seq<seq<nat>>, a: seq<seq<nat>>, t: nat)
    requires Shaped(h, |h|) && Shaped(a, |h|) && t < |h|
  {
    exists bye :: 0 <= bye < NumWeeks && ByeWeek(h, a, t, bye)
  }

  lemma {:induction false} OneByeCells(h: seq<seq<nat>>, a: seq<seq<nat>>, k: nat)
    requires Shaped(h, |h|) && Shaped(a, |h|) && k <= |h|
    requires forall t :: 0 <= t < |h| ==> OneBye(h, a, t)
    ensures BadCells(h, a, k) == k
  {
    if k > 0 {
      OneByeCells(h, a, k - 1);
      assert OneBye(h, a, k - 1);
      var bye :| 0 <= bye < NumWeeks && ByeWeek(h, a, k - 1, bye);
      OneByeWeeks(h, a, k - 1, bye, NumWeeks);
    }
  }

  /**
   * A season in which every team has exactly one week without a game and
   * one game in every other week has no one_game_per_week violation.
   */
  lemma OneGamePerWeekSatisfied(h: seq<seq<nat>>, a: seq<seq<nat>>)
    requires Shaped(h, |h|) && Shaped(a, |h|)
    requires forall t :: 0 <= t < |h| ==> OneBye(h, a, t)
    ensures OneGamePerWeek(h, a) == 0
  {
    OneByeCells(h, a, |h|);
  }

  lemma {:induction false} NoBadWeekTotal(h: seq<seq<nat>>, a: seq<seq<nat>>, t: nat, k: nat)
    requires Shaped(h, |h|) && Shaped(a, |h|) && t < |h| && k <= NumWeeks
    requires TeamBadWeeks(h, a, t, k) == 0
    ensures WeekTotal(h[t], k) + WeekTotal(a[t], k) == k
  {
    if k > 0 {
      NoBadWeekTotal(h, a, t, k - 1);
    }
  }

  lemma {:induction false} BadCellsAtLeast(h: seq<seq<nat>>, a: seq<seq<nat>>, k: nat)
    requires Shaped(h, |h|) && Shaped(a, |h|) && k <= |h|
    requires forall t :: 0 <= t < |h| ==> Sum(h[t]) + Sum(a[t]) < NumWeeks
    ensures BadCells(h, a, k) >= k
  {
    if k > 0 {
      BadCellsAtLeast(h, a, k - 1);
      var t := k - 1;
      if TeamBadWeeks(h, a, t, NumWeeks) == 0 {
        NoBadWeekTotal(h, a, t, NumWeeks);
        WeeksCoverRow(h[t]);
        WeeksCoverRow(a[t]);
      }
    }
  }

  /**
   * When every team plays fewer games than there are weeks (the league's 16
   * games in 17 weeks), each team has at least one week not played exactly
   * once, so one_game_per_week is never negative.
   */
  lemma OneGamePerWeekNonNegative(h: seq<seq<nat>>, a: seq<seq<nat>>)
    requires Shaped(h, |h|) && Shaped(a, |h|)
    requires forall t :: 0 <= t < |h| ==> Sum(h[t]) + Sum(a[t]) < NumWeeks
    ensures OneGamePerWeek(h, a) >= 0
  {
    BadCellsAtLeast(h, a, |h|);
  }

  /** fixed_home_game: 0 when `team` hosts the game at `gameslot`, 1 otherwise. */
  function FixedHomeGame(h: seq<seq<nat>>, team: nat, gameslot: nat): nat
    requires Shaped(h, |h|) && team < |h| && gameslot < NumGameslots
  {
    if h[team][gameslot] == 1 then 0 else 1
  }

  /**
   * On the matrices of an assignment, fixed_home_game is 0 exactly when the
   * matchup scheduled at the gameslot is hosted by the team.
   */
  lemma FixedHomeGameMeaning(mt: seq<Matchup>, mg: seq<nat>, numTeams: nat, team: nat, gameslot: nat)
    requires |mt| == NumGameslots && IsPermutation(mg, |mt|)
    requires team < numTeams && gameslot < NumGameslots
    ensures Shaped(HomeMatrix(mt, mg, numTeams, |mt|), numTeams)
    ensures FixedHomeGame(HomeMatrix(mt, mg, numTeams, |mt|), team, gameslot) <= 1
    ensures (FixedHomeGame(HomeMatrix(mt, mg, numTeams, |mt|), team, gameslot) == 0)
              <==> (mt[Inverse(mg, |mt|)[gameslot]].home == team)
  {
    PermutationColumn(mt, mg, numTeams, gameslot);
  }

  /** fixed_matchup: 0 when `matchup` is scheduled at `gameslot`, 1 otherwise. */
  function FixedMatchup(mg: seq<nat>, matchup: nat, gameslot: nat): nat
    requires matchup < |mg|
  {
    if mg[matchup] == gameslot then 0 else 1
  }

  /**
   * fixed_matchup is 0 exactly when the gameslot holds the matchup in the
   * gameslot-to-matchup direction too, and swapping two other matchups
   * leaves it unchanged.
   */
  lemma FixedMatchupMeaning(mg: seq<nat>, n: nat, matchup: nat, gameslot: nat, i: nat, j: nat)
    requires IsPermutation(mg, n) && matchup < n && gameslot < n && i < n && j < n
    requires i != matchup && j != matchup
    ensures FixedMatchup(mg, matchup, gameslot) == 0 <==> Inverse(mg, n)[gameslot] == matchup
    ensures FixedMatchup(Swapped(mg, i, j), matchup, gameslot) == FixedMatchup(mg, matchup, gameslot)
  {
    SwapFacts(mg, n, i, j);
  }

  /** Home games of both teams in week w: the product of their week counts. */
  function HomeSameWeek(h: seq<seq<nat>>, t1: nat, t2: nat, w: nat): nat
    requires Shaped(h, |h|) && t1 < |h| && t2 < |h| && w < NumWeeks
  {
    WeekCount(h[t1], w) * WeekCount(h[t2], w)
  }

  /**
   * Week w is exempt when it is not the final week and either team hosts
   * the week's first (Thursday) or last (Monday) gameslot.
   */
  predicate Exempt(h: seq<seq<nat>>, t1: nat, t2: nat, w: nat)
    requires Shaped(h, |h|) && t1 < |h| && t2 < |h| && w < NumWeeks
  {
    w < NumWeeks - 1
    && (h[t1][FirstSlot(w)] != 0 || h[t2][FirstSlot(w)] != 0
        || h[t1][LastSlot(w)] != 0 || h[t2][LastSlot(w)] != 0)
  }

  /** Week w's contribution to shared_stadium. */
  function StadiumWeek(h: seq<seq<nat>>, t1: nat, t2: nat, w: nat): nat
    requires Shaped(h, |h|) && t1 < |h| && t2 < |h| && w < NumWeeks
  {
    if Exempt(h, t1, t2, w) then 0 else HomeSameWeek(h, t1, t2, w)
  }

  /** shared_stadium: the week contributions added up. */
  function SharedStadium(h: seq<seq<nat>>, t1: nat, t2: nat): nat
    requires Shaped(h, |h|) && t1 < |h| && t2 < |h|
  {
    Sum(seq(NumWeeks, w requires 0 <= w < NumWeeks => StadiumWeek(h, t1, t2, w)))
  }

  /**
   * One week of the loop: the running count is the week's first gameslot,
   * and adding the week's size and stepping back one gives its last.
   */
  lemma StadiumStep(h: seq<seq<nat>>, t1: nat, t2: nat, w: nat)
    requires Shaped(h, |h|) && t1 < |h| && t2 < |h| && w < NumWeeks - 1
    ensures Prefix(w) + WeekSizes[w] == Prefix(w + 1) <= NumGameslots && WeekSizes[w] > 0
    ensures Exempt(h, t1, t2, w) <==>
              (|| h[t1][Prefix(w)] != 0 || h[t2][Prefix(w)] != 0
               || h[t1][Prefix(w) + WeekSizes[w] - 1] != 0 || h[t2][Prefix(w) + WeekSizes[w] - 1] != 0)
  {
    WeekRange(w);
  }

  /**
   * One iteration of shared_stadium's loop: the week's product is zeroed
   * when either team hosts the gameslot at the running count (the week's
   * Thursday game) or, after the count advances by the week's size, the one
   * just before it (the Monday game).
   */
  method StadiumWeekStep(h: seq<seq<nat>>, t1: nat, t2: nat, w: nat, gsCount: nat, product: nat)
    returns (entry: nat, next: nat)
    requires Shaped(h, |h|) && t1 < |h| && t2 < |h| && w < NumWeeks - 1
    requires gsCount == Prefix(w) && product == HomeSameWeek(h, t1, t2, w)
    ensures entry == StadiumWeek(h, t1, t2, w) && next == Prefix(w + 1)
  {
    StadiumStep(h, t1, t2, w);
    entry := product;
    if h[t1][gsCount] != 0 || h[t2][gsCount] != 0 {
      entry := 0;
    }
    next := gsCount + WeekSizes[w];
    if h[t1][next - 1] != 0 || h[t2][next - 1] != 0 {
      entry := 0;
    }
  }

  /**
   * shared_stadium as the source computes it: the per-week products, then a
   * pass over all weeks but the last with a running gameslot count that
   * zeroes a week when either team is home on its Thursday or Monday
   * gameslot, then the sum.
   */
  method SharedStadiumLoop(h: seq<seq<nat>>, t1: nat, t2: nat) returns (r: nat)
    requires Shaped(h, |h|) && t1 < |h| && t2 < |h|
    ensures r == SharedStadium(h, t1, t2)
  {
    var homeSameWeek := seq(NumWeeks, w requires 0 <= w < NumWeeks => WeekCount(h[t1], w) * WeekCount(h[t2], w));
    var gsCount := 0;
    for w := 0 to NumWeeks - 1
      invariant |homeSameWeek| == NumWeeks && gsCount == Prefix(w)
      invariant forall v :: 0 <= v < w ==> homeSameWeek[v] == StadiumWeek(h, t1, t2, v)
      invariant forall v :: w <= v < NumWeeks ==> homeSameWeek[v] == HomeSameWeek(h, t1, t2, v)
    {
      var entry;
      entry, gsCount := StadiumWeekStep(h, t1, t2, w, gsCount, homeSameWeek[w]);
      homeSameWeek := homeSameWeek[w := entry];
    }
    assert homeSameWeek == seq(NumWeeks, w requires 0 <= w < NumWeeks => StadiumWeek(h, t1, t2, w));
    r := Sum(homeSameWeek);
  }

  /** The shared-stadium count is symmetric in the two teams. */
  lemma SharedStadiumSymmetric(h: seq<seq<nat>>, t1: nat, t2: nat)
    requires Shaped(h, |h|) && t1 < |h| && t2 < |h|
    ensures SharedStadium(h, t1, t2) == SharedStadium(h, t2, t1)
  {
    assert seq(NumWeeks, w requires 0 <= w < NumWeeks => StadiumWeek(h, t1, t2, w))
        == seq(NumWeeks, w requires 0 <= w < NumWeeks => StadiumWeek(h, t2, t1, w));
  }

  /**
   * A week counts the product of the two teams' home-game counts, unless it
   * is not the final week and either team hosts its Thursday or Monday
   * gameslot; the final week is never exempt.
   */
  lemma StadiumWeekCases(h: seq<seq<nat>>, t1: nat, t2: nat, w: nat)
    requires Shaped(h, |h|) && t1 < |h| && t2 < |h| && w < NumWeeks
    ensures w == NumWeeks - 1 ==> StadiumWeek(h, t1, t2, w) == WeekCount(h[t1], w) * WeekCount(h[t2], w)
    ensures w < NumWeeks - 1 && (h[t1][FirstSlot(w)] != 0 || h[t2][FirstSlot(w)] != 0) ==>
              StadiumWeek(h, t1, t2, w) == 0
    ensures w < NumWeeks - 1 && (h[t1][LastSlot(w)] != 0 || h[t2][LastSlot(w)] != 0) ==>
              StadiumWeek(h, t1, t2, w) == 0
    ensures (w < NumWeeks - 1 && h[t1][FirstSlot(w)] == 0 && h[t2][FirstSlot(w)] == 0
             && h[t1][LastSlot(w)] == 0 && h[t2][LastSlot(w)] == 0) ==>
              StadiumWeek(h, t1, t2, w) == WeekCount(h[t1], w) * WeekCount(h[t2], w)
  {
  }
}
