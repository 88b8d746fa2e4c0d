/**
 * The two schedule-quality heuristics: runs of three road games in
 * consecutive weeks, and teams that play in the week after an
 * international game instead of resting.
 */
module Heuristics {
  import opened Weeks
  import opened Registry
  import opened Incidence
  import opened Constraints
  import opened Permutation

  /** Team t is away exactly once in each of weeks w, w + 1 and w + 2. */
  predicate RoadTrip(a: seq<seq<nat>>, t: nat, w: nat)
    requires Shaped(a, |a|) && t < |a| && w + 2 < NumWeeks
  {
    WeekCount(a[t], w) == 1 && WeekCount(a[t], w + 1) == 1 && WeekCount(a[t], w + 2) == 1
  }

  /** Team t's three-week road trips starting below week k. */
  function TeamRoadTrips(a: seq<seq<nat>>, t: nat, k: nat): nat
    requires Shaped(a, |a|) && t < |a| && k <= NumWeeks - 2
  {
    if k == 0 then 0 else TeamRoadTrips(a, t, k - 1) + Indicator(RoadTrip(a, t, k - 1))
  }

  /** The road trips of the first k teams. */
  function RoadTrips(a: seq<seq<nat>>, k: nat): nat
    requires Shaped(a, |a|) && k <= |a|
  {
    if k == 0 then 0 else RoadTrips(a, k - 1) + TeamRoadTrips(a, k - 1, NumWeeks - 2)
  }

  /** consecutive_road_games: every (team, starting week) of a three-week road trip. */
  function ConsecutiveRoadGames(a: seq<seq<nat>>): nat
    requires Shaped(a, |a|)
  {
    RoadTrips(a, |a|)
  }

  /**
   * consecutive_road_games as the source computes it: the away-by-week
   * matrix, then a count over every team and every week but the last two.
   */
  method ConsecutiveRoadGamesLoop(a: seq<seq<nat>>) returns (count: nat)
    requires Shaped(a, |a|)
    ensures count == ConsecutiveRoadGames(a)
  {
    var awayteamWeek := seq(|a|, t requires 0 <= t < |a| =>
                          seq(NumWeeks, w requires 0 <= w < NumWeeks => WeekCount(a[t], w)));
    count := 0;
    for team := 0 to |a|
      invariant count == RoadTrips(a, team)
    {
      for week := 0 to NumWeeks - 2
        invariant count == RoadTrips(a, team) + TeamRoadTrips(a, team, week)
      {
        if awayteamWeek[team][week] == 1 && awayteamWeek[team][week + 1] == 1 && awayteamWeek[team][week + 2] == 1 {
          count := count + 1;
        }
      }
    }
  }

  lemma {:induction false} TeamRoadTripsBound(a: seq<seq<nat>>, t: nat, k: nat)
    requires Shaped(a, |a|) && t < |a| && k <= NumWeeks - 2
    ensures TeamRoadTrips(a, t, k) <= k
  {
    if k > 0 {
      TeamRoadTripsBound(a, t, k - 1);
    }
  }

  lemma {:induction false} RoadTripsBound(a: seq<seq<nat>>, k: nat)
    requires Shaped(a, |a|) && k <= |a|
    ensures RoadTrips(a, k) <= k * (NumWeeks - 2)
  {
    if k > 0 {
      RoadTripsBound(a, k - 1);
      TeamRoadTripsBound(a, k - 1, NumWeeks - 2);
    }
  }

  /** consecutive_road_games lies between 0 and NUM_TEAMS * (NUM_WEEKS - 2). */
  lemma ConsecutiveRoadGamesBound(a: seq<seq<nat>>)
    requires Shaped(a, |a|)
    ensures ConsecutiveRoadGames(a) <= |a| * (NumWeeks - 2)
  {
    RoadTripsBound(a, |a|);
  }

  /** Team t is away exactly once in precisely the weeks start .. start + len - 1. */
  predicate AwayRun(a: seq<seq<nat>>, t: nat, start: nat, len: nat)
    requires Shaped(a, |a|) && t < |a|
  {
    forall w :: 0 <= w < NumWeeks ==> (WeekCount(a[t], w) == 1 <==> start <= w < start + len)
  }

  lemma {:induction false} RunPrefix(a: seq<seq<nat>>, t: nat, start: nat, len: nat, k: nat)
    requires Shaped(a, |a|) && t < |a| && k <= NumWeeks - 2
    requires len >= 3 && start + len <= NumWeeks && AwayRun(a, t, start, len)
    ensures TeamRoadTrips(a, t, k) == if k <= start then 0 else if k >= start + len - 2 then len - 2 else k - start
  {
    if k > 0 {
      RunPrefix(a, t, start, len, k - 1);
      var w := k - 1;
      assert RoadTrip(a, t, w) <==> start <= w && w + 2 < start + len;
    }
  }

  /**
   * A single road run of len >= 3 weeks counts len - 2 times (one for each
   * overlapping three-week window), not once.
   */
  lemma RoadRunCount(a: seq<seq<nat>>, t: nat, start: nat, len: nat)
    requires Shaped(a, |a|) && t < |a|
    requires len >= 3 && start + len <= NumWeeks && AwayRun(a, t, start, len)
    ensures TeamRoadTrips(a, t, NumWeeks - 2) == len - 2
  {
    RunPrefix(a, t, start, len, NumWeeks - 2);
  }

  /** The international gameslots are gameslots, and each holds a matchup of the registry. */
  predicate ValidSlots(mt: seq<Matchup>, gm: seq<nat>, slots: seq<nat>) {
    forall k :: 0 <= k < |slots| ==> slots[k] < NumGameslots && slots[k] < |gm| && gm[slots[k]] < |mt|
  }

  /**
   * One international gameslot's count: for each of its two teams, 1 when
   * the team plays in the following week; 0 for a gameslot in the final week.
   */
  function SlotByes(h: seq<seq<nat>>, a: seq<seq<nat>>, mt: seq<Matchup>, gm: seq<nat>, gs: nat): nat
    requires Shaped(h, |h|) && Shaped(a, |h|) && WellFormed(|h|, mt)
    requires gs < NumGameslots && gs < |gm| && gm[gs] < |mt|
  {
    var teams := mt[gm[gs]];
    var w := WeekOf(gs);
    if w < NumWeeks - 1 then
      Indicator(Games(h, a, teams.home, w + 1) != 0) + Indicator(Games(h, a, teams.away, w + 1) != 0)
    else 0
  }

  /** no_bye_after_international over the given gameslots. */
  function NoByeAfterInternational(h: seq<seq<nat>>, a: seq<seq<nat>>, mt: seq<Matchup>, gm: seq<nat>, slots: seq<nat>): nat
    requires Shaped(h, |h|) && Shaped(a, |h|) && WellFormed(|h|, mt) && ValidSlots(mt, gm, slots)
  {
    if slots == [] then 0
    else NoByeAfterInternational(h, a, mt, gm, slots[..|slots| - 1]) + SlotByes(h, a, mt, gm, slots[|slots| - 1])
  }

  /** The team-by-week game totals (home_matrix + away_matrix, times the gameslot_week table). */
  function TeamWeek(h: seq<seq<nat>>, a: seq<seq<nat>>): (r: seq<seq<nat>>)
    requires Shaped(h, |h|) && Shaped(a, |h|)
    ensures |r| == |h|
    ensures forall t :: 0 <= t < |h| ==> |r[t]| == NumWeeks
    ensures forall t, w :: 0 <= t < |h| && 0 <= w < NumWeeks ==> r[t][w] == Games(h, a, t, w)
  {
    seq(|h|, t requires 0 <= t < |h| =>
      seq(NumWeeks, w requires 0 <= w < NumWeeks => WeekCount(h[t], w) + WeekCount(a[t], w)))
  }

  /** One iteration of the source's loop: the count one international gameslot adds. */
  method CountSlot(h: seq<seq<nat>>, a: seq<seq<nat>>, mt: seq<Matchup>, gm: seq<nat>, teamWeek: seq<seq<nat>>, gs: nat)
    returns (c: nat)
    requires Shaped(h, |h|) && Shaped(a, |h|) && WellFormed(|h|, mt)
    requires gs < NumGameslots && gs < |gm| && gm[gs] < |mt|
    requires teamWeek == TeamWeek(h, a)
    ensures c == SlotByes(h, a, mt, gm, gs)
  {
    var teams := mt[gm[gs]];
    var weekNum := WeekOf(gs);
    c := 0;
    if weekNum < NumWeeks - 1 {
      if teamWeek[teams.home][weekNum + 1] != 0 {
        c := c + 1;
      }
      if teamWeek[teams.away][weekNum + 1] != 0 {
        c := c + 1;
      }
    }
  }

  /**
   * no_bye_after_international as the source computes it: the team-by-week
   * totals, then, per international gameslot, its matchup through the
   * gameslot-to-matchup table, its week, and a count for each team that
   * plays the following week.
   */
  method NoByeAfterInternationalLoop(h: seq<seq<nat>>, a: seq<seq<nat>>, mt: seq<Matchup>, gm: seq<nat>, slots: seq<nat>)
    returns (count: nat)
    requires Shaped(h, |h|) && Shaped(a, |h|) && WellFormed(|h|, mt) && ValidSlots(mt, gm, slots)
    ensures count == NoByeAfterInternational(h, a, mt, gm, slots)
  {
    var teamWeek := TeamWeek(h, a);
    count := 0;
    for k := 0 to |slots|
      invariant count == NoByeAfterInternational(h, a, mt, gm, slots[..k])
    {
      var c := CountSlot(h, a, mt, gm, teamWeek, slots[k]);
      assert slots[..k + 1][..k] == slots[..k];
      count := count + c;
    }
    assert slots[..|slots|] == slots;
  }

  lemma {:induction false} NoByeBound(h: seq<seq<nat>>, a: seq<seq<nat>>, mt: seq<Matchup>, gm: seq<nat>, slots: seq<nat>)
    requires Shaped(h, |h|) && Shaped(a, |h|) && WellFormed(|h|, mt) && ValidSlots(mt, gm, slots)
    ensures NoByeAfterInternational(h, a, mt, gm, slots) <= 2 * |slots|
  {
    if slots != [] {
      NoByeBound(h, a, mt, gm, slots[..|slots| - 1]);
    }
  }

  lemma {:induction false} FinalWeekSlotsCountNothing(h: seq<seq<nat>>, a: seq<seq<nat>>, mt: seq<Matchup>, gm: seq<nat>, slots: seq<nat>)
    requires Shaped(h, |h|) && Shaped(a, |h|) && WellFormed(|h|, mt) && ValidSlots(mt, gm, slots)
    requires forall k :: 0 <= k < |slots| ==> WeekOf(slots[k]) == NumWeeks - 1
    ensures NoByeAfterInternational(h, a, mt, gm, slots) == 0
  {
    if slots != [] {
      FinalWeekSlotsCountNothing(h, a, mt, gm, slots[..|slots| - 1]);
    }
  }

  /**
   * An international game's teams both resting the next week count nothing;
   * both playing count 2.
   */
  lemma SlotByesCases(h: seq<seq<nat>>, a: seq<seq<nat>>, mt: seq<Matchup>, gm: seq<nat>, gs: nat)
    requires Shaped(h, |h|) && Shaped(a, |h|) && WellFormed(|h|, mt)
    requires gs < NumGameslots && gs < |gm| && gm[gs] < |mt| && WeekOf(gs) < NumWeeks - 1
    ensures SlotByes(h, a, mt, gm, gs) == 0 <==>
              (Games(h, a, mt[gm[gs]].home, WeekOf(gs) + 1) == 0 && Games(h, a, mt[gm[gs]].away, WeekOf(gs) + 1) == 0)
    ensures SlotByes(h, a, mt, gm, gs) == 2 <==>
              (Games(h, a, mt[gm[gs]].home, WeekOf(gs) + 1) != 0 && Games(h, a, mt[gm[gs]].away, WeekOf(gs) + 1) != 0)
  {
  }

  /**
   * The heuristic on a schedule: the home and away matrices built from the
   * assignment, and gameslot_matchup read as the inverse of the assignment.
   */
  function ScheduleNoBye(mt: seq<Matchup>, mg: seq<nat>, numTeams: nat, slots: seq<nat>): (r: nat)
    requires WellFormed(numTeams, mt) && IsPermutation(mg, |mt|) && |mt| == NumGameslots
    requires forall k :: 0 <= k < |slots| ==> slots[k] < NumGameslots
    ensures r <= 2 * |slots|
  {
    var h := HomeMatrix(mt, mg, numTeams, |mt|);
    var a := AwayMatrix(mt, mg, numTeams, |mt|);
    NoByeBound(h, a, mt, Inverse(mg, |mt|), slots);
    NoByeAfterInternational(h, a, mt, Inverse(mg, |mt|), slots)
  }

  /**
   * On a schedule, an international gameslot's count is about the matchup
   * the assignment places there: its home team is the only team with a home
   * game in that gameslot's column, its visitor the only team with an away
   * game, and the count is 1 for each of the two that plays the next week.
   */
  lemma ScheduleSlotByes(mt: seq<Matchup>, mg: seq<nat>, numTeams: nat, gs: nat, m: nat)
    requires WellFormed(numTeams, mt) && IsPermutation(mg, |mt|) && |mt| == NumGameslots
    requires m < |mt| && mg[m] == gs
    ensures forall t :: 0 <= t < numTeams ==>
              (HomeMatrix(mt, mg, numTeams, |mt|)[t][gs] == 1 <==> t == mt[m].home) &&
              (AwayMatrix(mt, mg, numTeams, |mt|)[t][gs] == 1 <==> t == mt[m].away)
    ensures SlotByes(HomeMatrix(mt, mg, numTeams, |mt|), AwayMatrix(mt, mg, numTeams, |mt|), mt, Inverse(mg, |mt|), gs) ==
              if WeekOf(gs) < NumWeeks - 1 then
                Indicator(Games(HomeMatrix(mt, mg, numTeams, |mt|), AwayMatrix(mt, mg, numTeams, |mt|), mt[m].home, WeekOf(gs) + 1) != 0) +
                Indicator(Games(HomeMatrix(mt, mg, numTeams, |mt|), AwayMatrix(mt, mg, numTeams, |mt|), mt[m].away, WeekOf(gs) + 1) != 0)
              else 0
  {
    assert Inverse(mg, |mt|)[gs] == m;
    PermutationColumn(mt, mg, numTeams, gs);
  }
}
