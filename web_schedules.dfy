/**
 * The in-memory part of the web front end's schedule listing: decoding a
 * stored schedule (gameslot to matchup index) into weeks of labelled games,
 * filtering the stored rows by the matchups wanted at the opener and the
 * three Thanksgiving gameslots, limiting the number listed, and collecting
 * the distinct matchups played at given gameslots. Rows come already split
 * into integers; the database query that supplies them is not modelled.
 */
module WebSchedules {
  import opened Weeks
  import opened Permutation
  import opened WebFilters
  import Registry

  const ThursdayNight: string := "THURSDAY NIGHT"
  const Thanksgiving: string := "THANKSGIVING"
  const Sunday: string := "SUNDAY"
  const SundayNight: string := "SUNDAY NIGHT"
  const MondayNight: string := "MONDAY NIGHT"

  /** The argument value that switches a filter off. */
  const All: seq<string> := ["All"]

  /** The final week, whose games are all on Sunday. */
  const LastWeek: nat := NumWeeks - 1

  /** The gameslots the four filters of the listing look at: the opener, then the Thanksgiving games. */
  const FilterSlots: seq<nat> := [0] + ThanksgivingGameslots

  lemma WeekSizeBounds(w: nat)
    requires w < NumWeeks
    ensures 13 <= WeekSizes[w] <= 16
  {
  }

  /**
   * The day label of game i of week w (both 0-based): every game of the
   * final week is on Sunday; the first three games of the Thanksgiving week
   * are on Thanksgiving and the first game of any other week on Thursday
   * night; the last two are the Sunday night and Monday night games; the
   * rest are on Sunday.
   */
  function DayLabel(w: nat, i: nat): string
    requires w < NumWeeks && i < WeekSizes[w]
  {
    if w == LastWeek then Sunday
    else if w == ThanksgivingWeek && i < 3 then Thanksgiving
    else if w != ThanksgivingWeek && i == 0 then ThursdayNight
    else if i == WeekSizes[w] - 2 then SundayNight
    else if i == WeekSizes[w] - 1 then MondayNight
    else Sunday
  }

  /**
   * A gameslot-to-matchup-index map that can be decoded: its keys are
   * exactly the gameslots 0..255 and each names a matchup of the table.
   */
  ghost predicate Decodable(mt: seq<seq<string>>, gm: map<nat, nat>)
  {
    (forall g: nat :: g in gm <==> g < NumGameslots) &&
    (forall g :: g in gm ==> gm[g] < |mt|)
  }

  /** The games of week w: its gameslots in order, each the matchup played there followed by its day label. */
  function WeekGames(mt: seq<seq<string>>, gm: map<nat, nat>, w: nat): (games: seq<seq<string>>)
    requires Decodable(mt, gm) && w < NumWeeks
    ensures |games| == WeekSizes[w]
    ensures forall i :: 0 <= i < WeekSizes[w] ==> games[i] == Game(mt, gm, w, i)
  {
    seq(WeekSizes[w], i requires 0 <= i < WeekSizes[w] => Game(mt, gm, w, i))
  }

  /** Game i of week w: the matchup at the week's i-th gameslot followed by its day label. */
  function Game(mt: seq<seq<string>>, gm: map<nat, nat>, w: nat, i: nat): seq<string>
    requires Decodable(mt, gm) && w < NumWeeks && i < WeekSizes[w]
  {
    WeekRange(w);
    mt[gm[Prefix(w) + i]] + [DayLabel(w, i)]
  }

  /** The games listed under week number k (1 to 17): those of week k - 1. */
  function NumberedWeek(mt: seq<seq<string>>, gm: map<nat, nat>, k: nat): seq<seq<string>>
    requires Decodable(mt, gm) && 1 <= k <= NumWeeks
  {
    WeekGames(mt, gm, k - 1)
  }

  /** The decoded weeks 1 to w: week number k to the games of week k - 1. */
  function DecodedUpTo(mt: seq<seq<string>>, gm: map<nat, nat>, w: nat): map<nat, seq<seq<string>>>
    requires Decodable(mt, gm) && w <= NumWeeks
  {
    map k | 1 <= k <= w :: NumberedWeek(mt, gm, k)
  }

  /** The decoded schedule: week number k (1 to 17) to the games of week k - 1. */
  function Decoded(mt: seq<seq<string>>, gm: map<nat, nat>): map<nat, seq<seq<string>>>
    requires Decodable(mt, gm)
  {
    DecodedUpTo(mt, gm, NumWeeks)
  }

  /**
   * The labels of one week's games, appended in place as the decoder does:
   * the first game (the first three in the Thanksgiving week), the middle
   * games, then the last two; every game of the final week gets Sunday.
   * Each game gets exactly one label, the one DayLabel gives it.
   */
  method LabelWeek(games: seq<seq<string>>, w: nat) returns (week: seq<seq<string>>)
    requires w < NumWeeks && |games| == WeekSizes[w]
    ensures |week| == |games|
    ensures forall i :: 0 <= i < |games| ==> week[i] == games[i] + [DayLabel(w, i)]
  {
    WeekSizeBounds(w);
    week := games;
    var n := |week|;
    if w != LastWeek {
      var s;
      if w != ThanksgivingWeek {
        s := 1;
        week := week[0 := week[0] + [ThursdayNight]];
      } else {
        s := 3;
        week := week[0 := week[0] + [Thanksgiving]];
        week := week[1 := week[1] + [Thanksgiving]];
        week := week[2 := week[2] + [Thanksgiving]];
      }
      for i := s to n - 2
        invariant |week| == n
        invariant forall k :: 0 <= k < i ==> week[k] == games[k] + [DayLabel(w, k)]
        invariant forall k :: i <= k < n ==> week[k] == games[k]
      {
        week := week[i := week[i] + [Sunday]];
      }
      week := week[n - 2 := week[n - 2] + [SundayNight]];
      week := week[n - 1 := week[n - 1] + [MondayNight]];
    } else {
      for i := 0 to n
        invariant |week| == n
        invariant forall k :: 0 <= k < i ==> week[k] == games[k] + [DayLabel(w, k)]
        invariant forall k :: i <= k < n ==> week[k] == games[k]
      {
        week := week[i := week[i] + [Sunday]];
      }
    }
  }

  /**
   * decode_matchups: the matchup of every gameslot, in gameslot order, cut
   * into the weeks' consecutive runs of games and labelled with their days.
   */
  method DecodeMatchups(mt: seq<seq<string>>, gm: map<nat, nat>) returns (ws: map<nat, seq<seq<string>>>)
    requires Decodable(mt, gm)
    ensures ws == Decoded(mt, gm)
  {
    var ordered := OrderedMatchups(mt, gm);
    SeasonLength();
    ws := map[];
    var count := 0;
    for w := 0 to NumWeeks
      invariant count == Prefix(w)
      invariant ws == DecodedUpTo(mt, gm, w)
    {
      WeekRange(w);
      var n := WeekSizes[w];
      var week := DecodeWeek(mt, gm, ordered, w, count);
      DecodedStep(mt, gm, w, week);
      ws := ws[w + 1 := week];
      count := count + n;
    }
  }

  /** One pass of the week loop: the week's slice of the ordered matchups, labelled. */
  method DecodeWeek(mt: seq<seq<string>>, gm: map<nat, nat>, ordered: seq<seq<string>>, w: nat, count: nat)
    returns (week: seq<seq<string>>)
    requires Decodable(mt, gm) && w < NumWeeks && count == Prefix(w)
    requires |ordered| == NumGameslots && forall g :: 0 <= g < NumGameslots ==> ordered[g] == mt[gm[g]]
    ensures week == WeekGames(mt, gm, w)
  {
    WeekRange(w);
    var games := ordered[count..count + WeekSizes[w]];
    assert forall i :: 0 <= i < |games| ==> games[i] == ordered[count + i];
    week := LabelWeek(games, w);
    SlicedWeek(mt, gm, games, w, week);
  }

  /** Adding week w + 1 to the decoded weeks 1 to w gives the decoded weeks 1 to w + 1. */
  lemma DecodedStep(mt: seq<seq<string>>, gm: map<nat, nat>, w: nat, week: seq<seq<string>>)
    requires Decodable(mt, gm) && w < NumWeeks && week == WeekGames(mt, gm, w)
    ensures DecodedUpTo(mt, gm, w)[w + 1 := week] == DecodedUpTo(mt, gm, w + 1)
  {
    assert week == NumberedWeek(mt, gm, w + 1);
  }

  /** The gameslot matchups in gameslot order, each rewritten to its [home, away] entry of the table. */
  method OrderedMatchups(mt: seq<seq<string>>, gm: map<nat, nat>) returns (ordered: seq<seq<string>>)
    requires Decodable(mt, gm)
    ensures |ordered| == NumGameslots
    ensures forall g :: 0 <= g < NumGameslots ==> ordered[g] == mt[gm[g]]
  {
    ordered := [];
    for g := 0 to NumGameslots
      invariant |ordered| == g
      invariant forall j :: 0 <= j < g ==> ordered[j] == mt[gm[j]]
    {
      ordered := ordered + [mt[gm[g]]];
    }
  }

  /** Labelling the matchups of week w's gameslots gives the week's games. */
  lemma SlicedWeek(mt: seq<seq<string>>, gm: map<nat, nat>, games: seq<seq<string>>, w: nat, week: seq<seq<string>>)
    requires Decodable(mt, gm) && w < NumWeeks && Prefix(w) + WeekSizes[w] <= NumGameslots
    requires |games| == WeekSizes[w] && forall i :: 0 <= i < |games| ==> games[i] == mt[gm[Prefix(w) + i]]
    requires |week| == |games| && forall i :: 0 <= i < |games| ==> week[i] == games[i] + [DayLabel(w, i)]
    ensures week == WeekGames(mt, gm, w)
  {
    forall i | 0 <= i < |week|
      ensures week[i] == WeekGames(mt, gm, w)[i]
    {
      assert week[i] == Game(mt, gm, w, i);
    }
  }

  /**
   * The decoded schedule has the weeks 1 to 17; week k holds the week's
   * number of games; and the game at every gameslot g appears in its own
   * week at its place in that week, as the matchup's [home, away] copy with
   * one day label appended.
   */
  lemma DecodedShape(mt: seq<seq<string>>, gm: map<nat, nat>, g: nat)
    requires Decodable(mt, gm) && g < NumGameslots
    ensures forall k :: k in Decoded(mt, gm) <==> 1 <= k <= NumWeeks
    ensures forall k :: 1 <= k <= NumWeeks ==> |Decoded(mt, gm)[k]| == WeekSizes[k - 1]
    ensures var w := WeekOf(g);
      Decoded(mt, gm)[w + 1][g - Prefix(w)] == mt[gm[g]] + [DayLabel(w, g - Prefix(w))]
  {
    var w := WeekOf(g);
    assert Decoded(mt, gm)[w + 1] == WeekGames(mt, gm, w);
    assert WeekGames(mt, gm, w)[g - Prefix(w)] == Game(mt, gm, w, g - Prefix(w));
  }

  /**
   * The labels of a week other than the last and the Thanksgiving week: its
   * first game is on Thursday night, its last two are the Sunday night and
   * Monday night games, and every other game is on Sunday.
   */
  lemma RegularWeekLabels(w: nat)
    requires w < LastWeek && w != ThanksgivingWeek
    ensures DayLabel(w, 0) == ThursdayNight
    ensures DayLabel(w, WeekSizes[w] - 2) == SundayNight
    ensures DayLabel(w, WeekSizes[w] - 1) == MondayNight
    ensures forall i :: 1 <= i < WeekSizes[w] - 2 ==> DayLabel(w, i) == Sunday
  {
    WeekSizeBounds(w);
  }

  /** In the Thanksgiving week the first three games are on Thanksgiving; in the final week every game is on Sunday. */
  lemma SpecialWeekLabels()
    ensures forall i :: 0 <= i < 3 ==> DayLabel(ThanksgivingWeek, i) == Thanksgiving
    ensures forall i :: 0 <= i < WeekSizes[LastWeek] ==> DayLabel(LastWeek, i) == Sunday
  {
    WeekSizeBounds(ThanksgivingWeek);
  }

  /**
   * The opener filter on a decoded schedule: it applies, and accepts the
   * schedule exactly when the away team of the matchup at gameslot 0 (the
   * first game of week 1) is the opener.
   */
  lemma OpenerOnDecoded(o: OpenerFilter, mt: seq<seq<string>>, gm: map<nat, nat>, year: int, score: real)
    requires Decodable(mt, gm) && |mt[gm[0]]| >= 2
    ensures o.Applicable(Listing(Decoded(mt, gm), year, score))
    ensures o.Filter(Listing(Decoded(mt, gm), year, score)) <==> mt[gm[0]][1] == o.opener
  {
    assert Decoded(mt, gm)[1] == WeekGames(mt, gm, 0);
    assert WeekGames(mt, gm, 0)[0] == Game(mt, gm, 0, 0);
  }

  /** One stored schedule: matchup i is played at gameslot matchupsGameslot[i]; the year and score it was stored with. */
  datatype Row = Row(matchupsGameslot: seq<nat>, year: int, score: real)

  /**
   * The gameslot-to-matchup map of a row, each gameslot mapped to the
   * matchup played there; a gameslot given twice keeps the later matchup.
   */
  function GameslotMap(tokens: seq<nat>): (m: map<nat, nat>)
    ensures forall g :: g in m <==> g in tokens
    ensures forall g :: g in m ==> m[g] < |tokens| && tokens[m[g]] == g
    ensures forall g, j :: g in m && m[g] < j < |tokens| ==> tokens[j] != g
    decreases |tokens|
  {
    if |tokens| == 0 then map[]
    else GameslotMap(tokens[..|tokens| - 1])[tokens[|tokens| - 1] := |tokens| - 1]
  }

  /** The row loop that fills gameslot_matchups, one token at a time. */
  method GameslotMatchups(tokens: seq<nat>) returns (m: map<nat, nat>)
    ensures m == GameslotMap(tokens)
  {
    m := map[];
    for i := 0 to |tokens|
      invariant m == GameslotMap(tokens[..i])
    {
      assert tokens[..i + 1][..i] == tokens[..i];
      m := m[tokens[i] := i];
    }
    assert tokens[..|tokens|] == tokens;
  }

  /**
   * On a stored schedule (a permutation of the gameslots) the map is the
   * inverse permutation: every gameslot is mapped to the one matchup played
   * there, and so it can be decoded against a table of 256 matchups.
   */
  lemma PermutationMap(mt: seq<seq<string>>, tokens: seq<nat>)
    requires IsPermutation(tokens, NumGameslots) && |mt| >= NumGameslots
    ensures Decodable(mt, GameslotMap(tokens))
    ensures forall i :: 0 <= i < NumGameslots ==> GameslotMap(tokens)[tokens[i]] == i
  {
    var m := GameslotMap(tokens);
    PermutationKeys(tokens);
    forall i | 0 <= i < NumGameslots
      ensures m[tokens[i]] == i
    {
      assert tokens[i] in tokens;
      var j := m[tokens[i]];
      assert tokens[j] == tokens[i];
    }
  }

  /** The map of a stored schedule has exactly the gameslots as keys. */
  lemma PermutationKeys(tokens: seq<nat>)
    requires IsPermutation(tokens, NumGameslots)
    ensures forall g: nat :: g in GameslotMap(tokens) <==> g < NumGameslots
  {
    var m := GameslotMap(tokens);
    forall g: nat | g < NumGameslots
      ensures g in m
    {
      PermutationOnto(tokens, NumGameslots, g);
    }
    forall g | g in m
      ensures g < NumGameslots
    {
      assert tokens[m[g]] == g;
    }
  }

  /**
   * A matchup filter, applied to a stored schedule, accepts it exactly when
   * the schedule plays the wanted matchup at the filter's gameslot.
   */
  lemma MatchupFilterOnRow(f: MatchupFilter, tokens: seq<nat>)
    requires IsPermutation(tokens, NumGameslots)
    requires f.gameslot < NumGameslots && |f.matchupTeam| >= NumGameslots
    ensures f.Applicable(GameslotMap(tokens))
    ensures f.Filter(GameslotMap(tokens)) <==>
      exists i :: 0 <= i < NumGameslots && tokens[i] == f.gameslot && f.matchupTeam[i] == f.matchup
  {
    PermutationMap(f.matchupTeam, tokens);
    var m := GameslotMap(tokens);
    if f.Filter(m) {
      assert tokens[m[f.gameslot]] == f.gameslot;
    }
    forall i | 0 <= i < NumGameslots && tokens[i] == f.gameslot
      ensures m[f.gameslot] == i
    {
    }
  }

  /** The filter for one argument at its gameslot: none when the argument is ["All"]. */
  function FilterFor(mt: seq<seq<string>>, arg: seq<string>, slot: nat): seq<MatchupFilter>
  {
    if arg != All then [MatchupFilter(arg, slot, mt)] else []
  }

  /** The filters built from the arguments other than ["All"], in argument order, each at its gameslot. */
  function Requested(mt: seq<seq<string>>, args: seq<seq<string>>, slots: seq<nat>): seq<MatchupFilter>
    requires |args| == |slots|
  {
    if |args| == 0 then [] else FilterFor(mt, args[0], slots[0]) + Requested(mt, args[1..], slots[1..])
  }

  /** Every requested filter looks up the given table at one of the given gameslots. */
  lemma {:induction false} RequestedFilters(mt: seq<seq<string>>, args: seq<seq<string>>, slots: seq<nat>)
    requires |args| == |slots|
    ensures |Requested(mt, args, slots)| <= |args|
    ensures forall k :: 0 <= k < |Requested(mt, args, slots)| ==>
      Requested(mt, args, slots)[k].matchupTeam == mt && Requested(mt, args, slots)[k].gameslot in slots
    decreases |args|
  {
    if |args| > 0 {
      RequestedFilters(mt, args[1..], slots[1..]);
      var head := FilterFor(mt, args[0], slots[0]);
      var rest := Requested(mt, args[1..], slots[1..]);
      forall k | 0 <= k < |rest|
        ensures rest[k].gameslot in slots
      {
        assert rest[k].gameslot in slots[1..];
      }
    }
  }

  /** The filter list of get_schedules for the opener and the three Thanksgiving games. */
  method BuildFilters(mt: seq<seq<string>>, opener: seq<string>, tgm1: seq<string>, tgm2: seq<string>, tgm3: seq<string>)
    returns (fs: seq<MatchupFilter>)
    ensures fs == Requested(mt, [opener, tgm1, tgm2, tgm3], FilterSlots)
  {
    fs := AddFilter(mt, [], opener, 0);
    fs := AddFilter(mt, fs, tgm1, ThanksgivingGameslots[0]);
    fs := AddFilter(mt, fs, tgm2, ThanksgivingGameslots[1]);
    fs := AddFilter(mt, fs, tgm3, ThanksgivingGameslots[2]);
    FilterArgsSplit(mt, opener, tgm1, tgm2, tgm3);
  }

  /** The filters of the four arguments are those of each argument in turn. */
  lemma FilterArgsSplit(mt: seq<seq<string>>, opener: seq<string>, tgm1: seq<string>, tgm2: seq<string>, tgm3: seq<string>)
    ensures Requested(mt, [opener, tgm1, tgm2, tgm3], FilterSlots) ==
      FilterFor(mt, opener, 0) + FilterFor(mt, tgm1, 161) + FilterFor(mt, tgm2, 162) + FilterFor(mt, tgm3, 163)
  {
    var args := [opener, tgm1, tgm2, tgm3];
    assert args[1..] == [tgm1, tgm2, tgm3] && args[1..][1..] == [tgm2, tgm3] && args[1..][1..][1..] == [tgm3];
    assert FilterSlots[1..] == [161, 162, 163] && FilterSlots[1..][1..] == [162, 163] && FilterSlots[1..][1..][1..] == [163];
    var r3 := Requested(mt, [tgm3], [163]);
    assert [tgm3][1..] == [] && [163][1..] == [];
    assert r3 == FilterFor(mt, tgm3, 163) + Requested(mt, [], []);
    var r2 := Requested(mt, [tgm2, tgm3], [162, 163]);
    assert [tgm2, tgm3][1..] == [tgm3] && [162, 163][1..] == [163];
    assert r2 == FilterFor(mt, tgm2, 162) + r3;
    var r1 := Requested(mt, [tgm1, tgm2, tgm3], [161, 162, 163]);
    assert [tgm1, tgm2, tgm3][1..] == [tgm2, tgm3] && [161, 162, 163][1..] == [162, 163];
    assert r1 == FilterFor(mt, tgm1, 161) + r2;
    assert Requested(mt, args, FilterSlots) == FilterFor(mt, opener, 0) + r1;
  }

  /** Append a matchup filter for the argument at the gameslot, unless the argument is ["All"]. */
  method AddFilter(mt: seq<seq<string>>, fs: seq<MatchupFilter>, arg: seq<string>, slot: nat) returns (fs': seq<MatchupFilter>)
    ensures fs' == fs + FilterFor(mt, arg, slot)
  {
    fs' := fs;
    if arg != All {
      fs' := fs' + [MatchupFilter(arg, slot, mt)];
    }
  }

  /** Every filter of the list accepts the schedule. */
  predicate AcceptedBy(fs: seq<MatchupFilter>, gm: map<nat, nat>)
    requires forall k :: 0 <= k < |fs| ==> fs[k].Applicable(gm)
  {
    forall k :: 0 <= k < |fs| ==> fs[k].Filter(gm)
  }

  /** The filter test of get_schedules: stop at the first filter that rejects the schedule. */
  method Acceptable(fs: seq<MatchupFilter>, gm: map<nat, nat>) returns (acceptable: bool)
    requires forall k :: 0 <= k < |fs| ==> fs[k].Applicable(gm)
    ensures acceptable <==> AcceptedBy(fs, gm)
  {
    acceptable := true;
    for k := 0 to |fs|
      invariant acceptable <==> forall j :: 0 <= j < k ==> fs[j].Filter(gm)
    {
      if !fs[k].Filter(gm) {
        acceptable := false;
      }
      if !acceptable {
        break;
      }
    }
  }

  /**
   * A schedule passes the requested filters exactly when, for every
   * argument, the argument is ["All"] or the schedule plays that matchup at
   * the argument's gameslot.
   */
  lemma {:induction false} RequestedMeaning(mt: seq<seq<string>>, args: seq<seq<string>>, slots: seq<nat>, gm: map<nat, nat>)
    requires |args| == |slots|
    requires forall k :: 0 <= k < |slots| ==> slots[k] in gm && gm[slots[k]] < |mt|
    ensures forall k :: 0 <= k < |Requested(mt, args, slots)| ==> Requested(mt, args, slots)[k].Applicable(gm)
    ensures AcceptedBy(Requested(mt, args, slots), gm) <==>
      forall k :: 0 <= k < |args| ==> args[k] == All || mt[gm[slots[k]]] == args[k]
    decreases |args|
  {
    RequestedFilters(mt, args, slots);
    if |args| > 0 {
      RequestedMeaning(mt, args[1..], slots[1..], gm);
      var rest := Requested(mt, args[1..], slots[1..]);
      var fs := Requested(mt, args, slots);
      var head := FilterFor(mt, args[0], slots[0]);
      assert fs == head + rest;
      var first := args[0] == All || mt[gm[slots[0]]] == args[0];
      assert AcceptedBy(fs, gm) <==> first && AcceptedBy(rest, gm) by {
        assert forall k :: 0 <= k < |rest| ==> fs[k + |head|] == rest[k];
        if args[0] != All {
          assert fs[0] == MatchupFilter(args[0], slots[0], mt);
        }
      }
      assert (forall k :: 0 <= k < |args| ==> args[k] == All || mt[gm[slots[k]]] == args[k]) <==>
        first && (forall k :: 0 <= k < |args[1..]| ==> args[1..][k] == All || mt[gm[slots[1..][k]]] == args[1..][k]) by {
        assert forall k :: 0 < k < |args| ==> args[1..][k - 1] == args[k] && slots[1..][k - 1] == slots[k];
      }
    }
  }

  /** Every row holds a stored schedule, a permutation of the gameslots. */
  predicate StoredRows(rows: seq<Row>)
  {
    forall k :: 0 <= k < |rows| ==> IsPermutation(rows[k].matchupsGameslot, NumGameslots)
  }

  /** Filters that can be applied to any stored schedule. */
  predicate Testable(fs: seq<MatchupFilter>)
  {
    forall k :: 0 <= k < |fs| ==> fs[k].gameslot < NumGameslots && |fs[k].matchupTeam| >= NumGameslots
  }

  lemma TestableApplicable(fs: seq<MatchupFilter>, tokens: seq<nat>)
    requires Testable(fs) && IsPermutation(tokens, NumGameslots)
    ensures forall k :: 0 <= k < |fs| ==> fs[k].Applicable(GameslotMap(tokens))
  {
    forall k | 0 <= k < |fs|
      ensures fs[k].Applicable(GameslotMap(tokens))
    {
      MatchupFilterOnRow(fs[k], tokens);
    }
  }

  /** The listing of one row when every filter accepts it, and nothing otherwise. */
  function Listed(mt: seq<seq<string>>, fs: seq<MatchupFilter>, r: Row): seq<Listing>
    requires |mt| >= NumGameslots && Testable(fs) && IsPermutation(r.matchupsGameslot, NumGameslots)
  {
    var gm := GameslotMap(r.matchupsGameslot);
    PermutationMap(mt, r.matchupsGameslot);
    TestableApplicable(fs, r.matchupsGameslot);
    if AcceptedBy(fs, gm) then [Listing(Decoded(mt, gm), r.year, r.score)] else []
  }

  /** The listings of the accepted rows, in row order. */
  function Kept(mt: seq<seq<string>>, fs: seq<MatchupFilter>, rows: seq<Row>): seq<Listing>
    requires |mt| >= NumGameslots && Testable(fs) && StoredRows(rows)
    decreases |rows|
  {
    if |rows| == 0 then []
    else Kept(mt, fs, rows[..|rows| - 1]) + Listed(mt, fs, rows[|rows| - 1])
  }

  /** The first n.value listings when n is a positive limit, all of them otherwise. */
  function Limit<T>(xs: seq<T>, n: Registry.Option<int>): seq<T>
  {
    if n.Some? && 1 <= n.value <= |xs| then xs[..n.value] else xs
  }

  /**
   * The listings of a prefix of the rows are a prefix of the listings of
   * all of them, and each row adds at most one.
   */
  lemma {:induction false} KeptPrefix(mt: seq<seq<string>>, fs: seq<MatchupFilter>, rows: seq<Row>, i: nat)
    requires |mt| >= NumGameslots && Testable(fs) && StoredRows(rows) && i <= |rows|
    ensures |Kept(mt, fs, rows[..i])| <= |Kept(mt, fs, rows)|
    ensures Kept(mt, fs, rows[..i]) == Kept(mt, fs, rows)[..|Kept(mt, fs, rows[..i])|]
    decreases |rows|
  {
    if i < |rows| {
      var front := rows[..|rows| - 1];
      assert front[..i] == rows[..i];
      KeptPrefix(mt, fs, front, i);
    } else {
      assert rows[..i] == rows;
    }
  }

  /** The limit keeps a prefix, never more than a positive limit, and everything when there is none. */
  lemma LimitFacts<T>(xs: seq<T>, n: Registry.Option<int>)
    ensures Limit(xs, n) == xs[..|Limit(xs, n)|]
    ensures n.Some? && n.value >= 1 ==> |Limit(xs, n)| == if n.value <= |xs| then n.value else |xs|
    ensures n.None? ==> Limit(xs, n) == xs
  {
  }

  /**
   * get_schedules over the given rows: the listing of every row all active
   * filters accept, in row order, stopping once num_schedules listings are
   * collected; None (or a limit below 1) lists all of them.
   */
  method GetSchedules(mt: seq<seq<string>>, rows: seq<Row>, numSchedules: Registry.Option<int>,
                      opener: seq<string>, tgm1: seq<string>, tgm2: seq<string>, tgm3: seq<string>)
    returns (schedules: seq<Listing>)
    requires |mt| >= NumGameslots && StoredRows(rows)
    ensures Testable(Requested(mt, [opener, tgm1, tgm2, tgm3], FilterSlots))
    ensures schedules == Limit(Kept(mt, Requested(mt, [opener, tgm1, tgm2, tgm3], FilterSlots), rows), numSchedules)
  {
    var filters := BuildFilters(mt, opener, tgm1, tgm2, tgm3);
    RequestedFilters(mt, [opener, tgm1, tgm2, tgm3], FilterSlots);
    schedules := ListRows(mt, filters, rows, numSchedules);
  }

  /** The row loop of get_schedules: list every accepted row in order, stopping once the limit is reached. */
  method ListRows(mt: seq<seq<string>>, filters: seq<MatchupFilter>, rows: seq<Row>, numSchedules: Registry.Option<int>)
    returns (schedules: seq<Listing>)
    requires |mt| >= NumGameslots && Testable(filters) && StoredRows(rows)
    ensures schedules == Limit(Kept(mt, filters, rows), numSchedules)
  {
    schedules := [];
    var i := 0;
    var stop := false;
    while i < |rows| && !stop
      invariant i <= |rows|
      invariant !stop ==> schedules == Kept(mt, filters, rows[..i]) && Below(schedules, numSchedules)
      invariant stop ==> schedules == Limit(Kept(mt, filters, rows), numSchedules)
    {
      schedules, stop := ListStep(mt, filters, rows, i, numSchedules, schedules);
      i := i + 1;
    }
    if !stop {
      assert rows[..i] == rows;
    }
  }

  /** Fewer listings than a positive limit. */
  predicate Below(schedules: seq<Listing>, numSchedules: Registry.Option<int>)
  {
    numSchedules.Some? && numSchedules.value >= 1 ==> |schedules| < numSchedules.value
  }

  /** One pass of the row loop: list row i if accepted, and stop when that reaches the limit. */
  method ListStep(mt: seq<seq<string>>, filters: seq<MatchupFilter>, rows: seq<Row>, i: nat,
                  numSchedules: Registry.Option<int>, schedules: seq<Listing>)
    returns (schedules': seq<Listing>, stop: bool)
    requires |mt| >= NumGameslots && Testable(filters) && StoredRows(rows) && i < |rows|
    requires schedules == Kept(mt, filters, rows[..i]) && Below(schedules, numSchedules)
    ensures !stop ==> schedules' == Kept(mt, filters, rows[..i + 1]) && Below(schedules', numSchedules)
    ensures stop ==> schedules' == Limit(Kept(mt, filters, rows), numSchedules)
  {
    KeptStep(mt, filters, rows, i);
    var listed := ListRow(mt, filters, rows[i]);
    schedules' := schedules + listed;
    stop := listed != [] && numSchedules == Registry.Some(|schedules'|);
    if stop {
      LimitReached(mt, filters, rows, i + 1, |schedules'|);
    }
  }

  /** One more row adds its own listing after those of the rows before it. */
  lemma KeptStep(mt: seq<seq<string>>, fs: seq<MatchupFilter>, rows: seq<Row>, i: nat)
    requires |mt| >= NumGameslots && Testable(fs) && StoredRows(rows) && i < |rows|
    ensures Kept(mt, fs, rows[..i + 1]) == Kept(mt, fs, rows[..i]) + Listed(mt, fs, rows[i])
  {
    assert rows[..i + 1][..i] == rows[..i];
  }

  /** Once n listings are collected from a prefix of the rows, they are the first n listings of all rows. */
  lemma LimitReached(mt: seq<seq<string>>, fs: seq<MatchupFilter>, rows: seq<Row>, i: nat, n: nat)
    requires |mt| >= NumGameslots && Testable(fs) && StoredRows(rows) && i <= |rows|
    requires n >= 1 && |Kept(mt, fs, rows[..i])| == n
    ensures Kept(mt, fs, rows[..i]) == Limit(Kept(mt, fs, rows), Registry.Some(n))
  {
    KeptPrefix(mt, fs, rows, i);
  }

  /** One row of get_schedules: build its gameslot map, test the filters, and decode it when all accept it. */
  method ListRow(mt: seq<seq<string>>, filters: seq<MatchupFilter>, row: Row) returns (listed: seq<Listing>)
    requires |mt| >= NumGameslots && Testable(filters) && IsPermutation(row.matchupsGameslot, NumGameslots)
    ensures listed == Listed(mt, filters, row)
    ensures |listed| <= 1
  {
    var gm := GameslotMatchups(row.matchupsGameslot);
    TestableApplicable(filters, row.matchupsGameslot);
    var acceptable := Acceptable(filters, gm);
    listed := [];
    if acceptable {
      PermutationMap(mt, row.matchupsGameslot);
      var decoded := DecodeMatchups(mt, gm);
      listed := [Listing(decoded, row.year, row.score)];
    }
  }

  /** Whether no matchup appears twice. */
  predicate Unique(xs: seq<seq<string>>)
  {
    forall i, j :: 0 <= i < j < |xs| ==> xs[i] != xs[j]
  }

  /** The index of the first occurrence of v in s, or |s| when there is none. */
  function FirstIndex(s: seq<nat>, v: nat): (r: nat)
    ensures r <= |s| && (r < |s| ==> s[r] == v)
    ensures forall k :: 0 <= k < r ==> s[k] != v
  {
    if |s| == 0 then 0
    else if s[0] == v then 0
    else 1 + FirstIndex(s[1..], v)
  }

  /**
   * Matchup i of a row counts for the j-th requested gameslot: the row
   * plays it there, and j is the first position requesting that gameslot.
   */
  predicate Places(mt: seq<seq<string>>, gameslots: seq<nat>, tokens: seq<nat>, i: nat, j: nat)
  {
    i < |tokens| && i < |mt| && FirstIndex(gameslots, tokens[i]) == j
  }

  /** Add matchup i of a row to the list of the first position requesting its gameslot, unless it is there already. */
  method Place(mt: seq<seq<string>>, gameslots: seq<nat>, schedules: seq<seq<seq<string>>>, tokens: seq<nat>, i: nat)
    returns (next: seq<seq<seq<string>>>)
    requires |schedules| == |gameslots| && i < |tokens|
    requires tokens[i] in gameslots ==> i < |mt|
    ensures |next| == |schedules|
    ensures forall j, e :: 0 <= j < |gameslots| ==>
      (e in next[j] <==> e in schedules[j] || (Places(mt, gameslots, tokens, i, j) && e == mt[i]))
    ensures forall j :: 0 <= j < |gameslots| && Unique(schedules[j]) ==> Unique(next[j])
  {
    next := schedules;
    for j := 0 to |gameslots|
      invariant next == schedules
      invariant forall k :: 0 <= k < j ==> gameslots[k] != tokens[i]
    {
      if tokens[i] == gameslots[j] {
        assert FirstIndex(gameslots, tokens[i]) == j;
        if mt[i] !in next[j] {
          next := next[j := next[j] + [mt[i]]];
        }
        return;
      }
    }
    assert FirstIndex(gameslots, tokens[i]) == |gameslots|;
  }

  /**
   * get_matchups over the given rows: for each requested gameslot, the
   * distinct matchups some row plays there. A gameslot requested twice is
   * filled only at its first position.
   */
  method GetMatchups(mt: seq<seq<string>>, rows: seq<seq<nat>>, gameslots: seq<nat>)
    returns (schedules: seq<seq<seq<string>>>)
    requires forall q, i :: 0 <= q < |rows| && 0 <= i < |rows[q]| && rows[q][i] in gameslots ==> i < |mt|
    ensures |schedules| == |gameslots|
    ensures forall j :: 0 <= j < |gameslots| ==> Unique(schedules[j])
    ensures forall j, e :: 0 <= j < |gameslots| ==>
      (e in schedules[j] <==> exists q, i: nat :: 0 <= q < |rows| && Places(mt, gameslots, rows[q], i, j) && mt[i] == e)
  {
    schedules := seq(|gameslots|, _ => []);
    for q := 0 to |rows|
      invariant |schedules| == |gameslots|
      invariant forall j :: 0 <= j < |gameslots| ==> Unique(schedules[j])
      invariant forall j, e :: 0 <= j < |gameslots| ==>
        (e in schedules[j] <==> exists p, i: nat :: 0 <= p < q && Places(mt, gameslots, rows[p], i, j) && mt[i] == e)
    {
      var start := schedules;
      for i := 0 to |rows[q]|
        invariant |schedules| == |gameslots|
        invariant forall j :: 0 <= j < |gameslots| ==> Unique(schedules[j])
        invariant forall j, e :: 0 <= j < |gameslots| ==>
          (e in schedules[j] <==> e in start[j] || exists k: nat :: k < i && Places(mt, gameslots, rows[q], k, j) && mt[k] == e)
      {
        schedules := Place(mt, gameslots, schedules, rows[q], i);
      }
      forall j, e | 0 <= j < |gameslots|
        ensures e in schedules[j] <==> exists p, i: nat :: 0 <= p < q + 1 && Places(mt, gameslots, rows[p], i, j) && mt[i] == e
      {
        if e in schedules[j] && e !in start[j] {
          var k: nat :| k < |rows[q]| && Places(mt, gameslots, rows[q], k, j) && mt[k] == e;
        }
        if exists p, i: nat :: 0 <= p < q + 1 && Places(mt, gameslots, rows[p], i, j) && mt[i] == e {
          var p, i: nat :| 0 <= p < q + 1 && Places(mt, gameslots, rows[p], i, j) && mt[i] == e;
          if p == q {
            assert i < |rows[q]|;
          }
        }
      }
    }
  }
}
