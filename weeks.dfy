/**
 * The fixed week structure of a season: 17 weeks of 13 to 16 gameslots each,
 * 256 gameslots in all, plus the gameslots singled out by the league
 * (the Thanksgiving triple-header and the international games).
 */
module Weeks {

  /** Number of games in each week, week 1 first. */
  const WeekSizes: seq<nat> := [16, 16, 16, 15, 15, 15, 14, 14, 13, 14, 13, 15, 16, 16, 16, 16, 16]

  const NumWeeks: nat := 17
  const NumGameslots: nat := 256

  /** The week (0-based) holding the Thanksgiving triple-header. */
  const ThanksgivingWeek: nat := 11
  const ThanksgivingGameslots: seq<nat> := [161, 162, 163]
  const LondonGames: seq<nat> := [79, 94, 108]
  const MexicoGames: seq<nat> := [160]

  /** Number of gameslots in the weeks before week `w`: where week `w` starts. */
  function Prefix(w: nat): nat
    requires w <= |WeekSizes|
  {
    if w == 0 then 0 else Prefix(w - 1) + WeekSizes[w - 1]
  }

  /** Gameslot `g` belongs to week `w`: it lies in [Prefix(w), Prefix(w) + size(w)). */
  predicate InWeek(g: nat, w: nat) {
    w < |WeekSizes| && Prefix(w) <= g < Prefix(w) + WeekSizes[w]
  }

  /** The week starts, spelled out. */
  lemma PrefixTable()
    ensures Prefix(0) == 0 && Prefix(1) == 16 && Prefix(2) == 32 && Prefix(3) == 48
    ensures Prefix(4) == 63 && Prefix(5) == 78 && Prefix(6) == 93 && Prefix(7) == 107
    ensures Prefix(8) == 121 && Prefix(9) == 134 && Prefix(10) == 148 && Prefix(11) == 161
    ensures Prefix(12) == 176 && Prefix(13) == 192 && Prefix(14) == 208 && Prefix(15) == 224
    ensures Prefix(16) == 240 && Prefix(17) == 256
  {
    assert Prefix(1) == 16;
    assert Prefix(2) == 32;
    assert Prefix(3) == 48;
    assert Prefix(4) == 63;
    assert Prefix(5) == 78;
    assert Prefix(6) == 93;
    assert Prefix(7) == 107;
    assert Prefix(8) == 121;
    assert Prefix(9) == 134;
    assert Prefix(10) == 148;
    assert Prefix(11) == 161;
    assert Prefix(12) == 176;
    assert Prefix(13) == 192;
    assert Prefix(14) == 208;
    assert Prefix(15) == 224;
    assert Prefix(16) == 240;
  }

  /** The week sizes add up to the 256 gameslots of the season. */
  lemma SeasonLength()
    ensures |WeekSizes| == NumWeeks
    ensures Prefix(NumWeeks) == NumGameslots
  {
    PrefixTable();
  }

  lemma {:induction false} PrefixMonotone(v: nat, w: nat)
    requires v <= w <= |WeekSizes|
    ensures Prefix(v) <= Prefix(w)
    decreases w - v
  {
    if v < w {
      PrefixMonotone(v, w - 1);
    }
  }

  /** No gameslot lies in two weeks. */
  lemma WeekUnique(g: nat, v: nat, w: nat)
    requires InWeek(g, v) && InWeek(g, w)
    ensures v == w
  {
    if v < w {
      PrefixMonotone(v + 1, w);
    } else if w < v {
      PrefixMonotone(w + 1, v);
    }
  }

  /** The week of gameslot `g`, searched from week `w` on. */
  function WeekFrom(g: nat, w: nat): (r: nat)
    requires w < |WeekSizes| && Prefix(w) <= g < NumGameslots
    ensures w <= r && InWeek(g, r)
    decreases |WeekSizes| - w
  {
    if g < Prefix(w) + WeekSizes[w] then w
    else
      SeasonLength();
      if w + 1 < |WeekSizes| then WeekFrom(g, w + 1)
      else assert false; w
  }

  /** The week of gameslot `g`: the unique week whose range contains it. */
  function WeekOf(g: nat): (r: nat)
    requires g < NumGameslots
    ensures r < NumWeeks && InWeek(g, r)
    ensures forall w :: InWeek(g, w) ==> w == r
  {
    var r := WeekFrom(g, 0);
    forall w | InWeek(g, w) ensures w == r { WeekUnique(g, w, r); }
    r
  }

  /** The weeks tile the season: every gameslot lies in exactly one week. */
  lemma WeeksTile(g: nat)
    requires g < NumGameslots
    ensures exists w :: InWeek(g, w)
    ensures forall v, w :: InWeek(g, v) && InWeek(g, w) ==> v == w
  {
    var r := WeekOf(g);
    forall v, w | InWeek(g, v) && InWeek(g, w) ensures v == w { WeekUnique(g, v, w); }
  }

  /**
   * The league's fixed gameslots: Thanksgiving is the first three slots of
   * week index 11, the London games fall in weeks 5, 6 and 7 and the Mexico
   * game in week 10 (all 0-based).
   */
  lemma FixedGameslotWeeks()
    ensures forall k :: 0 <= k < 3 ==> ThanksgivingGameslots[k] == Prefix(ThanksgivingWeek) + k
    ensures forall k :: 0 <= k < 3 ==> InWeek(ThanksgivingGameslots[k], ThanksgivingWeek)
    ensures InWeek(LondonGames[0], 5) && InWeek(LondonGames[1], 6) && InWeek(LondonGames[2], 7)
    ensures InWeek(MexicoGames[0], 10)
  {
    PrefixTable();
  }

  /**
   * One row of week_gameslot: zeros, with ones over the `WeekSizes[w]`
   * gameslots from the running count on; the count then moves past them.
   */
  method WeekRow(w: nat, count: nat) returns (weekGames: seq<nat>, next: nat)
    requires w < NumWeeks && count == Prefix(w)
    ensures |weekGames| == NumGameslots && next == Prefix(w + 1)
    ensures forall g :: 0 <= g < NumGameslots ==> weekGames[g] == (if InWeek(g, w) then 1 else 0)
  {
    WeekRange(w);
    var n := WeekSizes[w];
    weekGames := seq(NumGameslots, _ => 0);
    weekGames := weekGames[..count] + seq(n, _ => 1) + weekGames[count + n..];
    next := count + n;
  }

  /**
   * The gameslot-by-week indicator table, built as the source builds it: one
   * row per week with ones in the slice [count, count + n), then transposed.
   */
  method BuildGameslotWeek() returns (gameslotWeek: seq<seq<nat>>)
    ensures |gameslotWeek| == NumGameslots
    ensures forall g :: 0 <= g < NumGameslots ==> |gameslotWeek[g]| == NumWeeks
    ensures forall g, w :: 0 <= g < NumGameslots && 0 <= w < NumWeeks ==>
              gameslotWeek[g][w] == (if InWeek(g, w) then 1 else 0)
  {
    SeasonLength();
    var weekGameslot: seq<seq<nat>> := [];
    var count := 0;
    for w := 0 to |WeekSizes|
      invariant |weekGameslot| == w && count == Prefix(w)
      invariant forall v :: 0 <= v < w ==> |weekGameslot[v]| == NumGameslots
      invariant forall v, g :: 0 <= v < w && 0 <= g < NumGameslots ==>
                  weekGameslot[v][g] == (if InWeek(g, v) then 1 else 0)
    {
      var weekGames;
      weekGames, count := WeekRow(w, count);
      weekGameslot := weekGameslot + [weekGames];
    }
    gameslotWeek := seq(NumGameslots, g requires 0 <= g < NumGameslots =>
                          seq(NumWeeks, w requires 0 <= w < NumWeeks => weekGameslot[w][g]));
  }

  /** Week w's gameslots are [Prefix(w), Prefix(w + 1)), inside the season. */
  lemma WeekRange(w: nat)
    requires w < NumWeeks
    ensures Prefix(w) + WeekSizes[w] == Prefix(w + 1) <= NumGameslots
  {
    SeasonLength();
    PrefixMonotone(w + 1, NumWeeks);
  }

  /** The week's first gameslot: its Thursday night game. */
  function FirstSlot(w: nat): (g: nat)
    requires w < NumWeeks
    ensures InWeek(g, w) && g == Prefix(w) && g < NumGameslots
  {
    WeekRange(w);
    PrefixTable();
    Prefix(w)
  }

  /** The week's last gameslot: its Monday night game. */
  function LastSlot(w: nat): (g: nat)
    requires w < NumWeeks
    ensures InWeek(g, w) && g + 1 == Prefix(w + 1) && g < NumGameslots
  {
    WeekRange(w);
    PrefixTable();
    Prefix(w + 1) - 1
  }
}
