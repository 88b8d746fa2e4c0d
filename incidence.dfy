/**
 * The 0/1 team-by-gameslot incidence matrices derived from a
 * matchup-to-gameslot assignment, and the team-by-week counts obtained from
 * them by multiplying with the gameslot-by-week indicator table.
 */
module Incidence {
  import opened Weeks
  import opened Registry
  import opened Permutation

  function Indicator(b: bool): nat {
    if b then 1 else 0
  }

  /** Some matchup hosted by team t is scheduled at gameslot g. */
  predicate HomeAt(mt: seq<Matchup>, mg: seq<nat>, t: nat, g: nat)
    requires |mg| == |mt|
  {
    exists m :: 0 <= m < |mt| && mt[m].home == t && mg[m] == g
  }

  /** Some matchup with t as the visitor is scheduled at gameslot g. */
  predicate AwayAt(mt: seq<Matchup>, mg: seq<nat>, t: nat, g: nat)
    requires |mg| == |mt|
  {
    exists m :: 0 <= m < |mt| && mt[m].away == t && mg[m] == g
  }

  /** hometeam_gameslot: entry [t][g] is 1 exactly when t hosts a game at g. */
  function HomeMatrix(mt: seq<Matchup>, mg: seq<nat>, numTeams: nat, numSlots: nat): seq<seq<nat>>
    requires |mg| == |mt|
  {
    seq(numTeams, t requires 0 <= t => seq(numSlots, g requires 0 <= g => Indicator(HomeAt(mt, mg, t, g))))
  }

  /** awayteam_gameslot: entry [t][g] is 1 exactly when t visits at g. */
  function AwayMatrix(mt: seq<Matchup>, mg: seq<nat>, numTeams: nat, numSlots: nat): seq<seq<nat>>
    requires |mg| == |mt|
  {
    seq(numTeams, t requires 0 <= t => seq(numSlots, g requires 0 <= g => Indicator(AwayAt(mt, mg, t, g))))
  }

  lemma ExtendHome(mt: seq<Matchup>, mg: seq<nat>, m: nat, t: nat, g: nat)
    requires |mg| == |mt| && m < |mt|
    ensures HomeAt(mt[..m + 1], mg[..m + 1], t, g) <==>
              (HomeAt(mt[..m], mg[..m], t, g) || (t == mt[m].home && g == mg[m]))
  {
    if HomeAt(mt[..m + 1], mg[..m + 1], t, g) {
      var k :| 0 <= k < m + 1 && mt[..m + 1][k].home == t && mg[..m + 1][k] == g;
      if k < m {
        assert mt[..m][k].home == t && mg[..m][k] == g;
      }
    }
    if HomeAt(mt[..m], mg[..m], t, g) {
      var k :| 0 <= k < m && mt[..m][k].home == t && mg[..m][k] == g;
      assert mt[..m + 1][k].home == t && mg[..m + 1][k] == g;
    }
    if t == mt[m].home && g == mg[m] {
      assert mt[..m + 1][m].home == t && mg[..m + 1][m] == g;
    }
  }

  lemma ExtendAway(mt: seq<Matchup>, mg: seq<nat>, m: nat, t: nat, g: nat)
    requires |mg| == |mt| && m < |mt|
    ensures AwayAt(mt[..m + 1], mg[..m + 1], t, g) <==>
              (AwayAt(mt[..m], mg[..m], t, g) || (t == mt[m].away && g == mg[m]))
  {
    if AwayAt(mt[..m + 1], mg[..m + 1], t, g) {
      var k :| 0 <= k < m + 1 && mt[..m + 1][k].away == t && mg[..m + 1][k] == g;
      if k < m {
        assert mt[..m][k].away == t && mg[..m][k] == g;
      }
    }
    if AwayAt(mt[..m], mg[..m], t, g) {
      var k :| 0 <= k < m && mt[..m][k].away == t && mg[..m][k] == g;
      assert mt[..m + 1][k].away == t && mg[..m + 1][k] == g;
    }
    if t == mt[m].away && g == mg[m] {
      assert mt[..m + 1][m].away == t && mg[..m + 1][m] == g;
    }
  }

  /**
   * _set_home_away_matrix: start from zero matrices and, matchup by
   * matchup, set the home and the away team's entry at its gameslot to 1.
   */
  method BuildIncidence(mt: seq<Matchup>, mg: seq<nat>, numTeams: nat)
    returns (home: seq<seq<nat>>, away: seq<seq<nat>>)
    requires |mg| == |mt| && WellFormed(numTeams, mt)
    requires forall m :: 0 <= m < |mg| ==> mg[m] < |mt|
    ensures home == HomeMatrix(mt, mg, numTeams, |mt|)
    ensures away == AwayMatrix(mt, mg, numTeams, |mt|)
  {
    var n := |mt|;
    home := seq(numTeams, _ => seq(n, _ => 0));
    away := seq(numTeams, _ => seq(n, _ => 0));
    MatrixEq(home, HomeMatrix(mt[..0], mg[..0], numTeams, n));
    MatrixEq(away, AwayMatrix(mt[..0], mg[..0], numTeams, n));
    for m := 0 to n
      invariant home == HomeMatrix(mt[..m], mg[..m], numTeams, n)
      invariant away == AwayMatrix(mt[..m], mg[..m], numTeams, n)
    {
      var g := mg[m];
      var h := mt[m].home;
      var a := mt[m].away;
      home := home[h := home[h][g := 1]];
      away := away[a := away[a][g := 1]];
      forall t, x | 0 <= t < numTeams && 0 <= x < n
        ensures home[t][x] == Indicator(HomeAt(mt[..m + 1], mg[..m + 1], t, x))
        ensures away[t][x] == Indicator(AwayAt(mt[..m + 1], mg[..m + 1], t, x))
      {
        ExtendHome(mt, mg, m, t, x);
        ExtendAway(mt, mg, m, t, x);
      }
      MatrixEq(home, HomeMatrix(mt[..m + 1], mg[..m + 1], numTeams, n));
      MatrixEq(away, AwayMatrix(mt[..m + 1], mg[..m + 1], numTeams, n));
    }
    assert mt[..n] == mt && mg[..n] == mg;
  }

  lemma MatrixEq(x: seq<seq<nat>>, y: seq<seq<nat>>)
    requires |x| == |y|
    requires forall t :: 0 <= t < |x| ==> |x[t]| == |y[t]|
    requires forall t, g :: 0 <= t < |x| && 0 <= g < |x[t]| ==> x[t][g] == y[t][g]
    ensures x == y
  {
    forall t | 0 <= t < |x| ensures x[t] == y[t] {
    }
  }

  /** Under a permutation, gameslot mg[m] is hosted by exactly the home team of matchup m. */
  lemma HomeAtSlotOf(mt: seq<Matchup>, mg: seq<nat>, t: nat, m: nat)
    requires IsPermutation(mg, |mt|) && m < |mt|
    ensures HomeAt(mt, mg, t, mg[m]) <==> mt[m].home == t
  {
    if HomeAt(mt, mg, t, mg[m]) {
      var k :| 0 <= k < |mt| && mt[k].home == t && mg[k] == mg[m];
      assert k == m;
    }
  }

  lemma AwayAtSlotOf(mt: seq<Matchup>, mg: seq<nat>, t: nat, m: nat)
    requires IsPermutation(mg, |mt|) && m < |mt|
    ensures AwayAt(mt, mg, t, mg[m]) <==> mt[m].away == t
  {
    if AwayAt(mt, mg, t, mg[m]) {
      var k :| 0 <= k < |mt| && mt[k].away == t && mg[k] == mg[m];
      assert k == m;
    }
  }

  /**
   * For a permutation every gameslot column holds exactly one home 1 and one
   * away 1: in the rows of the home and away team of the matchup scheduled
   * there.
   */
  lemma PermutationColumn(mt: seq<Matchup>, mg: seq<nat>, numTeams: nat, g: nat)
    requires IsPermutation(mg, |mt|) && g < |mt|
    ensures forall t :: 0 <= t < numTeams ==>
              HomeMatrix(mt, mg, numTeams, |mt|)[t][g] == Indicator(t == mt[Inverse(mg, |mt|)[g]].home)
    ensures forall t :: 0 <= t < numTeams ==>
              AwayMatrix(mt, mg, numTeams, |mt|)[t][g] == Indicator(t == mt[Inverse(mg, |mt|)[g]].away)
  {
    var m := Inverse(mg, |mt|)[g];
    forall t | 0 <= t < numTeams
      ensures HomeAt(mt, mg, t, g) <==> t == mt[m].home
      ensures AwayAt(mt, mg, t, g) <==> t == mt[m].away
    {
      HomeAtSlotOf(mt, mg, t, m);
      AwayAtSlotOf(mt, mg, t, m);
    }
  }

  /** One entry of SwapColumns: gameslot g of team t after the swap. */
  lemma SwapEntry(mt: seq<Matchup>, mg: seq<nat>, i: nat, j: nat, t: nat, g: nat)
    requires IsPermutation(mg, |mt|) && i < |mt| && j < |mt| && g < |mt|
    ensures IsPermutation(Swapped(mg, i, j), |mt|)
    ensures HomeAt(mt, Swapped(mg, i, j), t, g) <==>
              HomeAt(mt, mg, t, if g == mg[i] then mg[j] else if g == mg[j] then mg[i] else g)
    ensures AwayAt(mt, Swapped(mg, i, j), t, g) <==>
              AwayAt(mt, mg, t, if g == mg[i] then mg[j] else if g == mg[j] then mg[i] else g)
  {
    var n := |mt|;
    var sw := Swapped(mg, i, j);
    SwapFacts(mg, n, i, j);
    PermutationOnto(sw, n, g);
    var m :| 0 <= m < n && sw[m] == g;
    HomeAtSlotOf(mt, sw, t, m);
    AwayAtSlotOf(mt, sw, t, m);
    if m == j {
      HomeAtSlotOf(mt, mg, t, i);
      AwayAtSlotOf(mt, mg, t, i);
      HomeAtSlotOf(mt, mg, t, j);
      AwayAtSlotOf(mt, mg, t, j);
    } else if m == i {
      HomeAtSlotOf(mt, mg, t, j);
      AwayAtSlotOf(mt, mg, t, j);
    } else {
      HomeAtSlotOf(mt, mg, t, m);
      AwayAtSlotOf(mt, mg, t, m);
    }
  }

  /**
   * Swapping the gameslots of matchups i and j swaps columns mg[i] and
   * mg[j] of both matrices and changes nothing else.
   */
  lemma SwapColumns(mt: seq<Matchup>, mg: seq<nat>, numTeams: nat, i: nat, j: nat)
    requires IsPermutation(mg, |mt|) && i < |mt| && j < |mt|
    ensures |Swapped(mg, i, j)| == |mt|
    ensures forall t :: 0 <= t < numTeams ==>
              HomeMatrix(mt, Swapped(mg, i, j), numTeams, |mt|)[t]
                == Swapped(HomeMatrix(mt, mg, numTeams, |mt|)[t], mg[i], mg[j])
    ensures forall t :: 0 <= t < numTeams ==>
              AwayMatrix(mt, Swapped(mg, i, j), numTeams, |mt|)[t]
                == Swapped(AwayMatrix(mt, mg, numTeams, |mt|)[t], mg[i], mg[j])
  {
    var n := |mt|;
    var sw := Swapped(mg, i, j);
    SwapFacts(mg, n, i, j);
    var h := HomeMatrix(mt, mg, numTeams, n);
    var a := AwayMatrix(mt, mg, numTeams, n);
    forall t, g | 0 <= t < numTeams && 0 <= g < n
      ensures HomeMatrix(mt, sw, numTeams, n)[t][g] == Swapped(h[t], mg[i], mg[j])[g]
      ensures AwayMatrix(mt, sw, numTeams, n)[t][g] == Swapped(a[t], mg[i], mg[j])[g]
    {
      SwapEntry(mt, mg, i, j, t, g);
    }
  }

  /** The sum of the entries. */
  function Sum(s: seq<nat>): nat {
    if s == [] then 0 else Sum(s[..|s| - 1]) + s[|s| - 1]
  }

  lemma {:induction false} SumConcat(s: seq<nat>, t: seq<nat>)
    ensures Sum(s + t) == Sum(s) + Sum(t)
    decreases |t|
  {
    if t == [] {
      assert s + t == s;
    } else {
      var st := s + t;
      assert st[..|st| - 1] == s + t[..|t| - 1];
      assert st[|st| - 1] == t[|t| - 1];
      SumConcat(s, t[..|t| - 1]);
      assert Sum(st) == Sum(st[..|st| - 1]) + st[|st| - 1];
    }
  }

  lemma {:induction false} SumUpdate(s: seq<nat>, p: nat, v: nat)
    requires p < |s|
    ensures Sum(s[p := v]) == Sum(s) - s[p] + v
    decreases |s|
  {
    var last := |s| - 1;
    if p < last {
      assert s[p := v][..last] == s[..last][p := v];
      SumUpdate(s[..last], p, v);
    } else {
      assert s[p := v][..last] == s[..last];
    }
  }

  /** Exchanging two entries keeps the sum. */
  lemma SumSwapped(s: seq<nat>, p: nat, q: nat)
    requires p < |s| && q < |s|
    ensures Sum(Swapped(s, p, q)) == Sum(s)
  {
    SumUpdate(s, p, s[q]);
    SumUpdate(s[p := s[q]], q, s[p]);
  }

  /** A team's number of games in week w, read from its row of a team-by-gameslot matrix. */
  function WeekCount(row: seq<nat>, w: nat): nat
    requires |row| == NumGameslots && w < NumWeeks
  {
    WeekRange(w);
    Sum(row[Prefix(w)..Prefix(w + 1)])
  }

  /** The gameslot-by-week table `gameslot_week`: entry [g][w] is 1 exactly when g lies in week w. */
  predicate IsGameslotWeek(table: seq<seq<nat>>) {
    |table| == NumGameslots
    && (forall g :: 0 <= g < NumGameslots ==> |table[g]| == NumWeeks)
    && (forall g, w :: 0 <= g < NumGameslots && 0 <= w < NumWeeks ==> table[g][w] == Indicator(InWeek(g, w)))
  }

  /** Entry w of the row-times-table product over the first k gameslots. */
  function Dot(row: seq<nat>, table: seq<seq<nat>>, w: nat, k: nat): nat
    requires k <= |row| && k <= |table| && forall g :: 0 <= g < k ==> w < |table[g]|
  {
    if k == 0 then 0 else Dot(row, table, w, k - 1) + row[k - 1] * table[k - 1][w]
  }

  function Clamp(k: nat, lo: nat, hi: nat): (r: nat)
    requires lo <= hi
    ensures lo <= r <= hi
    ensures lo <= k <= hi ==> r == k
  {
    if k < lo then lo else if k > hi then hi else k
  }

  /** A dot product with a 0/1 mask of the range [lo, hi) sums the row over that range. */
  lemma {:induction false} DotRange(row: seq<nat>, table: seq<seq<nat>>, w: nat, lo: nat, hi: nat, k: nat)
    requires lo <= hi <= |row| && k <= |row| && k <= |table|
    requires forall g :: 0 <= g < k ==> w < |table[g]| && table[g][w] == Indicator(lo <= g < hi)
    ensures Dot(row, table, w, k) == Sum(row[lo..Clamp(k, lo, hi)])
  {
    if k > 0 {
      DotRange(row, table, w, lo, hi, k - 1);
      if lo <= k - 1 < hi {
        assert row[lo..k][..k - 1 - lo] == row[lo..k - 1];
      }
    }
  }

  /**
   * np.matmul(row, gameslot_week)[w] is the row's sum over week w's
   * gameslots: the matrix product computes the per-week game counts.
   */
  lemma MatMulIsWeekCount(row: seq<nat>, table: seq<seq<nat>>, w: nat)
    requires |row| == NumGameslots && IsGameslotWeek(table) && w < NumWeeks
    ensures Dot(row, table, w, NumGameslots) == WeekCount(row, w)
  {
    WeekRange(w);
    var lo, hi := Prefix(w), Prefix(w + 1);
    forall g | 0 <= g < NumGameslots ensures table[g][w] == Indicator(lo <= g < hi) {
      assert InWeek(g, w) <==> lo <= g < hi;
    }
    DotRange(row, table, w, lo, hi, NumGameslots);
  }

  lemma SumSplit(s: seq<nat>, a: nat, b: nat)
    requires a <= b <= |s|
    ensures Sum(s[..b]) == Sum(s[..a]) + Sum(s[a..b])
  {
    assert s[..b] == s[..a] + s[a..b];
    SumConcat(s[..a], s[a..b]);
  }

  /** A row's week counts over the first k weeks add up to its sum over their gameslots. */
  function WeekTotal(row: seq<nat>, k: nat): nat
    requires |row| == NumGameslots && k <= NumWeeks
  {
    if k == 0 then 0 else WeekTotal(row, k - 1) + WeekCount(row, k - 1)
  }

  lemma {:induction false} WeekTotalPrefix(row: seq<nat>, k: nat)
    requires |row| == NumGameslots && k <= NumWeeks
    ensures Prefix(k) <= NumGameslots
    ensures WeekTotal(row, k) == Sum(row[..Prefix(k)])
  {
    SeasonLength();
    PrefixMonotone(k, NumWeeks);
    if k > 0 {
      WeekTotalPrefix(row, k - 1);
      WeekRange(k - 1);
      SumSplit(row, Prefix(k - 1), Prefix(k));
    }
  }

  /** The weeks tile the season: the week counts of a row add up to the row's sum. */
  lemma WeeksCoverRow(row: seq<nat>)
    requires |row| == NumGameslots
    ensures WeekTotal(row, NumWeeks) == Sum(row)
  {
    WeekTotalPrefix(row, NumWeeks);
    SeasonLength();
    assert row[..NumGameslots] == row;
  }

  /**
   * A swap inside a slice is the slice's own swap at the shifted positions;
   * a swap entirely outside leaves the slice alone.
   */
  lemma SliceSwapped(row: seq<nat>, lo: nat, hi: nat, p: nat, q: nat)
    requires lo <= hi <= |row| && p < |row| && q < |row|
    ensures lo <= p < hi && lo <= q < hi ==>
              Swapped(row, p, q)[lo..hi] == Swapped(row[lo..hi], p - lo, q - lo)
    ensures !(lo <= p < hi) && !(lo <= q < hi) ==> Swapped(row, p, q)[lo..hi] == row[lo..hi]
  {
    if lo <= p < hi && lo <= q < hi {
      assert Swapped(row, p, q)[lo..hi] == Swapped(row[lo..hi], p - lo, q - lo);
    }
    if !(lo <= p < hi) && !(lo <= q < hi) {
      assert Swapped(row, p, q)[lo..hi] == row[lo..hi];
    }
  }

  /**
   * Exchanging two entries of the same week leaves every week count of the
   * row unchanged.
   */
  lemma WeekCountSwapped(row: seq<nat>, p: nat, q: nat, w: nat)
    requires |row| == NumGameslots && p < NumGameslots && q < NumGameslots && w < NumWeeks
    requires WeekOf(p) == WeekOf(q)
    ensures WeekCount(Swapped(row, p, q), w) == WeekCount(row, w)
  {
    WeekRange(w);
    var lo, hi := Prefix(w), Prefix(w + 1);
    if WeekOf(p) == w {
      SliceSwapped(row, lo, hi, p, q);
      SumSwapped(row[lo..hi], p - lo, q - lo);
    } else {
      assert !InWeek(p, w) && !InWeek(q, w);
      SliceSwapped(row, lo, hi, p, q);
    }
  }
}
