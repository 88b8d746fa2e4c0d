/**
 * The discrete parts of the searches' selection step, on plain values: the
 * ranks of a sorted population, integer parent weights, the
 * cumulative-subtraction draw of a parent index, the elitist scan and the
 * scan that collects results.
 */
module Selection {

  /**
   * get_reproduction_probability's ranks: 1 for the first individual, then
   * the previous rank, increased by one whenever the key differs from the
   * previous individual's.
   */
  function Ranks(keys: seq<int>): (r: seq<nat>)
    ensures |r| == |keys|
    decreases |keys|
  {
    if |keys| == 0 then []
    else if |keys| == 1 then [1]
    else
      var p := Ranks(keys[..|keys| - 1]);
      p + [if keys[|keys| - 1] == keys[|keys| - 2] then p[|p| - 1] else p[|p| - 1] + 1]
  }

  /**
   * The rank rule: the first rank is 1; each later rank repeats the previous
   * one for an equal key and is one more otherwise; ranks never decrease and
   * rank i is at most i + 1, hence at most the population size.
   */
  lemma {:induction false} RanksFacts(keys: seq<int>)
    ensures |keys| > 0 ==> Ranks(keys)[0] == 1
    ensures forall i :: 0 < i < |keys| ==>
              Ranks(keys)[i] == if keys[i] == keys[i - 1] then Ranks(keys)[i - 1] else Ranks(keys)[i - 1] + 1
    ensures forall i :: 0 <= i < |keys| ==> 1 <= Ranks(keys)[i] <= i + 1
    ensures forall i, j :: 0 <= i <= j < |keys| ==> Ranks(keys)[i] <= Ranks(keys)[j]
    decreases |keys|
  {
    if |keys| >= 2 {
      var init := keys[..|keys| - 1];
      RanksFacts(init);
      var r := Ranks(keys);
      assert r[..|keys| - 1] == Ranks(init);
      forall i | 0 < i < |keys|
        ensures r[i] == if keys[i] == keys[i - 1] then r[i - 1] else r[i - 1] + 1
      {
        if i < |keys| - 1 {
          assert init[i] == keys[i] && init[i - 1] == keys[i - 1];
        }
      }
    }
  }

  /** Ranks of a population sorted by key: the rank of i is 1 plus the number of key changes up to i. */
  function Changes(keys: seq<int>, i: nat): nat
    requires i < |keys|
  {
    if i == 0 then 0 else Changes(keys, i - 1) + (if keys[i] == keys[i - 1] then 0 else 1)
  }

  lemma {:induction false} RanksCountChanges(keys: seq<int>, i: nat)
    requires i < |keys|
    ensures Ranks(keys)[i] == 1 + Changes(keys, i)
  {
    RanksFacts(keys);
    if i > 0 {
      RanksCountChanges(keys, i - 1);
    }
  }

  /** The rank loop of get_reproduction_probability, appending one rank per individual. */
  method RankLoop(keys: seq<int>) returns (a: seq<nat>)
    ensures a == Ranks(keys)
  {
    a := [];
    for i := 0 to |keys|
      invariant a == Ranks(keys[..i])
    {
      assert keys[..i + 1][..i] == keys[..i];
      if i == 0 {
        a := a + [1];
      } else if keys[i] == keys[i - 1] {
        a := a + [a[|a| - 1]];
      } else {
        a := a + [a[|a| - 1] + 1];
      }
    }
    assert keys[..|keys|] == keys;
  }

  function Fact(n: nat): (r: nat)
    ensures r >= 1
  {
    if n == 0 then 1 else n * Fact(n - 1)
  }

  /** n! / k for 1 <= k <= n, as the product of the factors other than k. */
  function FactOver(k: nat, n: nat): (r: nat)
    requires 1 <= k <= n
    ensures r >= 1
  {
    if k == n then Fact(n - 1) else n * FactOver(k, n - 1)
  }

  lemma {:induction false} FactOverTimes(k: nat, n: nat)
    requires 1 <= k <= n
    ensures k * FactOver(k, n) == Fact(n)
  {
    if k < n {
      FactOverTimes(k, n - 1);
      var f := FactOver(k, n - 1);
      assert FactOver(k, n) == n * f;
      SwapFactors(k, n, f);
    }
  }

  lemma SwapFactors(a: nat, b: nat, c: nat)
    ensures a * (b * c) == b * (a * c)
  {
  }

  /**
   * The inverted ranks a[-1] / a[i] as whole numbers: each scaled by
   * (a[-1] - 1)!, so the weight of rank r is a[-1]! / r.
   */
  function RankWeights(ranks: seq<nat>): (w: seq<nat>)
    requires |ranks| > 0
    ensures |w| == |ranks|
  {
    var top := ranks[|ranks| - 1];
    seq(|ranks|, i requires 0 <= i < |ranks| => if 1 <= ranks[i] <= top then FactOver(ranks[i], top) else 0)
  }

  lemma InverseMonotone(wi: nat, ri: nat, wj: nat, rj: nat)
    requires wi * ri == wj * rj && 1 <= ri <= rj
    ensures wi >= wj
  {
  }

  /**
   * The weights are exactly inverse to the ranks (weight times rank is the
   * same for everyone), so they are the source's a[-1] / a[i] up to a
   * common factor; every weight is positive, and a better rank never gets a
   * smaller weight.
   */
  lemma RankWeightsInverse(keys: seq<int>)
    requires |keys| > 0
    ensures var r := Ranks(keys);
            var w := RankWeights(r);
            && (forall i :: 0 <= i < |keys| ==> w[i] * r[i] == Fact(r[|r| - 1]) && w[i] >= 1)
            && (forall i, j :: 0 <= i <= j < |keys| ==> w[i] >= w[j])
  {
    RanksFacts(keys);
    var r := Ranks(keys);
    var top := r[|r| - 1];
    var w := RankWeights(r);
    forall i | 0 <= i < |keys|
      ensures w[i] * r[i] == Fact(top) && w[i] >= 1
    {
      assert 1 <= r[i] <= top;
      assert w[i] == FactOver(r[i], top);
      FactOverTimes(r[i], top);
    }
    forall i, j | 0 <= i <= j < |keys|
      ensures w[i] >= w[j]
    {
      InverseMonotone(w[i], r[i], w[j], r[j]);
    }
  }

  /** schedule_generator.py's weights: index i gets pop_size - 1 - i, the last one 0. */
  function LinearWeights(n: nat): (w: seq<nat>)
    ensures |w| == n
    ensures forall i :: 0 <= i < n ==> w[i] + i + 1 == n
  {
    seq(n, i requires 0 <= i < n => n - 1 - i)
  }

  /** The sum of the first k weights. */
  function PrefixSum(a: seq<nat>, k: nat): nat
    requires k <= |a|
  {
    if k == 0 then 0 else PrefixSum(a, k - 1) + a[k - 1]
  }

  /** The first index below popSize whose running sum exceeds x, searched from i; 0 when there is none. */
  function ParentFrom(a: seq<nat>, popSize: nat, x: int, i: nat): (r: nat)
    requires popSize <= |a| && i <= popSize
    ensures r < popSize || r == 0
    decreases popSize - i
  {
    if i == popSize then 0
    else if x < PrefixSum(a, i + 1) then i
    else ParentFrom(a, popSize, x, i + 1)
  }

  /** get_parent_index's choice for draw x. */
  function ParentIndex(a: seq<nat>, popSize: nat, x: int): nat
    requires popSize <= |a|
  {
    ParentFrom(a, popSize, x, 0)
  }

  /**
   * get_parent_index: subtract the weights in turn from the draw and return
   * the index at which it drops below zero; 0 if it never does. The result
   * is always an index of the population.
   */
  method GetParentIndex(a: seq<nat>, popSize: nat, draw: int) returns (r: nat)
    requires 0 < popSize <= |a|
    ensures r < popSize
    ensures r == ParentIndex(a, popSize, draw)
  {
    var x := draw;
    for i := 0 to popSize
      invariant x == draw - PrefixSum(a, i)
      invariant ParentFrom(a, popSize, draw, i) == ParentIndex(a, popSize, draw)
    {
      x := x - a[i];
      if x < 0 {
        return i;
      }
    }
    return 0;
  }

  lemma {:induction false} ParentFromInterval(a: seq<nat>, popSize: nat, x: int, i: nat)
    requires popSize <= |a| && i < popSize
    requires PrefixSum(a, i) <= x < PrefixSum(a, popSize)
    ensures var r := ParentFrom(a, popSize, x, i);
            i <= r < popSize && PrefixSum(a, r) <= x < PrefixSum(a, r + 1)
    decreases popSize - i
  {
    if x >= PrefixSum(a, i + 1) {
      ParentFromInterval(a, popSize, x, i + 1);
    }
  }

  /**
   * A draw in [0, total) picks the index whose slice of the running sums
   * contains it, so index r is chosen for exactly a[r] of the total draws;
   * in particular an index of weight 0 is never chosen.
   */
  lemma ParentIndexInterval(a: seq<nat>, popSize: nat, x: int)
    requires 0 < popSize <= |a| && 0 <= x < PrefixSum(a, popSize)
    ensures var r := ParentIndex(a, popSize, x);
            r < popSize && PrefixSum(a, r) <= x < PrefixSum(a, r + 1) && a[r] > 0
  {
    ParentFromInterval(a, popSize, x, 0);
  }

  /** With the linear weights, a draw in range never picks the last (worst) individual. */
  lemma LinearNeverPicksLast(n: nat, x: int)
    requires n >= 2 && 0 <= x < PrefixSum(LinearWeights(n), n)
    ensures ParentIndex(LinearWeights(n), n, x) < n - 1
  {
    ParentIndexInterval(LinearWeights(n), n, x);
  }

  /** The state of the elitist scan: the indices kept so far, and whether the scan has stopped. */
  datatype Elite = Elite(chosen: seq<nat>, stopped: bool)

  /** The assignments at the given indices. */
  function Picked(assigns: seq<seq<nat>>, idx: seq<nat>): (r: seq<seq<nat>>)
    requires forall j :: 0 <= j < |idx| ==> idx[j] < |assigns|
    ensures |r| == |idx|
  {
    seq(|idx|, j requires 0 <= j < |idx| => assigns[idx[j]])
  }

  /**
   * The elitist loop over the first k individuals: stop at the first key
   * other than the best m; skip an individual equal to one already kept;
   * otherwise keep it, and stop once `limit` are kept (a check made right
   * after keeping one, so a limit of 0 never stops the scan).
   */
  function EliteScan(assigns: seq<seq<nat>>, keys: seq<int>, m: int, limit: nat, k: nat): (r: Elite)
    requires |assigns| == |keys| && k <= |keys|
    ensures forall j :: 0 <= j < |r.chosen| ==> r.chosen[j] < k
  {
    if k == 0 then Elite([], false)
    else
      var s := EliteScan(assigns, keys, m, limit, k - 1);
      if s.stopped then s
      else if keys[k - 1] != m then Elite(s.chosen, true)
      else if assigns[k - 1] in Picked(assigns, s.chosen) then s
      else Elite(s.chosen + [k - 1], |s.chosen| + 1 == limit)
  }

  /** The scan keeps at most one individual per step. */
  lemma {:induction false} EliteSize(assigns: seq<seq<nat>>, keys: seq<int>, m: int, limit: nat, k: nat)
    requires |assigns| == |keys| && k <= |keys|
    ensures |EliteScan(assigns, keys, m, limit, k).chosen| <= k
  {
    if k > 0 {
      EliteSize(assigns, keys, m, limit, k - 1);
    }
  }

  predicate Increasing(s: seq<nat>) {
    forall i, j :: 0 <= i < j < |s| ==> s[i] < s[j]
  }

  /** The kept indices are in population order, and the best key holds at and before each of them. */
  lemma {:induction false} EliteOrder(assigns: seq<seq<nat>>, keys: seq<int>, m: int, limit: nat, k: nat)
    requires |assigns| == |keys| && k <= |keys|
    ensures var r := EliteScan(assigns, keys, m, limit, k);
            && Increasing(r.chosen)
            && (forall j :: 0 <= j < |r.chosen| ==> forall p :: 0 <= p <= r.chosen[j] ==> keys[p] == m)
            && (!r.stopped ==> forall p :: 0 <= p < k ==> keys[p] == m)
  {
    if k > 0 {
      EliteOrder(assigns, keys, m, limit, k - 1);
    }
  }

  /** Kept individuals are pairwise unequal, and at most `limit` are kept when the limit is positive. */
  lemma {:induction false} EliteDistinct(assigns: seq<seq<nat>>, keys: seq<int>, m: int, limit: nat, k: nat)
    requires |assigns| == |keys| && k <= |keys|
    ensures var r := EliteScan(assigns, keys, m, limit, k);
            && (forall i, j :: 0 <= i < j < |r.chosen| ==> assigns[r.chosen[i]] != assigns[r.chosen[j]])
            && (limit > 0 ==> |r.chosen| <= limit)
            && (limit > 0 && !r.stopped ==> |r.chosen| < limit)
  {
    if k > 0 {
      EliteDistinct(assigns, keys, m, limit, k - 1);
      var s := EliteScan(assigns, keys, m, limit, k - 1);
      if !s.stopped && keys[k - 1] == m && assigns[k - 1] !in Picked(assigns, s.chosen) {
        var c := s.chosen + [k - 1];
        forall i, j | 0 <= i < j < |c| ensures assigns[c[i]] != assigns[c[j]] {
          if j == |c| - 1 {
            assert assigns[c[i]] == Picked(assigns, s.chosen)[i];
          }
        }
      }
    }
  }

  /** When the scan ran to k without stopping, every individual before k equals a kept one. */
  lemma {:induction false} EliteComplete(assigns: seq<seq<nat>>, keys: seq<int>, m: int, limit: nat, k: nat)
    requires |assigns| == |keys| && k <= |keys|
    ensures var r := EliteScan(assigns, keys, m, limit, k);
            !r.stopped ==> forall p :: 0 <= p < k ==> assigns[p] in Picked(assigns, r.chosen)
  {
    if k > 0 {
      EliteComplete(assigns, keys, m, limit, k - 1);
      var s := EliteScan(assigns, keys, m, limit, k - 1);
      if !s.stopped && keys[k - 1] == m && assigns[k - 1] !in Picked(assigns, s.chosen) {
        var c := s.chosen + [k - 1];
        assert Picked(assigns, c) == Picked(assigns, s.chosen) + [assigns[k - 1]];
      }
    }
  }

  /** Once the scan has stopped, later individuals change nothing. */
  lemma {:induction false} EliteStopped(assigns: seq<seq<nat>>, keys: seq<int>, m: int, limit: nat, k: nat, n: nat)
    requires |assigns| == |keys| && k <= n <= |keys|
    requires EliteScan(assigns, keys, m, limit, k).stopped
    ensures EliteScan(assigns, keys, m, limit, n) == EliteScan(assigns, keys, m, limit, k)
    decreases n - k
  {
    if k < n {
      EliteStopped(assigns, keys, m, limit, k + 1, n);
    }
  }

  /** The state of the result scan: the results so far, and whether the scan has stopped. */
  datatype Collected = Collected(results: seq<seq<nat>>, stopped: bool)

  /** One step of the result loop: stop at an infeasible individual, skip one already held, else add it. */
  function ResultStep(s: Collected, a: seq<nat>, feasible: bool): Collected {
    if s.stopped then s
    else if !feasible then Collected(s.results, true)
    else if a in s.results then s
    else Collected(s.results + [a], false)
  }

  /**
   * The result loop over the first k individuals of a sorted population:
   * stop at the first one that fails the constraints; add a feasible one
   * unless it equals a result already held.
   */
  function ResultScan(res: seq<seq<nat>>, assigns: seq<seq<nat>>, feasible: seq<bool>, k: nat): Collected
    requires |assigns| == |feasible| && k <= |assigns|
  {
    if k == 0 then Collected(res, false)
    else ResultStep(ResultScan(res, assigns, feasible, k - 1), assigns[k - 1], feasible[k - 1])
  }

  predicate Unique(s: seq<seq<nat>>) {
    forall i, j :: 0 <= i < j < |s| ==> s[i] != s[j]
  }

  /**
   * The result scan only appends: the old results stay in front, every
   * added one is a feasible individual met before the scan stopped, and
   * results stay pairwise unequal.
   */
  lemma {:induction false} ResultFacts(res: seq<seq<nat>>, assigns: seq<seq<nat>>, feasible: seq<bool>, k: nat)
    requires |assigns| == |feasible| && k <= |assigns| && Unique(res)
    ensures var r := ResultScan(res, assigns, feasible, k).results;
            && |res| <= |r| && r[..|res|] == res
            && Unique(r)
            && (forall j :: |res| <= j < |r| ==> exists p :: 0 <= p < k && feasible[p] && assigns[p] == r[j])
  {
    if k > 0 {
      ResultFacts(res, assigns, feasible, k - 1);
      var s := ResultScan(res, assigns, feasible, k - 1);
      if !s.stopped && feasible[k - 1] && assigns[k - 1] !in s.results {
        var r := s.results + [assigns[k - 1]];
        assert r[..|res|] == s.results[..|res|];
        assert r[..|s.results|] == s.results;
        forall i, j | 0 <= i < j < |r| ensures r[i] != r[j] {
          if j == |r| - 1 {
            assert r[i] == s.results[i];
          }
        }
        forall j | |res| <= j < |r| ensures exists p :: 0 <= p < k && feasible[p] && assigns[p] == r[j] {
          if j == |r| - 1 {
            assert feasible[k - 1] && assigns[k - 1] == r[j];
          } else {
            assert r[j] == s.results[j];
          }
        }
      } else {
        var r := ResultScan(res, assigns, feasible, k).results;
        assert r == s.results;
        forall j | |res| <= j < |r| ensures exists p :: 0 <= p < k && feasible[p] && assigns[p] == r[j] {
          var p :| 0 <= p < k - 1 && feasible[p] && assigns[p] == r[j];
          assert 0 <= p < k && feasible[p] && assigns[p] == r[j];
        }
      }
    }
  }

  lemma {:induction false} ResultStopped(res: seq<seq<nat>>, assigns: seq<seq<nat>>, feasible: seq<bool>, k: nat, n: nat)
    requires |assigns| == |feasible| && k <= n <= |assigns|
    requires ResultScan(res, assigns, feasible, k).stopped
    ensures ResultScan(res, assigns, feasible, n) == ResultScan(res, assigns, feasible, k)
    decreases n - k
  {
    if k < n {
      ResultStopped(res, assigns, feasible, k + 1, n);
    }
  }

  /** Keys that never increase along the sequence. */
  predicate Descending<T>(s: seq<T>, key: T -> int) {
    forall i, j :: 0 <= i < j < |s| ==> key(s[i]) >= key(s[j])
  }

  lemma InsertDescending<T>(s: seq<T>, key: T -> int, p: nat, x: T)
    requires Descending(s, key) && p <= |s|
    requires forall q :: 0 <= q < p ==> key(s[q]) >= key(x)
    requires p < |s| ==> key(s[p]) < key(x)
    ensures Descending(s[..p] + [x] + s[p..], key)
  {
    var t := s[..p] + [x] + s[p..];
    forall i, j | 0 <= i < j < |t| ensures key(t[i]) >= key(t[j]) {
      if i < p && j > p {
        assert t[i] == s[i] && t[j] == s[j - 1];
      }
    }
  }

  /**
   * sorted(xs, key=key, reverse=True): the same elements, largest key
   * first. Each element is placed after every element whose key is at least
   * its own.
   */
  method SortBy<T>(xs: seq<T>, key: T -> int) returns (ys: seq<T>)
    ensures |ys| == |xs| && multiset(ys) == multiset(xs)
    ensures Descending(ys, key)
  {
    ys := [];
    for i := 0 to |xs|
      invariant |ys| == i && multiset(ys) == multiset(xs[..i])
      invariant Descending(ys, key)
    {
      var x := xs[i];
      var p := 0;
      while p < |ys| && key(ys[p]) >= key(x)
        invariant p <= |ys|
        invariant forall q :: 0 <= q < p ==> key(ys[q]) >= key(x)
      {
        p := p + 1;
      }
      InsertDescending(ys, key, p, x);
      assert ys == ys[..p] + ys[p..];
      assert xs[..i + 1] == xs[..i] + [x];
      ys := ys[..p] + [x] + ys[p..];
    }
    assert xs[..|xs|] == xs;
  }

  /** With a positive first weight the total is positive, so a draw range [0, total) exists. */
  lemma {:induction false} PrefixSumPositive(a: seq<nat>, k: nat)
    requires 1 <= k <= |a| && a[0] >= 1
    ensures PrefixSum(a, k) >= 1
  {
    if k > 1 {
      PrefixSumPositive(a, k - 1);
    }
  }

  lemma SliceSnoc<T>(s: seq<T>, i: nat)
    requires i < |s|
    ensures s[..i + 1] == s[..i] + [s[i]]
  {
  }

  lemma SliceAll<T>(s: seq<T>)
    ensures s[..|s|] == s
  {
  }

  /** Sequences with the same multiset have the same length and the same members. */
  lemma SameMembers<T>(xs: seq<T>, ys: seq<T>)
    requires multiset(xs) == multiset(ys)
    ensures |xs| == |ys| && forall y :: y in ys ==> y in xs
  {
    assert |multiset(xs)| == |multiset(ys)|;
    forall y | y in ys ensures y in xs {
      assert y in multiset(ys);
    }
  }

  /** The mutation of a child: one swap below 90 percent, two below 99, otherwise three. */
  function MutationCount(r: nat): (n: nat)
    ensures 1 <= n <= 3
    ensures n == 1 <==> r < 90
    ensures n == 3 <==> r >= 99
  {
    if r < 90 then 1 else if r < 99 then 2 else 3
  }
}
