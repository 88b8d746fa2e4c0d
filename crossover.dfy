/**
 * One-point crossover with repair, as `reproduce` performs it on the child's
 * matchup-to-gameslot array: the child takes the first parent's gameslots
 * below a random split and the second parent's from the split on; every
 * position whose gameslot already occurred earlier is then overwritten with
 * one of the gameslots nobody uses, handed out in random order to those
 * positions in ascending order.
 */
module Crossover {
  import opened Permutation
  import opened RandomSource

  /** Every entry is a gameslot below n. */
  predicate InRange(s: seq<nat>, n: nat) {
    forall k :: 0 <= k < |s| ==> s[k] < n
  }

  /** Position k holds the first occurrence of its value (what np.unique's return_index keeps). */
  predicate FirstOccurrence(s: seq<nat>, k: nat)
    requires k < |s|
  {
    forall j :: 0 <= j < k ==> s[j] != s[k]
  }

  /** The values occurring in s. */
  function ValueSet(s: seq<nat>): set<nat> {
    set v | v in s
  }

  /** The gameslots in [0, n) that s does not use (np.setdiff1d of the range and the unique values). */
  function Missing(s: seq<nat>, n: nat): set<nat> {
    set v | 0 <= v < n && v !in s
  }

  /** The positions of s holding a value seen earlier (np.setdiff1d of the range and the unique indexes). */
  function Duplicates(s: seq<nat>): set<nat> {
    set k | 0 <= k < |s| && !FirstOccurrence(s, k)
  }

  /** The child before repair: the first parent below the split, the second from it on. */
  function Splice(p1: seq<nat>, p2: seq<nat>, split: nat): (r: seq<nat>)
    requires |p1| == |p2| && split <= |p1|
    ensures |r| == |p1|
    ensures forall k :: 0 <= k < split ==> r[k] == p1[k]
    ensures forall k :: split <= k < |r| ==> r[k] == p2[k]
  {
    p1[..split] + p2[split..]
  }

  /**
   * r repairs s: first occurrences keep their gameslot, and every later
   * duplicate is replaced by a gameslot below n that s does not use.
   */
  predicate Repaired(s: seq<nat>, r: seq<nat>, n: nat) {
    |r| == |s|
    && (forall k :: 0 <= k < |s| && FirstOccurrence(s, k) ==> r[k] == s[k])
    && (forall k :: 0 <= k < |s| && !FirstOccurrence(s, k) ==> r[k] in Missing(s, n))
  }

  /**
   * `child` is the crossover of p1 and p2 at `split`: the repaired splice,
   * whose duplicate positions received exactly the missing gameslots.
   */
  ghost predicate ChildAt(p1: seq<nat>, p2: seq<nat>, child: seq<nat>, n: nat, split: nat)
    requires |p1| == |p2| == n && split <= n
  {
    && Repaired(Splice(p1, p2, split), child, n)
    && (set k | k in Duplicates(Splice(p1, p2, split)) :: child[k]) == Missing(Splice(p1, p2, split), n)
  }

  /** `child` is a one-point crossover of p1 and p2 at some split in [1, n - 1]. */
  ghost predicate CrossoverChild(p1: seq<nat>, p2: seq<nat>, child: seq<nat>, n: nat)
    requires |p1| == |p2| == n
  {
    exists split :: 1 <= split < n && ChildAt(p1, p2, child, n, split)
  }

  predicate StrictlyIncreasing(s: seq<nat>) {
    forall i, j :: 0 <= i < j < |s| ==> s[i] < s[j]
  }

  lemma IncreasingDistinct(s: seq<nat>)
    requires StrictlyIncreasing(s)
    ensures Distinct(s)
  {
  }

  /**
   * One step of the scan: position k repeats an earlier value exactly when
   * its value was already seen, and only a first occurrence adds a value.
   */
  lemma ScanStep(s: seq<nat>, k: nat)
    requires k < |s|
    ensures s[..k + 1] == s[..k] + [s[k]]
    ensures s[k] in s[..k] <==> !FirstOccurrence(s, k)
    ensures s[k] in s[..k] ==> ValueSet(s[..k + 1]) == ValueSet(s[..k])
    ensures s[k] !in s[..k] ==> ValueSet(s[..k + 1]) == ValueSet(s[..k]) + {s[k]} && s[k] !in ValueSet(s[..k])
  {
    assert s[..k + 1] == s[..k] + [s[k]];
    if s[k] in s[..k] {
      var j :| 0 <= j < k && s[..k][j] == s[k];
      assert s[j] == s[k];
    } else {
      forall j | 0 <= j < k ensures s[j] != s[k] {
        assert s[..k][j] == s[j];
      }
    }
  }

  /**
   * The scan np.unique performs: which values are present, and the
   * ascending list of positions that repeat an earlier value. The number of
   * repeats plus the number of distinct values is the length.
   */
  method ScanUnique(s: seq<nat>, n: nat) returns (present: array<bool>, dups: seq<nat>)
    requires InRange(s, n)
    ensures fresh(present) && present.Length == n
    ensures forall v :: 0 <= v < n ==> (present[v] <==> v in s)
    ensures StrictlyIncreasing(dups)
    ensures forall k :: k in dups <==> k in Duplicates(s)
    ensures |dups| + |ValueSet(s)| == |s|
  {
    present := new bool[n](_ => false);
    dups := [];
    for k := 0 to |s|
      invariant forall v :: 0 <= v < n ==> (present[v] <==> v in s[..k])
      invariant forall i :: 0 <= i < |dups| ==> dups[i] < k
      invariant StrictlyIncreasing(dups)
      invariant forall j :: j in dups <==> 0 <= j < k && !FirstOccurrence(s, j)
      invariant |dups| + |ValueSet(s[..k])| == k
    {
      var v := s[k];
      ScanStep(s, k);
      if present[v] {
        dups := dups + [k];
      } else {
        present[v] := true;
      }
    }
    assert s[..|s|] == s;
  }

  /** np.setdiff1d(np.arange(n), unique_values): the unused gameslots, ascending. */
  method MissingValues(present: array<bool>, ghost s: seq<nat>) returns (missing: seq<nat>)
    requires InRange(s, present.Length)
    requires forall v :: 0 <= v < present.Length ==> (present[v] <==> v in s)
    ensures StrictlyIncreasing(missing)
    ensures forall v :: v in missing <==> v in Missing(s, present.Length)
    ensures |missing| + |ValueSet(s)| == present.Length
  {
    missing := [];
    ghost var below: set<nat> := {};
    for v := 0 to present.Length
      invariant forall i :: 0 <= i < |missing| ==> missing[i] < v
      invariant StrictlyIncreasing(missing)
      invariant forall x :: x in missing <==> 0 <= x < v && x !in s
      invariant below == set x | x in s && x < v
      invariant |missing| + |below| == v
    {
      if present[v] {
        assert (set x | x in s && x < v + 1) == below + {v};
        below := below + {v};
      } else {
        assert (set x | x in s && x < v + 1) == below;
        missing := missing + [v];
      }
    }
    assert below == ValueSet(s);
  }

  /**
   * What the final fancy-indexed assignment leaves behind: the duplicate
   * positions hold the shuffled missing gameslots, every other position its
   * spliced gameslot. That is a repair, and a permutation.
   */
  lemma AssignmentRepairs(s: seq<nat>, r: seq<nat>, n: nat, dups: seq<nat>, order: seq<nat>)
    requires |s| == n && InRange(s, n) && |r| == n
    requires forall k :: k in dups <==> k in Duplicates(s)
    requires |order| == |dups| && Distinct(order)
    requires forall v :: v in order <==> v in Missing(s, n)
    requires forall i :: 0 <= i < |dups| ==> dups[i] < n
    requires forall i :: 0 <= i < |dups| ==> r[dups[i]] == order[i]
    requires forall k :: 0 <= k < n && k !in dups ==> r[k] == s[k]
    ensures Repaired(s, r, n)
    ensures IsPermutation(r, n)
    ensures (set k | k in Duplicates(s) :: r[k]) == Missing(s, n)
  {
    forall k | 0 <= k < n && !FirstOccurrence(s, k) ensures r[k] in Missing(s, n) {
      assert k in Duplicates(s);
      var i :| 0 <= i < |dups| && dups[i] == k;
      assert order[i] in order;
    }
    forall k | 0 <= k < n && FirstOccurrence(s, k) ensures r[k] == s[k] {
      assert k !in Duplicates(s);
    }
    forall p, q | 0 <= p < q < n ensures r[p] != r[q] {
      if FirstOccurrence(s, p) && FirstOccurrence(s, q) {
      } else if FirstOccurrence(s, p) {
        assert r[p] in s;
      } else if FirstOccurrence(s, q) {
        assert r[q] in s;
      } else {
        assert p in Duplicates(s) && q in Duplicates(s);
        var i :| 0 <= i < |dups| && dups[i] == p;
        var j :| 0 <= j < |dups| && dups[j] == q;
      }
    }
    forall k | 0 <= k < n ensures r[k] < n {
      if !FirstOccurrence(s, k) {
        assert r[k] in Missing(s, n);
      }
    }
    forall v | v in Missing(s, n) ensures v in (set k | k in Duplicates(s) :: r[k]) {
      var i :| 0 <= i < |order| && order[i] == v;
      assert dups[i] in dups;
      assert r[dups[i]] == v && dups[i] in Duplicates(s);
    }
  }

  /**
   * The repair given the spliced child (already in `a`): overwrite the
   * duplicate positions, ascending, with the missing gameslots in a random
   * order. The result is a permutation; first occurrences keep their
   * gameslot and the duplicate positions receive exactly the missing ones.
   */
  method Repair(rng: Random, a: array<nat>)
    requires InRange(a[..], a.Length)
    modifies rng, a
    ensures Repaired(old(a[..]), a[..], a.Length)
    ensures IsPermutation(a[..], a.Length)
    ensures (set k | k in Duplicates(old(a[..])) :: a[k]) == Missing(old(a[..]), a.Length)
  {
    ghost var s := a[..];
    var present, dups := ScanUnique(a[..], a.Length);
    var missing := MissingValues(present, s);
    var order := ShuffledCopy(rng, missing);
    forall i | 0 <= i < |dups| ensures dups[i] < a.Length {
      assert dups[i] in Duplicates(s);
    }
    Scatter(a, dups, order);
    AssignmentRepairs(s, a[..], a.Length, dups, order);
  }

  /** shuffle(missing_values): the same gameslots in a random order, still distinct. */
  method ShuffledCopy(rng: Random, missing: seq<nat>) returns (order: seq<nat>)
    requires StrictlyIncreasing(missing)
    modifies rng
    ensures |order| == |missing| && Distinct(order)
    ensures forall v :: v in order <==> v in missing
  {
    var arr := new nat[|missing|](i requires 0 <= i < |missing| => missing[i]);
    assert arr[..] == missing;
    rng.ShuffleArray(arr);
    order := arr[..];
    IncreasingDistinct(missing);
    DistinctByMultiset(missing, order);
    assert |order| == |multiset(order)| == |multiset(missing)| == |missing|;
    forall v ensures v in order <==> v in missing {
      assert v in order <==> v in multiset(order);
      assert v in missing <==> v in multiset(missing);
    }
  }

  /** a[positions] = values, for distinct positions. */
  method Scatter(a: array<nat>, positions: seq<nat>, values: seq<nat>)
    requires |positions| == |values|
    requires StrictlyIncreasing(positions)
    requires forall i :: 0 <= i < |positions| ==> positions[i] < a.Length
    modifies a
    ensures forall i :: 0 <= i < |positions| ==> a[positions[i]] == values[i]
    ensures forall k :: 0 <= k < a.Length && k !in positions ==> a[k] == old(a[k])
  {
    forall i | 0 <= i < |positions| {
      a[positions[i]] := values[i];
    }
  }

  /**
   * reproduce: draw the split in [1, n - 1], copy the parents' slices into
   * the child array and repair it.
   */
  method Recombine(rng: Random, a: array<nat>, p1: seq<nat>, p2: seq<nat>) returns (split: nat)
    requires a.Length == |p1| == |p2| && a.Length >= 2
    requires InRange(p1, a.Length) && InRange(p2, a.Length)
    modifies rng, a
    ensures 1 <= split < a.Length
    ensures Repaired(Splice(p1, p2, split), a[..], a.Length)
    ensures IsPermutation(a[..], a.Length)
    ensures (set k | k in Duplicates(Splice(p1, p2, split)) :: a[k]) == Missing(Splice(p1, p2, split), a.Length)
  {
    var n := a.Length;
    var i := rng.RandInt(1, n - 1);
    split := i;
    forall k | 0 <= k < split {
      a[k] := p1[k];
    }
    forall k | split <= k < n {
      a[k] := p2[k];
    }
    assert a[..] == Splice(p1, p2, split);
    Repair(rng, a);
  }
}
