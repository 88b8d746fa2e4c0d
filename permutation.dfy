/**
 * Matchup-to-gameslot assignments as sequences: what it means to be a
 * permutation of [0, n), the swap of two matchups' gameslots, runs of swaps,
 * and the inverse assignment (gameslot to matchup).
 */
module Permutation {

  /** No value occurs twice. */
  predicate Distinct(s: seq<nat>) {
    forall i, j :: 0 <= i < j < |s| ==> s[i] != s[j]
  }

  /** `s` assigns each of n matchups a distinct gameslot in [0, n). */
  predicate IsPermutation(s: seq<nat>, n: nat) {
    |s| == n && (forall i :: 0 <= i < n ==> s[i] < n) && Distinct(s)
  }

  /** Matchup i at gameslot i. */
  function Identity(n: nat): (r: seq<nat>)
    ensures |r| == n && forall i :: 0 <= i < n ==> r[i] == i
    ensures IsPermutation(r, n)
  {
    seq(n, i => i)
  }

  /** The gameslots of matchups i and j exchanged. */
  function Swapped(s: seq<nat>, i: nat, j: nat): seq<nat>
    requires i < |s| && j < |s|
  {
    s[i := s[j]][j := s[i]]
  }

  /**
   * A swap exchanges exactly entries i and j and leaves the others alone;
   * swap(i, j) and swap(j, i) agree; swapping twice restores the assignment;
   * the result is again a permutation.
   */
  lemma SwapFacts(s: seq<nat>, n: nat, i: nat, j: nat)
    requires IsPermutation(s, n) && i < n && j < n
    ensures |Swapped(s, i, j)| == n
    ensures Swapped(s, i, j)[i] == s[j] && Swapped(s, i, j)[j] == s[i]
    ensures forall k :: 0 <= k < n && k != i && k != j ==> Swapped(s, i, j)[k] == s[k]
    ensures Swapped(s, i, j) == Swapped(s, j, i)
    ensures Swapped(Swapped(s, i, j), i, j) == s
    ensures IsPermutation(Swapped(s, i, j), n)
  {
    var t := Swapped(s, i, j);
    assert t == Swapped(s, j, i);
    assert Swapped(t, i, j) == s;
    forall a, b | 0 <= a < b < n ensures t[a] != t[b] {
      var a0 := if a == i then j else if a == j then i else a;
      var b0 := if b == i then j else if b == j then i else b;
      assert t[a] == s[a0] && t[b] == s[b0] && a0 != b0;
    }
  }

  /** The assignment after applying the swaps in order. */
  function ApplySwaps(s: seq<nat>, pairs: seq<(nat, nat)>): (r: seq<nat>)
    requires forall k :: 0 <= k < |pairs| ==> pairs[k].0 < |s| && pairs[k].1 < |s|
    ensures |r| == |s|
    decreases |pairs|
  {
    if pairs == [] then s
    else
      var last := pairs[|pairs| - 1];
      Swapped(ApplySwaps(s, pairs[..|pairs| - 1]), last.0, last.1)
  }

  /** Any run of swaps keeps a permutation a permutation. */
  lemma {:induction false} ApplySwapsPermutation(s: seq<nat>, n: nat, pairs: seq<(nat, nat)>)
    requires IsPermutation(s, n)
    requires forall k :: 0 <= k < |pairs| ==> pairs[k].0 < n && pairs[k].1 < n
    ensures IsPermutation(ApplySwaps(s, pairs), n)
  {
    if pairs != [] {
      var last := pairs[|pairs| - 1];
      ApplySwapsPermutation(s, n, pairs[..|pairs| - 1]);
      SwapFacts(ApplySwaps(s, pairs[..|pairs| - 1]), n, last.0, last.1);
    }
  }

  /** A swap whose two indices coincide changes nothing. */
  lemma SwapSameIndex(s: seq<nat>, i: nat)
    requires i < |s|
    ensures Swapped(s, i, i) == s
  {
  }

  lemma {:induction false} ImageSize(s: seq<nat>, k: nat)
    requires k <= |s| && Distinct(s)
    ensures |set m | 0 <= m < k :: s[m]| == k
  {
    if k > 0 {
      ImageSize(s, k - 1);
      var before := set m | 0 <= m < k - 1 :: s[m];
      assert (set m | 0 <= m < k :: s[m]) == before + {s[k - 1]};
      assert s[k - 1] !in before;
    }
  }

  lemma SubsetSize<T>(a: set<T>, b: set<T>)
    requires a <= b
    ensures |a| <= |b|
  {
    assert b == a + (b - a);
  }

  /** A permutation of [0, n) reaches every gameslot in [0, n). */
  lemma PermutationOnto(s: seq<nat>, n: nat, g: nat)
    requires IsPermutation(s, n) && g < n
    ensures exists m :: 0 <= m < n && s[m] == g
  {
    var id := Identity(n);
    var image := set m | 0 <= m < n :: s[m];
    var range := set m | 0 <= m < n :: id[m];
    ImageSize(s, n);
    ImageSize(id, n);
    if g !in image {
      forall m | 0 <= m < n ensures s[m] in range - {g} {
        assert id[s[m]] == s[m];
      }
      assert id[g] in range;
      SubsetSize(image, range - {g});
    }
  }

  /** The first position at or after i holding g. */
  function IndexFrom(s: seq<nat>, g: nat, i: nat): (m: nat)
    requires i <= |s| && g in s[i..]
    ensures i <= m < |s| && s[m] == g
    decreases |s| - i
  {
    if s[i] == g then i else IndexFrom(s, g, i + 1)
  }

  /** The gameslot-to-matchup assignment: the inverse permutation. */
  function Inverse(s: seq<nat>, n: nat): (inv: seq<nat>)
    requires IsPermutation(s, n)
    ensures IsPermutation(inv, n)
    ensures forall m :: 0 <= m < n ==> inv[s[m]] == m
    ensures forall g :: 0 <= g < n ==> s[inv[g]] == g
  {
    forall g | 0 <= g < n ensures g in s[0..] {
      PermutationOnto(s, n, g);
      assert s[0..] == s;
    }
    var inv := seq(n, g requires 0 <= g < n => IndexFrom(s, g, 0));
    assert forall m :: 0 <= m < n ==> inv[s[m]] == m;
    inv
  }

  /** Two sequences with the same elements are distinct together. */
  lemma {:induction false} DistinctMultiplicity(s: seq<nat>)
    requires Distinct(s)
    ensures forall x :: multiset(s)[x] <= 1
  {
    if s != [] {
      var init := s[..|s| - 1];
      assert s == init + [s[|s| - 1]];
      DistinctMultiplicity(init);
      assert s[|s| - 1] !in init;
    }
  }

  lemma DistinctByMultiset(s: seq<nat>, t: seq<nat>)
    requires Distinct(s) && multiset(s) == multiset(t)
    ensures Distinct(t)
  {
    DistinctMultiplicity(s);
    forall i, j | 0 <= i < j < |t| ensures t[i] != t[j] {
      var mid := t[i + 1..j];
      assert t == t[..i] + [t[i]] + mid + [t[j]] + t[j + 1..];
      assert multiset(t) == multiset(t[..i]) + multiset{t[i]} + multiset(mid)
                            + multiset{t[j]} + multiset(t[j + 1..]);
      assert multiset(t)[t[i]] >= multiset{t[i]}[t[i]] + multiset{t[j]}[t[i]];
    }
  }
}
