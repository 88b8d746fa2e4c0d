/**
 * The mutation the searches apply to a copied schedule, on the assignment as
 * a value: `shuffle(iterations)` draws two matchup indices uniformly from
 * [0, 256) per iteration and exchanges their gameslots.
 */
module Mutation {
  import opened Weeks
  import opened Permutation
  import opened RandomSource

  /** Swap pairs that name gameslot positions. */
  predicate SwapsIn(pairs: seq<(nat, nat)>) {
    forall k :: 0 <= k < |pairs| ==> pairs[k].0 < NumGameslots && pairs[k].1 < NumGameslots
  }

  /**
   * shuffle(iterations) on a copy of an assignment: the result is the
   * assignment after the drawn swaps, in draw order, and so is again a
   * permutation when the input is one.
   */
  method ShuffleAssignment(rng: Random, mg: seq<nat>, iterations: nat) returns (r: seq<nat>, ghost pairs: seq<(nat, nat)>)
    requires |mg| == NumGameslots
    modifies rng
    ensures |pairs| == iterations && SwapsIn(pairs)
    ensures r == ApplySwaps(mg, pairs)
    ensures IsPermutation(mg, NumGameslots) ==> IsPermutation(r, NumGameslots)
  {
    r, pairs := mg, [];
    for i := 0 to iterations
      invariant |pairs| == i && SwapsIn(pairs)
      invariant r == ApplySwaps(mg, pairs)
    {
      var m1: nat := rng.RandInt(0, NumGameslots - 1);
      var m2: nat := rng.RandInt(0, NumGameslots - 1);
      pairs := pairs + [(m1, m2)];
      assert pairs[..|pairs| - 1] == pairs[..i];
      r := Swapped(r, m1, m2);
    }
    if IsPermutation(mg, NumGameslots) {
      ApplySwapsPermutation(mg, NumGameslots, pairs);
    }
  }
}
