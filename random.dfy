/**
 * The pseudo-random number generator the search draws from, as an explicit
 * object: an arbitrary stream of draws supplied by the caller and the
 * position of the next draw. Every randint, random and shuffle call of the
 * search becomes a draw from this stream, so each run of the model is one
 * possible run of the program.
 */
module RandomSource {

  class Random {
    /** The stream of raw draws; arbitrary, chosen by whoever builds the generator. */
    const draws: nat -> nat
    /** How many draws have been consumed. */
    var position: nat

    constructor (draws: nat -> nat)
      ensures this.draws == draws && position == 0
    {
      this.draws := draws;
      position := 0;
    }

    /** randint(lo, hi): an integer in the closed range [lo, hi]. */
    method RandInt(lo: int, hi: int) returns (r: int)
      requires lo <= hi
      modifies this
      ensures lo <= r <= hi
      ensures r == lo + draws(old(position)) % (hi - lo + 1)
      ensures position == old(position) + 1
    {
      r := lo + draws(position) % (hi - lo + 1);
      position := position + 1;
    }

    /** random() at a granularity of one hundredth: a whole number in [0, 100). */
    method Percent() returns (r: nat)
      modifies this
      ensures r < 100
      ensures position == old(position) + 1
    {
      r := draws(position) % 100;
      position := position + 1;
    }

    /** shuffle(x) on an array: Fisher-Yates from the last index down to 1. */
    method ShuffleArray(a: array<nat>)
      modifies this, a
      ensures multiset(a[..]) == multiset(old(a[..]))
    {
      var i := a.Length - 1;
      while i > 0
        invariant -1 <= i < a.Length
        invariant multiset(a[..]) == multiset(old(a[..]))
      {
        var j := RandInt(0, i);
        a[i], a[j] := a[j], a[i];
        i := i - 1;
      }
    }

    /** shuffle(x) on a list, the same Fisher-Yates walk over its elements. */
    method ShuffleSeq<T>(xs: seq<T>) returns (ys: seq<T>)
      modifies this
      ensures multiset(ys) == multiset(xs)
    {
      ys := xs;
      var i := |ys| - 1;
      while i > 0
        invariant -1 <= i < |ys|
        invariant multiset(ys) == multiset(xs)
      {
        var j := RandInt(0, i);
        ys := ys[i := ys[j]][j := ys[i]];
        i := i - 1;
      }
    }
  }
}
