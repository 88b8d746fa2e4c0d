/**
 * The crossover search of schedule_generator.py over the first schedule
 * object: 128 copies of the base shuffled 100 times each, sorted by
 * ascending error; each generation keeps the current best and fills the
 * rest with crossover children of two parents drawn with the linear weights
 * pop_size - 1 - i, each mutated by one more swap half of the time; the
 * loop stops once the minimum error is 0.
 */
module CrossoverSearch {
  import opened Weeks
  import opened Permutation
  import opened Crossover
  import opened RandomSource
  import opened Selection
  import opened Mutation
  import opened EarlySchedule
  import opened EarlySearch

  /** pop_size, fixed in the script. */
  const PopSize: nat := 128

  /** Shuffles applied to each copy of the base in the initial population. */
  const InitShuffles: nat := 100

  /**
   * The smallest error of the population, min([i.get_error() for i in
   * population]) on a population whose errors are current.
   */
  method MinError(pop: seq<Member>) returns (m: int)
    requires |pop| > 0
    ensures exists k :: 0 <= k < |pop| && pop[k].error == m
    ensures forall k :: 0 <= k < |pop| ==> m <= pop[k].error
  {
    m := pop[0].error;
    for i := 1 to |pop|
      invariant exists k :: 0 <= k < |pop| && pop[k].error == m
      invariant forall k :: 0 <= k < i ==> m <= pop[k].error
    {
      if pop[i].error < m {
        m := pop[i].error;
      }
    }
  }

  /** In a population sorted by ascending error the minimum error is the first one. */
  lemma MinIsFirst(pop: seq<Member>, m: int)
    requires |pop| > 0 && Ascending(pop)
    requires exists k :: 0 <= k < |pop| && pop[k].error == m
    requires forall k :: 0 <= k < |pop| ==> m <= pop[k].error
    ensures m == pop[0].error
  {
  }

  /**
   * NFLSchedule.reproduce on the parents' assignments: a fresh identity
   * array overwritten with the one-point crossover of the parents at a
   * random split, repaired. The child is again a permutation.
   */
  method Offspring(rng: Random, p1: seq<nat>, p2: seq<nat>) returns (child: seq<nat>)
    requires IsPermutation(p1, NumGameslots) && IsPermutation(p2, NumGameslots)
    modifies rng
    ensures IsPermutation(child, NumGameslots)
    ensures CrossoverChild(p1, p2, child, NumGameslots)
  {
    var a := new nat[NumGameslots](i => i);
    var split := Recombine(rng, a, p1, p2);
    child := a[..];
    assert ChildAt(p1, p2, child, NumGameslots, split);
  }

  /**
   * One child: two parents drawn with the weights, their crossover, and one
   * more random swap when the percent draw is below 50. Its error is -1.
   */
  method MakeChild(rng: Random, t: Tables, pop: seq<Member>, weights: seq<nat>, total: nat)
    returns (child: Member, ghost p1: nat, ghost p2: nat, ghost cross: seq<nat>, ghost pairs: seq<(nat, nat)>)
    requires AllSound(t, pop) && 0 < |pop| == |weights|
    requires total == PrefixSum(weights, |pop|) && total >= 1
    modifies rng
    ensures Sound(t, child) && child.error == -1
    ensures p1 < |pop| && p2 < |pop| && weights[p1] > 0 && weights[p2] > 0
    ensures |pop[p1].mg| == NumGameslots && |pop[p2].mg| == NumGameslots
    ensures CrossoverChild(pop[p1].mg, pop[p2].mg, cross, NumGameslots)
    ensures |pairs| <= 1 && SwapsIn(pairs) && |cross| == NumGameslots
    ensures child.mg == ApplySwaps(cross, pairs)
  {
    var x1 := rng.RandInt(0, total - 1);
    var i1 := GetParentIndex(weights, |pop|, x1);
    ParentIndexInterval(weights, |pop|, x1);
    var x2 := rng.RandInt(0, total - 1);
    var i2 := GetParentIndex(weights, |pop|, x2);
    ParentIndexInterval(weights, |pop|, x2);
    p1, p2 := i1, i2;
    assert Sound(t, pop[i1]) && Sound(t, pop[i2]);
    var mg := Offspring(rng, pop[i1].mg, pop[i2].mg);
    cross := mg;
    pairs := [];
    var r := rng.Percent();
    if r < 50 {
      mg, pairs := ShuffleAssignment(rng, mg, 1);
    }
    child := Member(mg, -1);
  }

  /**
   * The next population: the current best first, then pop_size - 1
   * children, evaluated and sorted by ascending error. The best is kept, so
   * the minimum error never increases.
   */
  method NextGeneration(rng: Random, t: Tables, pop: seq<Member>, weights: seq<nat>, total: nat)
    returns (next: seq<Member>)
    requires AllCurrent(t, pop) && |pop| >= 1 && |weights| == |pop|
    requires total == PrefixSum(weights, |pop|) && total >= 1
    modifies rng
    ensures |next| == |pop| && AllCurrent(t, next) && Ascending(next)
    ensures next[0].error <= pop[0].error
  {
    CurrentIsSound(t, pop);
    assert Sound(t, pop[0]);
    var kept := [pop[0]];
    for c := 1 to |pop|
      invariant |kept| == c && AllSound(t, kept) && kept[0] == pop[0]
    {
      var child, _, _, _, _ := MakeChild(rng, t, pop, weights, total);
      SoundConcat(t, kept, [child]);
      kept := kept + [child];
    }
    assert Current(t, pop[0]);
    next := EvaluateAndSort(t, kept);
    BestNotWorse(t, pop[0], next);
  }

  /** The linear weights of schedule_generator.py have a positive total for two or more individuals. */
  lemma LinearTotal(n: nat)
    requires n >= 2
    ensures LinearWeights(n)[0] >= 1 && PrefixSum(LinearWeights(n), n) >= 1
  {
    PrefixSumPositive(LinearWeights(n), n);
  }

  /**
   * The generation loop, run for at most `generations` generations: take
   * the minimum error, stop when it is 0, otherwise build the next
   * generation. `bests`, the minimum error at the start and after each
   * generation, never increases.
   */
  method Evolve(rng: Random, t: Tables, pop: seq<Member>, generations: nat)
    returns (last: seq<Member>, done: bool, ghost bests: seq<int>)
    requires |pop| == PopSize && AllCurrent(t, pop) && Ascending(pop)
    modifies rng
    ensures |last| == PopSize && AllCurrent(t, last) && Ascending(last)
    ensures done <==> last[0].error == 0
    ensures 1 <= |bests| && bests[0] == pop[0].error && bests[|bests| - 1] == last[0].error
    ensures forall i, j :: 0 <= i < j < |bests| ==> bests[i] >= bests[j]
  {
    var weights := LinearWeights(PopSize);
    LinearTotal(PopSize);
    var total := PrefixSum(weights, PopSize);
    last := pop;
    var m := MinError(last);
    MinIsFirst(last, m);
    bests := [m];
    var gen := 0;
    while m != 0 && gen < generations
      invariant |last| == PopSize && AllCurrent(t, last) && Ascending(last)
      invariant m == last[0].error
      invariant 1 <= |bests| && bests[0] == pop[0].error && bests[|bests| - 1] == m
      invariant forall i, j :: 0 <= i < j < |bests| ==> bests[i] >= bests[j]
      decreases generations - gen
    {
      last := NextGeneration(rng, t, last, weights, total);
      var m' := MinError(last);
      MinIsFirst(last, m');
      bests := bests + [m'];
      m := m';
      gen := gen + 1;
    }
    done := m == 0;
  }

  /**
   * genetic_algorithm() of schedule_generator.py on the schedule read from
   * the matchup file, run for at most `generations` generations: the
   * population keeps 128 members with current errors, sorted by ascending
   * error; the search reports done exactly when the minimum error is 0;
   * and the minimum error never increases from one generation to the next.
   */
  method GeneticAlgorithm(rng: Random, base: NFLSchedule, generations: nat)
    returns (pop: seq<Member>, done: bool, ghost bests: seq<int>)
    requires base.Valid() && base.Resolved()
    modifies rng
    ensures |pop| == PopSize && AllCurrent(Tables(base.matchupTeam, |base.teams|, base.hosts), pop) && Ascending(pop)
    ensures done <==> pop[0].error == 0
    ensures 1 <= |bests| && bests[|bests| - 1] == pop[0].error
    ensures forall i, j :: 0 <= i < j < |bests| ==> bests[i] >= bests[j]
  {
    var t := TablesOf(base);
    var start := Member(base.matchupGameslot[..], base.error);
    assert Sound(t, start);
    var initial, _ := InitialCopies(rng, t, start, PopSize, InitShuffles);
    var sorted := EvaluateAndSort(t, initial);
    pop, done, bests := Evolve(rng, t, sorted, generations);
  }
}
