/**
 * The error-minimising search over the first schedule object
 * (src/genetic_algorithm.py): a population of shuffled copies sorted by
 * ascending error, rank-based parent weights, an elitist prefix of distinct
 * minimum-error schedules, children that are parent copies with one to
 * three random swaps, and a loop that stops once the best error is 0.
 *
 * A member of the population is represented by its value: the assignment
 * and the cached error of an NFLSchedule object, where -1 means "not
 * computed yet".
 */
module EarlySearch {
  import opened Weeks
  import opened Registry
  import opened Permutation
  import opened RandomSource
  import opened Selection
  import opened Mutation
  import opened EarlySchedule

  /** What get_error reads besides the assignment: the matchups, the number of teams and the three hosts. */
  datatype Tables = Tables(mt: seq<Matchup>, numTeams: nat, hosts: Hosts)

  /** One member of the population: an assignment and its cached error (-1 until computed). */
  datatype Member = Member(mg: seq<nat>, error: int)

  /** The error of an assignment under the tables. */
  ghost function ErrorOf(t: Tables, mg: seq<nat>): int
    requires ValidTables(t.mt, t.numTeams, t.hosts) && |mg| == NumGameslots
  {
    EarlyError(t.mt, t.numTeams, t.hosts, mg)
  }

  /** The assignment is a permutation and the cached error is -1 or the assignment's error. */
  ghost predicate Sound(t: Tables, x: Member) {
    && ValidTables(t.mt, t.numTeams, t.hosts)
    && IsPermutation(x.mg, NumGameslots)
    && ErrorCache(t.mt, t.numTeams, t.hosts, x.mg, x.error)
  }

  /** The assignment is a permutation and the cached error is its error. */
  ghost predicate Current(t: Tables, x: Member) {
    && ValidTables(t.mt, t.numTeams, t.hosts)
    && IsPermutation(x.mg, NumGameslots)
    && x.error == ErrorOf(t, x.mg)
  }

  ghost predicate AllSound(t: Tables, pop: seq<Member>) {
    forall k {:trigger Sound(t, pop[k])} :: 0 <= k < |pop| ==> Sound(t, pop[k])
  }

  ghost predicate AllCurrent(t: Tables, pop: seq<Member>) {
    forall k {:trigger Current(t, pop[k])} :: 0 <= k < |pop| ==> Current(t, pop[k])
  }

  lemma CurrentIsSound(t: Tables, pop: seq<Member>)
    requires AllCurrent(t, pop)
    ensures AllSound(t, pop)
  {
    forall k | 0 <= k < |pop| ensures Sound(t, pop[k]) {
      assert Current(t, pop[k]);
    }
  }

  lemma SoundConcat(t: Tables, xs: seq<Member>, ys: seq<Member>)
    requires AllSound(t, xs) && AllSound(t, ys)
    ensures AllSound(t, xs + ys)
  {
    forall k | 0 <= k < |xs + ys| ensures Sound(t, (xs + ys)[k]) {
      if k < |xs| {
        assert Sound(t, xs[k]);
      } else {
        assert Sound(t, ys[k - |xs|]);
      }
    }
  }

  /** Members drawn from a sound population are sound. */
  lemma SoundMembers(t: Tables, pop: seq<Member>, sub: seq<Member>)
    requires AllSound(t, pop) && forall x :: x in sub ==> x in pop
    ensures AllSound(t, sub)
  {
    forall k | 0 <= k < |sub| ensures Sound(t, sub[k]) {
      assert sub[k] in pop;
      var j :| 0 <= j < |pop| && pop[j] == sub[k];
      assert Sound(t, pop[j]);
    }
  }

  /** Members drawn from a population with current errors have current errors. */
  lemma CurrentMembers(t: Tables, pop: seq<Member>, sub: seq<Member>)
    requires AllCurrent(t, pop) && forall x :: x in sub ==> x in pop
    ensures AllCurrent(t, sub)
  {
    forall k | 0 <= k < |sub| ensures Current(t, sub[k]) {
      assert sub[k] in pop;
      var j :| 0 <= j < |pop| && pop[j] == sub[k];
      assert Current(t, pop[j]);
    }
  }

  /** The cached errors, in population order. */
  function Errors(pop: seq<Member>): (r: seq<int>)
    ensures |r| == |pop| && forall k :: 0 <= k < |pop| ==> r[k] == pop[k].error
  {
    seq(|pop|, k requires 0 <= k < |pop| => pop[k].error)
  }

  /** The assignments, in population order. */
  function Assignments(pop: seq<Member>): (r: seq<seq<nat>>)
    ensures |r| == |pop| && forall k :: 0 <= k < |pop| ==> r[k] == pop[k].mg
  {
    seq(|pop|, k requires 0 <= k < |pop| => pop[k].mg)
  }

  /** The sort key that puts the smallest error first. */
  function NegatedError(x: Member): int {
    -x.error
  }

  /** Errors never decrease along the population. */
  predicate Ascending(pop: seq<Member>) {
    forall i, j :: 0 <= i < j < |pop| ==> pop[i].error <= pop[j].error
  }

  /**
   * get_error: the cached error unless it is -1, in which case the error is
   * computed and cached; either way the result is the assignment's error.
   */
  method GetError(t: Tables, x: Member) returns (y: Member, e: int)
    requires Sound(t, x)
    ensures e == ErrorOf(t, x.mg) && y == Member(x.mg, e) && Current(t, y)
    ensures x.error != -1 ==> e == x.error
  {
    if x.error == -1 {
      e := EarlyError(t.mt, t.numTeams, t.hosts, x.mg);
    } else {
      e := x.error;
    }
    y := Member(x.mg, e);
  }

  /**
   * get_error on every member, in list order (as `sorted` with the error as
   * key asks for them): no assignment changes, every cached error is then
   * current, and an error already cached is kept.
   */
  method ErrorAll(t: Tables, pop: seq<Member>) returns (evaluated: seq<Member>)
    requires AllSound(t, pop)
    ensures Assignments(evaluated) == Assignments(pop) && AllCurrent(t, evaluated)
    ensures forall k :: 0 <= k < |pop| && pop[k].error != -1 ==> evaluated[k] == pop[k]
  {
    evaluated := pop;
    for i := 0 to |pop|
      invariant |evaluated| == |pop|
      invariant forall k :: 0 <= k < |pop| ==> evaluated[k].mg == pop[k].mg
      invariant forall k {:trigger Current(t, evaluated[k])} :: 0 <= k < i ==> Current(t, evaluated[k])
      invariant forall k :: 0 <= k < |pop| && pop[k].error != -1 ==> evaluated[k] == pop[k]
      invariant forall k :: i <= k < |pop| ==> evaluated[k] == pop[k]
    {
      assert Sound(t, pop[i]);
      var y, _ := GetError(t, evaluated[i]);
      ghost var prev := evaluated;
      evaluated := evaluated[i := y];
      assert forall k {:trigger Current(t, evaluated[k])} :: 0 <= k < i ==> evaluated[k] == prev[k];
    }
  }

  /**
   * sorted(population, key=get_error) on a population whose errors are
   * current: the same members, smallest error first.
   */
  method SortByError(pop: seq<Member>) returns (sorted: seq<Member>)
    ensures multiset(sorted) == multiset(pop)
    ensures Ascending(sorted)
  {
    sorted := SortBy(pop, NegatedError);
    assert forall i, j :: 0 <= i < j < |sorted| ==> NegatedError(sorted[i]) >= NegatedError(sorted[j]);
  }

  /** get_error on every member, then the sort: a permutation of the members with current errors, ascending. */
  method EvaluateAndSort(t: Tables, pop: seq<Member>) returns (sorted: seq<Member>)
    requires AllSound(t, pop)
    ensures |sorted| == |pop| && AllCurrent(t, sorted) && Ascending(sorted)
    ensures forall x :: x in pop && Current(t, x) ==> x in sorted
  {
    var evaluated := ErrorAll(t, pop);
    sorted := SortByError(evaluated);
    SameMembers(evaluated, sorted);
    CurrentMembers(t, evaluated, sorted);
    forall x | x in pop && Current(t, x) ensures x in sorted {
      var k :| 0 <= k < |pop| && pop[k] == x;
      assert Current(t, evaluated[k]);
      assert evaluated[k] == x;
      assert x in multiset(evaluated);
    }
  }

  /** Ranks over the ascending errors, turned into whole-number parent weights. */
  method ParentWeights(pop: seq<Member>) returns (w: seq<nat>)
    requires |pop| > 0
    ensures w == RankWeights(Ranks(Errors(pop)))
    ensures |w| == |pop| && forall i :: 0 <= i < |w| ==> w[i] >= 1
  {
    var ranks := RankLoop(Errors(pop));
    RankWeightsInverse(Errors(pop));
    w := RankWeights(ranks);
  }

  /** `x in list`, comparing assignments entry by entry. */
  method Contains(list: seq<Member>, x: Member) returns (b: bool)
    ensures b <==> x.mg in Assignments(list)
  {
    for k := 0 to |list|
      invariant forall j :: 0 <= j < k ==> list[j].mg != x.mg
    {
      if list[k].mg == x.mg {
        assert Assignments(list)[k] == x.mg;
        return true;
      }
    }
    return false;
  }

  /** The elitist scan always keeps the first individual, whose key is the best one. */
  lemma {:induction false} EliteKeepsFirst(assigns: seq<seq<nat>>, keys: seq<int>, limit: nat, k: nat)
    requires |assigns| == |keys| && 1 <= k <= |keys|
    ensures var c := EliteScan(assigns, keys, keys[0], limit, k).chosen;
            |c| >= 1 && c[0] == 0
  {
    if k > 1 {
      EliteKeepsFirst(assigns, keys, limit, k - 1);
    }
  }

  /**
   * The elitists: members taken in order while they have the minimum
   * error, skipping one equal to an elitist already taken, and stopping
   * once `limit` are taken. The first member is always among them.
   */
  method Elitists(pop: seq<Member>, limit: nat) returns (elite: seq<Member>, ghost chosen: seq<nat>)
    requires |pop| > 0
    ensures chosen == EliteScan(Assignments(pop), Errors(pop), pop[0].error, limit, |pop|).chosen
    ensures |elite| == |chosen| <= |pop|
    ensures forall j :: 0 <= j < |chosen| ==> chosen[j] < |pop| && elite[j] == pop[chosen[j]]
    ensures |elite| >= 1 && elite[0] == pop[0]
  {
    var m := pop[0].error;
    ghost var A, K := Assignments(pop), Errors(pop);
    elite := [];
    ghost var scan := Elite([], false);
    var i := 0;
    var stop := false;
    while i < |pop| && !stop
      invariant i <= |pop|
      invariant scan == EliteScan(A, K, m, limit, i) && stop == scan.stopped
      invariant |elite| == |scan.chosen|
      invariant forall j :: 0 <= j < |elite| ==> elite[j] == pop[scan.chosen[j]]
    {
      if pop[i].error == m {
        var seen := Contains(elite, pop[i]);
        assert Assignments(elite) == Picked(A, scan.chosen);
        if !seen {
          elite := elite + [pop[i]];
          scan := Elite(scan.chosen + [i], |scan.chosen| + 1 == limit);
          stop := |elite| == limit;
        }
      } else {
        scan := Elite(scan.chosen, true);
        stop := true;
      }
      i := i + 1;
    }
    if stop {
      EliteStopped(A, K, m, limit, i, |pop|);
    }
    EliteSize(A, K, m, limit, |pop|);
    EliteKeepsFirst(A, K, limit, |pop|);
    chosen := scan.chosen;
  }

  /** base.copy() followed by shuffle(iterations) with at least one iteration: the cached error is reset to -1. */
  method ShuffledCopy(rng: Random, t: Tables, x: Member, iterations: nat) returns (c: Member, ghost pairs: seq<(nat, nat)>)
    requires Sound(t, x) && iterations >= 1
    modifies rng
    ensures Sound(t, c) && c.error == -1
    ensures |pairs| == iterations && SwapsIn(pairs)
    ensures c.mg == ApplySwaps(x.mg, pairs)
  {
    var mg;
    mg, pairs := ShuffleAssignment(rng, x.mg, iterations);
    c := Member(mg, -1);
  }

  /** The initial population: popSize copies of the base schedule, each shuffled with `shuffles` random swaps. */
  method InitialCopies(rng: Random, t: Tables, base: Member, popSize: nat, shuffles: nat)
    returns (pop: seq<Member>, ghost swaps: seq<seq<(nat, nat)>>)
    requires Sound(t, base) && shuffles >= 1
    modifies rng
    ensures |pop| == popSize && |swaps| == popSize && AllSound(t, pop)
    ensures forall k :: 0 <= k < popSize ==>
              pop[k].error == -1 && |swaps[k]| == shuffles && SwapsIn(swaps[k])
              && pop[k].mg == ApplySwaps(base.mg, swaps[k])
  {
    pop, swaps := [], [];
    for i := 0 to popSize
      invariant |pop| == i && |swaps| == i && AllSound(t, pop)
      invariant forall k :: 0 <= k < i ==>
                  pop[k].error == -1 && |swaps[k]| == shuffles && SwapsIn(swaps[k])
                  && pop[k].mg == ApplySwaps(base.mg, swaps[k])
    {
      var c, pairs := ShuffledCopy(rng, t, base, shuffles);
      SoundConcat(t, pop, [c]);
      pop, swaps := pop + [c], swaps + [pairs];
    }
  }

  /**
   * One child: a copy of a parent drawn with the weights, shuffled once
   * with probability 0.9, twice with 0.09 and three times otherwise.
   */
  method MakeChild(rng: Random, t: Tables, pop: seq<Member>, weights: seq<nat>, total: nat)
    returns (child: Member, ghost p: nat, ghost pairs: seq<(nat, nat)>)
    requires AllSound(t, pop) && 0 < |pop| == |weights|
    requires total == PrefixSum(weights, |pop|) && total >= 1
    modifies rng
    ensures Sound(t, child) && child.error == -1
    ensures p < |pop| && weights[p] > 0 && |pop[p].mg| == NumGameslots
    ensures 1 <= |pairs| <= 3 && SwapsIn(pairs)
    ensures child.mg == ApplySwaps(pop[p].mg, pairs)
  {
    var x := rng.RandInt(0, total - 1);
    var idx := GetParentIndex(weights, |pop|, x);
    ParentIndexInterval(weights, |pop|, x);
    p := idx;
    assert Sound(t, pop[idx]);
    var r := rng.Percent();
    child, pairs := ShuffledCopy(rng, t, pop[idx], MutationCount(r));
  }

  /** count children, each made by MakeChild. */
  method Breed(rng: Random, t: Tables, pop: seq<Member>, weights: seq<nat>, count: nat)
    returns (children: seq<Member>, ghost parents: seq<nat>, ghost swaps: seq<seq<(nat, nat)>>)
    requires AllSound(t, pop) && 0 < |pop| == |weights| && weights[0] >= 1
    modifies rng
    ensures |children| == count && |parents| == count && |swaps| == count && AllSound(t, children)
    ensures forall k :: 0 <= k < count ==>
              children[k].error == -1 && parents[k] < |pop| && weights[parents[k]] > 0
              && |pop[parents[k]].mg| == NumGameslots && 1 <= |swaps[k]| <= 3 && SwapsIn(swaps[k])
              && children[k].mg == ApplySwaps(pop[parents[k]].mg, swaps[k])
  {
    PrefixSumPositive(weights, |pop|);
    var total := PrefixSum(weights, |pop|);
    children, parents, swaps := [], [], [];
    for c := 0 to count
      invariant |children| == c && |parents| == c && |swaps| == c && AllSound(t, children)
      invariant forall k :: 0 <= k < c ==>
                  children[k].error == -1 && parents[k] < |pop| && weights[parents[k]] > 0
                  && |pop[parents[k]].mg| == NumGameslots && 1 <= |swaps[k]| <= 3 && SwapsIn(swaps[k])
                  && children[k].mg == ApplySwaps(pop[parents[k]].mg, swaps[k])
    {
      var child, p, pairs := MakeChild(rng, t, pop, weights, total);
      SoundConcat(t, children, [child]);
      children, parents, swaps := children + [child], parents + [p], swaps + [pairs];
    }
  }

  /**
   * The next population: the elitists, then pop_size minus their number
   * children, shuffled, evaluated and sorted by ascending error. The best
   * member is always an elitist, so the best error never increases.
   */
  method NextGeneration(rng: Random, t: Tables, pop: seq<Member>, weights: seq<nat>, elitist: nat)
    returns (next: seq<Member>, weights': seq<nat>)
    requires AllCurrent(t, pop) && |pop| >= 1 && |weights| == |pop| && weights[0] >= 1
    modifies rng
    ensures |next| == |pop| && AllCurrent(t, next) && Ascending(next)
    ensures next[0].error <= pop[0].error
    ensures |weights'| == |next| && forall i :: 0 <= i < |weights'| ==> weights'[i] >= 1
  {
    CurrentIsSound(t, pop);
    var elite, _ := Elitists(pop, elitist);
    var children, _, _ := Breed(rng, t, pop, weights, |pop| - |elite|);
    var mixed := rng.ShuffleSeq(elite + children);
    SameMembers(elite + children, mixed);
    SoundMembers(t, pop, elite);
    SoundConcat(t, elite, children);
    SoundMembers(t, elite + children, mixed);
    assert pop[0] in elite + children;
    assert pop[0] in multiset(mixed);
    assert Current(t, pop[0]);
    next := EvaluateAndSort(t, mixed);
    BestNotWorse(t, pop[0], next);
    weights' := ParentWeights(next);
  }

  /** When a sorted population holds a member with error e, its first error is at most e. */
  lemma BestNotWorse(t: Tables, x: Member, pop: seq<Member>)
    requires x in pop && Ascending(pop)
    ensures pop[0].error <= x.error
  {
  }

  /** The search's tables for a schedule object: its matchups, its number of teams and the indices of the three hosts. */
  method TablesOf(base: NFLSchedule) returns (t: Tables)
    requires base.Valid() && base.Resolved()
    ensures t == Tables(base.matchupTeam, |base.teams|, base.hosts)
  {
    t := Tables(base.matchupTeam, |base.teams|, Hosts(base.teams[Eagles], base.teams[Lions], base.teams[Cowboys]));
  }

  /**
   * The generation loop of genetic_algorithm, run for at most `generations`
   * generations: read the best error, stop when it is 0, otherwise build the
   * next generation. The population keeps its size, current errors and
   * order; `bests`, the best error at the start and after each generation,
   * never increases.
   */
  method Evolve(rng: Random, t: Tables, pop: seq<Member>, weights: seq<nat>, elitist: nat, generations: nat)
    returns (last: seq<Member>, done: bool, ghost bests: seq<int>)
    requires |pop| >= 1 && AllCurrent(t, pop) && Ascending(pop)
    requires |weights| == |pop| && weights[0] >= 1
    modifies rng
    ensures |last| == |pop| && AllCurrent(t, last) && Ascending(last)
    ensures done <==> last[0].error == 0
    ensures 1 <= |bests| && bests[0] == pop[0].error && bests[|bests| - 1] == last[0].error
    ensures forall i, j :: 0 <= i < j < |bests| ==> bests[i] >= bests[j]
  {
    last := pop;
    var w := weights;
    assert Current(t, last[0]);
    var _, m := GetError(t, last[0]);
    bests := [m];
    var gen := 0;
    while m != 0 && gen < generations
      invariant |last| == |pop| && AllCurrent(t, last) && Ascending(last)
      invariant |w| == |pop| && w[0] >= 1
      invariant m == last[0].error
      invariant 1 <= |bests| && bests[0] == pop[0].error && bests[|bests| - 1] == m
      invariant forall i, j :: 0 <= i < j < |bests| ==> bests[i] >= bests[j]
      decreases generations - gen
    {
      last, w := NextGeneration(rng, t, last, w, elitist);
      assert Current(t, last[0]);
      var _, m' := GetError(t, last[0]);
      bests := bests + [m'];
      m := m';
      gen := gen + 1;
    }
    done := m == 0;
  }

  /**
   * genetic_algorithm(base, pop_size, elitist), run for at most
   * `generations` generations: pop_size shuffled copies of the base, sorted
   * by ascending error, then the generation loop. The population keeps
   * pop_size members with current errors, sorted by ascending error; the
   * search reports done exactly when the best error is 0; and `bests`, the
   * best error after sorting the initial population and after each
   * generation, never increases.
   */
  method GeneticAlgorithm(rng: Random, base: NFLSchedule, popSize: nat, elitist: nat, generations: nat)
    returns (pop: seq<Member>, done: bool, ghost bests: seq<int>)
    requires base.Valid() && base.Resolved() && popSize >= 1
    modifies rng
    ensures |pop| == popSize && AllCurrent(Tables(base.matchupTeam, |base.teams|, base.hosts), pop) && Ascending(pop)
    ensures done <==> pop[0].error == 0
    ensures 1 <= |bests| && bests[|bests| - 1] == pop[0].error
    ensures forall i, j :: 0 <= i < j < |bests| ==> bests[i] >= bests[j]
  {
    var t := TablesOf(base);
    var start := Member(base.matchupGameslot[..], base.error);
    assert Sound(t, start);
    var initial, _ := InitialCopies(rng, t, start, popSize, NumGameslots);
    var sorted := EvaluateAndSort(t, initial);
    var weights := ParentWeights(sorted);
    pop, done, bests := Evolve(rng, t, sorted, weights, elitist, generations);
  }
}
