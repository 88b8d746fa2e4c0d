/**
 * The primary genetic search over self-contained schedules: a shuffled
 * population ranked by score; each generation keeps the distinct
 * best-scored individuals as elitists, fills the rest with mutated copies of
 * rank-weighted parents, shuffles, re-sorts, and collects the distinct
 * feasible schedules at the head of the population until enough are found.
 *
 * A member of the population is represented by its value: the assignment
 * and the cached score of an NFLSchedule object.
 */
module MonoSearch {
  import opened Weeks
  import opened Registry
  import opened Permutation
  import opened RandomSource
  import opened ScoreCalculator
  import opened MonolithicSchedule
  import opened Selection
  import opened Mutation

  /** One member of the population: a schedule's assignment and its cached score. */
  datatype Individual = Individual(mg: seq<nat>, score: Option<int>)

  /** The assignment is a permutation and a cached score is one get_score can give it. */
  ghost predicate Sound(season: Season, x: Individual) {
    ValidSeason(season) && IsPermutation(x.mg, NumGameslots) && CacheHolds(season, x.mg, x.score)
  }

  ghost predicate AllSound(season: Season, pop: seq<Individual>) {
    forall k {:trigger Sound(season, pop[k])} :: 0 <= k < |pop| ==> Sound(season, pop[k])
  }

  lemma SoundConcat(season: Season, xs: seq<Individual>, ys: seq<Individual>)
    requires AllSound(season, xs) && AllSound(season, ys)
    ensures AllSound(season, xs + ys)
  {
    forall k | 0 <= k < |xs + ys| ensures Sound(season, (xs + ys)[k]) {
      if k < |xs| {
        assert Sound(season, xs[k]);
      } else {
        assert Sound(season, ys[k - |xs|]);
      }
    }
  }

  /** Individuals drawn from a sound population are sound. */
  lemma SoundMembers(season: Season, pop: seq<Individual>, sub: seq<Individual>)
    requires AllSound(season, pop) && forall x :: x in sub ==> x in pop
    ensures AllSound(season, sub)
  {
    forall k | 0 <= k < |sub| ensures Sound(season, sub[k]) {
      assert sub[k] in pop;
      var j :| 0 <= j < |pop| && pop[j] == sub[k];
      assert Sound(season, pop[j]);
    }
  }

  /** Every individual has a cached score. */
  predicate Scored(pop: seq<Individual>) {
    forall k :: 0 <= k < |pop| ==> pop[k].score.Some?
  }

  lemma ScoredMembers(pop: seq<Individual>, sub: seq<Individual>)
    requires Scored(pop) && forall x :: x in sub ==> x in pop
    ensures Scored(sub)
  {
    forall k | 0 <= k < |sub| ensures sub[k].score.Some? {
      assert sub[k] in pop;
    }
  }

  /** The sort key: the cached score. */
  function Key(x: Individual): int {
    if x.score.Some? then x.score.value else 0
  }

  /** The cached scores, in population order. */
  function Scores(pop: seq<Individual>): (r: seq<int>)
    ensures |r| == |pop| && forall k :: 0 <= k < |pop| ==> r[k] == Key(pop[k])
  {
    seq(|pop|, k requires 0 <= k < |pop| => Key(pop[k]))
  }

  /** The assignments, in population order. */
  function Assignments(pop: seq<Individual>): (r: seq<seq<nat>>)
    ensures |r| == |pop| && forall k :: 0 <= k < |pop| ==> r[k] == pop[k].mg
  {
    seq(|pop|, k requires 0 <= k < |pop| => pop[k].mg)
  }

  /** Whether an assignment satisfies every hard constraint of the season. */
  ghost predicate Feasible(season: Season, mg: seq<nat>) {
    ValidSeason(season) && |mg| == NumGameslots && ScheduleScore(season, mg) >= 0
  }

  /** The constraint verdict of each assignment, in order. */
  ghost function FeasibleOf(season: Season, assigns: seq<seq<nat>>): (r: seq<bool>)
    ensures |r| == |assigns|
  {
    if |assigns| == 0 then []
    else FeasibleOf(season, assigns[..|assigns| - 1]) + [Feasible(season, assigns[|assigns| - 1])]
  }

  lemma {:induction false} FeasibleAt(season: Season, assigns: seq<seq<nat>>, k: nat)
    requires k < |assigns|
    ensures FeasibleOf(season, assigns)[k] == Feasible(season, assigns[k])
  {
    if k < |assigns| - 1 {
      FeasibleAt(season, assigns[..|assigns| - 1], k);
    }
  }

  ghost predicate AllFeasible(season: Season, assigns: seq<seq<nat>>) {
    forall k :: 0 <= k < |assigns| ==> Feasible(season, assigns[k])
  }

  /**
   * The result scan adds only feasible assignments: results that were all
   * feasible stay all feasible.
   */
  lemma {:induction false} ResultsFeasible(season: Season, res: seq<seq<nat>>, assigns: seq<seq<nat>>, k: nat)
    requires k <= |assigns| && AllFeasible(season, res)
    ensures AllFeasible(season, ResultScan(res, assigns, FeasibleOf(season, assigns), k).results)
  {
    if k > 0 {
      ResultsFeasible(season, res, assigns, k - 1);
      var F := FeasibleOf(season, assigns);
      var before := ResultScan(res, assigns, F, k - 1);
      if !before.stopped && F[k - 1] && assigns[k - 1] !in before.results {
        FeasibleAt(season, assigns, k - 1);
        var after := before.results + [assigns[k - 1]];
        forall j | 0 <= j < |after| ensures Feasible(season, after[j]) {
          if j < |before.results| {
            assert after[j] == before.results[j];
          }
        }
      }
    }
  }

  /**
   * get_score: the cached score when there is one; otherwise minus the
   * error, or a random value in [1, 1000] for a schedule without error,
   * which is then cached.
   */
  method GetScore(rng: Random, season: Season, x: Individual) returns (y: Individual, r: int)
    requires Sound(season, x)
    modifies rng
    ensures y == Individual(x.mg, Some(r)) && Sound(season, y)
    ensures ScoreFits(r, ScheduleError(season, x.mg))
    ensures x.score.Some? ==> r == x.score.value
  {
    if x.score.Some? {
      r := x.score.value;
    } else {
      var error := ScheduleError(season, x.mg);
      if error == 0 {
        r := rng.RandInt(1, 1000);
      } else {
        r := -error;
      }
    }
    y := Individual(x.mg, Some(r));
  }

  /** constraints_satisfied: whether get_score is nonnegative, which is whether every hard constraint holds. */
  method ConstraintsSatisfied(rng: Random, season: Season, x: Individual) returns (y: Individual, b: bool)
    requires Sound(season, x)
    modifies rng
    ensures y.mg == x.mg && y.score.Some? && Sound(season, y)
    ensures x.score.Some? ==> y.score == x.score
    ensures b <==> Feasible(season, x.mg)
  {
    var r;
    y, r := GetScore(rng, season, x);
    ScoreAgreesWithModular(season, x.mg, r);
    b := r >= 0;
  }

  /** One individual of the initial population: a copy of the base shuffled with 256 swaps. */
  method NewIndividual(rng: Random, season: Season, base: Individual) returns (c: Individual, ghost pairs: seq<(nat, nat)>)
    requires Sound(season, base)
    modifies rng
    ensures Sound(season, c) && c.score == None
    ensures |pairs| == NumGameslots && SwapsIn(pairs)
    ensures c.mg == ApplySwaps(base.mg, pairs)
  {
    var mg;
    mg, pairs := ShuffleAssignment(rng, base.mg, NumGameslots);
    c := Individual(mg, None);
  }

  /** The initial population: popSize copies of the base schedule, each shuffled with 256 random swaps. */
  method InitialPopulation(rng: Random, season: Season, base: Individual, popSize: nat)
    returns (pop: seq<Individual>, ghost swaps: seq<seq<(nat, nat)>>)
    requires Sound(season, base)
    modifies rng
    ensures |pop| == popSize && |swaps| == popSize && AllSound(season, pop)
    ensures forall k :: 0 <= k < popSize ==>
              pop[k].score == None && |swaps[k]| == NumGameslots && SwapsIn(swaps[k])
              && pop[k].mg == ApplySwaps(base.mg, swaps[k])
  {
    pop, swaps := [], [];
    for i := 0 to popSize
      invariant |pop| == i && |swaps| == i && AllSound(season, pop)
      invariant forall k :: 0 <= k < i ==>
                  pop[k].score == None && |swaps[k]| == NumGameslots && SwapsIn(swaps[k])
                  && pop[k].mg == ApplySwaps(base.mg, swaps[k])
    {
      var c, pairs := NewIndividual(rng, season, base);
      pop, swaps := pop + [c], swaps + [pairs];
    }
  }

  /**
   * get_score on every individual, in list order: every score is then
   * cached, no assignment changes, and a score already cached is kept.
   */
  method ScoreAll(rng: Random, season: Season, pop: seq<Individual>) returns (scored: seq<Individual>)
    requires AllSound(season, pop)
    modifies rng
    ensures Assignments(scored) == Assignments(pop) && AllSound(season, scored) && Scored(scored)
    ensures forall k :: 0 <= k < |pop| && pop[k].score.Some? ==> scored[k] == pop[k]
  {
    scored := pop;
    for i := 0 to |pop|
      invariant |scored| == |pop| && AllSound(season, scored)
      invariant forall k :: 0 <= k < |pop| ==> scored[k].mg == pop[k].mg
      invariant forall k :: 0 <= k < i ==> scored[k].score.Some?
      invariant forall k :: 0 <= k < |pop| && pop[k].score.Some? ==> scored[k] == pop[k]
      invariant forall k :: i <= k < |pop| ==> scored[k] == pop[k]
    {
      var y, _ := GetScore(rng, season, scored[i]);
      scored := scored[i := y];
    }
  }

  /**
   * sorted(population, key=get_score, reverse=True) once every score is
   * cached: the same individuals, best score first.
   */
  method SortByScore(pop: seq<Individual>) returns (sorted: seq<Individual>)
    ensures multiset(sorted) == multiset(pop)
    ensures forall i, j :: 0 <= i < j < |sorted| ==> Key(sorted[i]) >= Key(sorted[j])
  {
    sorted := SortBy(pop, Key);
  }

  /** Ranks of the sorted population, turned into whole-number parent weights. */
  method ParentWeights(pop: seq<Individual>) returns (w: seq<nat>)
    requires |pop| > 0
    ensures w == RankWeights(Ranks(Scores(pop)))
    ensures |w| == |pop| && forall i :: 0 <= i < |w| ==> w[i] >= 1
  {
    var ranks := RankLoop(Scores(pop));
    RankWeightsInverse(Scores(pop));
    w := RankWeights(ranks);
  }

  /** `x in list`, comparing assignments entry by entry. */
  method Contains(list: seq<Individual>, x: Individual) returns (b: bool)
    ensures b <==> x.mg in Assignments(list)
  {
    for k := 0 to |list|
      invariant forall j :: 0 <= j < k ==> list[j].mg != x.mg
    {
      if list[k].mg == x.mg {
        assert Assignments(list)[k] == x.mg;
        return true;
      }
    }
    return false;
  }

  /**
   * The elitists: individuals taken in order while they have the best
   * score, skipping one equal to an elitist already taken, and stopping
   * once `limit` are taken.
   */
  method Elitists(pop: seq<Individual>, limit: nat) returns (elite: seq<Individual>, ghost chosen: seq<nat>)
    requires |pop| > 0
    ensures chosen == EliteScan(Assignments(pop), Scores(pop), Key(pop[0]), limit, |pop|).chosen
    ensures |elite| == |chosen| <= |pop|
    ensures forall j :: 0 <= j < |chosen| ==> chosen[j] < |pop| && elite[j] == pop[chosen[j]]
  {
    var m := Key(pop[0]);
    ghost var A, K := Assignments(pop), Scores(pop);
    elite := [];
    ghost var scan := Elite([], false);
    var i := 0;
    var stop := false;
    while i < |pop| && !stop
      invariant i <= |pop|
      invariant scan == EliteScan(A, K, m, limit, i) && stop == scan.stopped
      invariant |elite| == |scan.chosen|
      invariant forall j :: 0 <= j < |elite| ==> elite[j] == pop[scan.chosen[j]]
    {
      if Key(pop[i]) == m {
        var seen := Contains(elite, pop[i]);
        assert Assignments(elite) == Picked(A, scan.chosen);
        if !seen {
          elite := elite + [pop[i]];
          scan := Elite(scan.chosen + [i], |scan.chosen| + 1 == limit);
          stop := |elite| == limit;
        }
      } else {
        scan := Elite(scan.chosen, true);
        stop := true;
      }
      i := i + 1;
    }
    if stop {
      EliteStopped(A, K, m, limit, i, |pop|);
    }
    EliteSize(A, K, m, limit, |pop|);
    chosen := scan.chosen;
  }

  /**
   * One child: a copy of a parent drawn with the weights, shuffled once
   * with probability 0.9, twice with 0.09 and three times otherwise. The
   * draw lies in [0, total) and picks the index whose slice of the running
   * weight sums holds it.
   */
  method MakeChild(rng: Random, season: Season, pop: seq<Individual>, weights: seq<nat>, total: nat)
    returns (child: Individual, ghost p: nat, ghost pairs: seq<(nat, nat)>)
    requires AllSound(season, pop) && 0 < |pop| == |weights|
    requires total == PrefixSum(weights, |pop|) && total >= 1
    modifies rng
    ensures Sound(season, child) && child.score == None
    ensures p < |pop| && weights[p] > 0 && |pop[p].mg| == NumGameslots
    ensures 1 <= |pairs| <= 3 && SwapsIn(pairs)
    ensures child.mg == ApplySwaps(pop[p].mg, pairs)
  {
    var x := rng.RandInt(0, total - 1);
    var idx := GetParentIndex(weights, |pop|, x);
    ParentIndexInterval(weights, |pop|, x);
    p := idx;
    assert Sound(season, pop[idx]);
    var r := rng.Percent();
    var mg;
    mg, pairs := ShuffleAssignment(rng, pop[idx].mg, MutationCount(r));
    child := Individual(mg, None);
  }

  /** count children, each made by MakeChild. */
  method Breed(rng: Random, season: Season, pop: seq<Individual>, weights: seq<nat>, count: nat)
    returns (children: seq<Individual>, ghost parents: seq<nat>, ghost swaps: seq<seq<(nat, nat)>>)
    requires AllSound(season, pop) && 0 < |pop| == |weights| && weights[0] >= 1
    modifies rng
    ensures |children| == count && |parents| == count && |swaps| == count && AllSound(season, children)
    ensures forall k :: 0 <= k < count ==>
              children[k].score == None && parents[k] < |pop| && weights[parents[k]] > 0
              && |pop[parents[k]].mg| == NumGameslots && 1 <= |swaps[k]| <= 3 && SwapsIn(swaps[k])
              && children[k].mg == ApplySwaps(pop[parents[k]].mg, swaps[k])
  {
    PrefixSumPositive(weights, |pop|);
    var total := PrefixSum(weights, |pop|);
    children, parents, swaps := [], [], [];
    for c := 0 to count
      invariant |children| == c && |parents| == c && |swaps| == c && AllSound(season, children)
      invariant forall k :: 0 <= k < c ==>
                  children[k].score == None && parents[k] < |pop| && weights[parents[k]] > 0
                  && |pop[parents[k]].mg| == NumGameslots && 1 <= |swaps[k]| <= 3 && SwapsIn(swaps[k])
                  && children[k].mg == ApplySwaps(pop[parents[k]].mg, swaps[k])
    {
      var child, p, pairs := MakeChild(rng, season, pop, weights, total);
      children, parents, swaps := children + [child], parents + [p], swaps + [pairs];
    }
  }

  /**
   * One step of the result loop on individual i: constraints_satisfied,
   * then, when it holds, an `in` test against the results and an append.
   * The population is scored, so the call reads the cached score and
   * changes nothing.
   */
  method ConsiderResult(rng: Random, season: Season, pop: seq<Individual>, ghost feasible: seq<bool>, i: nat, res: seq<Individual>)
    returns (res': seq<Individual>, stop: bool)
    requires AllSound(season, pop) && Scored(pop) && AllSound(season, res) && i < |pop|
    requires feasible == FeasibleOf(season, Assignments(pop))
    modifies rng
    ensures AllSound(season, res')
    ensures Collected(Assignments(res'), stop)
            == ResultStep(Collected(Assignments(res), false), pop[i].mg, feasible[i])
  {
    assert Sound(season, pop[i]);
    FeasibleAt(season, Assignments(pop), i);
    var y, ok := ConstraintsSatisfied(rng, season, pop[i]);
    assert y == pop[i];
    res', stop := res, !ok;
    if ok {
      var seen := Contains(res, y);
      if !seen {
        res' := res + [y];
        assert Assignments(res') == Assignments(res) + [y.mg];
        assert forall k :: 0 <= k < |res| ==> res'[k] == res[k];
        assert forall k {:trigger Sound(season, res'[k])} :: 0 <= k < |res| ==> Sound(season, res'[k]) == Sound(season, res[k]);
      }
    }
  }

  /**
   * The result loop: walk the sorted population, stop at the first
   * individual that fails the constraints, and append each feasible one not
   * equal to a result already held.
   */
  method CollectResults(rng: Random, season: Season, pop: seq<Individual>, res: seq<Individual>)
    returns (res': seq<Individual>)
    requires AllSound(season, pop) && Scored(pop) && AllSound(season, res)
    modifies rng
    ensures AllSound(season, res')
    ensures Assignments(res') == ResultScan(Assignments(res), Assignments(pop), FeasibleOf(season, Assignments(pop)), |pop|).results
  {
    ghost var A := Assignments(pop);
    ghost var F := FeasibleOf(season, A);
    res' := res;
    var i := 0;
    var stop := false;
    while i < |pop| && !stop
      invariant i <= |pop| && AllSound(season, res')
      invariant ResultScan(Assignments(res), A, F, i) == Collected(Assignments(res'), stop)
    {
      res', stop := ConsiderResult(rng, season, pop, F, i, res');
      i := i + 1;
    }
    if stop {
      ResultStopped(Assignments(res), A, F, i, |pop|);
    }
  }

  lemma RemoveAt<T>(ys: seq<T>, i: nat)
    requires i < |ys|
    ensures multiset(ys) == multiset(ys[..i] + ys[i + 1..]) + multiset{ys[i]}
  {
    assert ys == ys[..i] + [ys[i]] + ys[i + 1..];
  }

  /** f applied to each element of xs. */
  function MapSeq<T, U>(f: T -> U, xs: seq<T>): (r: seq<U>)
    ensures |r| == |xs| && forall k :: 0 <= k < |xs| ==> r[k] == f(xs[k])
  {
    seq(|xs|, k requires 0 <= k < |xs| => f(xs[k]))
  }

  /** Removing element i from xs removes f(xs[i]) from the mapped multiset. */
  lemma MapRemoveAt<T, U>(f: T -> U, ys: seq<T>, i: nat)
    requires i < |ys|
    ensures multiset(MapSeq(f, ys)) == multiset(MapSeq(f, ys[..i] + ys[i + 1..])) + multiset{f(ys[i])}
  {
    var r := MapSeq(f, ys);
    RemoveAt(r, i);
    var rest := ys[..i] + ys[i + 1..];
    assert r[..i] + r[i + 1..] == MapSeq(f, rest) by {
      forall k | 0 <= k < |rest| ensures (r[..i] + r[i + 1..])[k] == f(rest[k]) {
        if k < i {
          assert rest[k] == ys[k];
        } else {
          assert rest[k] == ys[k + 1];
        }
      }
    }
  }

  lemma MapRemoveFirst<T, U>(f: T -> U, xs: seq<T>)
    requires |xs| > 0
    ensures multiset(MapSeq(f, xs)) == multiset(MapSeq(f, xs[1..])) + multiset{f(xs[0])}
  {
    var tail := MapSeq(f, xs[1..]);
    forall k | 1 <= k < |xs| ensures MapSeq(f, xs)[k] == tail[k - 1] {
      assert xs[1..][k - 1] == xs[k];
    }
    assert MapSeq(f, xs) == [f(xs[0])] + tail;
  }

  lemma Cancel<T>(a: multiset<T>, b: multiset<T>, x: T)
    requires a + multiset{x} == b + multiset{x}
    ensures a == b
  {
    forall z ensures a[z] == b[z] {
      assert (a + multiset{x})[z] == (b + multiset{x})[z];
    }
  }

  /** Taking one element out of each of two rearrangements, the same element, leaves two rearrangements. */
  lemma RemoveMatch<T>(xs: seq<T>, ys: seq<T>, i: nat)
    requires multiset(xs) == multiset(ys) && |xs| > 0 && i < |ys| && ys[i] == xs[0]
    ensures multiset(xs[1..]) == multiset(ys[..i] + ys[i + 1..])
  {
    RemoveAt(ys, i);
    assert xs == [xs[0]] + xs[1..];
    assert multiset(xs) == multiset(xs[1..]) + multiset{xs[0]};
    Cancel(multiset(xs[1..]), multiset(ys[..i] + ys[i + 1..]), xs[0]);
  }

  /** Mapping two rearrangements of one sequence gives two rearrangements of one sequence. */
  lemma {:induction false} MapPermute<T, U>(f: T -> U, xs: seq<T>, ys: seq<T>)
    requires multiset(xs) == multiset(ys)
    ensures multiset(MapSeq(f, xs)) == multiset(MapSeq(f, ys))
    decreases |xs|
  {
    if xs == [] {
      assert |ys| == |multiset(ys)| == 0;
      assert MapSeq(f, xs) == MapSeq(f, ys) == [];
    } else {
      var x := xs[0];
      var i :| 0 <= i < |ys| && ys[i] == x by {
        assert x in multiset(ys);
      }
      var rest := ys[..i] + ys[i + 1..];
      RemoveMatch(xs, ys, i);
      MapRemoveFirst(f, xs);
      MapPermute(f, xs[1..], rest);
      MapRemoveAt(f, ys, i);
    }
  }

  /** Reordering a population reorders its assignments the same way. */
  lemma AssignmentsPermute(xs: seq<Individual>, ys: seq<Individual>)
    requires multiset(xs) == multiset(ys)
    ensures multiset(Assignments(xs)) == multiset(Assignments(ys))
  {
    var mg := (x: Individual) => x.mg;
    MapPermute(mg, xs, ys);
    assert Assignments(xs) == MapSeq(mg, xs);
    assert Assignments(ys) == MapSeq(mg, ys);
  }

  /**
   * An elitist that already carries its score is left as it is by scoring,
   * so it is still a member after the shuffle, the scoring and the sort.
   */
  lemma EliteSurvives(elite: seq<Individual>, children: seq<Individual>, mixed: seq<Individual>,
                      scored: seq<Individual>, next: seq<Individual>)
    requires forall j :: 0 <= j < |elite| ==> elite[j].score.Some?
    requires multiset(mixed) == multiset(elite + children)
    requires |scored| == |mixed| && forall k :: 0 <= k < |mixed| && mixed[k].score.Some? ==> scored[k] == mixed[k]
    requires multiset(next) == multiset(scored)
    ensures forall j :: 0 <= j < |elite| ==> elite[j] in next
  {
    SameMembers(mixed, elite + children);
    SameMembers(next, scored);
    forall j | 0 <= j < |elite| ensures elite[j] in next {
      assert elite[j] == (elite + children)[j];
      assert elite[j] in mixed;
      var k :| 0 <= k < |mixed| && mixed[k] == elite[j];
      assert scored[k] in scored;
    }
  }

  /**
   * The next population from a sorted, scored one of size popSize: the
   * elitists and popSize minus their number children, shuffled, scored and
   * sorted best first, with its parent weights. The ghost results name the
   * elitists (with their positions in pop) and the children (with their
   * parents and swaps); the new population holds exactly their assignments.
   */
  method NextGeneration(rng: Random, season: Season, pop: seq<Individual>, weights: seq<nat>, numElitist: nat)
    returns (next: seq<Individual>, weights': seq<nat>, ghost elite: seq<Individual>, ghost chosen: seq<nat>,
             ghost children: seq<Individual>, ghost parents: seq<nat>, ghost swaps: seq<seq<(nat, nat)>>)
    requires AllSound(season, pop) && |pop| >= 1 && |weights| == |pop| && weights[0] >= 1
    modifies rng
    ensures |next| == |pop| && AllSound(season, next) && Scored(next)
    ensures forall i, j :: 0 <= i < j < |next| ==> Key(next[i]) >= Key(next[j])
    ensures |weights'| == |next| && forall i :: 0 <= i < |weights'| ==> weights'[i] >= 1
    ensures chosen == EliteScan(Assignments(pop), Scores(pop), Key(pop[0]), numElitist, |pop|).chosen
    ensures |elite| == |chosen| && forall j :: 0 <= j < |chosen| ==> chosen[j] < |pop| && elite[j] == pop[chosen[j]]
    ensures |children| == |parents| == |swaps| == |pop| - |elite|
    ensures forall k :: 0 <= k < |children| ==>
              parents[k] < |pop| && weights[parents[k]] > 0 && 1 <= |swaps[k]| <= 3
              && |pop[parents[k]].mg| == NumGameslots && SwapsIn(swaps[k])
              && children[k].mg == ApplySwaps(pop[parents[k]].mg, swaps[k])
    ensures multiset(Assignments(next)) == multiset(Assignments(elite + children))
    ensures forall j :: 0 <= j < |elite| ==> elite[j].mg in Assignments(next)
    ensures Scored(pop) ==> forall j :: 0 <= j < |elite| ==> elite[j] in next
  {
    var e, c := Elitists(pop, numElitist);
    var b, p, sw := Breed(rng, season, pop, weights, |pop| - |e|);
    elite, chosen, children, parents, swaps := e, c, b, p, sw;
    var mixed := rng.ShuffleSeq(e + b);
    SameMembers(elite + children, mixed);
    SoundMembers(season, pop, elite);
    SoundConcat(season, elite, children);
    SoundMembers(season, elite + children, mixed);
    var scored := ScoreAll(rng, season, mixed);
    next := SortByScore(scored);
    SameMembers(scored, next);
    SoundMembers(season, scored, next);
    ScoredMembers(scored, next);
    weights' := ParentWeights(next);
    AssignmentsPermute(elite + children, mixed);
    AssignmentsPermute(next, scored);
    forall j | 0 <= j < |elite| ensures elite[j].mg in Assignments(next) {
      assert Assignments(elite + children)[j] == elite[j].mg;
      assert elite[j].mg in multiset(Assignments(elite + children));
    }
    if Scored(pop) {
      EliteSurvives(e, b, mixed, scored, next);
    }
  }

  /**
   * genetic_algorithm(base, pop_size, num_elitist, num_results), run for at
   * most `generations` generations. Every schedule returned satisfies every
   * hard constraint, no two are equal, and the search reports done exactly
   * when it holds num_results of them.
   */
  method GeneticAlgorithm(rng: Random, base: NFLSchedule, popSize: nat, numElitist: nat, numResults: nat, generations: nat)
    returns (res: seq<Individual>, done: bool)
    requires base.Valid() && base.Resolved() && popSize >= 1
    modifies rng
    ensures AllSound(base.season, res)
    ensures AllFeasible(base.season, Assignments(res)) && Unique(Assignments(res))
    ensures done <==> |res| >= numResults
  {
    var season := SeasonOf(base.teams, base.matchupTeam);
    var start := Individual(base.matchupGameslot[..], base.score);
    var pop, _ := InitialPopulation(rng, season, start, popSize);
    pop := ScoreAll(rng, season, pop);
    var sorted := SortByScore(pop);
    SameMembers(pop, sorted);
    SoundMembers(season, pop, sorted);
    pop := sorted;
    var weights := ParentWeights(pop);
    res := [];
    var gen := 0;
    while |res| < numResults && gen < generations
      invariant AllSound(season, pop) && |pop| == popSize && |weights| == popSize && weights[0] >= 1
      invariant AllSound(season, res) && AllFeasible(season, Assignments(res)) && Unique(Assignments(res))
    {
      var next, nextWeights, _, _, _, _, _ := NextGeneration(rng, season, pop, weights, numElitist);
      pop, weights := next, nextWeights;
      ghost var A := Assignments(pop);
      ghost var R := Assignments(res);
      res := CollectResults(rng, season, pop, res);
      ResultFacts(R, A, FeasibleOf(season, A), |A|);
      ResultsFeasible(season, R, A, |A|);
      gen := gen + 1;
    }
    done := |res| >= numResults;
  }
}
