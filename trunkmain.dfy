/**
 * The generation loop of the older generation of the application (trunk/.../gp/GPMain.java):
 * the training set, the initial population of height-built trees, and per generation the
 * fitness of every tree, the fittest fraction kept, crossed over and mutated.
 *
 * Trees are TrunkTrees values; the GeneticProgrammingTree objects the loops create are built
 * around those values exactly as the source does. Evaluating a tree on an input is a parameter
 * (the arithmetic of the trunk node classes is not part of this model), and so is the moment
 * the Stop flag is raised by the timer thread.
 */
module TrunkMain {
  import opened Wrappers
  import opened Randomness
  import opened TrunkTrees
  import opened TrunkTraining

  // ---------------------------------------------------------------------------------------
  // minimumValIdx

  /** i is the position of the first minimum of v. */
  predicate IsFirstMin(v: seq<real>, i: int)
  {
    0 <= i < |v| && (forall k :: 0 <= k < |v| ==> v[i] <= v[k]) && (forall k :: 0 <= k < i ==> v[k] > v[i])
  }

  /**
   * The scan of minimumValIdx over v: the index moves only to a strictly smaller value, so it
   * ends on the first minimum; an empty vector gives 0.
   */
  function MinIndex(v: seq<real>): (i: nat)
    ensures |v| == 0 ==> i == 0
    ensures |v| > 0 ==> IsFirstMin(v, i)
    decreases |v|
  {
    if |v| <= 1 then 0
    else
      var w := v[..|v| - 1];
      var j := MinIndex(w);
      assert forall k :: 0 <= k < |w| ==> w[k] == v[k];
      if v[j] > v[|v| - 1] then |v| - 1 else j
  }

  /** minimumValIdx: the loop over the vector, proved to return the first minimum. */
  method MinimumValIdx(inputVector: seq<real>) returns (minValIdx: nat)
    ensures minValIdx == MinIndex(inputVector)
    ensures |inputVector| == 0 ==> minValIdx == 0
    ensures |inputVector| > 0 ==> IsFirstMin(inputVector, minValIdx)
  {
    minValIdx := 0;
    var i := 0;
    while i < |inputVector|
      invariant 0 <= i <= |inputVector|
      invariant i <= 1 ==> minValIdx == 0
      invariant i >= 1 ==> minValIdx == MinIndex(inputVector[..i])
    {
      assert inputVector[..i + 1][..i] == inputVector[..i];
      if inputVector[minValIdx] > inputVector[i] {
        minValIdx := i;
      }
      i := i + 1;
    }
    assert inputVector[..|inputVector|] == inputVector;
  }

  // ---------------------------------------------------------------------------------------
  // The training set

  /**
   * The i-th training pair as the loop writes it, for a set of the given centre:
   * x = i - h and y = ((i-h)^2 + 1) / 2. As written, every output lies exactly 1 above the
   * target ((x*x) - 1) / 2 at its input, so no tree computing the target scores 0.
   */
  function TrainingPair(i: int, h: int): (p: TrainingData)
    ensures p.inputData == (i - h) as real
    ensures p.outputData == CalculatePerfectOutput(p.inputData) + 1.0
  {
    var x := (i - h) as real;
    assert ((i - h) * (i - h)) as real == x * x;
    TrainingData(x, (((i - h) * (i - h)) as real + 1.0) / 2.0)
  }

  /** The pair the training set is meant to hold: the written one with its output lowered by 1. */
  function IntendedPair(i: int, h: int): (p: TrainingData)
    ensures p == TrainingPair(i, h).(outputData := TrainingPair(i, h).outputData - 1.0)
  {
    var x := (i - h) as real;
    TrainingData(x, CalculatePerfectOutput(x))
  }

  /** The number of pairs a loop `for (i = 0; i < n; i++)` produces. */
  function Count(n: int): nat
  {
    if n > 0 then n else 0
  }

  /**
   * The training set of the given size as the loop writes it: pair i has input i - size/2
   * and an output 1 above the target there.
   */
  function TrainingDataSet(trainingDataSize: int): (d: seq<TrainingData>)
    ensures |d| == Count(trainingDataSize)
  {
    seq(Count(trainingDataSize), i requires 0 <= i < Count(trainingDataSize) => TrainingPair(i, trainingDataSize / 2))
  }

  /** The training set the loop is meant to build: pair i holds the target at i - size/2. */
  function IntendedDataSet(trainingDataSize: int): (d: seq<TrainingData>)
    ensures |d| == Count(trainingDataSize)
  {
    seq(Count(trainingDataSize), i requires 0 <= i < Count(trainingDataSize) => IntendedPair(i, trainingDataSize / 2))
  }

  /** The training-set loop: one pair per index, centred on half the size. */
  method TrainingSet(trainingDataSize: int) returns (trainingDataSet: seq<TrainingData>)
    ensures trainingDataSet == TrainingDataSet(trainingDataSize)
    ensures forall k :: 0 <= k < |trainingDataSet| ==>
      trainingDataSet[k].inputData == (k - trainingDataSize / 2) as real &&
      trainingDataSet[k].outputData == CalculatePerfectOutput(trainingDataSet[k].inputData) + 1.0
  {
    trainingDataSet := [];
    var i := 0;
    while i < trainingDataSize
      invariant 0 <= i <= Count(trainingDataSize) && |trainingDataSet| == i
      invariant forall k :: 0 <= k < i ==> trainingDataSet[k] == TrainingPair(k, trainingDataSize / 2)
    {
      var h := trainingDataSize / 2;
      trainingDataSet := trainingDataSet + [TrainingPair(i, h)];
      i := i + 1;
    }
  }

  /** The default size 10 trains on the inputs -5 .. 4, from (-5, 13) to (4, 8.5); intended, (-5, 12) first. */
  lemma DefaultTrainingInputs()
    ensures forall i :: 0 <= i < 10 ==> TrainingDataSet(10)[i].inputData == (i - 5) as real
    ensures TrainingDataSet(10)[0] == TrainingData(-5.0, 13.0) && TrainingDataSet(10)[9] == TrainingData(4.0, 8.5)
    ensures IntendedDataSet(10)[0] == TrainingData(-5.0, 12.0)
  {
  }

  // ---------------------------------------------------------------------------------------
  // Fitness

  /** Math.abs on the difference of two reals. */
  function Dist(a: real, b: real): (d: real)
    ensures d >= 0.0 && (d == 0.0 <==> a == b)
  {
    if a >= b then a - b else b - a
  }

  /** The fitness of one tree: the sum over the training pairs of |evaluate(x) - y|. */
  function TotalError(evaluate: (TNode, real) -> real, t: TNode, data: seq<TrainingData>): real
  {
    if |data| == 0 then 0.0
    else TotalError(evaluate, t, data[..|data| - 1]) + Dist(evaluate(t, data[|data| - 1].inputData), data[|data| - 1].outputData)
  }

  /** The fitness is never negative, and it is 0 exactly when the tree hits every training output. */
  lemma {:induction false} TotalErrorZero(evaluate: (TNode, real) -> real, t: TNode, data: seq<TrainingData>)
    ensures TotalError(evaluate, t, data) >= 0.0
    ensures TotalError(evaluate, t, data) == 0.0 <==>
      forall j :: 0 <= j < |data| ==> evaluate(t, data[j].inputData) == data[j].outputData
  {
    if |data| > 0 {
      var w := data[..|data| - 1];
      TotalErrorZero(evaluate, t, w);
      assert forall j :: 0 <= j < |w| ==> w[j] == data[j];
    }
  }

  /** A tree that computes the target everywhere has fitness 0 on every intended training set. */
  lemma PerfectTreeFitsTraining(evaluate: (TNode, real) -> real, t: TNode, trainingDataSize: int)
    requires forall x :: evaluate(t, x) == CalculatePerfectOutput(x)
    ensures TotalError(evaluate, t, IntendedDataSet(trainingDataSize)) == 0.0
  {
    TotalErrorZero(evaluate, t, IntendedDataSet(trainingDataSize));
  }

  /** When a tree misses every pair by exactly 1, its fitness is the number of pairs. */
  lemma {:induction false} TotalErrorOfUnitMisses(evaluate: (TNode, real) -> real, t: TNode, data: seq<TrainingData>)
    requires forall j :: 0 <= j < |data| ==> Dist(evaluate(t, data[j].inputData), data[j].outputData) == 1.0
    ensures TotalError(evaluate, t, data) == |data| as real
  {
    if |data| > 0 {
      var w := data[..|data| - 1];
      assert forall j :: 0 <= j < |w| ==> w[j] == data[j];
      TotalErrorOfUnitMisses(evaluate, t, w);
    }
  }

  /**
   * On the training set as written, even a tree computing the target exactly scores 1 per
   * pair, so for a margin of error below the size the run never converges on it.
   */
  lemma PerfectTreeMissesTraining(evaluate: (TNode, real) -> real, t: TNode, trainingDataSize: int)
    requires forall x :: evaluate(t, x) == CalculatePerfectOutput(x)
    ensures TotalError(evaluate, t, TrainingDataSet(trainingDataSize)) == Count(trainingDataSize) as real
  {
    var d := TrainingDataSet(trainingDataSize);
    forall j | 0 <= j < |d|
      ensures Dist(evaluate(t, d[j].inputData), d[j].outputData) == 1.0
    {
      assert d[j] == TrainingPair(j, trainingDataSize / 2);
    }
    TotalErrorOfUnitMisses(evaluate, t, d);
  }

  /** The inner fitness loop: the error of one tree summed over the training pairs. */
  method IndividualFitness(evaluate: (TNode, real) -> real, t: TNode, trainingDataSet: seq<TrainingData>)
    returns (iFitness: real)
    ensures iFitness == TotalError(evaluate, t, trainingDataSet)
    ensures iFitness >= 0.0
  {
    iFitness := 0.0;
    var j := 0;
    while j < |trainingDataSet|
      invariant 0 <= j <= |trainingDataSet|
      invariant iFitness == TotalError(evaluate, t, trainingDataSet[..j])
    {
      var iOutput := evaluate(t, trainingDataSet[j].inputData);
      var jDelta := Dist(iOutput, trainingDataSet[j].outputData);
      assert trainingDataSet[..j + 1][..j] == trainingDataSet[..j];
      iFitness := iFitness + jDelta;
      j := j + 1;
    }
    assert trainingDataSet[..|trainingDataSet|] == trainingDataSet;
    TotalErrorZero(evaluate, t, trainingDataSet);
  }

  /**
   * The outer fitness loop over the first populationSize trees; elementAt past the end of the
   * population is an ArrayIndexOutOfBoundsException.
   */
  method PopulationFitness(evaluate: (TNode, real) -> real, initPopulation: seq<TNode>, populationSize: int,
                           trainingDataSet: seq<TrainingData>)
    returns (r: Result<seq<real>>)
    ensures r.Err? <==> populationSize > |initPopulation|
    ensures r.Err? ==> r.fault == IndexOutOfBounds
    ensures r.Ok? ==> |r.value| == Count(populationSize)
    ensures r.Ok? ==> forall i :: 0 <= i < |r.value| ==> r.value[i] == TotalError(evaluate, initPopulation[i], trainingDataSet)
  {
    var fitness: seq<real> := [];
    var i := 0;
    while i < populationSize
      invariant 0 <= i <= Count(populationSize) && i <= |initPopulation| && |fitness| == i
      invariant forall k :: 0 <= k < i ==> fitness[k] == TotalError(evaluate, initPopulation[k], trainingDataSet)
    {
      if i >= |initPopulation| {
        return Err(IndexOutOfBounds);
      }
      var iFitness := IndividualFitness(evaluate, initPopulation[i], trainingDataSet);
      fitness := fitness + [iFitness];
      i := i + 1;
    }
    r := Ok(fitness);
  }

  // ---------------------------------------------------------------------------------------
  // Keeping the fittest

  /** The number of passes of `for (int i = 0; i < bound; i++)` with a Double bound. */
  function LoopCount(bound: real): (n: nat)
    ensures (n as real) >= bound && (n == 0 || ((n - 1) as real) < bound)
  {
    if bound <= 0.0 then 0 else -((-bound).Floor)
  }

  /** The loop runs pass i exactly when i < LoopCount(bound). */
  lemma LoopCountPasses(bound: real, i: nat)
    ensures (i as real) < bound <==> i < LoopCount(bound)
  {
  }

  /** What the selection loop holds: the trees and fitness kept so far, and those left. */
  datatype Selection = Selection(chosen: seq<TNode>, chosenFitness: seq<real>, rest: seq<TNode>, restFitness: seq<real>)

  /** s without its i-th element (Vector.removeElementAt). */
  function Remove<T>(s: seq<T>, i: nat): (r: seq<T>)
    requires i < |s|
    ensures |r| == |s| - 1
  {
    s[..i] + s[i + 1..]
  }

  /**
   * k passes of the selection loop: move the tree of the first minimum fitness, with its
   * fitness, to the kept list. With no fitness left, removeElementAt is out of bounds.
   */
  function SelectFrom(s: Selection, k: nat): Result<Selection>
    requires |s.restFitness| <= |s.rest|
    decreases k
  {
    if k == 0 then Ok(s)
    else if |s.restFitness| == 0 then Err(IndexOutOfBounds)
    else SelectFrom(Pick(s, MinIndex(s.restFitness)), k - 1)
  }

  /** One pass: the i-th tree and its fitness move from the rest to the kept lists. */
  function Pick(s: Selection, i: nat): (r: Selection)
    requires i < |s.restFitness| <= |s.rest|
    ensures |r.restFitness| <= |r.rest|
  {
    Selection(s.chosen + [s.rest[i]], s.chosenFitness + [s.restFitness[i]], Remove(s.rest, i), Remove(s.restFitness, i))
  }

  /** Sorted ascending. */
  predicate Ascending(v: seq<real>)
  {
    forall i, j :: 0 <= i < j < |v| ==> v[i] <= v[j]
  }

  /** Every value of a is at most every value of b. */
  predicate AllAtMost(a: seq<real>, b: seq<real>)
  {
    forall i, j :: 0 <= i < |a| && 0 <= j < |b| ==> a[i] <= b[j]
  }

  /** The trees paired with their fitness values, position by position. */
  function Pairs(t: seq<TNode>, f: seq<real>): (p: seq<(TNode, real)>)
    requires |f| <= |t|
    ensures |p| == |f|
  {
    if |f| == 0 then [] else Pairs(t[..|f| - 1], f[..|f| - 1]) + [(t[|f| - 1], f[|f| - 1])]
  }

  /** The i-th pair is the i-th tree with the i-th fitness value. */
  lemma {:induction false} PairsAt(t: seq<TNode>, f: seq<real>)
    requires |f| <= |t|
    ensures forall i :: 0 <= i < |f| ==> Pairs(t, f)[i] == (t[i], f[i])
    decreases |f|
  {
    if |f| > 0 {
      var t', f' := t[..|f| - 1], f[..|f| - 1];
      PairsAt(t', f');
      assert forall i :: 0 <= i < |f'| ==> t'[i] == t[i] && f'[i] == f[i];
    }
  }

  /** The pairs after removing position i are the pairs without the i-th one. */
  lemma PairsRemove(t: seq<TNode>, f: seq<real>, i: nat)
    requires |f| <= |t| && i < |f|
    ensures multiset(Pairs(Remove(t, i), Remove(f, i))) + multiset{(t[i], f[i])} == multiset(Pairs(t, f))
  {
    var p := Pairs(t, f);
    var t', f' := Remove(t, i), Remove(f, i);
    var q := Pairs(t', f');
    PairsAt(t, f);
    PairsAt(t', f');
    var d := p[..i] + p[i + 1..];
    forall k | 0 <= k < |q| ensures q[k] == d[k] {
      if k < i {
        assert t'[k] == t[k] && f'[k] == f[k];
      } else {
        assert t'[k] == t[k + 1] && f'[k] == f[k + 1];
      }
    }
    assert q == d;
    assert p == p[..i] + [p[i]] + p[i + 1..];
  }

  /** Appending a tree and its fitness appends their pair. */
  lemma PairsAppend(t: seq<TNode>, f: seq<real>, x: TNode, y: real)
    requires |f| == |t|
    ensures Pairs(t + [x], f + [y]) == Pairs(t, f) + [(x, y)]
  {
    var p, q := Pairs(t + [x], f + [y]), Pairs(t, f) + [(x, y)];
    PairsAt(t + [x], f + [y]);
    PairsAt(t, f);
    assert |p| == |q|;
    forall j | 0 <= j < |p| ensures p[j] == q[j] {
      if j < |t| { assert (t + [x])[j] == t[j] && (f + [y])[j] == f[j]; }
    }
  }

  /** Every tree of a selection, kept or left, paired with its own fitness value. */
  function PairBag(s: Selection): multiset<(TNode, real)>
    requires |s.chosenFitness| == |s.chosen| && |s.restFitness| <= |s.rest|
  {
    multiset(Pairs(s.chosen, s.chosenFitness)) + multiset(Pairs(s.rest, s.restFitness))
  }

  /** A pass moves one pair and loses none. */
  lemma PickKeepsBag(s: Selection, i: nat)
    requires |s.chosenFitness| == |s.chosen| && i < |s.restFitness| <= |s.rest|
    ensures |Pick(s, i).chosenFitness| == |Pick(s, i).chosen| && PairBag(Pick(s, i)) == PairBag(s)
  {
    var x := (s.rest[i], s.restFitness[i]);
    PairsAppend(s.chosen, s.chosenFitness, s.rest[i], s.restFitness[i]);
    PairsRemove(s.rest, s.restFitness, i);
    var s' := Pick(s, i);
    calc {
      PairBag(s');
      multiset(Pairs(s.chosen, s.chosenFitness)) + multiset{x} + multiset(Pairs(s'.rest, s'.restFitness));
      PairBag(s);
    }
  }

  /** One pass of the selection loop, as an equation. */
  lemma SelectStep(s: Selection, k: nat, i: nat)
    requires |s.restFitness| <= |s.rest| && k > 0 && |s.restFitness| > 0 && i == MinIndex(s.restFitness)
    ensures SelectFrom(s, k) == SelectFrom(Pick(s, i), k - 1)
  {
  }

  /**
   * The selection succeeds exactly when there are at least k fitness values left, and then
   * moves exactly k trees and k fitness values.
   */
  lemma {:induction false} SelectOutcome(s: Selection, k: nat)
    requires |s.restFitness| <= |s.rest|
    ensures var r := SelectFrom(s, k);
      (r.Ok? <==> k <= |s.restFitness|) && (r.Err? ==> r.fault == IndexOutOfBounds) &&
      (r.Ok? ==> |r.value.chosen| == |s.chosen| + k && |r.value.chosenFitness| == |s.chosenFitness| + k &&
                 |r.value.rest| == |s.rest| - k && |r.value.restFitness| == |s.restFitness| - k &&
                 r.value.chosen[..|s.chosen|] == s.chosen)
    decreases k
  {
    if k > 0 && |s.restFitness| > 0 {
      var i := MinIndex(s.restFitness);
      var s' := Pick(s, i);
      SelectStep(s, k, i);
      SelectOutcome(s', k - 1);
      var r := SelectFrom(s', k - 1);
      if r.Ok? {
        assert r.value.chosen[..|s.chosen|] == r.value.chosen[..|s'.chosen|][..|s.chosen|];
      }
    }
  }

  /**
   * The kept fitness values come out in ascending order, none above a value left behind:
   * the loop keeps the fittest trees, best first.
   */
  lemma {:induction false} SelectOrdered(s: Selection, k: nat)
    requires |s.restFitness| <= |s.rest|
    requires Ascending(s.chosenFitness) && AllAtMost(s.chosenFitness, s.restFitness)
    ensures var r := SelectFrom(s, k);
      r.Ok? ==> Ascending(r.value.chosenFitness) && AllAtMost(r.value.chosenFitness, r.value.restFitness)
    decreases k
  {
    if k > 0 && |s.restFitness| > 0 {
      var i := MinIndex(s.restFitness);
      var f := s.restFitness;
      var rf := Remove(f, i);
      var cf := s.chosenFitness + [f[i]];
      assert forall j :: 0 <= j < |rf| ==> f[i] <= rf[j] by {
        forall j | 0 <= j < |rf| ensures f[i] <= rf[j] {
          if j >= i { assert rf[j] == f[j + 1]; }
        }
      }
      assert Ascending(cf);
      assert AllAtMost(cf, rf) by {
        forall a, b | 0 <= a < |cf| && 0 <= b < |rf| ensures cf[a] <= rf[b] {
          if a < |s.chosenFitness| {
            if b >= i { assert rf[b] == f[b + 1]; } else { assert rf[b] == f[b]; }
          }
        }
      }
      SelectStep(s, k, i);
      assert Pick(s, i) == Selection(s.chosen + [s.rest[i]], cf, Remove(s.rest, i), rf);
      SelectOrdered(Pick(s, i), k - 1);
    }
  }

  /** No tree is lost or made up: each kept or left tree travels with its own fitness value. */
  lemma {:induction false} SelectKeepsPairs(s: Selection, k: nat)
    requires |s.restFitness| <= |s.rest| && |s.chosenFitness| == |s.chosen|
    ensures var r := SelectFrom(s, k);
      r.Ok? ==> |r.value.chosenFitness| == |r.value.chosen| && |r.value.restFitness| <= |r.value.rest| &&
                PairBag(r.value) == PairBag(s)
    decreases k
  {
    if k > 0 && |s.restFitness| > 0 {
      var i := MinIndex(s.restFitness);
      SelectStep(s, k, i);
      PickKeepsBag(s, i);
      SelectKeepsPairs(Pick(s, i), k - 1);
    }
  }

  /**
   * The selection loop: numFitMembers times the tree of the first minimum fitness moves to
   * the new population and leaves the old one, together with its fitness.
   */
  method SelectFittest(initPopulation: seq<TNode>, fitness: seq<real>, numFitMembers: real)
    returns (r: Result<seq<TNode>>)
    requires |fitness| <= |initPopulation|
    ensures var spec := SelectFrom(Selection([], [], initPopulation, fitness), LoopCount(numFitMembers));
      (spec.Err? ==> r == Err(spec.fault)) && (spec.Ok? ==> r == Ok(spec.value.chosen))
  {
    var newPopulation: seq<TNode> := [];
    ghost var chosenFitness: seq<real> := [];
    var population, fit := initPopulation, fitness;
    ghost var n := LoopCount(numFitMembers);
    ghost var spec := SelectFrom(Selection([], [], initPopulation, fitness), n);
    var i: nat := 0;
    ghost var left := n;
    while (i as real) < numFitMembers
      invariant i <= n && left == n - i && |fit| <= |population|
      invariant spec == SelectFrom(Selection(newPopulation, chosenFitness, population, fit), left)
      decreases left
    {
      LoopCountPasses(numFitMembers, i);
      if |fit| == 0 {
        return Err(IndexOutOfBounds);
      }
      var minIdx := MinimumValIdx(fit);
      SelectStep(Selection(newPopulation, chosenFitness, population, fit), left, minIdx);
      newPopulation := newPopulation + [population[minIdx]];
      chosenFitness := chosenFitness + [fit[minIdx]];
      population := Remove(population, minIdx);
      fit := Remove(fit, minIdx);
      i, left := i + 1, left - 1;
    }
    LoopCountPasses(numFitMembers, i);
    r := Ok(newPopulation);
  }

  // ---------------------------------------------------------------------------------------
  // Crossover

  /** A population and the position reached in the random stream. */
  datatype Bred = Bred(population: seq<TNode>, pos: nat)

  /**
   * k passes of the crossover loop: two parents drawn from the whole current list (the
   * children of earlier passes included), crossed over as copies, and both children appended.
   */
  function CrossoverFrom(population: seq<TNode>, tape: nat -> nat, pos: nat, k: nat): Result<Bred>
    decreases k, 0
  {
    if k == 0 then Ok(Bred(population, pos))
    else if |population| == 0 then Err(IllegalArgument)
    else CrossThen(population, tape, pos, k - 1)
  }

  /** One pass of the crossover loop, then the j passes after it. */
  function CrossThen(population: seq<TNode>, tape: nat -> nat, pos: nat, j: nat): Result<Bred>
    requires |population| > 0
    decreases j, 1
  {
    var a := population[Draw(tape, pos, |population|)];
    var b := population[Draw(tape, pos + 1, |population|)];
    match CrossOverSpec(a, b, tape, pos + 2)
    case Err(f) => Err(f)
    case Ok(c) => CrossoverFrom(population + [c.mine, c.theirs], tape, c.pos, j)
  }

  /** One pass of the crossover loop, as an equation. */
  lemma CrossoverStep(population: seq<TNode>, tape: nat -> nat, pos: nat, k: nat, a: TNode, b: TNode)
    requires k > 0 && |population| > 0
    requires a == population[Draw(tape, pos, |population|)] && b == population[Draw(tape, pos + 1, |population|)]
    ensures var c := CrossOverSpec(a, b, tape, pos + 2);
      (c.Err? ==> CrossoverFrom(population, tape, pos, k) == Err(c.fault)) &&
      (c.Ok? ==> CrossoverFrom(population, tape, pos, k) ==
                 CrossoverFrom(population + [c.value.mine, c.value.theirs], tape, c.value.pos, k - 1))
  {
  }

  /**
   * The crossover loop keeps the parents where they were and appends two children per pass;
   * it fails only by an IllegalArgumentException (an empty list, or a parent of height 0),
   * and every pass preserves the node count of the two parents.
   */
  lemma {:induction false} CrossoverGrowth(population: seq<TNode>, tape: nat -> nat, pos: nat, k: nat)
    ensures var r := CrossoverFrom(population, tape, pos, k);
      (r.Err? ==> r.fault == IllegalArgument && k > 0) &&
      (k > 0 && |population| == 0 ==> r.Err?) &&
      (r.Ok? ==> |r.value.population| == |population| + 2 * k && r.value.population[..|population|] == population)
    decreases k
  {
    if k > 0 && |population| > 0 {
      var a := population[Draw(tape, pos, |population|)];
      var b := population[Draw(tape, pos + 1, |population|)];
      CrossOverPreserves(a, b, tape, pos + 2);
      CrossoverStep(population, tape, pos, k, a, b);
      var c := CrossOverSpec(a, b, tape, pos + 2);
      if c.Ok? {
        var p' := population + [c.value.mine, c.value.theirs];
        CrossoverGrowth(p', tape, c.value.pos, k - 1);
        var r := CrossoverFrom(p', tape, c.value.pos, k - 1);
        if r.Ok? {
          assert r.value.population[..|population|] == r.value.population[..|p'|][..|population|];
        }
      }
    }
  }

  /**
   * One pass of the crossover loop: two parents drawn from the current list, their copies
   * wrapped in new tree objects and crossed over, and both children appended.
   */
  method CrossoverPass(newPopulation: seq<TNode>, rng: Random, ghost k: nat) returns (r: Result<seq<TNode>>)
    requires k > 0 && |newPopulation| > 0
    modifies rng
    ensures r.Err? ==> CrossoverFrom(newPopulation, rng.tape, old(rng.pos), k) == Err(r.fault)
    ensures r.Ok? ==> CrossoverFrom(newPopulation, rng.tape, old(rng.pos), k) == CrossoverFrom(r.value, rng.tape, rng.pos, k - 1)
  {
    ghost var pos := rng.pos;
    var populationIdx := rng.NextInt(|newPopulation|);
    var aNode := newPopulation[populationIdx];
    populationIdx := rng.NextInt(|newPopulation|);
    var bNode := newPopulation[populationIdx];
    CrossoverStep(newPopulation, rng.tape, pos, k, aNode, bNode);
    var aGPT := new GeneticProgrammingTree(aNode);
    var bGPT := new GeneticProgrammingTree(bNode);
    var o := aGPT.CrossOver(bGPT, rng);
    if o.Fail? {
      return Err(o.fault);
    }
    r := Ok(newPopulation + [aGPT.root, bGPT.root]);
  }

  /** The crossover loop: numCrossOvers passes; nextInt(0) on an empty list is an IllegalArgumentException. */
  method CrossoverLoop(population: seq<TNode>, rng: Random, numCrossOvers: int) returns (r: Result<seq<TNode>>)
    modifies rng
    ensures var spec := CrossoverFrom(population, rng.tape, old(rng.pos), Count(numCrossOvers));
      (spec.Err? ==> r == Err(spec.fault)) &&
      (spec.Ok? ==> r == Ok(spec.value.population) && rng.pos == spec.value.pos)
  {
    var newPopulation := population;
    ghost var n := Count(numCrossOvers);
    ghost var spec := CrossoverFrom(population, rng.tape, rng.pos, n);
    var i := 0;
    ghost var left := n;
    while i < numCrossOvers
      invariant 0 <= i <= n && left == n - i
      invariant spec == CrossoverFrom(newPopulation, rng.tape, rng.pos, left)
      decreases left
    {
      if |newPopulation| == 0 {
        return Err(IllegalArgument);
      }
      var next := CrossoverPass(newPopulation, rng, left);
      if next.Err? {
        return Err(next.fault);
      }
      newPopulation := next.value;
      i, left := i + 1, left - 1;
    }
    r := Ok(newPopulation);
  }

  // ---------------------------------------------------------------------------------------
  // Mutation

  /** k passes of the mutation loop: a tree drawn from the list and mutated where it stands. */
  function MutationFrom(population: seq<TNode>, tape: nat -> nat, pos: nat, k: nat,
                        operators: seq<string>, operands: seq<string>): Result<Bred>
    decreases k, 0
  {
    if k == 0 then Ok(Bred(population, pos))
    else if |population| == 0 then Err(IllegalArgument)
    else MutateThen(population, tape, pos, k - 1, operators, operands)
  }

  /** One pass of the mutation loop, then the j passes after it. */
  function MutateThen(population: seq<TNode>, tape: nat -> nat, pos: nat, j: nat,
                      operators: seq<string>, operands: seq<string>): Result<Bred>
    requires |population| > 0
    decreases j, 1
  {
    var i := Draw(tape, pos, |population|);
    match MutateSpec(population[i], tape, pos + 1, operators, operands)
    case Err(f) => Err(f)
    case Ok(b) => MutationFrom(population[i := b.tree], tape, b.pos, j, operators, operands)
  }

  /** One pass of the mutation loop, as an equation. */
  lemma MutationStep(population: seq<TNode>, tape: nat -> nat, pos: nat, k: nat, i: nat,
                     operators: seq<string>, operands: seq<string>)
    requires k > 0 && |population| > 0 && i == Draw(tape, pos, |population|)
    ensures var m := MutateSpec(population[i], tape, pos + 1, operators, operands);
      (m.Err? ==> MutationFrom(population, tape, pos, k, operators, operands) == Err(m.fault)) &&
      (m.Ok? ==> MutationFrom(population, tape, pos, k, operators, operands) ==
                 MutationFrom(population[i := m.value.tree], tape, m.value.pos, k - 1, operators, operands))
  {
  }

  /**
   * The mutation loop keeps the size of the population and the size and height of every
   * tree; it fails only when a list it draws from is empty.
   */
  lemma {:induction false} MutationKeepsShapes(population: seq<TNode>, tape: nat -> nat, pos: nat, k: nat,
                                             operators: seq<string>, operands: seq<string>)
    ensures var r := MutationFrom(population, tape, pos, k, operators, operands);
      (r.Err? ==> r.fault == IllegalArgument) &&
      (|operators| > 0 && |operands| > 0 && (k == 0 || |population| > 0) ==> r.Ok?) &&
      (r.Ok? ==> |r.value.population| == |population|) &&
      (r.Ok? ==> forall j :: 0 <= j < |population| ==>
         Size(r.value.population[j]) == Size(population[j]) && Height(r.value.population[j]) == Height(population[j]))
    decreases k
  {
    if k > 0 && |population| > 0 {
      var i := Draw(tape, pos, |population|);
      MutatePreserves(population[i], tape, pos + 1, operators, operands);
      var m := MutateSpec(population[i], tape, pos + 1, operators, operands);
      if m.Ok? {
        var p' := population[i := m.value.tree];
        MutationKeepsShapes(p', tape, m.value.pos, k - 1, operators, operands);
      }
    }
  }

  /** A pass of the mutation loop needs a non-empty list: the bound is probability * size. */
  lemma MutationBoundPositive(mutationProbability: real, size: nat, i: nat)
    requires (i as real) < mutationProbability * (size as real)
    ensures size > 0
  {
  }

  /** One pass of the mutation loop: a tree drawn from the list, wrapped in an object and mutated. */
  method MutationPass(newPopulation: seq<TNode>, rng: Random, operators: seq<string>, operands: seq<string>, ghost k: nat)
    returns (r: Result<seq<TNode>>)
    requires k > 0 && |newPopulation| > 0
    modifies rng
    ensures r.Err? ==> MutationFrom(newPopulation, rng.tape, old(rng.pos), k, operators, operands) == Err(r.fault)
    ensures r.Ok? ==> |r.value| == |newPopulation|
    ensures r.Ok? ==> MutationFrom(newPopulation, rng.tape, old(rng.pos), k, operators, operands) ==
                      MutationFrom(r.value, rng.tape, rng.pos, k - 1, operators, operands)
  {
    ghost var pos := rng.pos;
    var populationIdx := rng.NextInt(|newPopulation|);
    MutationStep(newPopulation, rng.tape, pos, k, populationIdx, operators, operands);
    var gpt := new GeneticProgrammingTree(newPopulation[populationIdx]);
    var o := gpt.Mutate(rng, operators, operands);
    if o.Fail? {
      return Err(o.fault);
    }
    r := Ok(newPopulation[populationIdx := gpt.root]);
  }

  /**
   * The mutation loop: the bound is re-read on every pass, but the list keeps its size, so the
   * loop runs LoopCount(probability * size) times.
   */
  method MutationLoop(population: seq<TNode>, rng: Random, mutationProbability: real,
                      operators: seq<string>, operands: seq<string>) returns (r: Result<seq<TNode>>)
    modifies rng
    ensures var spec := MutationFrom(population, rng.tape, old(rng.pos), LoopCount(mutationProbability * (|population| as real)),
                                     operators, operands);
      (spec.Err? ==> r == Err(spec.fault)) &&
      (spec.Ok? ==> r == Ok(spec.value.population) && rng.pos == spec.value.pos)
  {
    var newPopulation := population;
    ghost var n := LoopCount(mutationProbability * (|population| as real));
    ghost var spec := MutationFrom(population, rng.tape, rng.pos, n, operators, operands);
    var i: nat := 0;
    ghost var left := n;
    while (i as real) < mutationProbability * (|newPopulation| as real)
      invariant i <= n && left == n - i && |newPopulation| == |population|
      invariant spec == MutationFrom(newPopulation, rng.tape, rng.pos, left, operators, operands)
      decreases left
    {
      LoopCountPasses(mutationProbability * (|population| as real), i);
      MutationBoundPositive(mutationProbability, |newPopulation|, i);
      var next := MutationPass(newPopulation, rng, operators, operands, left);
      if next.Err? {
        return Err(next.fault);
      }
      newPopulation := next.value;
      i, left := i + 1, left - 1;
    }
    LoopCountPasses(mutationProbability * (|population| as real), i);
    r := Ok(newPopulation);
  }

  // ---------------------------------------------------------------------------------------
  // The run

  /** The settings the loop reads (trunk GPSettings getters). */
  datatype Config = Config(populationSize: int, trainingDataSize: int, maxHtOfInitTree: int,
                           fitnessMarginOfError: real, fitnessProbability: real, numCrossOvers: int,
                           mutationProbability: real, operators: seq<string>, operands: seq<string>)

  /**
   * The initial-population loop: populationSize trees from the height constructor, each a
   * perfect tree of the configured height over the lists; it fails exactly when a list the
   * constructor needs is empty.
   */
  method Prepare(populationSize: int, maxHt: int, rng: Random, operators: seq<string>, operands: seq<string>)
    returns (r: Result<seq<TNode>>)
    modifies rng
    ensures r.Err? <==> populationSize > 0 && (maxHt < 0 || |operands| == 0 || (maxHt > 0 && |operators| == 0))
    ensures r.Err? ==> r.fault == (if maxHt < 0 && |operators| > 0 then StackOverflow else IllegalArgument)
    ensures r.Ok? ==> |r.value| == Count(populationSize)
    ensures r.Ok? && populationSize > 0 ==> maxHt >= 0
    ensures r.Ok? ==> forall i :: 0 <= i < |r.value| ==>
      maxHt >= 0 && Perfect(r.value[i], maxHt) && Height(r.value[i]) == maxHt && DrawnFrom(r.value[i], operators, operands)
  {
    var initPopulation: seq<TNode> := [];
    var i := 0;
    while i < populationSize
      invariant 0 <= i <= Count(populationSize) && |initPopulation| == i
      invariant i > 0 ==> maxHt >= 0 && |operands| > 0 && (maxHt == 0 || |operators| > 0)
      invariant forall k :: 0 <= k < i ==>
        maxHt >= 0 && Perfect(initPopulation[k], maxHt) && Height(initPopulation[k]) == maxHt && DrawnFrom(initPopulation[k], operators, operands)
    {
      OfHeightShape(maxHt, rng.tape, rng.pos, operators, operands);
      var t := OfHeight(maxHt, rng, operators, operands);
      if t.Err? {
        return Err(t.fault);
      }
      initPopulation := initPopulation + [t.value.root];
      i := i + 1;
    }
    r := Ok(initPopulation);
  }

  /** The fitness of the evaluated trees and the position of the first minimum among them. */
  datatype Evaluated = Evaluated(fitness: seq<real>, best: nat)

  /**
   * The fitness phase of a generation: the fitness of the first populationSize trees, then
   * Collections.min and minimumValIdx over it; Collections.min of an empty vector is a
   * NoSuchElementException.
   */
  method EvaluatePopulation(evaluate: (TNode, real) -> real, initPopulation: seq<TNode>, populationSize: int,
                            trainingDataSet: seq<TrainingData>) returns (r: Result<Evaluated>)
    ensures populationSize > |initPopulation| ==> r == Err(IndexOutOfBounds)
    ensures populationSize <= 0 ==> r == Err(NoSuchElement)
    ensures r.Ok? ==> 0 < populationSize <= |initPopulation| && |r.value.fitness| == populationSize
    ensures r.Ok? ==> forall i :: 0 <= i < |r.value.fitness| ==>
      r.value.fitness[i] == TotalError(evaluate, initPopulation[i], trainingDataSet)
    ensures r.Ok? ==> IsFirstMin(r.value.fitness, r.value.best)
  {
    var fit := PopulationFitness(evaluate, initPopulation, populationSize, trainingDataSet);
    if fit.Err? {
      return Err(fit.fault);
    }
    var fitness := fit.value;
    if |fitness| == 0 {
      return Err(NoSuchElement);
    }
    var minIdxx := MinimumValIdx(fitness);
    r := Ok(Evaluated(fitness, minIdxx));
  }

  /**
   * The breeding phase of a generation: the crossover loop, then the mutation loop. The kept
   * trees stay at the front with their size and height, the children follow, two per pass.
   */
  method Breed(kept: seq<TNode>, rng: Random, numCrossOvers: int, mutationProbability: real,
               operators: seq<string>, operands: seq<string>) returns (r: Result<seq<TNode>>)
    modifies rng
    ensures r.Err? ==> r.fault == IllegalArgument
    ensures r.Ok? ==> |r.value| == |kept| + 2 * Count(numCrossOvers)
    ensures r.Ok? ==> forall j :: 0 <= j < |kept| ==> Size(r.value[j]) == Size(kept[j]) && Height(r.value[j]) == Height(kept[j])
  {
    ghost var pos := rng.pos;
    CrossoverGrowth(kept, rng.tape, pos, Count(numCrossOvers));
    var crossed := CrossoverLoop(kept, rng, numCrossOvers);
    if crossed.Err? {
      return Err(crossed.fault);
    }
    var newPopulation := crossed.value;
    assert forall j :: 0 <= j < |kept| ==> newPopulation[j] == kept[j] by {
      assert newPopulation[..|kept|] == kept;
    }
    ghost var pos' := rng.pos;
    MutationKeepsShapes(newPopulation, rng.tape, pos', LoopCount(mutationProbability * (|newPopulation| as real)),
                        operators, operands);
    var mutated := MutationLoop(newPopulation, rng, mutationProbability, operators, operands);
    if mutated.Err? {
      return Err(mutated.fault);
    }
    r := Ok(mutated.value);
  }

  /** One generation's result: the next population and the best fitness of the evaluated one. */
  datatype Round = Round(population: seq<TNode>, minFitness: real, best: nat)

  /**
   * One pass of the generation loop: the fitness phase, the fittest
   * populationSize * fitnessProbability trees kept best first, then breeding. The kept trees
   * lead the next population, the fittest first.
   */
  method NextGeneration(cfg: Config, initPopulation: seq<TNode>, trainingDataSet: seq<TrainingData>,
                        evaluate: (TNode, real) -> real, rng: Random) returns (r: Result<Round>)
    modifies rng
    ensures cfg.populationSize > |initPopulation| ==> r == Err(IndexOutOfBounds)
    ensures cfg.populationSize <= 0 ==> r.Err?
    ensures r.Ok? ==> 0 < cfg.populationSize <= |initPopulation| && r.value.best < cfg.populationSize
    ensures r.Ok? ==>
      |r.value.population| == LoopCount(cfg.populationSize as real * cfg.fitnessProbability) + 2 * Count(cfg.numCrossOvers)
    ensures r.Ok? ==> r.value.minFitness == TotalError(evaluate, initPopulation[r.value.best], trainingDataSet)
    ensures r.Ok? ==> forall k :: 0 <= k < cfg.populationSize ==>
      r.value.minFitness <= TotalError(evaluate, initPopulation[k], trainingDataSet)
  {
    var evaluated := EvaluatePopulation(evaluate, initPopulation, cfg.populationSize, trainingDataSet);
    if evaluated.Err? {
      return Err(evaluated.fault);
    }
    var fitness, minIdxx := evaluated.value.fitness, evaluated.value.best;
    var minFitness := fitness[minIdxx];
    var numFitMembers := cfg.populationSize as real * cfg.fitnessProbability;
    SelectOutcome(Selection([], [], initPopulation, fitness), LoopCount(numFitMembers));
    var kept := SelectFittest(initPopulation, fitness, numFitMembers);
    if kept.Err? {
      return Err(kept.fault);
    }
    var newPopulation := Breed(kept.value, rng, cfg.numCrossOvers, cfg.mutationProbability, cfg.operators, cfg.operands);
    if newPopulation.Err? {
      return Err(newPopulation.fault);
    }
    r := Ok(Round(newPopulation.value, minFitness, minIdxx));
  }

  /** With the default settings the population keeps its size of 100 from one generation to the next. */
  lemma DefaultPopulationStable()
    ensures LoopCount(100 as real * 0.50) + 2 * Count(100 / 4) == 100
  {
  }

  /** How a run ends. */
  datatype Report = Report(generationCount: nat, minFitness: real, population: seq<TNode>)

  /**
   * run(): the training set, the initial population, then generations until the best fitness
   * is within the margin of error or the Stop flag is seen; stopAt is the number of generations
   * after which the flag is seen raised. The first generation always runs, since the best
   * fitness starts one above the margin.
   */
  method Run(cfg: Config, evaluate: (TNode, real) -> real, rng: Random, stopAt: nat) returns (r: Result<Report>)
    modifies rng
    ensures r.Ok? ==> r.value.generationCount <= stopAt
    ensures r.Ok? ==> r.value.minFitness <= cfg.fitnessMarginOfError || r.value.generationCount == stopAt
    ensures r.Ok? && stopAt > 0 ==> r.value.generationCount > 0
    ensures r.Ok? && r.value.generationCount == 0 ==> r.value.minFitness == cfg.fitnessMarginOfError + 1.0
  {
    var trainingDataSet := TrainingSet(cfg.trainingDataSize);
    var init := Prepare(cfg.populationSize, cfg.maxHtOfInitTree, rng, cfg.operators, cfg.operands);
    if init.Err? {
      return Err(init.fault);
    }
    var initPopulation := init.value;
    var minFitness := cfg.fitnessMarginOfError + 1.0;
    var generationCount: nat := 0;
    while minFitness > cfg.fitnessMarginOfError && generationCount < stopAt
      invariant generationCount <= stopAt
      invariant generationCount == 0 ==> minFitness == cfg.fitnessMarginOfError + 1.0
      decreases stopAt - generationCount
    {
      generationCount := generationCount + 1;
      var round := NextGeneration(cfg, initPopulation, trainingDataSet, evaluate, rng);
      if round.Err? {
        return Err(round.fault);
      }
      minFitness := round.value.minFitness;
      initPopulation := round.value.population;
    }
    r := Ok(Report(generationCount, minFitness, initPopulation));
  }
}
