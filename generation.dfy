/**
 * GPGeneration (src/.../gp/GPGeneration.java): one generation of the population, its initial
 * population by the Full, Grow, ramped and ramped half-and-half methods, reproduction by natural
 * or tournament selection, crossover of tournament winners and mutation.
 *
 * An individual is its expression tree as a value together with its standardized fitness, NaN
 * while unset. Three operations the generation calls on its individuals are not part of the
 * shown GeneticProgrammingTree: calculateFitness and mutate_new are parameters of the settings,
 * reset is taken to clear the fitness and reset every validity flag, and compareTo is taken to
 * compare the fitness datums as FitnessDatum.compareTo does.
 */
module Generation {
  import opened Wrappers
  import opened ExprTree
  import opened Randomness
  import opened Fitness
  import TreeFactory

  datatype Individual = Individual(tree: Expr, fitness: Double)

  // ---------------------------------------------------------------------------------------
  // The order of individuals

  /** FitnessDatum.getValue: an unset (NaN) fitness reads as +Infinity. */
  function Reading(d: Double): Double
  {
    if d.NaN? then PosInf else d
  }

  /**
   * compareTo of two individuals: their fitness datums compared as FitnessDatum.compareTo does,
   * so two unset fitnesses tie, an unset one is above every finite one, and set ones compare by
   * Double.compareTo.
   */
  function CompareFitness(a: Individual, b: Individual): (c: int)
    ensures c == -1 || c == 0 || c == 1
    ensures a.fitness.NaN? && b.fitness.NaN? ==> c == 0
    ensures a.fitness.NaN? && b.fitness.Finite? ==> c == 1
    ensures !a.fitness.NaN? && !b.fitness.NaN? ==> c == Compare(a.fitness, b.fitness)
  {
    Compare(Reading(a.fitness), Reading(b.fitness))
  }

  /** The order is a total preorder: antisymmetric, transitive, and strict through a strict step. */
  lemma CompareFitnessPreorder(a: Individual, b: Individual, c: Individual)
    ensures CompareFitness(a, b) == -CompareFitness(b, a)
    ensures CompareFitness(a, b) <= 0 && CompareFitness(b, c) <= 0 ==> CompareFitness(a, c) <= 0
    ensures CompareFitness(a, b) < 0 && CompareFitness(b, c) <= 0 ==> CompareFitness(a, c) < 0
    ensures CompareFitness(a, b) <= 0 && CompareFitness(b, c) < 0 ==> CompareFitness(a, c) < 0
  {
    CompareTotalOrder(Reading(a.fitness), Reading(b.fitness), Reading(c.fitness));
    CompareTotalOrder(Reading(b.fitness), Reading(c.fitness), Reading(a.fitness));
    CompareTotalOrder(Reading(c.fitness), Reading(a.fitness), Reading(b.fitness));
  }

  /**
   * An individual whose fitness datum holds a.fitness compares to another exactly as the two
   * FitnessDatum objects do under compareTo, and its reading is the datum's getValue.
   */
  lemma CompareFitnessIsDatumCompare(a: Individual, b: Individual, da: FitnessDatum, db: FitnessDatum)
    requires da.standardized == a.fitness && db.standardized == b.fitness
    ensures Reading(a.fitness) == da.GetValue() && Reading(b.fitness) == db.GetValue()
    ensures CompareFitness(a, b) == da.CompareTo(db)
  {
  }

  predicate Sorted(s: seq<Individual>)
  {
    forall i, j :: 0 <= i < j < |s| ==> CompareFitness(s[i], s[j]) <= 0
  }

  /** x placed after every element of t that is not above it: one step of a stable insertion sort. */
  function Insert(t: seq<Individual>, x: Individual): seq<Individual>
  {
    if |t| == 0 then [x]
    else if CompareFitness(x, t[0]) < 0 then [x] + t
    else [t[0]] + Insert(t[1..], x)
  }

  /**
   * Collections.sort: a stable sort by compareTo. Every stable sort gives the same list, the one
   * insertion of the elements in their order gives.
   */
  function Sort(s: seq<Individual>): seq<Individual>
  {
    if |s| == 0 then [] else Insert(Sort(s[..|s| - 1]), s[|s| - 1])
  }

  /** i is the first position of a minimal element: everything before it is strictly above it. */
  predicate IsFirstMin(s: seq<Individual>, i: int)
  {
    0 <= i < |s| &&
    (forall k :: 0 <= k < i ==> CompareFitness(s[i], s[k]) < 0) &&
    (forall k :: i < k < |s| ==> CompareFitness(s[i], s[k]) <= 0)
  }

  /** The position the scan of getBestIndividual ends on: it moves only to a strictly smaller element. */
  function FirstMin(s: seq<Individual>): (i: nat)
    requires |s| > 0
    ensures i < |s|
  {
    if |s| == 1 then 0
    else
      var j := FirstMin(s[..|s| - 1]);
      if CompareFitness(s[|s| - 1], s[j]) < 0 then |s| - 1 else j
  }

  /** The scan finds the first minimum, and only one position is a first minimum. */
  lemma {:induction false} FirstMinIsFirstMin(s: seq<Individual>)
    requires |s| > 0
    ensures IsFirstMin(s, FirstMin(s))
    ensures forall i :: IsFirstMin(s, i) ==> i == FirstMin(s)
  {
    var m := FirstMin(s);
    if |s| > 1 {
      var init := s[..|s| - 1];
      FirstMinIsFirstMin(init);
      FirstMinStep(s, init, FirstMin(init));
    }
    forall i | IsFirstMin(s, i) ensures i == m {
      CompareFitnessPreorder(s[i], s[m], s[m]);
    }
  }

  /** The scan's last step: the first minimum j of all but the last, against the last element. */
  lemma FirstMinStep(s: seq<Individual>, init: seq<Individual>, j: nat)
    requires |s| > 1 && init == s[..|s| - 1] && IsFirstMin(init, j) && j == FirstMin(init)
    ensures IsFirstMin(s, FirstMin(s))
  {
    if CompareFitness(s[|s| - 1], s[j]) < 0 {
      FirstMinLast(s, init, j);
    } else {
      FirstMinKept(s, init, j);
    }
  }

  /** A last element strictly below the earlier first minimum is the new first minimum. */
  lemma FirstMinLast(s: seq<Individual>, init: seq<Individual>, j: nat)
    requires |s| > 1 && init == s[..|s| - 1] && IsFirstMin(init, j)
    requires CompareFitness(s[|s| - 1], s[j]) < 0
    ensures IsFirstMin(s, |s| - 1)
  {
    var last := |s| - 1;
    forall k | 0 <= k < last ensures CompareFitness(s[last], s[k]) < 0 {
      assert init[k] == s[k];
      CompareFitnessPreorder(s[last], s[j], s[k]);
      if k < j { CompareFitnessPreorder(s[j], s[k], s[k]); }
    }
  }

  /** A last element not below the earlier first minimum leaves it the first minimum. */
  lemma FirstMinKept(s: seq<Individual>, init: seq<Individual>, j: nat)
    requires |s| > 1 && init == s[..|s| - 1] && IsFirstMin(init, j)
    requires !(CompareFitness(s[|s| - 1], s[j]) < 0)
    ensures IsFirstMin(s, j)
  {
    var last := |s| - 1;
    CompareFitnessPreorder(s[j], s[last], s[last]);
    assert forall k :: 0 <= k < j ==> s[k] == init[k];
    assert forall k :: j < k < last ==> s[k] == init[k];
  }

  lemma {:induction false} InsertFacts(t: seq<Individual>, x: Individual)
    ensures |Insert(t, x)| == |t| + 1
    ensures multiset(Insert(t, x)) == multiset(t) + multiset{x}
    ensures |t| > 0 ==> Insert(t, x)[0] == (if CompareFitness(x, t[0]) < 0 then x else t[0])
  {
    if |t| > 0 {
      assert t == [t[0]] + t[1..];
      if CompareFitness(x, t[0]) >= 0 {
        InsertFacts(t[1..], x);
      }
    }
  }

  lemma {:induction false} InsertSorted(t: seq<Individual>, x: Individual)
    requires Sorted(t)
    ensures Sorted(Insert(t, x))
  {
    if |t| > 0 {
      if CompareFitness(x, t[0]) < 0 {
        var r := [x] + t;
        forall j | 0 < j < |r| ensures CompareFitness(x, r[j]) <= 0 {
          CompareFitnessPreorder(x, t[0], r[j]);
        }
        assert r == Insert(t, x);
      } else {
        var rest := Insert(t[1..], x);
        InsertSorted(t[1..], x);
        CompareFitnessPreorder(x, t[0], x);
        InsertLowerBound(t[1..], x, t[0]);
        var r := [t[0]] + rest;
        assert r == Insert(t, x);
      }
    }
  }

  /** A lower bound of t and of x is a lower bound of every element after inserting x. */
  lemma {:induction false} InsertLowerBound(t: seq<Individual>, x: Individual, b: Individual)
    requires forall k :: 0 <= k < |t| ==> CompareFitness(b, t[k]) <= 0
    requires CompareFitness(b, x) <= 0
    ensures forall j :: 0 <= j < |Insert(t, x)| ==> CompareFitness(b, Insert(t, x)[j]) <= 0
  {
    if |t| > 0 && CompareFitness(x, t[0]) >= 0 {
      InsertLowerBound(t[1..], x, b);
      assert Insert(t, x) == [t[0]] + Insert(t[1..], x);
    }
  }

  /**
   * The sorted list is a permutation of the list in ascending order, and its head is the first
   * minimum of the list, the element getBestIndividual's scan finds.
   */
  lemma {:induction false} SortFacts(s: seq<Individual>)
    ensures |Sort(s)| == |s| && multiset(Sort(s)) == multiset(s) && Sorted(Sort(s))
    ensures |s| > 0 ==> Sort(s)[0] == s[FirstMin(s)]
  {
    if |s| > 0 {
      var init := s[..|s| - 1];
      SortFacts(init);
      InsertFacts(Sort(init), s[|s| - 1]);
      InsertSorted(Sort(init), s[|s| - 1]);
      assert s == init + [s[|s| - 1]];
      if |s| > 1 {
        assert init[FirstMin(init)] == s[FirstMin(init)];
      }
    }
  }

  /** Sorting keeps the length (the part of SortFacts that the tournament's definition needs). */
  lemma {:induction false} SortLength(s: seq<Individual>)
    ensures |Sort(s)| == |s|
  {
    if |s| > 0 {
      SortLength(s[..|s| - 1]);
      InsertLength(Sort(s[..|s| - 1]), s[|s| - 1]);
    }
  }

  lemma {:induction false} InsertLength(t: seq<Individual>, x: Individual)
    ensures |Insert(t, x)| == |t| + 1
  {
    if |t| > 0 && CompareFitness(x, t[0]) >= 0 {
      InsertLength(t[1..], x);
    }
  }

  /** The head of the sorted list is the first minimum (the part of SortFacts about the head). */
  lemma {:induction false} SortHead(s: seq<Individual>)
    requires |s| > 0
    ensures |Sort(s)| == |s| && Sort(s)[0] == s[FirstMin(s)]
  {
    var init := s[..|s| - 1];
    SortLength(s);
    if |s| > 1 {
      SortHead(init);
      assert init[FirstMin(init)] == s[FirstMin(init)];
    }
  }

  /** The sorted list's first k elements are each no worse than every element after them. */
  lemma SortedPrefixIsTop(s: seq<Individual>, k: nat)
    requires k <= |s|
    ensures forall i, j :: 0 <= i < k <= j < |Sort(s)| ==> CompareFitness(Sort(s)[i], Sort(s)[j]) <= 0
  {
    SortFacts(s);
  }

  // ---------------------------------------------------------------------------------------
  // Settings and counts

  /** GPGeneration.GenerationMethod. */
  datatype GenerationMethod = FULL | GROW | RAMPED_FULL | RAMPED_GROW | RAMPED_HALF_AND_HALF

  /** GPGeneration.ReproductionMethod. */
  datatype ReproductionMethod = NATURAL_SELECTION | TOURNAMENT_SELECTION

  function GenerationMethodName(m: GenerationMethod): string
  {
    match m
    case FULL => "FULL"
    case GROW => "GROW"
    case RAMPED_FULL => "RAMPED_FULL"
    case RAMPED_GROW => "RAMPED_GROW"
    case RAMPED_HALF_AND_HALF => "RAMPED_HALF_AND_HALF"
  }

  /** GenerationMethod.valueOf: the constant of that name, IllegalArgumentException for any other. */
  function GenerationMethodOf(name: string): (r: Result<GenerationMethod>)
    ensures r.Err? ==> r.fault == IllegalArgument
    ensures r.Ok? ==> GenerationMethodName(r.value) == name
  {
    if name == "FULL" then Ok(FULL)
    else if name == "GROW" then Ok(GROW)
    else if name == "RAMPED_FULL" then Ok(RAMPED_FULL)
    else if name == "RAMPED_GROW" then Ok(RAMPED_GROW)
    else if name == "RAMPED_HALF_AND_HALF" then Ok(RAMPED_HALF_AND_HALF)
    else Err(IllegalArgument)
  }

  lemma GenerationMethodRoundTrip(m: GenerationMethod)
    ensures GenerationMethodOf(GenerationMethodName(m)) == Ok(m)
  {
  }

  function ReproductionMethodName(m: ReproductionMethod): string
  {
    match m
    case NATURAL_SELECTION => "NATURAL_SELECTION"
    case TOURNAMENT_SELECTION => "TOURNAMENT_SELECTION"
  }

  /** ReproductionMethod.valueOf. */
  function ReproductionMethodOf(name: string): (r: Result<ReproductionMethod>)
    ensures r.Err? ==> r.fault == IllegalArgument
    ensures r.Ok? ==> ReproductionMethodName(r.value) == name
  {
    if name == "NATURAL_SELECTION" then Ok(NATURAL_SELECTION)
    else if name == "TOURNAMENT_SELECTION" then Ok(TOURNAMENT_SELECTION)
    else Err(IllegalArgument)
  }

  lemma ReproductionMethodRoundTrip(m: ReproductionMethod)
    ensures ReproductionMethodOf(ReproductionMethodName(m)) == Ok(m)
  {
  }

  /**
   * The GPSettings values a generation reads, and the two operations on an individual that are
   * not part of this model: calculateFitness, and mutate_new, whose GPException mutate catches.
   * attempts bounds the retry loop of generateGrowTree.
   */
  datatype Settings = Settings(
    populationSize: int,
    maxHtOfInitTree: int,
    generationMethod: string,
    crossoverProbability: real,
    mutationProbability: real,
    tournamentSize: int,
    reproductionMethod: string,
    maxHtOfCrossoverTree: int,
    operators: seq<string>,
    operands: seq<string>,
    parse: string -> Option<real>,
    attempts: nat,
    calculateFitness: Expr -> Double,
    mutateNew: Individual -> Result<Individual>)

  /** Math.round: the nearest integer, halves rounded up. */
  function Round(x: real): int
  {
    (x + 0.5).Floor
  }

  /** getReproductionCount: max(round((1 - p) * N), 1). */
  function ReproductionCount(s: Settings): (n: int)
    ensures n >= 1
    ensures Round((1.0 - s.crossoverProbability) * (s.populationSize as real)) >= 1 ==>
      n == Round((1.0 - s.crossoverProbability) * (s.populationSize as real))
  {
    Max(Round((1.0 - s.crossoverProbability) * (s.populationSize as real)), 1)
  }

  /** getCrossoverCount: max(round(p * N), 2). */
  function CrossoverCount(s: Settings): (n: int)
    ensures n >= 2
    ensures Round(s.crossoverProbability * (s.populationSize as real)) >= 2 ==>
      n == Round(s.crossoverProbability * (s.populationSize as real))
  {
    Max(Round(s.crossoverProbability * (s.populationSize as real)), 2)
  }

  /** Rounding a and n - a gives n between them, one more when a lies half-way between integers. */
  lemma RoundComplement(a: real, n: int)
    ensures Round(n as real - a) + Round(a) == n || Round(n as real - a) + Round(a) == n + 1
  {
    var f := Round(a);
    assert f as real <= a + 0.5 < f as real + 1.0;
    var g := Round(n as real - a);
    assert g as real <= n as real - a + 0.5 < g as real + 1.0;
  }

  /**
   * The two counts fill the population: unless a minimum takes over, reproduction and crossover
   * together ask for N individuals, or N + 1 when p * N lies half-way between integers.
   */
  lemma CountsFillPopulation(s: Settings)
    requires Round((1.0 - s.crossoverProbability) * (s.populationSize as real)) >= 1
    requires Round(s.crossoverProbability * (s.populationSize as real)) >= 2
    ensures ReproductionCount(s) + CrossoverCount(s) == s.populationSize ||
            ReproductionCount(s) + CrossoverCount(s) == s.populationSize + 1
  {
    var n := s.populationSize as real;
    var a := s.crossoverProbability * n;
    assert (1.0 - s.crossoverProbability) * n == n - a;
    RoundComplement(a, s.populationSize);
  }

  /** N = 12 and p = 0.7 reproduce 4 individuals and cross over 8. */
  lemma CountsOfTwelve(s: Settings)
    requires s.populationSize == 12 && s.crossoverProbability == 0.7
    ensures ReproductionCount(s) == 4 && CrossoverCount(s) == 8
  {
    assert (1.0 - 0.7) * 12.0 == 3.6;
    assert 0.7 * 12.0 == 8.4;
  }

  // ---------------------------------------------------------------------------------------
  // The size and the shape of the initial population

  /** Java's int division: the quotient truncated toward zero. */
  function Quot(a: int, b: int): (q: int)
    requires b != 0
    ensures a >= 0 && b > 0 ==> q == a / b
  {
    if (a >= 0) == (b > 0) then IntAbs(a) / IntAbs(b) else -(IntAbs(a) / IntAbs(b))
  }

  function IntAbs(a: int): nat { if a >= 0 then a else -a }

  /** The number of ramped heights 2..H. */
  function Ramps(h: int): nat { if h >= 2 then h - 1 else 0 }

  /**
   * batchCount: per ramped height, max(N / ((H - 1) * 2), 1) Full/Grow pairs for ramped
   * half-and-half and max(N / (H - 1), 1) trees for the ramped methods; 1 otherwise.
   */
  function Batch(s: Settings, m: GenerationMethod): (b: int)
    ensures b >= 1
  {
    var h := s.maxHtOfInitTree;
    if h == 1 then 1
    else match m
      case RAMPED_HALF_AND_HALF => Max(Quot(s.populationSize, (h - 1) * 2), 1)
      case RAMPED_FULL => Max(Quot(s.populationSize, h - 1), 1)
      case RAMPED_GROW => Max(Quot(s.populationSize, h - 1), 1)
      case _ => 1
  }

  /**
   * The number of trees init adds: N for Full and Grow, batch * (H - 1) for the ramped methods
   * and twice that for ramped half-and-half, with no top-up to N. An unknown method name is an
   * IllegalArgumentException, and a ramped method with H = 1 divides by zero.
   */
  function InitSize(s: Settings): (r: Result<nat>)
    ensures GenerationMethodOf(s.generationMethod).Err? ==> r == Err(IllegalArgument)
    ensures r.Err? ==> r.fault == IllegalArgument || r.fault == Arithmetic
  {
    match GenerationMethodOf(s.generationMethod)
    case Err(f) => Err(f)
    case Ok(m) =>
      if m == FULL || m == GROW then Ok(IntAbs(Max(s.populationSize, 0)))
      else if s.maxHtOfInitTree == 1 then Err(Arithmetic)
      else if m == RAMPED_HALF_AND_HALF then Ok(2 * Batch(s, m) * Ramps(s.maxHtOfInitTree))
      else Ok(Batch(s, m) * Ramps(s.maxHtOfInitTree))
  }

  /** Ramped half-and-half with N = 3 and H = 4 adds 6 trees; ramped Grow with N = 3 and H = 5 adds 4. */
  lemma InitSizeExamples(s: Settings)
    requires s.populationSize == 3
    ensures s.generationMethod == "RAMPED_HALF_AND_HALF" && s.maxHtOfInitTree == 4 ==> InitSize(s) == Ok(6)
    ensures s.generationMethod == "RAMPED_GROW" && s.maxHtOfInitTree == 5 ==> InitSize(s) == Ok(4)
    ensures s.generationMethod == "RAMPED_FULL" && s.maxHtOfInitTree == 1 ==> InitSize(s) == Err(Arithmetic)
    ensures s.generationMethod == "FULL" ==> InitSize(s) == Ok(3)
  {
  }

  /** A tree of generateFullTree(h): well formed, with every leaf at depth h. */
  predicate FullAt(s: Settings, e: Expr, h: int)
  {
    TreeFactory.WellFormed(e, s.operators) && TreeFactory.LeavesAt(e, TreeFactory.Room(0, h))
  }

  /** A tree of generateGrowTree(h): well formed, between 1 and h high. */
  predicate GrownAt(s: Settings, e: Expr, h: int)
  {
    TreeFactory.WellFormed(e, s.operators) && 1 <= Height(e) <= TreeFactory.Room(0, h)
  }

  /**
   * The k-th tree init adds: Full or Grow trees of height H, or ramped ones whose height rises
   * from 2 by one per batch; ramped half-and-half alternates a Full and a Grow tree.
   */
  predicate InitShape(s: Settings, m: GenerationMethod, k: nat, e: Expr)
  {
    var b := Batch(s, m);
    match m
    case FULL => FullAt(s, e, s.maxHtOfInitTree)
    case GROW => GrownAt(s, e, s.maxHtOfInitTree)
    case RAMPED_FULL => FullAt(s, e, 2 + k / b)
    case RAMPED_GROW => GrownAt(s, e, 2 + k / b)
    case RAMPED_HALF_AND_HALF =>
      if k % 2 == 0 then FullAt(s, e, 2 + k / (2 * b)) else GrownAt(s, e, 2 + k / (2 * b))
  }

  // ---------------------------------------------------------------------------------------
  // Tournament selection

  /** The n entrants of a tournament, drawn with replacement from draw pos on. */
  function Picks(pop: seq<Individual>, tape: nat -> nat, pos: nat, n: nat): (r: seq<Individual>)
    requires |pop| > 0
    ensures |r| == n
    ensures forall i :: 0 <= i < n ==> r[i] == pop[Draw(tape, pos + i, |pop|)]
  {
    if n == 0 then [] else Picks(pop, tape, pos, n - 1) + [pop[Draw(tape, pos + n - 1, |pop|)]]
  }

  /** generateGrowTree(h) with the settings' lists: the retried Grow build of a whole tree. */
  function GrowSpec(s: Settings, h: int, tape: nat -> nat, pos: nat): Result<TreeFactory.Built>
  {
    TreeFactory.GrowTreeSpec(h, false, tape, pos, s.attempts, s.operators, s.operands, s.parse)
  }

  /**
   * The entrants of a tournament after Collections.sort: each drawn individual inserted into
   * the sorted list of those drawn before it (EntrantsAreSortedPicks: the sort of the picks).
   */
  function Entrants(pop: seq<Individual>, tape: nat -> nat, pos: nat, n: nat): (r: seq<Individual>)
    requires |pop| > 0
    ensures |r| == n
  {
    if n == 0 then []
    else
      var t := Entrants(pop, tape, pos, n - 1);
      InsertLength(t, pop[Draw(tape, pos + n - 1, |pop|)]);
      Insert(t, pop[Draw(tape, pos + n - 1, |pop|)])
  }

  lemma {:induction false} EntrantsAreSortedPicks(pop: seq<Individual>, tape: nat -> nat, pos: nat, n: nat)
    requires |pop| > 0
    ensures Entrants(pop, tape, pos, n) == Sort(Picks(pop, tape, pos, n))
  {
    if n > 0 {
      EntrantsAreSortedPicks(pop, tape, pos, n - 1);
      var p := Picks(pop, tape, pos, n);
      assert p[..n - 1] == Picks(pop, tape, pos, n - 1);
    }
  }

  /** A winner is kept when both its fitness and its tree are valid. */
  predicate Qualifies(ind: Individual)
  {
    !ind.fitness.NaN? && ind.tree.valid
  }

  /** What tournamentSelection hands out: a qualifying member, or a fresh Grow tree with unset fitness. */
  predicate Chosen(s: Settings, pop: seq<Individual>, ind: Individual)
  {
    (ind in pop && Qualifies(ind)) || (ind.fitness.NaN? && GrownAt(s, ind.tree, s.maxHtOfInitTree))
  }

  /**
   * The outcome of tournamentSelection(level): the winner, the next draw, the number of
   * tournaments held, and the sorted entrants of the last one.
   */
  datatype Selected = Selected(winner: Individual, pos: nat, rounds: nat, entrants: seq<Individual>)

  /**
   * tournamentSelection(level): the first of the sorted entrants; when it does not qualify,
   * another tournament one level deeper, and at level 5 a Grow tree of the initial height. No
   * entrants at all is NoSuchElementException from firstElement; an empty population makes
   * nextInt(0) throw.
   */
  function TournamentSpec(pop: seq<Individual>, s: Settings, tape: nat -> nat, pos: nat, level: nat): Result<Selected>
    requires level <= 5
    decreases 5 - level, 1
  {
    if s.tournamentSize <= 0 then Err(NoSuchElement)
    else if |pop| == 0 then Err(IllegalArgument)
    else Held(pop, s, tape, pos + s.tournamentSize, level, Entrants(pop, tape, pos, s.tournamentSize))
  }

  /**
   * The rest of tournamentSelection once the entrants are drawn and sorted and next is the
   * next draw: the head when it qualifies, at level 5 a Grow tree with unset fitness, and
   * otherwise another tournament one level deeper.
   */
  function Held(pop: seq<Individual>, s: Settings, tape: nat -> nat, next: nat, level: nat, entrants: seq<Individual>): Result<Selected>
    requires level <= 5 && |entrants| > 0
    decreases 5 - level, 0
  {
    if Qualifies(entrants[0]) then Ok(Selected(entrants[0], next, 1, entrants))
    else if level == 5 then
      match GrowSpec(s, s.maxHtOfInitTree, tape, next)
      case Err(f) => Err(f)
      case Ok(b) => Ok(Selected(Individual(b.tree, NaN), b.pos, 1, entrants))
    else Retried(TournamentSpec(pop, s, tape, next, level + 1))
  }

  /** The outcome of a deeper tournament, counted as one round more. */
  function Retried(sub: Result<Selected>): (r: Result<Selected>)
    ensures sub.Err? ==> r == Err(sub.fault)
    ensures sub.Ok? ==> r.Ok? && r.value.winner == sub.value.winner && r.value.pos == sub.value.pos &&
                        r.value.entrants == sub.value.entrants && r.value.rounds == sub.value.rounds + 1
  {
    match sub
    case Err(f) => Err(f)
    case Ok(sel) => Ok(sel.(rounds := sel.rounds + 1))
  }

  /**
   * At most 6 - level tournaments are held; the winner is a qualifying member of the
   * population unless every tournament failed; and the only failures are the empty cases and
   * those of the factory.
   */
  lemma {:induction false} TournamentOutcome(pop: seq<Individual>, s: Settings, tape: nat -> nat, pos: nat, level: nat)
    requires level <= 5
    decreases 5 - level
    ensures var r := TournamentSpec(pop, s, tape, pos, level);
      (s.tournamentSize <= 0 ==> r == Err(NoSuchElement)) &&
      (s.tournamentSize > 0 && |pop| == 0 ==> r == Err(IllegalArgument)) &&
      (r.Err? ==> r.fault in {NoSuchElement, IllegalArgument, NumberFormat, RetriesExhausted}) &&
      (r.Ok? ==>
        1 <= r.value.rounds <= 6 - level && Chosen(s, pop, r.value.winner) &&
        (!(r.value.winner in pop && Qualifies(r.value.winner)) ==> r.value.rounds == 6 - level) &&
        |r.value.entrants| == s.tournamentSize && Sorted(r.value.entrants))
  {
    if s.tournamentSize > 0 && |pop| > 0 {
      var e := Entrants(pop, tape, pos, s.tournamentSize);
      var w := e[0];
      var next := pos + s.tournamentSize;
      if Qualifies(w) {
        assert TournamentSpec(pop, s, tape, pos, level) == Ok(Selected(w, next, 1, e));
        EntrantsHead(pop, tape, pos, s.tournamentSize);
        EntrantsSorted(pop, tape, pos, s.tournamentSize);
      } else if level == 5 {
        var g := GrowSpec(s, s.maxHtOfInitTree, tape, next);
        assert TournamentSpec(pop, s, tape, pos, level) ==
          match g case Err(f) => Err(f) case Ok(b) => Ok(Selected(Individual(b.tree, NaN), b.pos, 1, e));
        TreeFactory.GrowTreeShape(s.maxHtOfInitTree, false, tape, next, s.attempts, s.operators, s.operands, s.parse);
        EntrantsSorted(pop, tape, pos, s.tournamentSize);
      } else {
        var sub := TournamentSpec(pop, s, tape, next, level + 1);
        assert TournamentSpec(pop, s, tape, pos, level) == Retried(sub);
        TournamentOutcome(pop, s, tape, next, level + 1);
      }
    }
  }

  /** With entrants to draw from, a tournament is the one held on its sorted entrants. */
  lemma TournamentHeld(pop: seq<Individual>, s: Settings, tape: nat -> nat, pos: nat, level: nat)
    requires level <= 5 && s.tournamentSize > 0 && |pop| > 0
    ensures TournamentSpec(pop, s, tape, pos, level) ==
            Held(pop, s, tape, pos + s.tournamentSize, level, Entrants(pop, tape, pos, s.tournamentSize))
  {
  }

  /** The two failures of tournamentSelection before any entrant is sorted. */
  lemma {:induction false} TournamentFaults(pop: seq<Individual>, s: Settings, tape: nat -> nat, pos: nat, level: nat)
    requires level <= 5
    ensures s.tournamentSize <= 0 ==> TournamentSpec(pop, s, tape, pos, level) == Err(NoSuchElement)
    ensures s.tournamentSize > 0 && |pop| == 0 ==> TournamentSpec(pop, s, tape, pos, level) == Err(IllegalArgument)
  {
  }

  /** A qualifying head of the sorted entrants wins the tournament. */
  lemma {:induction false} TournamentHeadWins(pop: seq<Individual>, s: Settings, tape: nat -> nat, pos: nat, level: nat)
    requires level <= 5 && s.tournamentSize > 0 && |pop| > 0
    requires Qualifies(Entrants(pop, tape, pos, s.tournamentSize)[0])
    ensures var e := Entrants(pop, tape, pos, s.tournamentSize);
      TournamentSpec(pop, s, tape, pos, level) == Ok(Selected(e[0], pos + s.tournamentSize, 1, e))
  {
  }

  /** At level 5 a head that does not qualify gives way to a Grow tree with unset fitness. */
  lemma {:induction false} TournamentGrows(pop: seq<Individual>, s: Settings, tape: nat -> nat, pos: nat)
    requires s.tournamentSize > 0 && |pop| > 0
    requires !Qualifies(Entrants(pop, tape, pos, s.tournamentSize)[0])
    ensures var spec := TournamentSpec(pop, s, tape, pos, 5);
      var g := GrowSpec(s, s.maxHtOfInitTree, tape, pos + s.tournamentSize);
      (g.Err? ==> spec == Err(g.fault)) &&
      (g.Ok? ==> spec == Ok(Selected(Individual(g.value.tree, NaN), g.value.pos, 1, Entrants(pop, tape, pos, s.tournamentSize))))
  {
  }

  /** Below level 5 a head that does not qualify leaves the outcome to the next tournament, one round more. */
  lemma {:induction false} TournamentRetries(pop: seq<Individual>, s: Settings, tape: nat -> nat, pos: nat, level: nat)
    requires level < 5 && s.tournamentSize > 0 && |pop| > 0
    requires !Qualifies(Entrants(pop, tape, pos, s.tournamentSize)[0])
    ensures TournamentSpec(pop, s, tape, pos, level) == Retried(TournamentSpec(pop, s, tape, pos + s.tournamentSize, level + 1))
  {
  }

  /** What a run of tournamentSelection returns and leaves behind, against the outcome it models. */
  predicate Realized(r: Result<Individual>, pos: nat, entrants: seq<Individual>, spec: Result<Selected>)
  {
    (spec.Err? ==> r == Err(spec.fault)) &&
    (spec.Ok? ==> r == Ok(spec.value.winner) && pos == spec.value.pos && entrants == spec.value.entrants)
  }

  /** A run that realizes a deeper tournament realizes the one that retried it. */
  lemma RealizedRetry(r: Result<Individual>, next: nat, entrants: seq<Individual>, spec: Result<Selected>, sub: Result<Selected>)
    requires spec == Retried(sub)
    requires Realized(r, next, entrants, sub)
    ensures Realized(r, next, entrants, spec)
  {
  }

  /** The sorted entrants are in ascending order. */
  lemma {:induction false} EntrantsSorted(pop: seq<Individual>, tape: nat -> nat, pos: nat, n: nat)
    requires |pop| > 0
    ensures Sorted(Entrants(pop, tape, pos, n))
  {
    EntrantsAreSortedPicks(pop, tape, pos, n);
    SortFacts(Picks(pop, tape, pos, n));
  }

  /**
   * The head of the sorted entrants is the first minimum of the entrants in the order they
   * were drawn, and so a member of the population.
   */
  lemma {:induction false} EntrantsHead(pop: seq<Individual>, tape: nat -> nat, pos: nat, n: nat)
    requires |pop| > 0 && n > 0
    ensures Entrants(pop, tape, pos, n)[0] == Picks(pop, tape, pos, n)[FirstMin(Picks(pop, tape, pos, n))]
    ensures Entrants(pop, tape, pos, n)[0] in pop
  {
    var picks := Picks(pop, tape, pos, n);
    EntrantsAreSortedPicks(pop, tape, pos, n);
    SortHead(picks);
    PicksMember(pop, tape, pos, n, FirstMin(picks));
  }

  lemma {:induction false} PicksMember(pop: seq<Individual>, tape: nat -> nat, pos: nat, n: nat, i: nat)
    requires |pop| > 0 && i < n
    ensures Picks(pop, tape, pos, n)[i] in pop
  {
    assert Picks(pop, tape, pos, n)[i] == pop[Draw(tape, pos + i, |pop|)];
  }

  /** When the first minimum of the first tournament's entrants qualifies, it wins at once. */
  lemma {:induction false} TournamentFirstRound(pop: seq<Individual>, s: Settings, tape: nat -> nat, pos: nat, level: nat)
    requires level <= 5 && s.tournamentSize > 0 && |pop| > 0
    requires Qualifies(Picks(pop, tape, pos, s.tournamentSize)[FirstMin(Picks(pop, tape, pos, s.tournamentSize))])
    ensures var picks := Picks(pop, tape, pos, s.tournamentSize);
      TournamentSpec(pop, s, tape, pos, level) ==
        Ok(Selected(picks[FirstMin(picks)], pos + s.tournamentSize, 1, Entrants(pop, tape, pos, s.tournamentSize)))
  {
    EntrantsHead(pop, tape, pos, s.tournamentSize);
    TournamentHeadWins(pop, s, tape, pos, level);
  }

  /** The winners of n tournaments held one after another, and the next draw. */
  datatype Runs = Runs(winners: seq<Individual>, pos: nat)

  /** The tournament loop of reproduction: n tournamentSelection() calls, the first failure ending it. */
  function TournamentRuns(pop: seq<Individual>, s: Settings, tape: nat -> nat, pos: nat, n: nat): Result<Runs>
    decreases n, 1
  {
    if n == 0 then Ok(Runs([], pos))
    else MoreRuns(pop, s, tape, pos, n - 1)
  }

  /** One more tournament after the first j, unless they already failed. */
  function MoreRuns(pop: seq<Individual>, s: Settings, tape: nat -> nat, pos: nat, j: nat): Result<Runs>
    decreases j, 2
  {
    match TournamentRuns(pop, s, tape, pos, j)
    case Err(f) => Err(f)
    case Ok(p) => Won(p, TournamentSpec(pop, s, tape, p.pos, 0))
  }

  /** The runs so far, extended by the outcome of one more tournament. */
  function Won(p: Runs, sel: Result<Selected>): (r: Result<Runs>)
    ensures sel.Err? ==> r == Err(sel.fault)
    ensures sel.Ok? ==> r == Ok(Runs(p.winners + [sel.value.winner], sel.value.pos))
  {
    match sel
    case Err(f) => Err(f)
    case Ok(w) => Ok(Runs(p.winners + [w.winner], w.pos))
  }

  /**
   * n tournaments give n winners, each a qualifying member of the population or a Grow tree,
   * and fail only as a single tournament does.
   */
  lemma {:induction false} TournamentRunsOutcome(pop: seq<Individual>, s: Settings, tape: nat -> nat, pos: nat, n: nat)
    decreases n
    ensures var r := TournamentRuns(pop, s, tape, pos, n);
      (n > 0 && s.tournamentSize <= 0 ==> r == Err(NoSuchElement)) &&
      (n > 0 && s.tournamentSize > 0 && |pop| == 0 ==> r == Err(IllegalArgument)) &&
      (r.Err? ==> r.fault in {NoSuchElement, IllegalArgument, NumberFormat, RetriesExhausted}) &&
      (r.Ok? ==> |r.value.winners| == n && forall w :: w in r.value.winners ==> Chosen(s, pop, w))
  {
    if n > 0 {
      var j: nat := n - 1;
      TournamentRunsOutcome(pop, s, tape, pos, j);
      var prev := TournamentRuns(pop, s, tape, pos, j);
      TournamentRunsUnfold(pop, s, tape, pos, n, j);
      if prev.Ok? {
        MoreRunsOk(pop, s, tape, pos, j, prev.value);
        TournamentOutcome(pop, s, tape, prev.value.pos, 0);
        var sel := TournamentSpec(pop, s, tape, prev.value.pos, 0);
        if sel.Ok? {
          WinnerAppended(s, pop, prev.value.winners, sel.value.winner, j);
        }
      } else {
        MoreRunsErr(pop, s, tape, pos, j);
        if s.tournamentSize > 0 && |pop| > 0 {
          assert j > 0;
        }
      }
    }
  }

  /** n = j + 1 tournaments: the first j, then one more from the draw they leave. */
  lemma TournamentRunsUnfold(pop: seq<Individual>, s: Settings, tape: nat -> nat, pos: nat, n: nat, j: nat)
    requires n == j + 1
    ensures TournamentRuns(pop, s, tape, pos, n) == MoreRuns(pop, s, tape, pos, j)
  {
  }

  /** One more tournament after j runs that succeeded. */
  lemma MoreRunsOk(pop: seq<Individual>, s: Settings, tape: nat -> nat, pos: nat, j: nat, prev: Runs)
    requires TournamentRuns(pop, s, tape, pos, j) == Ok(prev)
    ensures MoreRuns(pop, s, tape, pos, j) == Won(prev, TournamentSpec(pop, s, tape, prev.pos, 0))
  {
  }

  /** No more tournaments after j runs that failed. */
  lemma MoreRunsErr(pop: seq<Individual>, s: Settings, tape: nat -> nat, pos: nat, j: nat)
    requires TournamentRuns(pop, s, tape, pos, j).Err?
    ensures MoreRuns(pop, s, tape, pos, j) == TournamentRuns(pop, s, tape, pos, j)
  {
  }

  /** One more chosen winner after j of them. */
  lemma WinnerAppended(s: Settings, pop: seq<Individual>, ws: seq<Individual>, w: Individual, j: nat)
    requires |ws| == j && (forall v :: v in ws ==> Chosen(s, pop, v)) && Chosen(s, pop, w)
    ensures |ws + [w]| == j + 1 && forall v :: v in ws + [w] ==> Chosen(s, pop, v)
  {
    assert forall v :: v in ws + [w] ==> v in ws || v == w;
  }

  /** A failed tournament ends the loop: the later tournaments keep its failure. */
  lemma {:induction false} TournamentRunsFailed(pop: seq<Individual>, s: Settings, tape: nat -> nat, pos: nat, i: nat, n: nat)
    requires i <= n && TournamentRuns(pop, s, tape, pos, i).Err?
    decreases n
    ensures TournamentRuns(pop, s, tape, pos, n) == TournamentRuns(pop, s, tape, pos, i)
  {
    if i < n {
      var j: nat := n - 1;
      TournamentRunsFailed(pop, s, tape, pos, i, j);
      TournamentRunsUnfold(pop, s, tape, pos, n, j);
      MoreRunsErr(pop, s, tape, pos, j);
    }
  }

  /** One more tournament after i of them, as a run of tournamentSelection realizes it. */
  lemma {:induction false} TournamentRunsStep(pop: seq<Individual>, s: Settings, tape: nat -> nat, pos: nat, i: nat,
                                              prev: Runs, r: Result<Individual>, next: nat, entrants: seq<Individual>)
    requires TournamentRuns(pop, s, tape, pos, i) == Ok(prev)
    requires Realized(r, next, entrants, TournamentSpec(pop, s, tape, prev.pos, 0))
    ensures r.Err? ==> TournamentRuns(pop, s, tape, pos, i + 1) == Err(r.fault)
    ensures r.Ok? ==> TournamentRuns(pop, s, tape, pos, i + 1) == Ok(Runs(prev.winners + [r.value], next))
  {
    TournamentRunsUnfold(pop, s, tape, pos, i + 1, i);
    MoreRunsOk(pop, s, tape, pos, i, prev);
  }

  // ---------------------------------------------------------------------------------------
  // Crossover

  /** getRandomTreeNode: the post-order position at a draw below the node count. */
  function RandomTreeNode(e: Expr, tape: nat -> nat, pos: nat): (p: Path)
    ensures ValidPath(e, p)
  {
    PostOrderShape(e);
    var p := PostOrder(e)[Draw(tape, pos, Size(e))];
    PostOrderMembers(e, p);
    p
  }

  /** The swap of crossoverOperation: each tree takes the other's subtree at its own point. */
  function Swap(a: Expr, pa: Path, b: Expr, pb: Path): (Expr, Expr)
    requires ValidPath(a, pa) && ValidPath(b, pb)
  {
    (ReplaceAt(a, pa, SubtreeAt(b, pb)), ReplaceAt(b, pb, SubtreeAt(a, pa)))
  }

  lemma {:induction false} SubtreeAtAllValid(e: Expr, p: Path)
    requires ValidPath(e, p) && AllValid(e)
    ensures AllValid(SubtreeAt(e, p))
  {
    if |p| > 0 {
      SubtreeAtAllValid(Child(e, p[0]).value, p[1..]);
    }
  }

  lemma {:induction false} ReplaceAtAllValid(e: Expr, p: Path, t: Expr)
    requires ValidPath(e, p) && AllValid(e) && AllValid(t)
    ensures AllValid(ReplaceAt(e, p, t))
  {
    if |p| > 0 {
      ReplaceAtAllValid(Child(e, p[0]).value, p[1..], t);
    }
  }

  /**
   * The swap moves nodes between the trees without losing or copying any: the node counts add
   * up as before, each point now holds the other tree's subtree, and valid trees stay valid.
   */
  lemma SwapPreserves(a: Expr, pa: Path, b: Expr, pb: Path)
    requires ValidPath(a, pa) && ValidPath(b, pb)
    ensures var (x, y) := Swap(a, pa, b, pb);
      Size(x) + Size(y) == Size(a) + Size(b) &&
      ValidPath(x, pa) && SubtreeAt(x, pa) == SubtreeAt(b, pb) &&
      ValidPath(y, pb) && SubtreeAt(y, pb) == SubtreeAt(a, pa) &&
      (AllValid(a) && AllValid(b) ==> AllValid(x) && AllValid(y))
  {
    ReplaceAtSize(a, pa, SubtreeAt(b, pb));
    ReplaceAtSize(b, pb, SubtreeAt(a, pa));
    ReplaceAtProperties(a, pa, SubtreeAt(b, pb));
    ReplaceAtProperties(b, pb, SubtreeAt(a, pa));
    if AllValid(a) && AllValid(b) {
      SubtreeAtAllValid(a, pa);
      SubtreeAtAllValid(b, pb);
      ReplaceAtAllValid(a, pa, SubtreeAt(b, pb));
      ReplaceAtAllValid(b, pb, SubtreeAt(a, pa));
    }
  }

  /** The two trees right after the swap: clones of the parents, reset, crossed at drawn points. */
  function Swapped(x: Individual, y: Individual, tape: nat -> nat, pos: nat): (Expr, Expr)
  {
    var a := ResetFlags(x.tree);
    var b := ResetFlags(y.tree);
    Swap(a, RandomTreeNode(a, tape, pos), b, RandomTreeNode(b, tape, pos + 1))
  }

  /** The swap of Swapped at the draws i and j, taken as values. */
  lemma SwappedAt(x: Individual, y: Individual, tape: nat -> nat, pos: nat, i: nat, j: nat)
    requires i == Draw(tape, pos, Size(ResetFlags(x.tree))) && j == Draw(tape, pos + 1, Size(ResetFlags(y.tree)))
    ensures var a, b := ResetFlags(x.tree), ResetFlags(y.tree);
      i < |PostOrder(a)| && j < |PostOrder(b)| &&
      ValidPath(a, PostOrder(a)[i]) && ValidPath(b, PostOrder(b)[j]) &&
      Swapped(x, y, tape, pos) == Swap(a, PostOrder(a)[i], b, PostOrder(b)[j])
  {
    var a, b := ResetFlags(x.tree), ResetFlags(y.tree);
    PostOrderSize(a);
    PostOrderSize(b);
    PostOrderMembers(a, PostOrder(a)[i]);
    PostOrderMembers(b, PostOrder(b)[j]);
  }

  /** The height guard: an offspring above maxHtOfCrossoverTree gives way to generateGrowTree(maxHtOfInitTree). */
  function Guard(s: Settings, e: Expr, tape: nat -> nat, pos: nat): Result<TreeFactory.Built>
  {
    if Height(e) <= s.maxHtOfCrossoverTree then Ok(TreeFactory.Built(e, pos))
    else TreeFactory.GrowTreeSpec(s.maxHtOfInitTree, false, tape, pos, s.attempts, s.operators, s.operands, s.parse)
  }

  datatype Offspring = Offspring(first: Individual, second: Individual, pos: nat)

  /** crossoverOperation: the two guarded offspring, both with unset fitness. */
  function CrossoverSpec(x: Individual, y: Individual, s: Settings, tape: nat -> nat, pos: nat): Result<Offspring>
  {
    var (t1, t2) := Swapped(x, y, tape, pos);
    GuardedPair(s, t1, t2, tape, pos + 2)
  }

  /** The guard on the first swapped tree, then on the second, in the order of their draws. */
  function GuardedPair(s: Settings, t1: Expr, t2: Expr, tape: nat -> nat, pos: nat): Result<Offspring>
  {
    match Guard(s, t1, tape, pos)
    case Err(f) => Err(f)
    case Ok(g1) =>
      match Guard(s, t2, tape, g1.pos)
      case Err(f) => Err(f)
      case Ok(g2) => Ok(Offspring(Individual(g1.tree, NaN), Individual(g2.tree, NaN), g2.pos))
  }

  /** An offspring: unset fitness, every flag set, and within the crossover height or a Grow tree. */
  predicate IsOffspring(s: Settings, ind: Individual)
  {
    ind.fitness.NaN? && AllValid(ind.tree) &&
    (Height(ind.tree) <= s.maxHtOfCrossoverTree || GrownAt(s, ind.tree, s.maxHtOfInitTree))
  }

  /**
   * Both offspring are offspring in the sense above; when neither swapped tree is too high they
   * are the swapped trees themselves, which together hold exactly the parents' nodes.
   */
  lemma CrossoverOutcome(x: Individual, y: Individual, s: Settings, tape: nat -> nat, pos: nat)
    ensures var r := CrossoverSpec(x, y, s, tape, pos);
      (r.Err? ==> r.fault in {IllegalArgument, NumberFormat, RetriesExhausted}) &&
      (r.Ok? ==> IsOffspring(s, r.value.first) && IsOffspring(s, r.value.second))
    ensures var (t1, t2) := Swapped(x, y, tape, pos);
      Height(t1) <= s.maxHtOfCrossoverTree && Height(t2) <= s.maxHtOfCrossoverTree ==>
        var r := CrossoverSpec(x, y, s, tape, pos);
        r.Ok? && r.value.first.tree == t1 && r.value.second.tree == t2 && r.value.pos == pos + 2 &&
        Size(t1) + Size(t2) == Size(x.tree) + Size(y.tree)
  {
    var a := ResetFlags(x.tree);
    var b := ResetFlags(y.tree);
    ResetFlagsProperties(x.tree);
    ResetFlagsProperties(y.tree);
    SwapPreserves(a, RandomTreeNode(a, tape, pos), b, RandomTreeNode(b, tape, pos + 1));
    var (t1, t2) := Swapped(x, y, tape, pos);
    TreeFactory.GrowTreeShape(s.maxHtOfInitTree, false, tape, pos + 2, s.attempts, s.operators, s.operands, s.parse);
    var g1 := Guard(s, t1, tape, pos + 2);
    if g1.Ok? {
      TreeFactory.GrowTreeShape(s.maxHtOfInitTree, false, tape, g1.value.pos, s.attempts, s.operators, s.operands, s.parse);
    }
  }

  /** One pass of the crossover loop: two tournaments, then crossoverOperation on their winners. */
  function CrossoverRound(pop: seq<Individual>, s: Settings, tape: nat -> nat, pos: nat): Result<Offspring>
  {
    match TournamentSpec(pop, s, tape, pos, 0)
    case Err(f) => Err(f)
    case Ok(p1) => MateWith(pop, s, tape, p1.winner, p1.pos)
  }

  /** The second half of a pass: the tournament for the second parent, then the operation. */
  function MateWith(pop: seq<Individual>, s: Settings, tape: nat -> nat, x: Individual, pos: nat): Result<Offspring>
  {
    match TournamentSpec(pop, s, tape, pos, 0)
    case Err(f) => Err(f)
    case Ok(p2) => CrossoverSpec(x, p2.winner, s, tape, p2.pos)
  }

  /** The first tournament of a pass, as a run of tournamentSelection realizes it. */
  lemma FirstParent(pop: seq<Individual>, s: Settings, tape: nat -> nat, pos: nat,
                    r: Result<Individual>, next: nat, entrants: seq<Individual>)
    requires Realized(r, next, entrants, TournamentSpec(pop, s, tape, pos, 0))
    ensures r.Err? ==> CrossoverRound(pop, s, tape, pos) == Err(r.fault)
    ensures r.Ok? ==> CrossoverRound(pop, s, tape, pos) == MateWith(pop, s, tape, r.value, next)
  {
  }

  /** The second tournament of a pass, as a run of tournamentSelection realizes it. */
  lemma SecondParent(pop: seq<Individual>, s: Settings, tape: nat -> nat, x: Individual, pos: nat,
                     r: Result<Individual>, next: nat, entrants: seq<Individual>)
    requires Realized(r, next, entrants, TournamentSpec(pop, s, tape, pos, 0))
    ensures r.Err? ==> MateWith(pop, s, tape, x, pos) == Err(r.fault)
    ensures r.Ok? ==> MateWith(pop, s, tape, x, pos) == CrossoverSpec(x, r.value, s, tape, next)
  {
  }

  /**
   * What crossoverOperation leaves in the offspring list, against the outcome it models: both
   * offspring appended, or on a failed Grow build at most the first of them.
   */
  predicate Crossed(o: Outcome, before: seq<Individual>, after: seq<Individual>, pos: nat, spec: Result<Offspring>)
  {
    (spec.Err? ==> o == Fail(spec.fault) && |before| <= |after| <= |before| + 1 && after[..|before|] == before) &&
    (spec.Ok? ==> o == Pass && after == before + [spec.value.first, spec.value.second] && pos == spec.value.pos)
  }

  /** The offspring of k passes of the crossover loop, and the next draw. */
  datatype Bred = Bred(offspring: seq<Individual>, pos: nat)

  function CrossoverRounds(pop: seq<Individual>, s: Settings, tape: nat -> nat, pos: nat, k: nat): Result<Bred>
    decreases k, 0
  {
    if k == 0 then Ok(Bred([], pos))
    else PassThen(pop, s, tape, pos, k - 1)
  }

  /** A pass from the draw pos, then j more passes. */
  function PassThen(pop: seq<Individual>, s: Settings, tape: nat -> nat, pos: nat, j: nat): Result<Bred>
    decreases j, 2
  {
    AfterPass(pop, s, tape, CrossoverRound(pop, s, tape, pos), j)
  }

  /** After a pass with outcome r: its failure, or its two offspring in front of what j more passes breed. */
  function AfterPass(pop: seq<Individual>, s: Settings, tape: nat -> nat, r: Result<Offspring>, j: nat): Result<Bred>
    decreases j, 1
  {
    match r
    case Err(f) => Err(f)
    case Ok(o) => Prepend([o.first, o.second], CrossoverRounds(pop, s, tape, o.pos, j))
  }

  /** Offspring bred before a run of passes, put in front of what the run breeds. */
  function Prepend(cs: seq<Individual>, r: Result<Bred>): Result<Bred>
  {
    match r
    case Err(f) => Err(f)
    case Ok(b) => Ok(Bred(cs + b.offspring, b.pos))
  }

  /** A pass of the crossover loop fails only as a tournament or the operation does, and breeds two offspring. */
  lemma CrossoverRoundOutcome(pop: seq<Individual>, s: Settings, tape: nat -> nat, pos: nat)
    ensures var r := CrossoverRound(pop, s, tape, pos);
      (r.Err? ==> r.fault in {NoSuchElement, IllegalArgument, NumberFormat, RetriesExhausted}) &&
      (r.Ok? ==> IsOffspring(s, r.value.first) && IsOffspring(s, r.value.second))
  {
    TournamentOutcome(pop, s, tape, pos, 0);
    var p1 := TournamentSpec(pop, s, tape, pos, 0);
    if p1.Ok? {
      TournamentOutcome(pop, s, tape, p1.value.pos, 0);
      var p2 := TournamentSpec(pop, s, tape, p1.value.pos, 0);
      if p2.Ok? {
        CrossoverOutcome(p1.value.winner, p2.value.winner, s, tape, p2.value.pos);
      }
    }
  }

  /** k passes breed 2k offspring, every one an offspring in the sense of IsOffspring. */
  lemma {:induction false} CrossoverRoundsOutcome(pop: seq<Individual>, s: Settings, tape: nat -> nat, pos: nat, k: nat)
    decreases k, 0
    ensures var r := CrossoverRounds(pop, s, tape, pos, k);
      (r.Err? ==> r.fault in {NoSuchElement, IllegalArgument, NumberFormat, RetriesExhausted}) &&
      (r.Ok? ==> |r.value.offspring| == 2 * k && forall c :: c in r.value.offspring ==> IsOffspring(s, c))
  {
    if k > 0 {
      PassThenOutcome(pop, s, tape, pos, k - 1);
    }
  }

  /** A pass and the j after it bred 2(j + 1) offspring, or failed as a pass fails. */
  lemma {:induction false} PassThenOutcome(pop: seq<Individual>, s: Settings, tape: nat -> nat, pos: nat, j: nat)
    decreases j, 2
    ensures var w := PassThen(pop, s, tape, pos, j);
      (w.Err? ==> w.fault in {NoSuchElement, IllegalArgument, NumberFormat, RetriesExhausted}) &&
      (w.Ok? ==> |w.value.offspring| == 2 * (j + 1) && forall c :: c in w.value.offspring ==> IsOffspring(s, c))
  {
    CrossoverRoundOutcome(pop, s, tape, pos);
    AfterPassOutcome(pop, s, tape, CrossoverRound(pop, s, tape, pos), j);
  }

  /** What j passes after a pass with outcome r breed, given what the pass bred. */
  lemma {:induction false} AfterPassOutcome(pop: seq<Individual>, s: Settings, tape: nat -> nat, r: Result<Offspring>, j: nat)
    requires r.Err? ==> r.fault in {NoSuchElement, IllegalArgument, NumberFormat, RetriesExhausted}
    requires r.Ok? ==> IsOffspring(s, r.value.first) && IsOffspring(s, r.value.second)
    decreases j, 1
    ensures var w := AfterPass(pop, s, tape, r, j);
      (w.Err? ==> w.fault in {NoSuchElement, IllegalArgument, NumberFormat, RetriesExhausted}) &&
      (w.Ok? ==> |w.value.offspring| == 2 * (j + 1) && forall c :: c in w.value.offspring ==> IsOffspring(s, c))
  {
    if r.Ok? {
      CrossoverRoundsOutcome(pop, s, tape, r.value.pos, j);
      BredPrepended(s, r.value, CrossoverRounds(pop, s, tape, r.value.pos, j), AfterPass(pop, s, tape, r, j), j);
    }
  }

  /** k > 0 passes: the first pass, then the k - 1 after it. */
  lemma CrossoverRoundsUnfold(pop: seq<Individual>, s: Settings, tape: nat -> nat, pos: nat, k: nat)
    requires k > 0
    ensures CrossoverRounds(pop, s, tape, pos, k) == AfterPass(pop, s, tape, CrossoverRound(pop, s, tape, pos), k - 1)
  {
  }

  /** The step of CrossoverRoundsOutcome on values: two offspring put in front of what j passes breed. */
  lemma BredPrepended(s: Settings, o: Offspring, rest: Result<Bred>, whole: Result<Bred>, j: nat)
    requires whole == Prepend([o.first, o.second], rest)
    requires IsOffspring(s, o.first) && IsOffspring(s, o.second)
    requires rest.Err? ==> rest.fault in {NoSuchElement, IllegalArgument, NumberFormat, RetriesExhausted}
    requires rest.Ok? ==> |rest.value.offspring| == 2 * j && forall c :: c in rest.value.offspring ==> IsOffspring(s, c)
    ensures whole.Err? ==> whole.fault in {NoSuchElement, IllegalArgument, NumberFormat, RetriesExhausted}
    ensures whole.Ok? ==> |whole.value.offspring| == 2 * (j + 1) && forall c :: c in whole.value.offspring ==> IsOffspring(s, c)
  {
    if rest.Ok? {
      OffspringPrepended(s, o.first, o.second, rest.value.offspring);
    }
  }

  /**
   * The loop of crossover after some passes: the offspring so far in front of what the
   * remaining m passes breed from the current draw on. One more pass, as a run of the loop
   * body realizes it, either fails the whole loop or moves two offspring to the front.
   */
  lemma {:induction false} CrossoverRoundsStep(pop: seq<Individual>, s: Settings, tape: nat -> nat, pos: nat, m: nat,
                                               before: seq<Individual>, o: Outcome, after: seq<Individual>, next: nat)
    requires Crossed(o, before, after, next, CrossoverRound(pop, s, tape, pos))
    ensures o.Fail? ==> Prepend(before, CrossoverRounds(pop, s, tape, pos, m + 1)) == Err(o.fault)
    ensures o.Pass? ==> Prepend(before, CrossoverRounds(pop, s, tape, pos, m + 1)) == Prepend(after, CrossoverRounds(pop, s, tape, next, m))
  {
    var r := CrossoverRound(pop, s, tape, pos);
    var whole := CrossoverRounds(pop, s, tape, pos, m + 1);
    var rest := CrossoverRounds(pop, s, tape, next, m);
    CrossoverRoundsUnfold(pop, s, tape, pos, m + 1);
    assert r.Err? ==> whole == Err(r.fault);
    assert r.Ok? ==> whole == Prepend([r.value.first, r.value.second], CrossoverRounds(pop, s, tape, r.value.pos, m));
    PassPrepended(o, before, after, next, r, whole, rest);
  }

  /** The step of CrossoverRoundsStep on values: the pass r, the run after it, and the whole run from before it. */
  lemma PassPrepended(o: Outcome, before: seq<Individual>, after: seq<Individual>, next: nat,
                      r: Result<Offspring>, whole: Result<Bred>, rest: Result<Bred>)
    requires Crossed(o, before, after, next, r)
    requires r.Err? ==> whole == Err(r.fault)
    requires r.Ok? ==> whole == Prepend([r.value.first, r.value.second], rest)
    ensures o.Fail? ==> Prepend(before, whole) == Err(o.fault)
    ensures o.Pass? ==> Prepend(before, whole) == Prepend(after, rest)
  {
    if r.Ok? && rest.Ok? {
      var cs := [r.value.first, r.value.second];
      assert before + (cs + rest.value.offspring) == after + rest.value.offspring;
    }
  }

  lemma OffspringPrepended(s: Settings, a: Individual, b: Individual, cs: seq<Individual>)
    requires forall c :: c in cs ==> IsOffspring(s, c)
    requires IsOffspring(s, a) && IsOffspring(s, b)
    ensures forall c :: c in [a, b] + cs ==> IsOffspring(s, c)
  {
    assert forall c :: c in [a, b] + cs ==> c in cs || c == a || c == b;
  }

  /**
   * The number of passes of the crossover loop, which runs until the list holds at least
   * getCrossoverCount offspring, two per pass: C offspring for an even C, one more for an odd one.
   */
  function CrossoverPassCount(s: Settings): (k: nat)
    ensures 2 * k == CrossoverCount(s) + CrossoverCount(s) % 2
    ensures 2 * k >= CrossoverCount(s) && 2 * k < CrossoverCount(s) + 2
  {
    (CrossoverCount(s) + 1) / 2
  }

  /** With k passes done out of the count's passes, another pass is due exactly while fewer than c offspring are held. */
  lemma PassesLeft(c: int, k: nat, left: nat)
    requires c >= 2 && 2 * (k + left) == c + c % 2
    ensures 2 * k < c <==> left > 0
  {
  }

  /** Nothing bred before a run leaves the run as it is. */
  lemma PrependNothing(r: Result<Bred>)
    ensures Prepend([], r) == r
  {
    if r.Ok? {
      assert [] + r.value.offspring == r.value.offspring;
    }
  }

  /** No passes left: the offspring so far are the result, at the current draw. */
  lemma RoundsDone(pop: seq<Individual>, s: Settings, tape: nat -> nat, pos: nat, cs: seq<Individual>)
    ensures Prepend(cs, CrossoverRounds(pop, s, tape, pos, 0)) == Ok(Bred(cs, pos))
  {
    assert cs + [] == cs;
  }

  // ---------------------------------------------------------------------------------------
  // Mutation

  /** (int) (size * pm), as a loop bound: truncation toward zero, no iteration for a negative bound. */
  function MutateCount(size: nat, pm: real): nat
  {
    var c := TruncToInt(size as real * pm);
    if c >= 0 then c else 0
  }

  /** No mutation in an empty population, so nextInt(0) is never reached; at most N for pm <= 1. */
  lemma MutateCountBounds(size: nat, pm: real)
    ensures size == 0 ==> MutateCount(size, pm) == 0
    ensures 0.0 <= pm <= 1.0 && size < Strings.IntMax ==> MutateCount(size, pm) <= size
  {
    var r := size as real * pm;
    if size == 0 {
      assert r == 0.0;
    } else if 0.0 <= pm <= 1.0 && size < Strings.IntMax {
      assert r <= size as real by {
        assert size as real * (1.0 - pm) >= 0.0;
      }
      assert 0.0 <= r;
    }
  }

  /** One mutation: mutate_new on the individual at i; after a GPException it stays as it was. */
  function MutateAt(pop: seq<Individual>, s: Settings, i: nat): (r: seq<Individual>)
    requires i < |pop|
    ensures |r| == |pop|
  {
    match s.mutateNew(pop[i])
    case Ok(m) => pop[i := m]
    case Err(_) => pop
  }

  /** n mutations, each at an index drawn below the population size. */
  function Mutations(pop: seq<Individual>, s: Settings, tape: nat -> nat, pos: nat, n: nat): seq<Individual>
    requires n > 0 ==> |pop| > 0
    decreases n
  {
    if n == 0 then pop
    else Mutations(MutateAt(pop, s, Draw(tape, pos, |pop|)), s, tape, pos + 1, n - 1)
  }

  /** The indices n draws below size pick, from draw pos on. */
  function Draws(tape: nat -> nat, pos: nat, n: nat, size: nat): (r: seq<nat>)
    requires size > 0
    ensures |r| == n && forall k :: 0 <= k < n ==> r[k] < size
    decreases n
  {
    if n == 0 then [] else [Draw(tape, pos, size)] + Draws(tape, pos + 1, n - 1, size)
  }

  /** Mutation keeps the population size and leaves every individual no draw picked as it was. */
  lemma {:induction false} MutationsFrame(pop: seq<Individual>, s: Settings, tape: nat -> nat, pos: nat, n: nat)
    requires n > 0 ==> |pop| > 0
    decreases n
    ensures |Mutations(pop, s, tape, pos, n)| == |pop|
    ensures forall j :: 0 <= j < |pop| && (n > 0 ==> j !in Draws(tape, pos, n, |pop|)) ==>
      Mutations(pop, s, tape, pos, n)[j] == pop[j]
  {
    if n > 0 {
      var next := MutateAt(pop, s, Draw(tape, pos, |pop|));
      MutationsFrame(next, s, tape, pos + 1, n - 1);
    }
  }

  /** scoreFitness: every individual's fitness is its tree's calculateFitness. */
  function Scored(s: Settings, pop: seq<Individual>): (r: seq<Individual>)
    ensures |r| == |pop|
    ensures forall i :: 0 <= i < |pop| ==> r[i].tree == pop[i].tree && r[i].fitness == s.calculateFitness(pop[i].tree)
  {
    seq(|pop|, i requires 0 <= i < |pop| => pop[i].(fitness := s.calculateFitness(pop[i].tree)))
  }

  // ---------------------------------------------------------------------------------------
  // The factory calls of a generation, on tree values

  /**
   * generateFullTree(h) as the generation sees it: the Full build's tree with unset fitness,
   * the stream advanced past its draws.
   */
  method FullTree(rng: Random, s: Settings, h: int) returns (r: Result<Individual>)
    modifies rng
    ensures var spec := TreeFactory.SubtreeSpec(false, 0, h, rng.tape, old(rng.pos), s.operators, s.operands, s.parse);
      (spec.Err? ==> r == Err(spec.fault)) &&
      (spec.Ok? ==> r == Ok(Individual(spec.value.tree, NaN)) && rng.pos == spec.value.pos)
    ensures r.Ok? ==> FullAt(s, r.value.tree, h)
    ensures r.Err? ==> r.fault in {IllegalArgument, NumberFormat}
  {
    TreeFactory.SubtreeShape(false, 0, h, rng.tape, rng.pos, s.operators, s.operands, s.parse);
    var spec := TreeFactory.SubtreeSpec(false, 0, h, rng.tape, rng.pos, s.operators, s.operands, s.parse);
    if spec.Err? {
      return Err(spec.fault);
    }
    rng.pos := spec.value.pos;
    r := Ok(Individual(spec.value.tree, NaN));
  }

  /** generateGrowTree(h) as the generation sees it. */
  method GrowTree(rng: Random, s: Settings, h: int) returns (r: Result<Individual>)
    modifies rng
    ensures var spec := GrowSpec(s, h, rng.tape, old(rng.pos));
      (spec.Err? ==> r == Err(spec.fault)) &&
      (spec.Ok? ==> r == Ok(Individual(spec.value.tree, NaN)) && rng.pos == spec.value.pos)
    ensures r.Ok? ==> GrownAt(s, r.value.tree, h)
    ensures r.Err? ==> r.fault in {IllegalArgument, NumberFormat, RetriesExhausted}
  {
    TreeFactory.GrowTreeShape(h, false, rng.tape, rng.pos, s.attempts, s.operators, s.operands, s.parse);
    var spec := GrowSpec(s, h, rng.tape, rng.pos);
    if spec.Err? {
      return Err(spec.fault);
    }
    rng.pos := spec.value.pos;
    r := Ok(Individual(spec.value.tree, NaN));
  }

  /** Every tree of pop has the shape init gives the tree at its position. */
  predicate InitTrees(s: Settings, m: GenerationMethod, pop: seq<Individual>)
  {
    forall k :: 0 <= k < |pop| ==> InitShape(s, m, k, pop[k].tree)
  }

  /** The quotient and remainder of q * d + r by d, for r below d. */
  lemma DivSplit(q: nat, d: nat, r: nat)
    requires r < d
    ensures (q * d + r) / d == q && (q * d + r) % d == r
  {
    var n := q * d + r;
    var x := n / d - q;
    assert x * d == r - n % d by {
      assert n == (n / d) * d + n % d;
      assert (n / d) * d == x * d + q * d;
    }
  }

  // ---------------------------------------------------------------------------------------
  // The generation

  class GPGeneration {
    const settings: Settings
    var population: seq<Individual>
    var crossoverIndividuals: seq<Individual>
    var reproducedIndividuals: seq<Individual>
    var tournamentIndividuals: seq<Individual>

    /** GPGeneration(): an empty population and empty working lists. */
    constructor (settings: Settings)
      ensures this.settings == settings
      ensures population == [] && crossoverIndividuals == [] && reproducedIndividuals == [] && tournamentIndividuals == []
    {
      this.settings := settings;
      population := [];
      crossoverIndividuals := [];
      reproducedIndividuals := [];
      tournamentIndividuals := [];
    }

    /**
     * init: the trees of the generation method the settings name, appended to the population,
     * then every fitness scored. The population ends up with InitSize trees added, each of the
     * shape InitShape gives its position; valueOf of an unknown name and the division by zero
     * of a ramped method with H = 1 fail before any tree is built, and a failed build ends init.
     */
    method Init(rng: Random) returns (o: Outcome)
      modifies this, rng
      ensures crossoverIndividuals == old(crossoverIndividuals) && reproducedIndividuals == old(reproducedIndividuals)
      ensures tournamentIndividuals == old(tournamentIndividuals)
      ensures InitSize(settings).Err? ==> o == Fail(InitSize(settings).fault) && population == old(population)
      ensures o.Fail? ==> o.fault in {IllegalArgument, Arithmetic, NumberFormat, RetriesExhausted}
      ensures o.Pass? ==>
        InitSize(settings).Ok? && GenerationMethodOf(settings.generationMethod).Ok? &&
        |population| == |old(population)| + InitSize(settings).value &&
        (forall k :: 0 <= k < |old(population)| ==> population[k].tree == old(population)[k].tree) &&
        (forall k :: |old(population)| <= k < |population| ==>
          InitShape(settings, GenerationMethodOf(settings.generationMethod).value, k - |old(population)|, population[k].tree)) &&
        (forall k :: 0 <= k < |population| ==> population[k].fitness == settings.calculateFitness(population[k].tree))
    {
      var gm := GenerationMethodOf(settings.generationMethod);
      if gm.Err? {
        return Fail(gm.fault);
      }
      var m := gm.value;
      if m != FULL && m != GROW && settings.maxHtOfInitTree == 1 {
        return Fail(Arithmetic);
      }
      ghost var base := population;
      if m == RAMPED_HALF_AND_HALF {
        o := AddRampedHalfAndHalf(rng);
      } else if m == RAMPED_FULL || m == RAMPED_GROW {
        o := AddRamped(rng, m);
      } else {
        o := AddUniform(rng, m);
      }
      if o.Fail? {
        return;
      }
      ghost var added := population;
      InitSizeOfAppended(settings, m);
      ScoreFitness();
      ScoredKeepsShape(settings, m, base, added, InitSize(settings).value);
    }

    /** The per-height batches of ramped half-and-half: a Full and a Grow tree per step. */
    method AddRampedHalfAndHalf(rng: Random) returns (o: Outcome)
      requires settings.maxHtOfInitTree != 1
      modifies this`population, rng
      ensures o.Fail? ==> o.fault in {IllegalArgument, NumberFormat, RetriesExhausted}
      ensures o.Pass? ==> Appended(settings, RAMPED_HALF_AND_HALF, old(population), population,
                                   Ramps(settings.maxHtOfInitTree) * (2 * Batch(settings, RAMPED_HALF_AND_HALF)))
    {
      var h := settings.maxHtOfInitTree;
      var b := Max(Quot(settings.populationSize, (h - 1) * 2), 1);
      assert b == Batch(settings, RAMPED_HALF_AND_HALF);
      ghost var base := population;
      var rampedHeight := 2;
      while rampedHeight <= h
        invariant 2 <= rampedHeight <= Max(h, 1) + 1
        invariant Appended(settings, RAMPED_HALF_AND_HALF, base, population, (rampedHeight - 2) * (2 * b))
      {
        o := AddHalfAndHalfBatch(rng, rampedHeight, b, base);
        if o.Fail? {
          return;
        }
        rampedHeight := rampedHeight + 1;
      }
      o := Pass;
    }

    /** The inner loop of ramped half-and-half at one height: b Full and Grow pairs. */
    method AddHalfAndHalfBatch(rng: Random, rampedHeight: int, b: int, ghost base: seq<Individual>) returns (o: Outcome)
      requires rampedHeight >= 2 && b == Batch(settings, RAMPED_HALF_AND_HALF)
      requires Appended(settings, RAMPED_HALF_AND_HALF, base, population, (rampedHeight - 2) * (2 * b))
      modifies this`population, rng
      ensures o.Fail? ==> o.fault in {IllegalArgument, NumberFormat, RetriesExhausted}
      ensures o.Pass? ==> Appended(settings, RAMPED_HALF_AND_HALF, base, population, (rampedHeight - 1) * (2 * b))
    {
      var i := 0;
      while i < b
        invariant 0 <= i <= b
        invariant Appended(settings, RAMPED_HALF_AND_HALF, base, population, (rampedHeight - 2) * (2 * b) + 2 * i)
      {
        o := AddHalfAndHalfPair(rng, rampedHeight, b, i, base);
        if o.Fail? {
          return;
        }
        i := i + 1;
      }
      assert (rampedHeight - 2) * (2 * b) + 2 * b == (rampedHeight - 1) * (2 * b);
      o := Pass;
    }

    /** Step i of a half-and-half batch: a Full tree, then a Grow tree, both of the ramp's height. */
    method AddHalfAndHalfPair(rng: Random, rampedHeight: int, b: int, i: nat, ghost base: seq<Individual>) returns (o: Outcome)
      requires rampedHeight >= 2 && b == Batch(settings, RAMPED_HALF_AND_HALF) && i < b
      requires Appended(settings, RAMPED_HALF_AND_HALF, base, population, (rampedHeight - 2) * (2 * b) + 2 * i)
      modifies this`population, rng
      ensures o.Fail? ==> o.fault in {IllegalArgument, NumberFormat, RetriesExhausted}
      ensures o.Pass? ==> Appended(settings, RAMPED_HALF_AND_HALF, base, population, (rampedHeight - 2) * (2 * b) + 2 * i + 2)
    {
      ghost var k := (rampedHeight - 2) * (2 * b) + 2 * i;
      var full := FullTree(rng, settings, rampedHeight);
      if full.Err? {
        return Fail(full.fault);
      }
      var grow := GrowTree(rng, settings, rampedHeight);
      if grow.Err? {
        return Fail(grow.fault);
      }
      HalfAndHalfShape(settings, rampedHeight - 2, b, i, full.value.tree, grow.value.tree);
      AppendShaped(settings, RAMPED_HALF_AND_HALF, base, population, k, full.value);
      population := population + [full.value];
      AppendShaped(settings, RAMPED_HALF_AND_HALF, base, population, k + 1, grow.value);
      population := population + [grow.value];
      o := Pass;
    }

    /** The per-height batches of ramped Full or ramped Grow: one tree per step. */
    method AddRamped(rng: Random, m: GenerationMethod) returns (o: Outcome)
      requires m == RAMPED_FULL || m == RAMPED_GROW
      requires settings.maxHtOfInitTree != 1
      modifies this`population, rng
      ensures o.Fail? ==> o.fault in {IllegalArgument, NumberFormat, RetriesExhausted}
      ensures o.Pass? ==> Appended(settings, m, old(population), population, Ramps(settings.maxHtOfInitTree) * Batch(settings, m))
    {
      var h := settings.maxHtOfInitTree;
      var b := Max(Quot(settings.populationSize, h - 1), 1);
      assert b == Batch(settings, m);
      ghost var base := population;
      var rampedHeight := 2;
      while rampedHeight <= h
        invariant 2 <= rampedHeight <= Max(h, 1) + 1
        invariant Appended(settings, m, base, population, (rampedHeight - 2) * b)
      {
        o := AddRampedBatch(rng, m, rampedHeight, b, base);
        if o.Fail? {
          return;
        }
        rampedHeight := rampedHeight + 1;
      }
      o := Pass;
    }

    /** The inner loop of a ramped method at one height: b trees of that height. */
    method AddRampedBatch(rng: Random, m: GenerationMethod, rampedHeight: int, b: int, ghost base: seq<Individual>)
      returns (o: Outcome)
      requires m == RAMPED_FULL || m == RAMPED_GROW
      requires rampedHeight >= 2 && b == Batch(settings, m)
      requires Appended(settings, m, base, population, (rampedHeight - 2) * b)
      modifies this`population, rng
      ensures o.Fail? ==> o.fault in {IllegalArgument, NumberFormat, RetriesExhausted}
      ensures o.Pass? ==> Appended(settings, m, base, population, (rampedHeight - 1) * b)
    {
      var i := 0;
      while i < b
        invariant 0 <= i <= b
        invariant Appended(settings, m, base, population, (rampedHeight - 2) * b + i)
      {
        o := AddRampedOne(rng, m, rampedHeight, b, i, base);
        if o.Fail? {
          return;
        }
        i := i + 1;
      }
      assert (rampedHeight - 2) * b + b == (rampedHeight - 1) * b;
      o := Pass;
    }

    /** Step i of a ramped batch: one Full or Grow tree of the ramp's height. */
    method AddRampedOne(rng: Random, m: GenerationMethod, rampedHeight: int, b: int, i: nat, ghost base: seq<Individual>)
      returns (o: Outcome)
      requires m == RAMPED_FULL || m == RAMPED_GROW
      requires rampedHeight >= 2 && b == Batch(settings, m) && i < b
      requires Appended(settings, m, base, population, (rampedHeight - 2) * b + i)
      modifies this`population, rng
      ensures o.Fail? ==> o.fault in {IllegalArgument, NumberFormat, RetriesExhausted}
      ensures o.Pass? ==> Appended(settings, m, base, population, (rampedHeight - 2) * b + i + 1)
    {
      var tree: Result<Individual>;
      if m == RAMPED_FULL {
        tree := FullTree(rng, settings, rampedHeight);
      } else {
        tree := GrowTree(rng, settings, rampedHeight);
      }
      if tree.Err? {
        return Fail(tree.fault);
      }
      RampedShape(settings, m, rampedHeight - 2, b, i, tree.value.tree);
      AppendShaped(settings, m, base, population, (rampedHeight - 2) * b + i, tree.value);
      population := population + [tree.value];
      o := Pass;
    }

    /** Full or Grow: N trees of the maximum initial height. */
    method AddUniform(rng: Random, m: GenerationMethod) returns (o: Outcome)
      requires m == FULL || m == GROW
      modifies this`population, rng
      ensures o.Fail? ==> o.fault in {IllegalArgument, NumberFormat, RetriesExhausted}
      ensures o.Pass? ==> Appended(settings, m, old(population), population, IntAbs(Max(settings.populationSize, 0)))
    {
      ghost var base := population;
      var cnt := 0;
      while cnt < settings.populationSize
        invariant 0 <= cnt <= Max(settings.populationSize, 0)
        invariant Appended(settings, m, base, population, cnt)
      {
        var tree: Result<Individual>;
        if m == FULL {
          tree := FullTree(rng, settings, settings.maxHtOfInitTree);
        } else {
          tree := GrowTree(rng, settings, settings.maxHtOfInitTree);
        }
        if tree.Err? {
          return Fail(tree.fault);
        }
        AppendShaped(settings, m, base, population, cnt, tree.value);
        population := population + [tree.value];
        cnt := cnt + 1;
      }
      o := Pass;
    }

    /** scoreFitness: every individual's fitness calculated from its tree. */
    method ScoreFitness()
      modifies this`population
      ensures population == Scored(settings, old(population))
    {
      ghost var before := population;
      ghost var target := Scored(settings, before);
      var i := 0;
      while i < |population|
        invariant 0 <= i <= |population| == |before|
        invariant forall k :: 0 <= k < i ==> population[k] == target[k]
        invariant forall k :: i <= k < |population| ==> population[k] == before[k]
      {
        population := population[i := population[i].(fitness := settings.calculateFitness(population[i].tree))];
        i := i + 1;
      }
      assert population == target;
    }

    /** getBestIndividual: the first element strictly smaller than every one before it; firstElement of an empty population fails. */
    method GetBestIndividual() returns (r: Result<Individual>)
      ensures |population| == 0 ==> r == Err(NoSuchElement)
      ensures |population| > 0 ==> r == Ok(population[FirstMin(population)])
      ensures r.Ok? ==> r.value in population && forall k :: 0 <= k < |population| ==> CompareFitness(r.value, population[k]) <= 0
    {
      if |population| == 0 {
        return Err(NoSuchElement);
      }
      var best := population[0];
      var i := 0;
      while i < |population|
        invariant 0 <= i <= |population|
        invariant i == 0 ==> best == population[0]
        invariant i > 0 ==> best == population[FirstMin(population[..i])]
      {
        if i > 0 {
          assert population[..i + 1][..i] == population[..i];
        }
        if CompareFitness(population[i], best) < 0 {
          best := population[i];
        }
        i := i + 1;
      }
      assert population[..i] == population;
      FirstMinIsFirstMin(population);
      r := Ok(best);
    }

    /**
     * naturalSelection(k): the population sorted in place, then its first k individuals;
     * subList fails for k above the size and for a negative k.
     */
    method NaturalSelection(k: int) returns (r: Result<seq<Individual>>)
      modifies this`population
      ensures population == Sort(old(population))
      ensures 0 <= k <= |population| ==> r == Ok(population[..k])
      ensures k > |population| ==> r == Err(IndexOutOfBounds)
      ensures k < 0 ==> r == Err(IllegalArgument)
    {
      population := Sort(population);
      if k > |population| {
        return Err(IndexOutOfBounds);
      } else if k < 0 {
        return Err(IllegalArgument);
      }
      r := Ok(population[..k]);
    }

    /** The draw loop of tournamentSelection: the entrants drawn with replacement into the tournament list. */
    method DrawEntrants(rng: Random) returns (o: Outcome)
      modifies this`tournamentIndividuals, rng
      ensures o.Fail? <==> settings.tournamentSize > 0 && |population| == 0
      ensures o.Fail? ==> o.fault == IllegalArgument
      ensures o.Pass? && settings.tournamentSize > 0 ==>
        rng.pos == old(rng.pos) + settings.tournamentSize &&
        tournamentIndividuals == Picks(population, rng.tape, old(rng.pos), settings.tournamentSize)
    {
      ghost var p0 := rng.pos;
      var n := settings.tournamentSize;
      tournamentIndividuals := [];
      var i := 0;
      while i < n
        invariant 0 <= i && (n >= 0 ==> i <= n)
        invariant i > 0 ==> |population| > 0
        invariant |population| > 0 ==> rng.pos == p0 + i && tournamentIndividuals == Picks(population, rng.tape, p0, i)
      {
        if |population| == 0 {
          return Fail(IllegalArgument);
        }
        var d := rng.NextInt(|population|);
        tournamentIndividuals := tournamentIndividuals + [population[d]];
        i := i + 1;
      }
      o := Pass;
    }

    /**
     * Collections.sort of the tournament list: the drawn entrants become the sorted entrants
     * (EntrantsAreSortedPicks: the stable sort of the draws).
     */
    method SortEntrants(ghost tape: nat -> nat, ghost pos: nat, n: nat)
      requires |population| > 0 && tournamentIndividuals == Picks(population, tape, pos, n)
      modifies this`tournamentIndividuals
      ensures tournamentIndividuals == Entrants(population, tape, pos, n)
    {
      EntrantsAreSortedPicks(population, tape, pos, n);
      tournamentIndividuals := Sort(tournamentIndividuals);
    }

    /**
     * tournamentSelection(level): draws the entrants into the tournament list, sorts it and
     * takes its head; a head that does not qualify starts the next tournament, and at level 5
     * a Grow tree takes its place.
     */
    method TournamentSelection(rng: Random, level: nat) returns (r: Result<Individual>)
      requires level <= 5
      modifies this`tournamentIndividuals, rng
      decreases 5 - level, 2
      ensures Realized(r, rng.pos, tournamentIndividuals, old(TournamentSpec(population, settings, rng.tape, rng.pos, level)))
    {
      ghost var p0 := rng.pos;
      TournamentFaults(population, settings, rng.tape, p0, level);
      var n := settings.tournamentSize;
      if n > 0 && |population| > 0 {
        TournamentHeld(population, settings, rng.tape, p0, level);
      }
      var drawn := DrawEntrants(rng);
      if drawn.Fail? {
        return Err(drawn.fault);
      }
      if n <= 0 {
        return Err(NoSuchElement);
      }
      SortEntrants(rng.tape, p0, n);
      r := TournamentWinner(rng, level);
    }

    /** The rest of tournamentSelection once the entrants are sorted: the head, or the next tournament, or a Grow tree. */
    method TournamentWinner(rng: Random, level: nat) returns (r: Result<Individual>)
      requires level <= 5 && |tournamentIndividuals| > 0
      modifies this`tournamentIndividuals, rng
      decreases 5 - level, 1
      ensures Realized(r, rng.pos, tournamentIndividuals, old(Held(population, settings, rng.tape, rng.pos, level, tournamentIndividuals)))
    {
      var best := tournamentIndividuals[0];
      if Qualifies(best) {
        return Ok(best);
      }
      if level >= 5 {
        r := TournamentFallback(rng);
      } else {
        r := TournamentRetry(rng, level);
      }
    }

    /** At level 5 a head that does not qualify gives way to a Grow tree of the initial height. */
    method TournamentFallback(rng: Random) returns (r: Result<Individual>)
      requires |tournamentIndividuals| > 0 && !Qualifies(tournamentIndividuals[0])
      modifies rng
      ensures Realized(r, rng.pos, tournamentIndividuals, old(Held(population, settings, rng.tape, rng.pos, 5, tournamentIndividuals)))
    {
      r := GrowTree(rng, settings, settings.maxHtOfInitTree);
    }

    /** A head that does not qualify below level 5: another tournament, one level deeper, one round more. */
    method TournamentRetry(rng: Random, level: nat) returns (r: Result<Individual>)
      requires level < 5
      modifies this`tournamentIndividuals, rng
      decreases 5 - level, 0
      ensures Realized(r, rng.pos, tournamentIndividuals, Retried(old(TournamentSpec(population, settings, rng.tape, rng.pos, level + 1))))
    {
      ghost var sub := TournamentSpec(population, settings, rng.tape, rng.pos, level + 1);
      r := TournamentSelection(rng, level + 1);
      RealizedRetry(r, rng.pos, tournamentIndividuals, Retried(sub), sub);
    }

    /**
     * reproduction: the individuals carried into the next generation unchanged. Natural
     * selection sorts the population and takes its first getReproductionCount individuals,
     * which subList refuses when the population is smaller; tournament selection holds that
     * many tournaments. valueOf of an unknown method name fails before anything changes.
     */
    method Reproduction(rng: Random) returns (o: Outcome)
      modifies this`population, this`reproducedIndividuals, this`tournamentIndividuals, rng
      ensures ReproductionMethodOf(settings.reproductionMethod).Err? ==>
        o == Fail(IllegalArgument) && population == old(population) &&
        reproducedIndividuals == old(reproducedIndividuals) && rng.pos == old(rng.pos)
      ensures ReproductionMethodOf(settings.reproductionMethod) == Ok(NATURAL_SELECTION) ==>
        population == Sort(old(population)) && rng.pos == old(rng.pos) &&
        (ReproductionCount(settings) <= |population| ==>
          o == Pass && reproducedIndividuals == population[..ReproductionCount(settings)]) &&
        (ReproductionCount(settings) > |population| ==> o == Fail(IndexOutOfBounds) && reproducedIndividuals == [])
      ensures ReproductionMethodOf(settings.reproductionMethod) == Ok(TOURNAMENT_SELECTION) ==>
        population == old(population) &&
        var spec := TournamentRuns(population, settings, rng.tape, old(rng.pos), ReproductionCount(settings));
        (spec.Err? ==> o == Fail(spec.fault)) &&
        (spec.Ok? ==> o == Pass && reproducedIndividuals == spec.value.winners && rng.pos == spec.value.pos)
    {
      var rm := ReproductionMethodOf(settings.reproductionMethod);
      if rm.Err? {
        return Fail(rm.fault);
      }
      var count := ReproductionCount(settings);
      reproducedIndividuals := [];
      if rm.value == NATURAL_SELECTION {
        var top := NaturalSelection(count);
        if top.Err? {
          return Fail(top.fault);
        }
        reproducedIndividuals := top.value;
        o := Pass;
      } else {
        o := TournamentReproduction(rng, count);
      }
    }

    /** The tournament loop of reproduction: count winners appended to the cleared list. */
    method TournamentReproduction(rng: Random, count: nat) returns (o: Outcome)
      requires reproducedIndividuals == []
      modifies this`reproducedIndividuals, this`tournamentIndividuals, rng
      ensures var spec := TournamentRuns(population, settings, rng.tape, old(rng.pos), count);
        (spec.Err? ==> o == Fail(spec.fault)) &&
        (spec.Ok? ==> o == Pass && reproducedIndividuals == spec.value.winners && rng.pos == spec.value.pos)
    {
      ghost var p0 := rng.pos;
      var i := 0;
      while i < count
        invariant 0 <= i <= count
        invariant TournamentRuns(population, settings, rng.tape, p0, i) == Ok(Runs(reproducedIndividuals, rng.pos))
      {
        o := ReproduceOne(rng, p0, i);
        if o.Fail? {
          assert TournamentRuns(population, settings, rng.tape, p0, count) == Err(o.fault) by {
            TournamentRunsFailed(population, settings, rng.tape, p0, i + 1, count);
          }
          return;
        }
        i := i + 1;
      }
      o := Pass;
    }

    /** One pass of the tournament loop: the winner of one more tournament appended. */
    method ReproduceOne(rng: Random, ghost p0: nat, ghost i: nat) returns (o: Outcome)
      requires TournamentRuns(population, settings, rng.tape, p0, i) == Ok(Runs(reproducedIndividuals, rng.pos))
      modifies this`reproducedIndividuals, this`tournamentIndividuals, rng
      ensures o.Fail? ==> TournamentRuns(population, settings, rng.tape, p0, i + 1) == Err(o.fault)
      ensures o.Pass? ==> TournamentRuns(population, settings, rng.tape, p0, i + 1) == Ok(Runs(reproducedIndividuals, rng.pos))
    {
      ghost var pop, prev := population, Runs(reproducedIndividuals, rng.pos);
      var w := TournamentSelection(rng, 0);
      assert population == pop;
      TournamentRunsStep(pop, settings, rng.tape, p0, i, prev, w, rng.pos, tournamentIndividuals);
      if w.Err? {
        return Fail(w.fault);
      }
      reproducedIndividuals := reproducedIndividuals + [w.value];
      o := Pass;
    }

    /** The height guard of crossoverOperation on one offspring. */
    method Guarded(rng: Random, e: Expr) returns (r: Result<Individual>)
      modifies rng
      ensures var spec := Guard(settings, e, rng.tape, old(rng.pos));
        (spec.Err? ==> r == Err(spec.fault)) &&
        (spec.Ok? ==> r == Ok(Individual(spec.value.tree, NaN)) && rng.pos == spec.value.pos)
    {
      if Height(e) <= settings.maxHtOfCrossoverTree {
        return Ok(Individual(e, NaN));
      }
      r := GrowTree(rng, settings, settings.maxHtOfInitTree);
    }

    /**
     * crossoverOperation(x, y, list): clones of both parents with fitness and flags reset, a
     * point drawn in each, the subtrees at the points swapped, and each offspring appended to
     * the list, or a Grow tree of the initial height in place of one above the crossover height.
     */
    method CrossoverOperation(rng: Random, x: Individual, y: Individual) returns (o: Outcome)
      modifies this`crossoverIndividuals, rng
      ensures Crossed(o, old(crossoverIndividuals), crossoverIndividuals, rng.pos, CrossoverSpec(x, y, settings, rng.tape, old(rng.pos)))
    {
      var t1, t2 := SwapAtRandomPoints(rng, x, y);
      o := AppendGuarded(rng, t1, t2);
    }

    /** The clones reset, a point drawn in each, and the subtrees at the points swapped. */
    method SwapAtRandomPoints(rng: Random, x: Individual, y: Individual) returns (t1: Expr, t2: Expr)
      modifies rng
      ensures (t1, t2) == Swapped(x, y, rng.tape, old(rng.pos)) && rng.pos == old(rng.pos) + 2
    {
      ghost var p0 := rng.pos;
      var a := ResetFlags(x.tree);
      var b := ResetFlags(y.tree);
      var i := rng.NextInt(Size(a));
      var j := rng.NextInt(Size(b));
      SwappedAt(x, y, rng.tape, p0, i, j);
      var pa := PostOrder(a)[i];
      var pb := PostOrder(b)[j];
      t1, t2 := Swap(a, pa, b, pb).0, Swap(a, pa, b, pb).1;
    }

    /** Each swapped tree, or a Grow tree in place of one above the crossover height, appended in turn. */
    method AppendGuarded(rng: Random, t1: Expr, t2: Expr) returns (o: Outcome)
      modifies this`crossoverIndividuals, rng
      ensures Crossed(o, old(crossoverIndividuals), crossoverIndividuals, rng.pos, GuardedPair(settings, t1, t2, rng.tape, old(rng.pos)))
    {
      var g1 := Guarded(rng, t1);
      if g1.Err? {
        return Fail(g1.fault);
      }
      crossoverIndividuals := crossoverIndividuals + [g1.value];
      var g2 := Guarded(rng, t2);
      if g2.Err? {
        assert crossoverIndividuals[..|old(crossoverIndividuals)|] == old(crossoverIndividuals);
        return Fail(g2.fault);
      }
      crossoverIndividuals := crossoverIndividuals + [g2.value];
      o := Pass;
    }

    /** One pass of the crossover loop: two tournament winners, crossed into the offspring list. */
    method CrossoverStep(rng: Random) returns (o: Outcome)
      modifies this`crossoverIndividuals, this`tournamentIndividuals, rng
      ensures Crossed(o, old(crossoverIndividuals), crossoverIndividuals, rng.pos, CrossoverRound(population, settings, rng.tape, old(rng.pos)))
    {
      ghost var pop, p0 := population, rng.pos;
      var x := TournamentSelection(rng, 0);
      FirstParent(pop, settings, rng.tape, p0, x, rng.pos, tournamentIndividuals);
      if x.Err? {
        return Fail(x.fault);
      }
      ghost var p1 := rng.pos;
      var y := TournamentSelection(rng, 0);
      SecondParent(pop, settings, rng.tape, x.value, p1, y, rng.pos, tournamentIndividuals);
      if y.Err? {
        return Fail(y.fault);
      }
      o := CrossoverOperation(rng, x.value, y.value);
    }

    /**
     * crossover: the cleared offspring list filled by passes of two tournaments and one
     * crossoverOperation until it holds at least getCrossoverCount individuals.
     */
    method Crossover(rng: Random) returns (o: Outcome)
      modifies this`crossoverIndividuals, this`tournamentIndividuals, rng
      ensures var spec := CrossoverRounds(population, settings, rng.tape, old(rng.pos), CrossoverPassCount(settings));
        (spec.Err? ==> o == Fail(spec.fault)) &&
        (spec.Ok? ==> o == Pass && crossoverIndividuals == spec.value.offspring && rng.pos == spec.value.pos)
    {
      ghost var p0 := rng.pos;
      var count := CrossoverCount(settings);
      ghost var passes := CrossoverPassCount(settings);
      crossoverIndividuals := [];
      ghost var k: nat, left: nat := 0, passes;
      PrependNothing(CrossoverRounds(population, settings, rng.tape, p0, passes));
      while |crossoverIndividuals| < count
        invariant |crossoverIndividuals| == 2 * k && 2 * (k + left) == count + count % 2
        invariant Prepend(crossoverIndividuals, CrossoverRounds(population, settings, rng.tape, rng.pos, left)) ==
                  CrossoverRounds(population, settings, rng.tape, p0, passes)
        decreases count - |crossoverIndividuals|
      {
        PassesLeft(count, k, left);
        ghost var m: nat := left - 1;
        o := BreedOne(rng, p0, passes, m);
        if o.Fail? {
          return;
        }
        k, left := k + 1, m;
      }
      PassesLeft(count, k, left);
      RoundsDone(population, settings, rng.tape, rng.pos, crossoverIndividuals);
      o := Pass;
    }

    /** One pass of the crossover loop, with m passes still to come after it. */
    method BreedOne(rng: Random, ghost p0: nat, ghost passes: nat, ghost m: nat) returns (o: Outcome)
      requires Prepend(crossoverIndividuals, CrossoverRounds(population, settings, rng.tape, rng.pos, m + 1)) ==
               CrossoverRounds(population, settings, rng.tape, p0, passes)
      modifies this`crossoverIndividuals, this`tournamentIndividuals, rng
      ensures o.Fail? ==> CrossoverRounds(population, settings, rng.tape, p0, passes) == Err(o.fault)
      ensures o.Pass? ==> |crossoverIndividuals| == |old(crossoverIndividuals)| + 2
      ensures o.Pass? ==> Prepend(crossoverIndividuals, CrossoverRounds(population, settings, rng.tape, rng.pos, m)) ==
                          CrossoverRounds(population, settings, rng.tape, p0, passes)
    {
      ghost var pop, before, pos := population, crossoverIndividuals, rng.pos;
      o := CrossoverStep(rng);
      assert population == pop;
      CrossoverRoundsStep(pop, settings, rng.tape, pos, m, before, o, crossoverIndividuals, rng.pos);
    }

    /**
     * mutate: (int)(size * pm) times, mutate_new on the individual at an index drawn below the
     * population size; an individual whose mutation fails stays as it was.
     */
    method Mutate(rng: Random)
      modifies this`population, rng
      ensures var n := MutateCount(|old(population)|, settings.mutationProbability);
        population == Mutations(old(population), settings, rng.tape, old(rng.pos), n) && rng.pos == old(rng.pos) + n
    {
      ghost var p0, start := rng.pos, population;
      var count := MutateCount(|population|, settings.mutationProbability);
      var i := 0;
      while i < count
        invariant 0 <= i <= count && |population| == |start| && rng.pos == p0 + i
        invariant Mutations(population, settings, rng.tape, rng.pos, count - i) == Mutations(start, settings, rng.tape, p0, count)
      {
        var d := rng.NextInt(|population|);
        var m := settings.mutateNew(population[d]);
        if m.Ok? {
          population := population[d := m.value];
        }
        i := i + 1;
      }
    }

    /**
     * nextGeneration: a fresh generation holding the reproduced individuals followed by the
     * crossover offspring, mutated and then scored. A failure of reproduction or crossover
     * ends it without a new generation.
     */
    method NextGeneration(rng: Random) returns (r: Result<GPGeneration>, ghost mutatePos: nat)
      modifies this`population, this`reproducedIndividuals, this`crossoverIndividuals, this`tournamentIndividuals, rng
      ensures !SizesAllowed(settings) ==> r == Err(IllegalArgument)
      ensures ReproductionMethodOf(settings.reproductionMethod).Err? ==> r == Err(IllegalArgument)
      ensures r.Err? ==> r.fault in {IllegalArgument, IndexOutOfBounds, NoSuchElement, NumberFormat, RetriesExhausted}
      ensures r.Ok? ==>
        fresh(r.value) && r.value.settings == settings &&
        var parents := reproducedIndividuals + crossoverIndividuals;
        var n := MutateCount(|parents|, settings.mutationProbability);
        |parents| == ReproductionCount(settings) + CrossoverCount(settings) + CrossoverCount(settings) % 2 &&
        r.value.population == Scored(settings, Mutations(parents, settings, rng.tape, mutatePos, n)) &&
        rng.pos == mutatePos + n
    {
      var created := NewGeneration(settings);
      if created.Err? {
        return Err(created.fault), 0;
      }
      var next := created.value;
      var o := ReproductionPhase(rng);
      if o.Fail? {
        return Err(o.fault), 0;
      }
      next.population := next.population + reproducedIndividuals;
      o := CrossoverPhase(rng);
      if o.Fail? {
        return Err(o.fault), 0;
      }
      next.population := next.population + crossoverIndividuals;
      assert next.population == reproducedIndividuals + crossoverIndividuals;
      mutatePos := rng.pos;
      next.MutateAndScore(rng);
      r := Ok(next);
    }

    /** reproduction as nextGeneration sees it: its faults, and getReproductionCount individuals on success. */
    method ReproductionPhase(rng: Random) returns (o: Outcome)
      modifies this`population, this`reproducedIndividuals, this`tournamentIndividuals, rng
      ensures ReproductionMethodOf(settings.reproductionMethod).Err? ==> o == Fail(IllegalArgument)
      ensures o.Fail? ==> o.fault in {IllegalArgument, IndexOutOfBounds, NoSuchElement, NumberFormat, RetriesExhausted}
      ensures o.Pass? ==> |reproducedIndividuals| == ReproductionCount(settings)
    {
      ghost var pop, p0 := population, rng.pos;
      o := Reproduction(rng);
      TournamentRunsOutcome(pop, settings, rng.tape, p0, ReproductionCount(settings));
    }

    /** crossover as nextGeneration sees it: its faults, and getCrossoverCount offspring rounded up to even on success. */
    method CrossoverPhase(rng: Random) returns (o: Outcome)
      modifies this`crossoverIndividuals, this`tournamentIndividuals, rng
      ensures o.Fail? ==> o.fault in {IllegalArgument, NoSuchElement, NumberFormat, RetriesExhausted}
      ensures o.Pass? ==> |crossoverIndividuals| == CrossoverCount(settings) + CrossoverCount(settings) % 2
    {
      ghost var pop, p0 := population, rng.pos;
      o := Crossover(rng);
      CrossoverRoundsOutcome(pop, settings, rng.tape, p0, CrossoverPassCount(settings));
    }

    /** The tail of nextGeneration on the new generation: mutate, then scoreFitness. */
    method MutateAndScore(rng: Random)
      modifies this`population, rng
      ensures var n := MutateCount(|old(population)|, settings.mutationProbability);
        population == Scored(settings, Mutations(old(population), settings, rng.tape, old(rng.pos), n)) &&
        rng.pos == old(rng.pos) + n
    {
      Mutate(rng);
      ScoreFitness();
    }
  }

  /**
   * The capacities GPGeneration() gives its four vectors are non-negative: the population
   * size and the tournament size (the crossover and reproduction counts are at least 2 and 1).
   */
  predicate SizesAllowed(s: Settings)
  {
    s.populationSize >= 0 && s.tournamentSize >= 0
  }

  /**
   * GPGeneration(): new Vector(capacity) throws IllegalArgumentException for a negative
   * capacity, so a negative population or tournament size fails; otherwise an empty generation.
   */
  method NewGeneration(settings: Settings) returns (r: Result<GPGeneration>)
    ensures r.Err? <==> !SizesAllowed(settings)
    ensures r.Err? ==> r.fault == IllegalArgument
    ensures r.Ok? ==> fresh(r.value) && r.value.settings == settings && r.value.population == []
    ensures r.Ok? ==> r.value.crossoverIndividuals == [] && r.value.reproducedIndividuals == [] && r.value.tournamentIndividuals == []
  {
    if settings.populationSize < 0 || settings.tournamentSize < 0 {
      return Err(IllegalArgument);
    }
    var g := new GPGeneration(settings);
    r := Ok(g);
  }

  /** pop is base with count trees appended, each of the shape init gives its position. */
  predicate Appended(s: Settings, m: GenerationMethod, base: seq<Individual>, pop: seq<Individual>, count: int)
  {
    count >= 0 && |pop| == |base| + count && pop[..|base|] == base && InitTrees(s, m, pop[|base|..])
  }

  /** The pair of step i at ramp q of ramped half-and-half sits at 2 * (q * b + i) and the next position. */
  lemma HalfAndHalfShape(s: Settings, q: nat, b: int, i: nat, full: Expr, grow: Expr)
    requires b == Batch(s, RAMPED_HALF_AND_HALF) && i < b
    requires FullAt(s, full, 2 + q) && GrownAt(s, grow, 2 + q)
    ensures InitShape(s, RAMPED_HALF_AND_HALF, q * (2 * b) + 2 * i, full)
    ensures InitShape(s, RAMPED_HALF_AND_HALF, q * (2 * b) + 2 * i + 1, grow)
  {
    HalfAndHalfIndex(q, b, i);
  }

  /** Positions q * 2b + 2i and the next one are even and odd, both in ramp q. */
  lemma HalfAndHalfIndex(q: nat, b: nat, i: nat)
    requires i < b
    ensures (q * (2 * b) + 2 * i) % 2 == 0 && (q * (2 * b) + 2 * i) / (2 * b) == q
    ensures (q * (2 * b) + 2 * i + 1) % 2 == 1 && (q * (2 * b) + 2 * i + 1) / (2 * b) == q
  {
    var d := 2 * b;
    DivSplit(q, d, 2 * i);
    DivSplit(q, d, 2 * i + 1);
    DoubledParity(q * b + i);
    assert q * d + 2 * i == 2 * (q * b + i);
  }

  lemma DoubledParity(n: nat)
    ensures (2 * n) % 2 == 0 && (2 * n + 1) % 2 == 1
  {
  }

  /** The tree of step i at ramp q of a ramped method sits at q * b + i. */
  lemma RampedShape(s: Settings, m: GenerationMethod, q: nat, b: int, i: nat, e: Expr)
    requires m == RAMPED_FULL || m == RAMPED_GROW
    requires b == Batch(s, m) && i < b
    requires m == RAMPED_FULL ==> FullAt(s, e, 2 + q)
    requires m == RAMPED_GROW ==> GrownAt(s, e, 2 + q)
    ensures InitShape(s, m, q * b + i, e)
  {
    DivSplit(q, b, i);
  }

  /** The count the helpers of init append is InitSize. */
  lemma InitSizeOfAppended(s: Settings, m: GenerationMethod)
    requires GenerationMethodOf(s.generationMethod) == Ok(m)
    requires m != FULL && m != GROW ==> s.maxHtOfInitTree != 1
    ensures InitSize(s).Ok?
    ensures m == RAMPED_HALF_AND_HALF ==> InitSize(s).value == Ramps(s.maxHtOfInitTree) * (2 * Batch(s, m))
    ensures (m == RAMPED_FULL || m == RAMPED_GROW) ==> InitSize(s).value == Ramps(s.maxHtOfInitTree) * Batch(s, m)
    ensures (m == FULL || m == GROW) ==> InitSize(s).value == IntAbs(Max(s.populationSize, 0))
  {
    var r := Ramps(s.maxHtOfInitTree);
    var b := Batch(s, m);
    assert r * (2 * b) == 2 * b * r && r * b == b * r;
  }

  /** Scoring keeps the trees, so the appended trees keep their shapes. */
  lemma ScoredKeepsShape(s: Settings, m: GenerationMethod, base: seq<Individual>, added: seq<Individual>, count: nat)
    requires Appended(s, m, base, added, count)
    ensures var p := Scored(s, added);
      |p| == |base| + count &&
      (forall k :: 0 <= k < |base| ==> p[k].tree == base[k].tree) &&
      (forall k :: |base| <= k < |p| ==> InitShape(s, m, k - |base|, p[k].tree))
  {
    var p := Scored(s, added);
    forall k | |base| <= k < |p| ensures InitShape(s, m, k - |base|, p[k].tree) {
      assert p[k].tree == added[|base|..][k - |base|].tree;
    }
    forall k | 0 <= k < |base| ensures p[k].tree == base[k].tree {
      assert added[..|base|][k] == added[k];
    }
  }

  /** Appending a tree of the shape of position k keeps Appended, one position further. */
  lemma AppendShaped(s: Settings, m: GenerationMethod, base: seq<Individual>, pop: seq<Individual>, k: int, ind: Individual)
    requires Appended(s, m, base, pop, k) && k >= 0 && InitShape(s, m, k, ind.tree)
    ensures Appended(s, m, base, pop + [ind], k + 1)
  {
    var next := pop + [ind];
    assert next[..|base|] == base;
    assert next[|base|..] == pop[|base|..] + [ind];
  }
}
