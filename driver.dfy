/**
 * The newer application's main line (src/.../gp/GPMain.java): processGP evolves generations
 * until the best individual meets the fitness goal, and two stall counters decide, generation
 * by generation, between a normal step, an injection of new DNA and a restart from scratch;
 * calculateElapsedTime renders the time the search took.
 *
 * How a generation is produced (GPGeneration.init and nextGeneration(boolean)) and the wall
 * clock are parameters of the loop: a World gives the next generation for each kind of step,
 * the best individual of a generation, and the elapsed milliseconds seen by each loop test.
 */
module Driver {
  import opened Wrappers
  import opened Fitness
  import opened Generation
  import Strings

  const RESTART_POPULATION_THRESHOLD: int := 10
  const MAX_GP_TIME: int := 1000 * 60 * 15

  // ---------------------------------------------------------------------------------------
  // calculateElapsedTime

  datatype Elapsed = Elapsed(minutes: nat, seconds: nat, millis: nat)

  /**
   * The TimeUnit arithmetic of calculateElapsedTime for a non-negative duration: the whole
   * minutes, then the whole seconds left over, then the milliseconds left over.
   */
  function ElapsedParts(ms: nat): (e: Elapsed)
    ensures e.minutes == ms / 60000
    ensures e.seconds < 60 && e.millis < 1000
    ensures 60000 * e.minutes + 1000 * e.seconds + e.millis == ms
  {
    var minutes := ms / 60000;
    ElapsedArith(ms, minutes);
    var seconds := ms / 1000 - minutes * 60;
    var millis := ms - minutes * 60000 - seconds * 1000;
    Elapsed(minutes, seconds, millis)
  }

  /** The facts about minutes and seconds ElapsedParts needs. */
  lemma ElapsedArith(ms: nat, minutes: nat)
    requires minutes == ms / 60000
    ensures 0 <= ms / 1000 - minutes * 60 < 60
    ensures 0 <= ms - minutes * 60000 - (ms / 1000 - minutes * 60) * 1000 < 1000
  {
    var s := ms / 1000;
    assert s * 1000 <= ms < s * 1000 + 1000;
    assert (minutes * 60) * 1000 <= ms < (minutes * 60 + 60) * 1000;
    TimesMonotone(s + 1, minutes * 60, 1000);
    TimesMonotone(minutes * 60 + 60, s, 1000);
  }

  /** Multiplying by a non-negative factor keeps the order. */
  lemma TimesMonotone(x: int, y: int, k: int)
    requires k >= 0
    ensures x <= y ==> x * k <= y * k
  {
    if x <= y {
      assert y * k == x * k + (y - x) * k;
    }
  }

  /** The decomposition is the only one with seconds below 60 and milliseconds below 1000. */
  lemma ElapsedUnique(ms: nat, e: Elapsed)
    requires e.seconds < 60 && e.millis < 1000
    requires 60000 * e.minutes + 1000 * e.seconds + e.millis == ms
    ensures e == ElapsedParts(ms)
  {
    var f := ElapsedParts(ms);
    TimesMonotone(e.minutes + 1, f.minutes, 60000);
    TimesMonotone(f.minutes + 1, e.minutes, 60000);
    assert e.minutes == f.minutes;
    TimesMonotone(e.seconds + 1, f.seconds, 1000);
    TimesMonotone(f.seconds + 1, e.seconds, 1000);
  }

  /**
   * String.format("%02d:%02d.%d", ...): minutes and seconds zero padded to two digits, the
   * milliseconds printed without padding. The text reads back as the three fields: the digits
   * before the colon are the minutes, the two after it the seconds, and the digits after the
   * point the milliseconds; below 100 minutes the colon and the point sit at 2 and 5.
   */
  function ElapsedText(ms: nat): (s: string)
    ensures var e := ElapsedParts(ms);
      exists i :: 2 <= i && i + 4 < |s| && s[i] == ':' && s[i + 3] == '.' &&
        Strings.AllDigits(s[..i]) && Strings.DigitsValue(s[..i]) == e.minutes &&
        Strings.AllDigits(s[i + 1..i + 3]) && Strings.DigitsValue(s[i + 1..i + 3]) == e.seconds &&
        Strings.AllDigits(s[i + 4..]) && Strings.DigitsValue(s[i + 4..]) == e.millis &&
        (i + 5 < |s| ==> s[i + 4] != '0')
    ensures ElapsedParts(ms).minutes < 100 ==> |s| >= 7 && s[2] == ':' && s[5] == '.'
    ensures |Strings.Pad2(ElapsedParts(ms).seconds)| == 2
  {
    var e := ElapsedParts(ms);
    SecondsTwoDigits(e.seconds);
    ElapsedFields(e.minutes, e.seconds, e.millis);
    Strings.Pad2(e.minutes) + ":" + Strings.Pad2(e.seconds) + "." + Strings.NatToString(e.millis)
  }

  /** The three fields of the elapsed-time text can be read back from it. */
  lemma ElapsedFields(minutes: nat, seconds: nat, millis: nat)
    requires seconds < 60
    ensures var s := Strings.Pad2(minutes) + ":" + Strings.Pad2(seconds) + "." + Strings.NatToString(millis);
      var i := |Strings.Pad2(minutes)|;
      2 <= i && i + 4 < |s| && s[i] == ':' && s[i + 3] == '.' &&
      Strings.AllDigits(s[..i]) && Strings.DigitsValue(s[..i]) == minutes &&
      Strings.AllDigits(s[i + 1..i + 3]) && Strings.DigitsValue(s[i + 1..i + 3]) == seconds &&
      Strings.AllDigits(s[i + 4..]) && Strings.DigitsValue(s[i + 4..]) == millis &&
      (i + 5 < |s| ==> s[i + 4] != '0') &&
      (minutes < 100 ==> i == 2)
  {
    var a, b, c := Strings.Pad2(minutes), Strings.Pad2(seconds), Strings.NatToString(millis);
    var s := a + ":" + b + "." + c;
    Strings.Pad2Value(minutes);
    Strings.Pad2Value(seconds);
    Strings.DigitsValueOfNatToString(millis);
    assert s[..|a|] == a;
    assert s[|a| + 1..|a| + 3] == b;
    assert s[|a| + 4..] == c;
  }

  lemma SecondsTwoDigits(n: nat)
    requires n < 100
    ensures |Strings.Pad2(n)| == 2
  {
    if n >= 10 {
      assert Strings.NatToString(n) == Strings.NatToString(n / 10) + [Strings.DigitChar(n % 10)];
    }
  }

  /** One minute, one second and five milliseconds print as 01:01.5: the milliseconds are not padded. */
  lemma ElapsedTextUnpaddedMillis()
    ensures ElapsedText(61005) == "01:01.5"
  {
    ElapsedUnique(61005, Elapsed(1, 1, 5));
  }

  // ---------------------------------------------------------------------------------------
  // The stall counters

  /** Java's int division, which truncates toward zero. */
  function Quot(a: int, b: int): (q: int)
    requires b != 0
    ensures a >= 0 && b > 0 ==> q == a / b
  {
    var m := (if a < 0 then -a else a) / (if b < 0 then -b else b);
    if (a < 0) == (b < 0) then m else -m
  }

  /**
   * (int) Math.round(maxGenerations * 0.001): the integer nearest to maxGenerations / 1000,
   * halves rounded up. It is at least 1 exactly when maxGenerations is at least 500.
   */
  function InjectThreshold(maxGenerations: int): (t: int)
    ensures 1000 * t - 500 <= maxGenerations < 1000 * t + 500
    ensures t >= 1 <==> maxGenerations >= 500
    ensures t == 0 <==> -500 <= maxGenerations < 500
  {
    (maxGenerations + 500) / 1000
  }

  /** duplicateIndividualCnt and injectNewDNACount. */
  datatype Counters = Counters(duplicates: nat, injections: nat)

  /** The three ways processGP makes the next generation. */
  datatype Action = Restart | Inject | Evolve

  /**
   * The branch processGP takes: a restart once more than RESTART_POPULATION_THRESHOLD
   * injections have been made, else an injection when the stall count divided by the threshold
   * exceeds the injections made, else a normal step. The division fails for a zero threshold.
   */
  function ChooseAction(c: Counters, threshold: int): Result<Action>
  {
    if c.injections > RESTART_POPULATION_THRESHOLD then Ok(Restart)
    else if threshold == 0 then Err(Arithmetic)
    else if Quot(c.duplicates, threshold) > c.injections then Ok(Inject)
    else Ok(Evolve)
  }

  /** For a positive threshold t, an injection is due exactly when the stall reaches t times one more than the injections made. */
  lemma ChooseActionSchedule(c: Counters, t: int)
    requires t >= 1
    ensures ChooseAction(c, t) == Ok(Restart) <==> c.injections > RESTART_POPULATION_THRESHOLD
    ensures ChooseAction(c, t) == Ok(Inject) <==>
      c.injections <= RESTART_POPULATION_THRESHOLD && c.duplicates >= t * (c.injections + 1)
    ensures ChooseAction(c, t) == Ok(Evolve) <==>
      c.injections <= RESTART_POPULATION_THRESHOLD && c.duplicates < t * (c.injections + 1)
  {
    QuotientAbove(c.duplicates, t, c.injections);
  }

  /** a / t > i exactly when a reaches t * (i + 1). */
  lemma QuotientAbove(a: nat, t: int, i: nat)
    requires t >= 1
    ensures a / t > i <==> a >= t * (i + 1)
  {
    var q := a / t;
    assert q * t <= a < q * t + t;
    if q > i {
      assert q >= i + 1;
      assert q * t >= (i + 1) * t;
    } else {
      assert q <= i;
      assert q * t + t <= (i + 1) * t;
    }
  }

  /** With a zero threshold, every branch but the restart divides by zero. */
  lemma ChooseActionZeroThreshold(c: Counters)
    ensures ChooseAction(c, 0).Err? <==> c.injections <= RESTART_POPULATION_THRESHOLD
    ensures ChooseAction(c, 0).Err? ==> ChooseAction(c, 0).fault == Arithmetic
  {
  }

  /**
   * The counters after a step: the action first (a restart zeroes only the injections, an
   * injection counts one more), then the stall test: a best individual equal to the one
   * before counts one more stalled generation, anything else clears both counters.
   */
  function NextCounters(c: Counters, a: Action, same: bool): Counters
  {
    var c1 := match a
      case Restart => c.(injections := 0)
      case Inject => c.(injections := c.injections + 1)
      case Evolve => c;
    if same then c1.(duplicates := c1.duplicates + 1) else Counters(0, 0)
  }

  /** What a step does to the counters, case by case; the restart keeps the stall count. */
  lemma NextCountersCases(c: Counters, a: Action, same: bool)
    ensures !same ==> NextCounters(c, a, same) == Counters(0, 0)
    ensures same ==> NextCounters(c, a, same).duplicates == c.duplicates + 1
    ensures same && a == Restart ==> NextCounters(c, a, same).injections == 0
    ensures same && a == Inject ==> NextCounters(c, a, same).injections == c.injections + 1
    ensures same && a == Evolve ==> NextCounters(c, a, same).injections == c.injections
  {
  }

  /**
   * The counters processGP maintains: never more than one injection beyond the restart
   * threshold, and, for a positive threshold t, never more injections than whole runs of t
   * stalled generations.
   */
  predicate CountersInvariant(c: Counters, t: int)
  {
    c.injections <= RESTART_POPULATION_THRESHOLD + 1 && (t >= 1 ==> c.duplicates >= t * c.injections)
  }

  /** Each step keeps the counter invariant. */
  lemma NextCountersInvariant(c: Counters, t: int, a: Action, same: bool)
    requires CountersInvariant(c, t) && ChooseAction(c, t) == Ok(a)
    ensures CountersInvariant(NextCounters(c, a, same), t)
  {
    if t >= 1 {
      ChooseActionSchedule(c, t);
      if a == Inject && same {
        assert c.duplicates + 1 >= t * (c.injections + 1);
      }
    }
  }

  // ---------------------------------------------------------------------------------------
  // The generation loop

  /**
   * What the loop does not decide itself: the generation each kind of step makes from the
   * current one (a restart builds a new initialized generation), the best individual of a
   * generation, and the elapsed milliseconds the time test sees when generationCount is k.
   */
  datatype World<!G> = World(step: (G, Action) -> G, best: G -> Individual, elapsed: int -> int)

  /**
   * The loop variables: the generation, the current and the previous best individual, the
   * counters and generationCount.
   */
  datatype Loop<!G> = Loop(generation: G, current: Individual, previous: Individual, counters: Counters, count: int)

  /** The state after xGeneration.init(): generation 1, whose best is both current and previous. */
  function Start<G>(w: World<G>, initial: G): Loop<G>
  {
    Loop(initial, w.best(initial), w.best(initial), Counters(0, 0), 1)
  }

  /**
   * The loop test: the best fitness still compares at or above the goal (as FitnessDatum
   * readings, so an unset fitness reads +Infinity), fewer than maxGenerations generations,
   * and within the time budget.
   */
  predicate Continues<G>(w: World<G>, goal: Double, maxGenerations: int, s: Loop<G>)
  {
    Compare(Reading(s.current.fitness), Reading(goal)) >= 0 && s.count < maxGenerations &&
    w.elapsed(s.count) <= MAX_GP_TIME
  }

  /**
   * One pass of the loop body: choose and take the step, update the counters by comparing the
   * current best with the previous one (compareTo == 0), count the generation, and only then
   * move the current best to previous and read the new generation's best.
   */
  function Step<G>(w: World<G>, threshold: int, s: Loop<G>): (r: Result<Loop<G>>)
    ensures r.Ok? ==> r.value.count == s.count + 1
  {
    match ChooseAction(s.counters, threshold)
    case Err(f) => Err(f)
    case Ok(a) =>
      var g := w.step(s.generation, a);
      var same := CompareFitness(s.current, s.previous) == 0;
      Ok(Loop(g, w.best(g), s.current, NextCounters(s.counters, a, same), s.count + 1))
  }

  /** The loop from state s until its test fails or a step fails. */
  function Run<G>(w: World<G>, goal: Double, maxGenerations: int, threshold: int, s: Loop<G>): Result<Loop<G>>
    decreases maxGenerations - s.count
  {
    if !Continues(w, goal, maxGenerations, s) then Ok(s)
    else
      match Step(w, threshold, s)
      case Err(f) => Err(f)
      case Ok(n) => Run(w, goal, maxGenerations, threshold, n)
  }

  /**
   * processGP's loop, with the reported results: the final loop state (its generationCount
   * and best individual) and the first generation's best individual.
   */
  method ProcessGP<G>(w: World<G>, goal: Double, maxGenerations: int, initial: G)
    returns (r: Result<Loop<G>>, firstBest: Individual)
    ensures firstBest == w.best(initial)
    ensures r == Run(w, goal, maxGenerations, InjectThreshold(maxGenerations), Start(w, initial))
  {
    var duplicateIndividualCnt: nat, injectNewDNACount: nat := 0, 0;
    var injectNewDNAThreshold := InjectThreshold(maxGenerations);
    var generation := initial;
    var generationCount := 1;
    var currentBest := w.best(generation);
    firstBest := currentBest;
    var previousBest := currentBest;
    var minFitness := currentBest.fitness;
    ghost var total := Run(w, goal, maxGenerations, injectNewDNAThreshold, Start(w, initial));
    while Compare(Reading(minFitness), Reading(goal)) >= 0 && generationCount < maxGenerations &&
          w.elapsed(generationCount) <= MAX_GP_TIME
      invariant minFitness == currentBest.fitness
      invariant total == Run(w, goal, maxGenerations, injectNewDNAThreshold,
        Loop(generation, currentBest, previousBest, Counters(duplicateIndividualCnt, injectNewDNACount), generationCount))
      decreases maxGenerations - generationCount
    {
      ghost var s := Loop(generation, currentBest, previousBest, Counters(duplicateIndividualCnt, injectNewDNACount), generationCount);
      var action: Action;
      if injectNewDNACount > RESTART_POPULATION_THRESHOLD {
        action := Restart;
        injectNewDNACount := 0;
      } else if injectNewDNAThreshold == 0 {
        r := Err(Arithmetic);
        return;
      } else if Quot(duplicateIndividualCnt, injectNewDNAThreshold) > injectNewDNACount {
        action := Inject;
        injectNewDNACount := injectNewDNACount + 1;
      } else {
        action := Evolve;
      }
      generation := w.step(generation, action);
      if CompareFitness(currentBest, previousBest) == 0 {
        duplicateIndividualCnt := duplicateIndividualCnt + 1;
      } else {
        duplicateIndividualCnt, injectNewDNACount := 0, 0;
      }
      generationCount := generationCount + 1;
      previousBest := currentBest;
      currentBest := w.best(generation);
      minFitness := currentBest.fitness;
      assert Step(w, injectNewDNAThreshold, s) ==
        Ok(Loop(generation, currentBest, previousBest, Counters(duplicateIndividualCnt, injectNewDNACount), generationCount));
    }
    r := Ok(Loop(generation, currentBest, previousBest, Counters(duplicateIndividualCnt, injectNewDNACount), generationCount));
  }

  /**
   * When the loop ends without a failure, its test fails in the final state, generationCount
   * has only grown, and it stops at maxGenerations at the latest.
   */
  lemma {:induction false} RunStops<G>(w: World<G>, goal: Double, maxGenerations: int, threshold: int, s: Loop<G>)
    requires Run(w, goal, maxGenerations, threshold, s).Ok?
    ensures var f := Run(w, goal, maxGenerations, threshold, s).value;
      !Continues(w, goal, maxGenerations, f) && s.count <= f.count &&
      (s.count < maxGenerations ==> f.count <= maxGenerations) &&
      (s.count >= maxGenerations ==> f == s)
    decreases maxGenerations - s.count
  {
    if Continues(w, goal, maxGenerations, s) {
      RunStops(w, goal, maxGenerations, threshold, Step(w, threshold, s).value);
    }
  }

  /**
   * From the first generation the loop takes at most maxGenerations - 1 steps; when it ends
   * early, within the budget, the best fitness is below the goal.
   */
  lemma RunFromStart<G>(w: World<G>, goal: Double, maxGenerations: int, initial: G)
    requires Run(w, goal, maxGenerations, InjectThreshold(maxGenerations), Start(w, initial)).Ok?
    ensures var f := Run(w, goal, maxGenerations, InjectThreshold(maxGenerations), Start(w, initial)).value;
      1 <= f.count && (f.count - 1 <= maxGenerations - 1 || f.count == 1) &&
      (f.count < maxGenerations && w.elapsed(f.count) <= MAX_GP_TIME ==>
        Compare(Reading(f.current.fitness), Reading(goal)) < 0)
  {
    RunStops(w, goal, maxGenerations, InjectThreshold(maxGenerations), Start(w, initial));
  }

  /** An unset (invalid) best fitness reads +Infinity and never meets the goal. */
  lemma InvalidBestContinues<G>(w: World<G>, goal: Double, maxGenerations: int, s: Loop<G>)
    requires s.current.fitness.NaN?
    ensures Continues(w, goal, maxGenerations, s) <==> s.count < maxGenerations && w.elapsed(s.count) <= MAX_GP_TIME
  {
    assert Reading(s.current.fitness) == PosInf;
    assert Rank(Reading(goal)) <= 2;
  }

  /**
   * If no generation ever has a set best fitness, a loop that ends without failure ends only
   * at maxGenerations or at the time budget.
   */
  lemma InvalidBestsRunToTheLimit<G>(w: World<G>, goal: Double, maxGenerations: int, threshold: int, s: Loop<G>)
    requires s.current.fitness.NaN? && forall g: G :: BestUnset(w, g)
    requires Run(w, goal, maxGenerations, threshold, s).Ok?
    ensures var f := Run(w, goal, maxGenerations, threshold, s).value;
      f.count >= maxGenerations || w.elapsed(f.count) > MAX_GP_TIME
  {
    RunStops(w, goal, maxGenerations, threshold, s);
    var f := Run(w, goal, maxGenerations, threshold, s).value;
    FinalIsSomeBest(w, goal, maxGenerations, threshold, s);
    assert BestUnset(w, f.generation);
    InvalidBestContinues(w, goal, maxGenerations, f);
  }

  /** The best individual of generation g has no fitness set. */
  predicate BestUnset<G>(w: World<G>, g: G)
  {
    w.best(g).fitness.NaN?
  }

  /** A final state other than the start holds the best individual of its generation. */
  lemma {:induction false} FinalIsSomeBest<G>(w: World<G>, goal: Double, maxGenerations: int, threshold: int, s: Loop<G>)
    requires Run(w, goal, maxGenerations, threshold, s).Ok?
    ensures var f := Run(w, goal, maxGenerations, threshold, s).value;
      f == s || f.current == w.best(f.generation)
    decreases maxGenerations - s.count
  {
    if Continues(w, goal, maxGenerations, s) {
      FinalIsSomeBest(w, goal, maxGenerations, threshold, Step(w, threshold, s).value);
    }
  }

  /** A positive threshold (maxGenerations of at least 500) never divides by zero: the loop cannot fail. */
  lemma {:induction false} RunSucceeds<G>(w: World<G>, goal: Double, maxGenerations: int, threshold: int, s: Loop<G>)
    requires threshold >= 1
    ensures Run(w, goal, maxGenerations, threshold, s).Ok?
    decreases maxGenerations - s.count
  {
    if Continues(w, goal, maxGenerations, s) {
      RunSucceeds(w, goal, maxGenerations, threshold, Step(w, threshold, s).value);
    }
  }

  /** A zero threshold (maxGenerations from 2 to 499) fails on the first step with an ArithmeticException. */
  lemma ZeroThresholdFails<G>(w: World<G>, goal: Double, maxGenerations: int, initial: G)
    requires InjectThreshold(maxGenerations) == 0
    requires Continues(w, goal, maxGenerations, Start(w, initial))
    ensures Run(w, goal, maxGenerations, InjectThreshold(maxGenerations), Start(w, initial)) == Err(Arithmetic)
  {
  }

  /** Every state the loop reaches from the start keeps the counter invariant. */
  lemma {:induction false} RunKeepsCounters<G>(w: World<G>, goal: Double, maxGenerations: int, threshold: int, s: Loop<G>)
    requires CountersInvariant(s.counters, threshold)
    requires Run(w, goal, maxGenerations, threshold, s).Ok?
    ensures CountersInvariant(Run(w, goal, maxGenerations, threshold, s).value.counters, threshold)
    decreases maxGenerations - s.count
  {
    if Continues(w, goal, maxGenerations, s) {
      var a := ChooseAction(s.counters, threshold).value;
      NextCountersInvariant(s.counters, threshold, a, CompareFitness(s.current, s.previous) == 0);
      RunKeepsCounters(w, goal, maxGenerations, threshold, Step(w, threshold, s).value);
    }
  }

  /**
   * The stall test lags one generation: the step compares the two bests it started with, and
   * the new generation's best only becomes current afterwards.
   */
  lemma StepLags<G>(w: World<G>, threshold: int, s: Loop<G>, a: Action)
    requires ChooseAction(s.counters, threshold) == Ok(a)
    ensures var n := Step(w, threshold, s).value;
      n.generation == w.step(s.generation, a) && n.previous == s.current && n.current == w.best(n.generation) &&
      n.counters == NextCounters(s.counters, a, CompareFitness(s.current, s.previous) == 0)
  {
  }
}
