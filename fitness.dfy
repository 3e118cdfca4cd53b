/**
 * FitnessDatum: the standardized fitness of one program, a java.lang.Double that is NaN while
 * the datum is unset or invalid. An invalid datum reads as +Infinity, so it sorts after every
 * finite fitness; adding to an unset datum assigns instead of summing.
 */
module Fitness {
  import opened Wrappers
  import ExprTree
  import Training

  /**
   * A java.lang.Double as the fitness code meets it. Finite values are exact reals: rounding,
   * negative zero and overflow of a finite sum to infinity are not modelled.
   */
  datatype Double = NaN | Finite(v: real) | PosInf | NegInf

  /** IEEE-754 addition: NaN absorbs, opposite infinities give NaN, an infinity absorbs finites. */
  function Plus(a: Double, b: Double): (r: Double)
    ensures r.NaN? <==> a.NaN? || b.NaN? || (a.PosInf? && b.NegInf?) || (a.NegInf? && b.PosInf?)
    ensures a.Finite? && b.Finite? ==> r == Finite(a.v + b.v)
    ensures r.Finite? ==> a.Finite? && b.Finite?
  {
    match (a, b)
    case (NaN, _) => NaN
    case (_, NaN) => NaN
    case (Finite(x), Finite(y)) => Finite(x + y)
    case (PosInf, NegInf) => NaN
    case (NegInf, PosInf) => NaN
    case (PosInf, _) => PosInf
    case (_, PosInf) => PosInf
    case (NegInf, _) => NegInf
    case (_, NegInf) => NegInf
  }

  function Negate(a: Double): Double
  {
    match a
    case NaN => NaN
    case Finite(x) => Finite(-x)
    case PosInf => NegInf
    case NegInf => PosInf
  }

  /** Math.abs on a double. */
  function Abs(a: Double): (r: Double)
    ensures r.NaN? <==> a.NaN?
    ensures !r.NegInf?
    ensures a.Finite? ==> r.Finite? && r.v >= 0.0 && (r.v == a.v || r.v == -a.v)
  {
    match a
    case NaN => NaN
    case Finite(x) => Finite(if x < 0.0 then -x else x)
    case PosInf => PosInf
    case NegInf => PosInf
  }

  /** The position of a value in the total order of Double.compareTo. */
  function Rank(a: Double): nat
  {
    match a
    case NegInf => 0
    case Finite(_) => 1
    case PosInf => 2
    case NaN => 3
  }

  /**
   * Double.compareTo: -Infinity below every finite value, +Infinity above them, and NaN above
   * everything and equal to itself.
   */
  function Compare(a: Double, b: Double): (c: int)
    ensures c == -1 || c == 0 || c == 1
    ensures c == 0 <==> a == b
    ensures Rank(a) < Rank(b) ==> c == -1
    ensures a.Finite? && b.Finite? ==> (c < 0 <==> a.v < b.v)
  {
    if Rank(a) < Rank(b) then -1
    else if Rank(b) < Rank(a) then 1
    else if a.Finite? && b.Finite? then (if a.v < b.v then -1 else if a.v == b.v then 0 else 1)
    else 0
  }

  /** compareTo is antisymmetric and transitive: a total order on Double values. */
  lemma CompareTotalOrder(a: Double, b: Double, c: Double)
    ensures Compare(a, b) == -Compare(b, a)
    ensures Compare(a, b) <= 0 && Compare(b, c) <= 0 ==> Compare(a, c) <= 0
  {
  }

  // ---------------------------------------------------------------------------------------
  // Accumulation

  /**
   * The rule shared by both add overloads: when both are numbers they are summed; an unset
   * (NaN) receiver takes the other value as it is; a number receiver ignores a NaN argument.
   */
  function Accumulate(acc: Double, d: Double): (r: Double)
    ensures !acc.NaN? && !d.NaN? ==> r == Plus(acc, d)
    ensures acc.NaN? ==> r == d
    ensures !acc.NaN? && d.NaN? ==> r == acc
  {
    if !acc.NaN? && !d.NaN? then Plus(acc, d) else if acc.NaN? then d else acc
  }

  /** Adding the values one after another, left to right. */
  function AccumulateAll(acc: Double, ds: seq<Double>): Double
    decreases |ds|
  {
    if |ds| == 0 then acc else AccumulateAll(Accumulate(acc, ds[0]), ds[1..])
  }

  predicate NumberOrNaN(d: Double) { d.NaN? || d.Finite? }

  /** The sum of the finite values, NaNs skipped. */
  function FiniteSum(ds: seq<Double>): real
    decreases |ds|
  {
    if |ds| == 0 then 0.0 else (if ds[0].Finite? then ds[0].v else 0.0) + FiniteSum(ds[1..])
  }

  predicate SomeNumber(ds: seq<Double>) { exists k :: 0 <= k < |ds| && !ds[k].NaN? }

  function ValueOr(d: Double, dflt: real): real { if d.Finite? then d.v else dflt }

  /**
   * Adding finite-or-NaN values one by one gives the sum of the finite ones (plus the start),
   * and stays NaN only if it started NaN and every value added was NaN.
   */
  lemma {:induction false} AccumulateAllSum(acc: Double, ds: seq<Double>)
    requires NumberOrNaN(acc)
    requires forall k :: 0 <= k < |ds| ==> NumberOrNaN(ds[k])
    ensures AccumulateAll(acc, ds) ==
      if acc.NaN? && !SomeNumber(ds) then NaN else Finite(ValueOr(acc, 0.0) + FiniteSum(ds))
    decreases |ds|
  {
    if |ds| > 0 {
      var next := Accumulate(acc, ds[0]);
      AccumulateAllSum(next, ds[1..]);
      assert SomeNumber(ds) <==> !ds[0].NaN? || SomeNumber(ds[1..]) by {
        if SomeNumber(ds[1..]) {
          var k :| 0 <= k < |ds[1..]| && !ds[1..][k].NaN?;
          assert ds[k + 1] == ds[1..][k];
        }
        if SomeNumber(ds) && ds[0].NaN? {
          var k :| 0 <= k < |ds| && !ds[k].NaN?;
          assert k > 0 && ds[1..][k - 1] == ds[k];
        }
      }
    }
  }

  /** A cleared datum (a valid zero) accumulates the plain sum of the finite values. */
  lemma AccumulateFromZero(ds: seq<Double>)
    requires forall k :: 0 <= k < |ds| ==> NumberOrNaN(ds[k])
    ensures AccumulateAll(Finite(0.0), ds) == Finite(FiniteSum(ds))
  {
    AccumulateAllSum(Finite(0.0), ds);
  }

  // ---------------------------------------------------------------------------------------
  // The datum

  class FitnessDatum {
    /** xStandardizedFitness */
    var standardized: Double

    /** A new datum is unset. */
    constructor ()
      ensures standardized == NaN && !IsValid()
    {
      standardized := NaN;
    }

    /** FitnessDatum(Double): a datum holding the value. */
    constructor FromValue(aStandardizedValue: Double)
      ensures standardized == aStandardizedValue
    {
      standardized := aStandardizedValue;
    }

    /** isValid: the value is not NaN. */
    predicate IsValid()
      reads this
    {
      !standardized.NaN?
    }

    /** getStandardizedFitness: the stored value when valid, +Infinity otherwise; never NaN. */
    function GetStandardizedFitness(): (r: Double)
      reads this
      ensures !r.NaN?
      ensures IsValid() ==> r == standardized
      ensures !IsValid() ==> r == PosInf
    {
      if IsValid() then standardized else PosInf
    }

    /** getValue delegates to getStandardizedFitness. */
    function GetValue(): Double
      reads this
    {
      GetStandardizedFitness()
    }

    /** setStandardizedFitness(Double) */
    method SetStandardizedFitness(aInputValue: Double)
      modifies this
      ensures standardized == aInputValue
    {
      standardized := aInputValue;
    }

    /** setStandardizedFitness(FitnessDatum): copies the other's reading, so an invalid source gives +Infinity. */
    method SetFromDatum(aInputDatum: FitnessDatum)
      modifies this
      ensures standardized == old(aInputDatum.GetStandardizedFitness()) && IsValid()
    {
      standardized := aInputDatum.GetStandardizedFitness();
    }

    /** clear: a valid zero. */
    method Clear()
      modifies this
      ensures standardized == Finite(0.0) && IsValid()
    {
      standardized := Finite(0.0);
    }

    /** reset: unset again. */
    method Reset()
      modifies this
      ensures standardized == NaN && !IsValid()
    {
      standardized := NaN;
    }

    /**
     * add(FitnessDatum): combines the raw stored values (not the +Infinity readings) by the
     * accumulation rule and returns the receiver. Adding a datum to itself doubles it.
     */
    method Add(otherDatum: FitnessDatum) returns (r: FitnessDatum)
      modifies this
      ensures r == this
      ensures standardized == Accumulate(old(standardized), old(otherDatum.standardized))
    {
      if !standardized.NaN? && !otherDatum.standardized.NaN? {
        SetStandardizedFitness(Plus(standardized, otherDatum.standardized));
      } else if standardized.NaN? {
        SetStandardizedFitness(otherDatum.standardized);
      }
      r := this;
    }

    /** add(Double): the same rule with a plain value. */
    method AddDouble(otherDouble: Double) returns (r: FitnessDatum)
      modifies this
      ensures r == this
      ensures standardized == Accumulate(old(standardized), otherDouble)
    {
      if !standardized.NaN? && !otherDouble.NaN? {
        SetStandardizedFitness(Plus(standardized, otherDouble));
      } else if standardized.NaN? {
        SetStandardizedFitness(otherDouble);
      }
      r := this;
    }

    /**
     * compareTo: Double.compareTo of the two readings. Two invalid datums compare equal, an
     * invalid datum is above every finite one, and valid datums compare by their values.
     */
    function CompareTo(otherDatum: FitnessDatum): (c: int)
      reads this, otherDatum
      ensures c == -1 || c == 0 || c == 1
      ensures !IsValid() && !otherDatum.IsValid() ==> c == 0
      ensures !IsValid() && otherDatum.standardized.Finite? ==> c == 1
      ensures IsValid() && otherDatum.IsValid() ==> c == Compare(standardized, otherDatum.standardized)
    {
      Compare(GetValue(), otherDatum.GetValue())
    }

    /**
     * equals: the same object, or another datum that compares equal; never null. (The stored
     * Double itself is never null here.)
     */
    predicate Equals(otherValue: FitnessDatum?)
      reads this, otherValue
      ensures Equals(otherValue) <==> otherValue != null && CompareTo(otherValue) == 0
    {
      if this == otherValue then true
      else if otherValue == null then false
      else CompareTo(otherValue) == 0
    }

    /** clone: a fresh datum holding the reading, so the clone of an invalid datum is a valid +Infinity. */
    method Clone() returns (c: FitnessDatum)
      ensures fresh(c)
      ensures c.standardized == GetStandardizedFitness() && c.IsValid()
      ensures c.CompareTo(this) == 0
      ensures IsValid() ==> c.standardized == standardized
    {
      c := new FitnessDatum.FromValue(GetStandardizedFitness());
    }

    /**
     * toString: "*Invalid" for an invalid datum, otherwise the value as Java prints a Double
     * ("Infinity", "-Infinity", or finiteText, which stands for Double.toString of a finite value).
     */
    function ToString(finiteText: real -> string): (s: string)
      reads this
      ensures !IsValid() ==> s == "*Invalid"
      ensures standardized.PosInf? ==> s == "Infinity"
      ensures standardized.NegInf? ==> s == "-Infinity"
      ensures standardized.Finite? ==> s == finiteText(standardized.v)
    {
      if !IsValid() then "*Invalid"
      else match standardized
        case PosInf => "Infinity"
        case NegInf => "-Infinity"
        case Finite(x) => finiteText(x)
    }
  }

  /**
   * calculateStandardizedFitness: |target output - measurement|. It is never negative, it is
   * NaN exactly for a NaN measurement, and an infinite measurement gives +Infinity.
   */
  function CalculateStandardizedFitness(aTrainingDatum: Training.TrainingData, aFitnessMeasurement: Double): (r: Double)
    ensures r.NaN? <==> aFitnessMeasurement.NaN?
    ensures !r.NegInf?
    ensures (aFitnessMeasurement.PosInf? || aFitnessMeasurement.NegInf?) ==> r == PosInf
    ensures aFitnessMeasurement.Finite? ==> r.Finite? && r.v >= 0.0
    ensures aFitnessMeasurement.Finite? ==> (r.v == 0.0 <==> aFitnessMeasurement.v == aTrainingDatum.outputData)
  {
    Abs(Plus(Finite(aTrainingDatum.outputData), Negate(aFitnessMeasurement)))
  }

  /** Two invalid datums are equal and an invalid datum is worse than any finite one, in both directions. */
  lemma InvalidOrdering(a: FitnessDatum, b: FitnessDatum)
    requires !a.IsValid()
    ensures !b.IsValid() ==> a.Equals(b) && b.Equals(a)
    ensures b.standardized.Finite? ==> a.CompareTo(b) == 1 && b.CompareTo(a) == -1 && !a.Equals(b)
  {
  }

  /** compareTo is a total preorder on datums: reflexive, antisymmetric in sign, transitive. */
  lemma CompareToPreorder(a: FitnessDatum, b: FitnessDatum, c: FitnessDatum)
    ensures a.CompareTo(a) == 0
    ensures a.CompareTo(b) == -b.CompareTo(a)
    ensures a.CompareTo(b) <= 0 && b.CompareTo(c) <= 0 ==> a.CompareTo(c) <= 0
  {
    CompareTotalOrder(a.GetValue(), b.GetValue(), c.GetValue());
  }

  // ---------------------------------------------------------------------------------------
  // The fitness fixtures of the tests

  /** The deviation of a division-safe arithmetic tree from one training pair; NaN where a divisor is zero. */
  function Deviation(e: ExprTree.Expr, datum: Training.TrainingData): Double
    requires ExprTree.Arithmetic(e) && ExprTree.OperandsSet(e)
  {
    var v := ExprTree.ArithValue(e, datum.inputData);
    CalculateStandardizedFitness(datum, if v.Some? then Finite(v.value) else NaN)
  }

  function Deviations(e: ExprTree.Expr, data: seq<Training.TrainingData>): (ds: seq<Double>)
    requires ExprTree.Arithmetic(e) && ExprTree.OperandsSet(e)
    ensures |ds| == |data|
    ensures forall k :: 0 <= k < |ds| ==> NumberOrNaN(ds[k])
  {
    seq(|data|, k requires 0 <= k < |data| => Deviation(e, data[k]))
  }

  /** The pairs -5..5 of the initial target ((x*x) - 1) / 2, which the tree tests score against. */
  const FixtureData: seq<Training.TrainingData> := [
    Training.TrainingData(-5.0, 12.0), Training.TrainingData(-4.0, 7.5), Training.TrainingData(-3.0, 4.0),
    Training.TrainingData(-2.0, 1.5), Training.TrainingData(-1.0, 0.0), Training.TrainingData(0.0, -0.5),
    Training.TrainingData(1.0, 0.0), Training.TrainingData(2.0, 1.5), Training.TrainingData(3.0, 4.0),
    Training.TrainingData(4.0, 7.5), Training.TrainingData(5.0, 12.0)]

  lemma FixtureDataOnTarget()
    ensures forall k :: 0 <= k < |FixtureData| ==>
      FixtureData[k].outputData == Training.XSquareMinusOneOverTwo(FixtureData[k].inputData)
  {
  }

  lemma SixMinusTwoOverFourIsOne(x: real)
    ensures ExprTree.ArithValue(ExprTree.SixMinusTwoOverFour, x) == Some(1.0)
  {
    var e := ExprTree.SixMinusTwoOverFour;
    assert ExprTree.ArithValue(e.left, x) == Some(4.0) by {
      assert ExprTree.ArithValue(e.left.left, x) == Some(6.0);
      assert ExprTree.ArithValue(e.left.right.value, x) == Some(2.0);
    }
    assert ExprTree.ArithValue(e.right.value, x) == Some(4.0);
  }

  lemma Square(x: real)
    ensures ExprTree.Combine(ExprTree.MUL, x, x) == x * x
  {
  }

  lemma PerfectValue(x: real)
    ensures ExprTree.ArithValue(ExprTree.Perfect, x) == Some(Training.XSquareMinusOneOverTwo(x))
  {
    var e := ExprTree.Perfect;
    assert ExprTree.ArithValue(e.left.left, x) == Some(ExprTree.Combine(ExprTree.MUL, x, x));
    Square(x);
    assert ExprTree.ArithValue(e.left.right.value, x) == Some(1.0);
    assert ExprTree.ArithValue(e.left, x) == Some(x * x - 1.0);
    assert ExprTree.ArithValue(e.right.value, x) == Some(2.0);
  }

  /** (6-2)/4 is 1 everywhere, so its deviation from a pair is |y - 1|. */
  lemma SixMinusTwoOverFourDeviation(datum: Training.TrainingData)
    ensures Deviation(ExprTree.SixMinusTwoOverFour, datum) == Finite(Distance(datum.outputData, 1.0))
  {
    SixMinusTwoOverFourIsOne(datum.inputData);
  }

  const SixMinusTwoOverFourDeviations: seq<Double> := [Finite(11.0), Finite(6.5), Finite(3.0),
    Finite(0.5), Finite(1.0), Finite(1.5), Finite(1.0), Finite(0.5), Finite(3.0), Finite(6.5), Finite(11.0)]

  lemma SixMinusTwoOverFourFixtureDeviations()
    ensures Deviations(ExprTree.SixMinusTwoOverFour, FixtureData) == SixMinusTwoOverFourDeviations
  {
    var data := FixtureData;
    var d := Deviations(ExprTree.SixMinusTwoOverFour, data);
    SixMinusTwoOverFourDeviationsOf(data);
    assert forall k :: 0 <= k < 11 ==> d[k] == SixMinusTwoOverFourDeviations[k];
  }

  /** The distance between two reals. */
  function Distance(a: real, b: real): real
  {
    if a >= b then a - b else b - a
  }

  /** On any data, the deviations of (6-2)/4 are the distances of the outputs from 1. */
  lemma SixMinusTwoOverFourDeviationsOf(data: seq<Training.TrainingData>)
    ensures forall k :: 0 <= k < |data| ==>
      Deviations(ExprTree.SixMinusTwoOverFour, data)[k] == Finite(Distance(data[k].outputData, 1.0))
  {
    forall k | 0 <= k < |data|
      ensures Deviations(ExprTree.SixMinusTwoOverFour, data)[k] == Finite(Distance(data[k].outputData, 1.0))
    {
      SixMinusTwoOverFourDeviation(data[k]);
    }
  }

  lemma SixMinusTwoOverFourDeviationsSum()
    ensures FiniteSum(SixMinusTwoOverFourDeviations) == 45.5
  {
    var lit := SixMinusTwoOverFourDeviations;
    assert FiniteSum(lit[11..]) == 0.0;
    assert FiniteSum(lit[10..]) == 11.0;
    assert FiniteSum(lit[9..]) == 17.5;
    assert FiniteSum(lit[8..]) == 20.5;
    assert FiniteSum(lit[7..]) == 21.0;
    assert FiniteSum(lit[6..]) == 22.0;
    assert FiniteSum(lit[5..]) == 23.5;
    assert FiniteSum(lit[4..]) == 24.5;
    assert FiniteSum(lit[3..]) == 25.0;
    assert FiniteSum(lit[2..]) == 28.0;
    assert FiniteSum(lit[1..]) == 34.5;
    assert lit[0..] == lit;
  }

  /** A cleared datum that accumulates the deviations of (6-2)/4 from the fixture pairs reaches 45.5. */
  lemma FixtureFitnessOfSixMinusTwoOverFour()
    ensures AccumulateAll(Finite(0.0), Deviations(ExprTree.SixMinusTwoOverFour, FixtureData)) == Finite(45.5)
  {
    var d := Deviations(ExprTree.SixMinusTwoOverFour, FixtureData);
    AccumulateFromZero(d);
    SixMinusTwoOverFourFixtureDeviations();
    SixMinusTwoOverFourDeviationsSum();
  }

  /** The same accumulation for ((x*x)-1)/2, which meets the target on every pair, stays 0. */
  lemma FixtureFitnessOfPerfect()
    ensures AccumulateAll(Finite(0.0), Deviations(ExprTree.Perfect, FixtureData)) == Finite(0.0)
  {
    FixtureDataOnTarget();
    PerfectFitness(FixtureData);
  }

  /** On any pairs of the initial target, the accumulated deviations of ((x*x)-1)/2 stay 0. */
  lemma PerfectFitness(data: seq<Training.TrainingData>)
    requires forall k :: 0 <= k < |data| ==> data[k].outputData == Training.XSquareMinusOneOverTwo(data[k].inputData)
    ensures AccumulateAll(Finite(0.0), Deviations(ExprTree.Perfect, data)) == Finite(0.0)
  {
    var d := Deviations(ExprTree.Perfect, data);
    AccumulateFromZero(d);
    forall k | 0 <= k < |d|
      ensures d[k] == Finite(0.0)
    {
      PerfectValue(data[k].inputData);
    }
    FiniteSumOfZeros(d);
  }

  lemma {:induction false} FiniteSumOfZeros(ds: seq<Double>)
    requires forall k :: 0 <= k < |ds| ==> ds[k] == Finite(0.0)
    ensures FiniteSum(ds) == 0.0
    decreases |ds|
  {
    if |ds| > 0 {
      FiniteSumOfZeros(ds[1..]);
    }
  }
}
