/**
 * A training pair (x, y) and the target function the programs are trained on, as the newer
 * generation of the application defines them (src/.../gp/TrainingData.java). Math.pow(x, 2)
 * is x * x; the Double inputs are finite reals.
 */
module Training {

  /** An input value and the output the target function gives for it. */
  datatype TrainingData = TrainingData(inputData: real, outputData: real)

  /** setInputData: the input replaced, the output kept. */
  function SetInputData(t: TrainingData, input: real): (r: TrainingData)
    ensures r.inputData == input && r.outputData == t.outputData
  {
    t.(inputData := input)
  }

  /** setOutputData: the output replaced, the input kept. */
  function SetOutputData(t: TrainingData, output: real): (r: TrainingData)
    ensures r.outputData == output && r.inputData == t.inputData
  {
    t.(outputData := output)
  }

  /** The initial target ((x*x) - 1) / 2, kept in the class but no longer selected. */
  function XSquareMinusOneOverTwo(x: real): real
  {
    (x * x - 1.0) / 2.0
  }

  /** The final target (2(x*x) - 4) / 2. */
  function TwoTimesXSquareMinusFourOverTwo(x: real): real
  {
    (2.0 * (x * x) - 4.0) / 2.0
  }

  /** calculatePerfectOutput selects the final target, which simplifies to x*x - 2. */
  function CalculatePerfectOutput(x: real): (y: real)
    ensures y == x * x - 2.0
  {
    TwoTimesXSquareMinusFourOverTwo(x)
  }

  /** The selected target is even. */
  lemma PerfectOutputEven(x: real)
    ensures CalculatePerfectOutput(-x) == CalculatePerfectOutput(x)
  {
    assert (-x) * (-x) == x * x;
  }

  /** The selected target never falls below -2, and reaches -2 at 0 and nowhere else. */
  lemma PerfectOutputMinimum(x: real)
    ensures CalculatePerfectOutput(x) >= -2.0
    ensures CalculatePerfectOutput(x) == -2.0 <==> x == 0.0
  {
    if x != 0.0 {
      SquarePositive(x);
      calc {
        CalculatePerfectOutput(x);
        x * x - 2.0;
      >
        -2.0;
      }
    }
  }

  /** The square of a non-zero real is positive. */
  lemma SquarePositive(x: real)
    requires x != 0.0
    ensures x * x > 0.0
  {
    if x < 0.0 {
      assert (-x) * (-x) > 0.0;
      assert x * x == (-x) * (-x);
    }
  }

}

/**
 * The training pair and target of the older generation (trunk/.../gp/TrainingData.java): the
 * same record with the target ((x*x) - 1) / 2.
 */
module TrunkTraining {
  import Training

  datatype TrainingData = TrainingData(inputData: real, outputData: real)

  /** setInputData: the input replaced, the output kept. */
  function SetInputData(t: TrainingData, input: real): (r: TrainingData)
    ensures r.inputData == input && r.outputData == t.outputData
  {
    t.(inputData := input)
  }

  /** setOutputData: the output replaced, the input kept. */
  function SetOutputData(t: TrainingData, output: real): (r: TrainingData)
    ensures r.outputData == output && r.inputData == t.inputData
  {
    t.(outputData := output)
  }

  /** calculatePerfectOutput: ((x*x) - 1) / 2. */
  function CalculatePerfectOutput(x: real): real
  {
    (x * x - 1.0) / 2.0
  }

  /** The target is even, at least -1/2, and -1/2 exactly at 0. */
  lemma PerfectOutputShape(x: real)
    ensures CalculatePerfectOutput(-x) == CalculatePerfectOutput(x)
    ensures CalculatePerfectOutput(x) >= -0.5
    ensures CalculatePerfectOutput(x) == -0.5 <==> x == 0.0
  {
    assert (-x) * (-x) == x * x;
    if x != 0.0 {
      Training.SquarePositive(x);
      calc {
        CalculatePerfectOutput(x);
        (x * x - 1.0) / 2.0;
      >
        (0.0 - 1.0) / 2.0;
      }
    }
  }

  /** The default inputs -5..5 and the outputs the settings test expects for them. */
  const DefaultInputs: seq<real> := [-5.0, -4.0, -3.0, -2.0, -1.0, 0.0, 1.0, 2.0, 3.0, 4.0, 5.0]
  const DefaultOutputs: seq<real> := [12.0, 7.5, 4.0, 1.5, 0.0, -0.5, 0.0, 1.5, 4.0, 7.5, 12.0]

  lemma DefaultOutputValues()
    ensures |DefaultInputs| == |DefaultOutputs| == 11
    ensures forall k :: 0 <= k < 11 ==> CalculatePerfectOutput(DefaultInputs[k]) == DefaultOutputs[k]
  {
  }
}
