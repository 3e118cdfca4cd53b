/**
 * GPSettings of the newer generation (src/.../gp/GPSettings.java): the application's
 * properties with their defaults, the shared random generator, and the cached operator,
 * operand and training data lists. The singleton, the properties file and the re-write of the
 * file on every update are I/O; the loaded file is a parameter and the model keeps the
 * in-memory Properties object as a map.
 */
module Settings {
  import opened Wrappers
  import opened Strings
  import opened Properties
  import opened Randomness
  import Training

  const RandomSeedKey := "randomSeed"
  const OperatorsKey := "operators"
  const OperandsKey := "operands"
  const MaxGenerationsKey := "maxGenerations"
  const PopulationSizeKey := "populationSize"
  const TournamentSizeKey := "tournamentSize"
  const SubtreeHeightKey := "maxSubtreeHeight"
  const CrossoverSubtreeHeightKey := "maxCrossoverSubtreeHeight"
  const MutationSubtreeHeightKey := "maxMutationSubtreeHeight"
  const InputTrainingDataKey := "trainingDataInput"

  const DefaultRandomSeed := "null"
  const DefaultOperators := "ADD,SUB,MUL,DIV"
  const DefaultOperands := "-9,-8,-7,-6,-5,-4,-3,-2,-1,0,1,2,3,4,5,6,7,8,9,x"
  const DefaultMaxGenerations := "500000"
  const DefaultPopulationSize := "400"
  const DefaultTournamentSize := "6"
  const DefaultSubtreeHeight := "4"
  const DefaultCrossoverHeight := "10"
  const DefaultMutationHeight := "2"
  const DefaultInputTrainingData := "20001,15313.5,3961.5,1105.5,3,1.5,365.5,4803,7939,147425.5"

  /**
   * getRandomSeed as written: it compares the default constant, not the property, with
   * "null", so it answers null whatever the properties say.
   */
  function RandomSeedAsWritten(props: map<string, string>): (r: Result<Option<int>>)
    ensures r == Ok(None)
  {
    if DefaultRandomSeed == "null" then Ok(None)
    else
      match ParseInteger(GetProperty(props, RandomSeedKey, DefaultRandomSeed), LongMin, LongMax)
      case Ok(s) => Ok(Some(s))
      case Err(f) => Err(f)
  }

  /**
   * getRandomSeed as its comment describes it: no seed while the property reads "null",
   * otherwise Long.parseLong of the property.
   */
  function RandomSeed(props: map<string, string>): (r: Result<Option<int>>)
    ensures r.Err? ==> r.fault == NumberFormat
    ensures r.Ok? && r.value.Some? ==> LongMin <= r.value.value <= LongMax
  {
    var v := GetProperty(props, RandomSeedKey, DefaultRandomSeed);
    if v == "null" then Ok(None)
    else
      match ParseInteger(v, LongMin, LongMax)
      case Ok(s) => Ok(Some(s))
      case Err(f) => Err(f)
  }

  /**
   * The code as written never reads the seed property: a property of 42, which the intended
   * reading takes as the seed 42, still gives no seed.
   */
  lemma SeedNeverRead()
    ensures var p := map[RandomSeedKey := "42"];
      RandomSeedAsWritten(p) == Ok(None) && RandomSeed(p) == Ok(Some(42))
  {
    ParseIntToString(42, LongMin, LongMax);
    assert IntToString(42) == "42";
  }

  /** Without a seed property there is no seed; a stored decimal seed is read back. */
  lemma RandomSeedStored(props: map<string, string>, s: int)
    requires LongMin <= s <= LongMax
    ensures RandomSeedKey !in props ==> RandomSeed(props) == Ok(None)
    ensures RandomSeed(props[RandomSeedKey := IntToString(s)]) == Ok(Some(s))
  {
    ParseIntToString(s, LongMin, LongMax);
    var t := IntToString(s);
    assert t[0] == '-' || IsDigit(t[0]);
    assert t != "null";
  }

  /** The trimmed default operators, and the default operand tokens. */
  lemma DefaultOperatorTokens()
    ensures Tokens(DefaultOperators) == ["ADD", "SUB", "MUL", "DIV"]
  {
    var ops := ["ADD", "SUB", "MUL", "DIV"];
    assert ops[1..] == ["SUB", "MUL", "DIV"] && ops[2..] == ["MUL", "DIV"] && ops[3..] == ["DIV"];
    assert Join(["MUL", "DIV"], Comma) == "MUL,DIV";
    assert Join(["SUB", "MUL", "DIV"], Comma) == "SUB,MUL,DIV";
    assert Join(ops, Comma) == DefaultOperators;
    OperatorsStorable();
    TokensOfJoin(ops);
  }

  lemma OperatorsStorable()
    ensures Storable(["ADD", "SUB", "MUL", "DIV"])
  {
    var ops := ["ADD", "SUB", "MUL", "DIV"];
    assert Storable(ops) by {
      forall k | 0 <= k < 4
        ensures Comma !in ops[k] && Trimmed(ops[k])
      {
      }
    }
  }

  /**
   * The settings test's run of updates: the default operators (DefaultOperatorTokens) plus
   * POW, DIV, SIN, COS and ADD give SUB,MUL,POW,DIV,SIN,COS,ADD.
   */
  lemma OperatorUpdatesExample()
    ensures AddedAll(["ADD", "SUB", "MUL", "DIV"], ["POW", "DIV", "SIN", "COS", "ADD"])
      == ["SUB", "MUL", "POW", "DIV", "SIN", "COS", "ADD"]
  {
    assert Added(["ADD", "SUB", "MUL", "DIV"], "POW") == ["ADD", "SUB", "MUL", "DIV", "POW"];
    ExampleMovesDiv();
    ExampleAppends();
    ExampleMovesAdd();
  }

  /** The string those updates store reloads to the same list. */
  lemma OperatorUpdatesReload()
    ensures Tokens(Join(["SUB", "MUL", "POW", "DIV", "SIN", "COS", "ADD"], Comma))
      == ["SUB", "MUL", "POW", "DIV", "SIN", "COS", "ADD"]
  {
    OperatorsStorable();
    var l0 := ["ADD", "SUB", "MUL", "DIV"];
    var l1 := ["ADD", "SUB", "MUL", "DIV", "POW"];
    var l2 := ["ADD", "SUB", "MUL", "POW", "DIV"];
    var l3 := ["ADD", "SUB", "MUL", "POW", "DIV", "SIN"];
    var l4 := ["ADD", "SUB", "MUL", "POW", "DIV", "SIN", "COS"];
    assert Added(l0, "POW") == l1;
    ExampleMovesDiv();
    ExampleAppends();
    ExampleMovesAdd();
    AddedStorable(l0, "POW");
    AddedStorable(l1, "DIV");
    AddedStorable(l2, "SIN");
    AddedStorable(l3, "COS");
    AddedReloads(l4, "ADD");
  }

  lemma ExampleMovesDiv()
    ensures Added(["ADD", "SUB", "MUL", "DIV", "POW"], "DIV") == ["ADD", "SUB", "MUL", "POW", "DIV"]
  {
    assert RemoveFirst(["DIV", "POW"], "DIV") == ["POW"];
    assert RemoveFirst(["MUL", "DIV", "POW"], "DIV") == ["MUL", "POW"];
    assert RemoveFirst(["SUB", "MUL", "DIV", "POW"], "DIV") == ["SUB", "MUL", "POW"];
  }

  lemma ExampleAppends()
    ensures Added(["ADD", "SUB", "MUL", "POW", "DIV"], "SIN") == ["ADD", "SUB", "MUL", "POW", "DIV", "SIN"]
    ensures Added(["ADD", "SUB", "MUL", "POW", "DIV", "SIN"], "COS") == ["ADD", "SUB", "MUL", "POW", "DIV", "SIN", "COS"]
  {
  }

  lemma ExampleMovesAdd()
    ensures Added(["ADD", "SUB", "MUL", "POW", "DIV", "SIN", "COS"], "ADD") == ["SUB", "MUL", "POW", "DIV", "SIN", "COS", "ADD"]
  {
  }

  /** The draws of a generator given the seed s, or of an unseeded one. */
  function SeededStream(seeded: int -> (nat -> nat), s: Option<int>, unseeded: nat -> nat): nat -> nat
  {
    if s.Some? then seeded(s.value) else unseeded
  }

  /** A training pair whose output is the target function of its input. */
  function Datum(x: real): Training.TrainingData
  {
    Training.TrainingData(x, Training.CalculatePerfectOutput(x))
  }

  /** The number of leading input tokens Double.parseDouble accepts. */
  function FirstUnparsed(parseDouble: string -> Option<real>, pieces: seq<string>): (n: nat)
    ensures n <= |pieces|
    ensures forall k :: 0 <= k < n ==> parseDouble(pieces[k]).Some?
    ensures n < |pieces| ==> parseDouble(pieces[n]).None?
  {
    if |pieces| == 0 || parseDouble(pieces[0]).None? then 0
    else 1 + FirstUnparsed(parseDouble, pieces[1..])
  }

  /**
   * The pairs a load leaves in the cache: one per leading token Double.parseDouble accepts,
   * in token order.
   */
  function Loaded(parseDouble: string -> Option<real>, pieces: seq<string>): seq<Training.TrainingData>
  {
    var n := FirstUnparsed(parseDouble, pieces);
    seq(n, k requires 0 <= k < n => Datum(parseDouble(pieces[k]).value))
  }

  /**
   * A load gives one pair per token when every token parses, each pair's output being the
   * target function of its input; otherwise it stops at the first rejected token.
   */
  lemma LoadedFacts(parseDouble: string -> Option<real>, pieces: seq<string>)
    ensures |Loaded(parseDouble, pieces)| <= |pieces|
    ensures (forall k :: 0 <= k < |pieces| ==> parseDouble(pieces[k]).Some?) <==> |Loaded(parseDouble, pieces)| == |pieces|
    ensures forall k :: 0 <= k < |Loaded(parseDouble, pieces)| ==>
      Loaded(parseDouble, pieces)[k].inputData == parseDouble(pieces[k]).value &&
      Loaded(parseDouble, pieces)[k].outputData == Training.CalculatePerfectOutput(Loaded(parseDouble, pieces)[k].inputData)
  {
  }

  class GPSettings {
    var properties: map<string, string>
    var operators: seq<string>
    var operands: seq<string>
    var trainingData: seq<Training.TrainingData>
    var generator: Random
    /** The seed the live generator was last given (java.util.Random keeps it internally). */
    ghost var seed: Option<int>
    /** The draws java.util.Random produces after setSeed(s). */
    const seeded: int -> (nat -> nat)

    /** The stored seed property and the live generator agree. */
    ghost predicate SeedAgrees()
      reads this
    {
      RandomSeed(properties) == Ok(seed)
    }

    /** The live generator draws the stream of its seed, or the given stream when unseeded. */
    ghost predicate Draws(unseeded: nat -> nat)
      reads this, generator
    {
      generator.tape == SeededStream(seeded, seed, unseeded) && generator.pos == 0
    }

    constructor (loaded: map<string, string>, s: Option<int>, seeded: int -> (nat -> nat), unseeded: nat -> nat)
      ensures properties == loaded && this.seeded == seeded && seed == s
      ensures operators == [] && operands == [] && trainingData == []
      ensures fresh(generator) && Draws(unseeded)
    {
      properties := loaded;
      this.seeded := seeded;
      seed := s;
      generator := new Random(if s.Some? then seeded(s.value) else unseeded);
      operators := [];
      operands := [];
      trainingData := [];
    }

    /** getOperatorString. */
    function OperatorString(): string
      reads this
    {
      GetProperty(properties, OperatorsKey, DefaultOperators)
    }

    /** getOperandsString. */
    function OperandsString(): string
      reads this
    {
      GetProperty(properties, OperandsKey, DefaultOperands)
    }

    /** getTrainingInputString. */
    function TrainingInputString(): string
      reads this
    {
      GetProperty(properties, InputTrainingDataKey, DefaultInputTrainingData)
    }

    function PopulationSize(): Result<int> reads this { IntProperty(properties, PopulationSizeKey, DefaultPopulationSize) }
    function TournamentSize(): Result<int> reads this { IntProperty(properties, TournamentSizeKey, DefaultTournamentSize) }
    function MaxGenerations(): Result<int> reads this { IntProperty(properties, MaxGenerationsKey, DefaultMaxGenerations) }
    function MaxHtOfInitTree(): Result<int> reads this { IntProperty(properties, SubtreeHeightKey, DefaultSubtreeHeight) }
    function MaxHtOfCrossoverTree(): Result<int> reads this { IntProperty(properties, CrossoverSubtreeHeightKey, DefaultCrossoverHeight) }
    function MaxHtOfMutationSubtree(): Result<int> reads this { IntProperty(properties, MutationSubtreeHeightKey, DefaultMutationHeight) }

    /**
     * getRandomInt: the next draw of the live generator; Random.nextInt rejects a bound that
     * is not positive.
     */
    method GetRandomInt(bound: int) returns (r: Result<int>)
      modifies generator
      ensures bound <= 0 ==> r == Err(IllegalArgument) && generator.pos == old(generator.pos)
      ensures bound > 0 ==> r == Ok(Draw(generator.tape, old(generator.pos), bound))
      ensures bound > 0 ==> generator.pos == old(generator.pos) + 1
    {
      if bound <= 0 {
        return Err(IllegalArgument);
      }
      var n := generator.NextInt(bound);
      r := Ok(n);
    }

    /**
     * recycleRandomGenerator: a new generator, seeded with what getRandomSeed answers. As
     * written that is always null, so the new generator is always unseeded, whatever the seed
     * property holds, and the stored property agrees with it only when it names no seed.
     */
    method RecycleRandomGenerator(unseeded: nat -> nat)
      modifies this
      ensures properties == old(properties) && operators == old(operators) && operands == old(operands)
      ensures trainingData == old(trainingData) && fresh(generator)
      ensures seed == None && Draws(unseeded)
      ensures SeedAgrees() <==> RandomSeed(properties) == Ok(None)
    {
      var randomSeed := RandomSeedAsWritten(properties);
      seed := randomSeed.value;
      generator := new Random(SeededStream(seeded, randomSeed.value, unseeded));
    }

    /**
     * setRandomSeed: "null" installs an unseeded generator; any other value seeds the live
     * generator with Long.parseLong of it, which fails before anything is stored when the
     * value is not a long. The value is stored as given.
     */
    method SetRandomSeed(value: string, unseeded: nat -> nat) returns (outcome: Outcome)
      modifies this
      ensures operators == old(operators) && operands == old(operands) && trainingData == old(trainingData)
      ensures outcome.Fail? <==> value != "null" && ParseInteger(value, LongMin, LongMax).Err?
      ensures outcome.Fail? ==> outcome.fault == NumberFormat && properties == old(properties)
      ensures outcome.Fail? ==> seed == old(seed) && generator == old(generator)
      ensures outcome.Pass? ==> properties == old(properties)[RandomSeedKey := value]
      ensures outcome.Pass? ==> fresh(generator) && Draws(unseeded) && SeedAgrees()
      ensures outcome.Pass? ==> seed == (if value == "null" then None else Some(ParseInteger(value, LongMin, LongMax).value))
    {
      if value == "null" {
        generator := new Random(unseeded);
        seed := None;
      } else {
        match ParseInteger(value, LongMin, LongMax)
        case Err(f) =>
          return Fail(f);
        case Ok(s) =>
          generator := new Random(seeded(s));
          seed := Some(s);
      }
      properties := properties[RandomSeedKey := value];
      outcome := Pass;
    }

    /** setIntProperty: the decimal rendering of the value is stored under the key. */
    method SetIntProperty(key: string, value: int)
      requires IntMin <= value <= IntMax
      modifies this
      ensures properties == old(properties)[key := IntToString(value)]
      ensures operators == old(operators) && operands == old(operands) && trainingData == old(trainingData)
      ensures generator == old(generator) && seed == old(seed)
      ensures key != RandomSeedKey && old(SeedAgrees()) ==> SeedAgrees()
    {
      properties := properties[key := IntToString(value)];
    }

    /**
     * getOperators: the cached list; only while it is empty it is filled from the operator
     * string, split on commas and trimmed.
     */
    method GetOperators() returns (r: seq<string>)
      modifies this
      ensures old(operators) != [] ==> operators == old(operators)
      ensures old(operators) == [] ==> operators == Tokens(OperatorString())
      ensures r == operators
      ensures properties == old(properties) && operands == old(operands) && trainingData == old(trainingData)
      ensures generator == old(generator) && seed == old(seed)
    {
      if operators == [] {
        operators := SplitTrimmed(OperatorString());
      }
      r := operators;
    }

    /** getOperands, the same for the operand list. */
    method GetOperands() returns (r: seq<string>)
      modifies this
      ensures old(operands) != [] ==> operands == old(operands)
      ensures old(operands) == [] ==> operands == Tokens(OperandsString())
      ensures r == operands
      ensures properties == old(properties) && operators == old(operators) && trainingData == old(trainingData)
      ensures generator == old(generator) && seed == old(seed)
    {
      if operands == [] {
        operands := SplitTrimmed(OperandsString());
      }
      r := operands;
    }

    /**
     * addOperators (setOperatorProperty): the value moves to the end of the cached list as it
     * stands, loaded or not, and the operator property becomes that list joined with commas.
     */
    method AddOperators(value: string)
      modifies this
      ensures operators == Added(old(operators), value)
      ensures properties == old(properties)[OperatorsKey := Join(operators, Comma)]
      ensures operands == old(operands) && trainingData == old(trainingData)
      ensures generator == old(generator) && seed == old(seed)
      ensures old(SeedAgrees()) ==> SeedAgrees()
    {
      if value in operators {
        operators := RemoveFirst(operators, value);
      }
      operators := operators + [value];
      var composite := CommaJoin(operators);
      properties := properties[OperatorsKey := composite];
    }

    /** addOperands (setOperandProperty), the same for the operand list. */
    method AddOperands(value: string)
      modifies this
      ensures operands == Added(old(operands), value)
      ensures properties == old(properties)[OperandsKey := Join(operands, Comma)]
      ensures operators == old(operators) && trainingData == old(trainingData)
      ensures generator == old(generator) && seed == old(seed)
      ensures old(SeedAgrees()) ==> SeedAgrees()
    {
      if value in operands {
        operands := RemoveFirst(operands, value);
      }
      operands := operands + [value];
      var composite := CommaJoin(operands);
      properties := properties[OperandsKey := composite];
    }

    /** setTrainingInputString: the new input string is stored and the cached pairs dropped. */
    method SetTrainingInputString(value: string)
      modifies this
      ensures properties == old(properties)[InputTrainingDataKey := value]
      ensures TrainingInputString() == value && trainingData == []
      ensures operators == old(operators) && operands == old(operands)
      ensures generator == old(generator) && seed == old(seed)
      ensures old(SeedAgrees()) ==> SeedAgrees()
    {
      properties := properties[InputTrainingDataKey := value];
      trainingData := [];
    }

    /**
     * getTrainingData (getTrainingDataProperty): the cached pairs; only while there are none
     * they are built from the input string, one pair per comma token with the target
     * function's output. Double.parseDouble is a parameter; when it rejects a token the load
     * stops there with the pairs built so far left in the cache.
     */
    method GetTrainingData(parseDouble: string -> Option<real>) returns (r: Result<seq<Training.TrainingData>>)
      modifies this
      ensures old(trainingData) != [] ==> trainingData == old(trainingData) && r == Ok(trainingData)
      ensures old(trainingData) == [] ==> trainingData == Loaded(parseDouble, Split(TrainingInputString(), Comma))
      ensures old(trainingData) == [] ==>
        (r.Ok? <==> FirstUnparsed(parseDouble, Split(TrainingInputString(), Comma)) == |Split(TrainingInputString(), Comma)|)
      ensures r.Ok? ==> r.value == trainingData
      ensures r.Err? ==> r.fault == NumberFormat
      ensures properties == old(properties) && operators == old(operators) && operands == old(operands)
      ensures generator == old(generator) && seed == old(seed)
    {
      if trainingData != [] {
        return Ok(trainingData);
      }
      var pieces := Split(TrainingInputString(), Comma);
      var data, complete := LoadPairs(parseDouble, pieces);
      trainingData := data;
      r := if complete then Ok(data) else Err(NumberFormat);
    }
  }

  /** The load loop of getTrainingDataProperty; it stops at the first token that does not parse. */
  method LoadPairs(parseDouble: string -> Option<real>, pieces: seq<string>)
    returns (data: seq<Training.TrainingData>, complete: bool)
    ensures data == Loaded(parseDouble, pieces)
    ensures complete <==> FirstUnparsed(parseDouble, pieces) == |pieces|
  {
    ghost var loaded := Loaded(parseDouble, pieces);
    data := [];
    var i := 0;
    while i < |pieces|
      invariant 0 <= i <= |loaded|
      invariant data == loaded[..i]
    {
      match parseDouble(pieces[i])
      case None =>
        assert i == |loaded|;
        return data, false;
      case Some(input) =>
        assert i < |loaded| && loaded[i] == Datum(input);
        assert loaded[..i + 1] == loaded[..i] + [loaded[i]];
        data := data + [Datum(input)];
      i := i + 1;
    }
    assert loaded[..i] == loaded;
    complete := true;
  }

  /**
   * Loading the settings (the private constructor behind getInstance): the properties file's
   * contents as given, a generator seeded with what getRandomSeed answers, and empty caches.
   * As written getRandomSeed always answers null, so the generator is always unseeded and the
   * seed property is ignored; the stored property agrees with the generator only when it
   * names no seed.
   */
  method Load(loaded: map<string, string>, seeded: int -> (nat -> nat), unseeded: nat -> nat)
    returns (settings: GPSettings)
    ensures fresh(settings) && fresh(settings.generator)
    ensures settings.properties == loaded && settings.seeded == seeded
    ensures settings.operators == [] && settings.operands == [] && settings.trainingData == []
    ensures settings.seed == None && settings.Draws(unseeded)
    ensures settings.SeedAgrees() <==> RandomSeed(loaded) == Ok(None)
  {
    var randomSeed := RandomSeedAsWritten(loaded);
    settings := new GPSettings(loaded, randomSeed.value, seeded, unseeded);
  }

  /** With no properties file every integer getter gives its default. */
  lemma DefaultIntegers()
    ensures IntProperty(map[], PopulationSizeKey, DefaultPopulationSize) == Ok(400)
    ensures IntProperty(map[], TournamentSizeKey, DefaultTournamentSize) == Ok(6)
    ensures IntProperty(map[], MaxGenerationsKey, DefaultMaxGenerations) == Ok(500000)
    ensures IntProperty(map[], SubtreeHeightKey, DefaultSubtreeHeight) == Ok(4)
    ensures IntProperty(map[], CrossoverSubtreeHeightKey, DefaultCrossoverHeight) == Ok(10)
    ensures IntProperty(map[], MutationSubtreeHeightKey, DefaultMutationHeight) == Ok(2)
  {
    ParseIntToString(400, IntMin, IntMax);
    assert IntToString(400) == DefaultPopulationSize;
    ParseIntToString(6, IntMin, IntMax);
    assert IntToString(6) == DefaultTournamentSize;
    ParseIntToString(500000, IntMin, IntMax);
    assert IntToString(500000) == DefaultMaxGenerations;
    ParseIntToString(4, IntMin, IntMax);
    assert IntToString(4) == DefaultSubtreeHeight;
    ParseIntToString(10, IntMin, IntMax);
    assert IntToString(10) == DefaultCrossoverHeight;
    ParseIntToString(2, IntMin, IntMax);
    assert IntToString(2) == DefaultMutationHeight;
  }
}
