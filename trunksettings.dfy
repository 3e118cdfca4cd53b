/**
 * GPSettings of the older generation (trunk/.../gp/GPSettings.java): the same property store
 * with its own defaults, a generator that is always seeded (12345 unless the properties say
 * otherwise), a crossover count that defaults to a quarter of the population, and the cached
 * operator and operand lists. The properties file itself is I/O and is a parameter.
 */
module TrunkSettings {
  import opened Wrappers
  import opened Strings
  import opened Properties
  import opened Randomness

  const RandomSeedKey := "randomSeed"
  const OperatorsKey := "operators"
  const OperandsKey := "operands"
  const CrossoverSizeKey := "numberOfCrossOvers"
  const PopulationSizeKey := "populationSize"
  const TrainingDataSizeKey := "trainingDataSize"
  const SubtreeHeightKey := "maxSubtreeHeight"
  const CrossoverSubtreeHeightKey := "maxCrossoverSubtreeHeight"

  const DefaultRandomSeed := "12345"
  const DefaultOperators := "+,-,*,/"
  const DefaultOperands := "0,1,2,3,4,5,6,7,8,9,x"
  const DefaultCrossoverRatio := 4
  const DefaultPopulationSize := "100"
  const DefaultTrainingDataSize := "10"
  const DefaultSubtreeHeight := "4"
  const DefaultCrossoverHeight := "20"

  /** getRandomSeed: Long.parseLong of the seed property, 12345 when there is none. */
  function RandomSeed(props: map<string, string>): (r: Result<int>)
    ensures r.Err? ==> r.fault == NumberFormat
    ensures r.Ok? ==> LongMin <= r.value <= LongMax
  {
    ParseInteger(GetProperty(props, RandomSeedKey, DefaultRandomSeed), LongMin, LongMax)
  }

  function PopulationSize(props: map<string, string>): Result<int>
  {
    IntProperty(props, PopulationSizeKey, DefaultPopulationSize)
  }

  function TrainingDataSize(props: map<string, string>): Result<int>
  {
    IntProperty(props, TrainingDataSizeKey, DefaultTrainingDataSize)
  }

  function MaxHtOfInitTree(props: map<string, string>): Result<int>
  {
    IntProperty(props, SubtreeHeightKey, DefaultSubtreeHeight)
  }

  function MaxHtOfCrossoverTree(props: map<string, string>): Result<int>
  {
    IntProperty(props, CrossoverSubtreeHeightKey, DefaultCrossoverHeight)
  }

  /** Java's int division: the quotient truncated toward zero. */
  function Quot(a: int, d: int): (q: int)
    requires d > 0
    ensures a >= 0 ==> q == a / d
    ensures a < 0 ==> q == -((-a) / d)
  {
    if a >= 0 then a / d else -((-a) / d)
  }

  /**
   * getNumCrossOvers: the crossover property, whose default is the population size divided
   * by the crossover ratio. The population size is read first, so a malformed population
   * property fails even when the crossover property is set.
   */
  function NumCrossOvers(props: map<string, string>): Result<int>
  {
    match PopulationSize(props)
    case Err(f) => Err(f)
    case Ok(n) => IntProperty(props, CrossoverSizeKey, IntToString(Quot(n, DefaultCrossoverRatio)))
  }

  /**
   * Without a crossover property the count follows the population: with a population of n
   * it is n / 4 rounded toward zero; once set, the stored count is read back.
   */
  lemma NumCrossOversFollowsPopulation(props: map<string, string>, n: int, m: int)
    requires IntMin <= n <= IntMax && IntMin <= m <= IntMax
    ensures CrossoverSizeKey !in props ==>
      NumCrossOvers(props[PopulationSizeKey := IntToString(n)]) == Ok(Quot(n, DefaultCrossoverRatio))
    ensures PopulationSize(props).Ok? ==> NumCrossOvers(props[CrossoverSizeKey := IntToString(m)]) == Ok(m)
  {
    IntPropertyStored(props, PopulationSizeKey, n, DefaultPopulationSize);
    ParseIntToString(Quot(n, DefaultCrossoverRatio), IntMin, IntMax);
    if PopulationSize(props).Ok? {
      var p := props[CrossoverSizeKey := IntToString(m)];
      assert PopulationSize(p) == PopulationSize(props);
      IntPropertyStored(props, CrossoverSizeKey, m, IntToString(Quot(PopulationSize(props).value, DefaultCrossoverRatio)));
    }
  }

  /** With no properties file: population 100, 25 crossovers, seed 12345. */
  lemma Defaults()
    ensures PopulationSize(map[]) == Ok(100)
    ensures NumCrossOvers(map[]) == Ok(25)
    ensures RandomSeed(map[]) == Ok(12345)
    ensures TrainingDataSize(map[]) == Ok(10)
    ensures MaxHtOfInitTree(map[]) == Ok(4) && MaxHtOfCrossoverTree(map[]) == Ok(20)
  {
    ParseIntToString(100, IntMin, IntMax);
    assert IntToString(100) == DefaultPopulationSize;
    ParseIntToString(25, IntMin, IntMax);
    ParseIntToString(12345, LongMin, LongMax);
    assert IntToString(12345) == DefaultRandomSeed;
    ParseIntToString(10, IntMin, IntMax);
    assert IntToString(10) == DefaultTrainingDataSize;
    ParseIntToString(4, IntMin, IntMax);
    assert IntToString(4) == DefaultSubtreeHeight;
    ParseIntToString(20, IntMin, IntMax);
    assert IntToString(20) == DefaultCrossoverHeight;
  }

  class GPSettings {
    var properties: map<string, string>
    var operators: seq<string>
    var operands: seq<string>
    var generator: Random
    /** The seed the live generator was last given (java.util.Random keeps it internally). */
    ghost var seed: int
    /** The draws java.util.Random produces after setSeed(s). */
    const seeded: int -> (nat -> nat)

    /** The stored seed property names the seed of the live generator. */
    ghost predicate SeedAgrees()
      reads this
    {
      RandomSeed(properties) == Ok(seed)
    }

    constructor (loaded: map<string, string>, s: int, seeded: int -> (nat -> nat))
      ensures properties == loaded && this.seeded == seeded && seed == s
      ensures operators == [] && operands == []
      ensures fresh(generator) && generator.tape == seeded(s) && generator.pos == 0
    {
      properties := loaded;
      this.seeded := seeded;
      seed := s;
      generator := new Random(seeded(s));
      operators := [];
      operands := [];
    }

    function OperatorString(): string
      reads this
    {
      GetProperty(properties, OperatorsKey, DefaultOperators)
    }

    function OperandsString(): string
      reads this
    {
      GetProperty(properties, OperandsKey, DefaultOperands)
    }

    /** getRandomInt: the next draw of the live generator; a bound below 1 is rejected. */
    method GetRandomInt(bound: int) returns (r: Result<int>)
      modifies generator
      ensures bound <= 0 ==> r == Err(IllegalArgument) && generator.pos == old(generator.pos)
      ensures bound > 0 ==> r == Ok(Draw(generator.tape, old(generator.pos), bound))
      ensures bound > 0 ==> generator.pos == old(generator.pos) + 1
    {
      if bound <= 0 {
        return Err(IllegalArgument);
      }
      var n := generator.NextInt(bound);
      r := Ok(n);
    }

    /** setRandomSeed: the live generator restarts from the seed, and the seed is stored. */
    method SetRandomSeed(value: int)
      requires LongMin <= value <= LongMax
      modifies this
      ensures properties == old(properties)[RandomSeedKey := IntToString(value)]
      ensures operators == old(operators) && operands == old(operands)
      ensures fresh(generator) && generator.tape == seeded(value) && generator.pos == 0
      ensures seed == value && SeedAgrees()
    {
      generator := new Random(seeded(value));
      seed := value;
      properties := properties[RandomSeedKey := IntToString(value)];
      ParseIntToString(value, LongMin, LongMax);
    }

    /** setIntProperty (setNumCrossOvers, setPopulationSize, ...): the decimal value is stored. */
    method SetIntProperty(key: string, value: int)
      requires IntMin <= value <= IntMax
      modifies this
      ensures properties == old(properties)[key := IntToString(value)]
      ensures operators == old(operators) && operands == old(operands)
      ensures generator == old(generator) && seed == old(seed)
      ensures key != RandomSeedKey && old(SeedAgrees()) ==> SeedAgrees()
    {
      properties := properties[key := IntToString(value)];
    }

    /** getOperators: filled from the operator string only while the cache is empty. */
    method GetOperators() returns (r: seq<string>)
      modifies this
      ensures old(operators) != [] ==> operators == old(operators)
      ensures old(operators) == [] ==> operators == Tokens(OperatorString())
      ensures r == operators
      ensures properties == old(properties) && operands == old(operands)
      ensures generator == old(generator) && seed == old(seed)
    {
      if operators == [] {
        operators := SplitTrimmed(OperatorString());
      }
      r := operators;
    }

    /** getOperands: the same for the operand list. */
    method GetOperands() returns (r: seq<string>)
      modifies this
      ensures old(operands) != [] ==> operands == old(operands)
      ensures old(operands) == [] ==> operands == Tokens(OperandsString())
      ensures r == operands
      ensures properties == old(properties) && operators == old(operators)
      ensures generator == old(generator) && seed == old(seed)
    {
      if operands == [] {
        operands := SplitTrimmed(OperandsString());
      }
      r := operands;
    }

    /**
     * setOperators (setOperatorProperty): the value moves to the end of the cached list and the
     * property becomes the list joined by string concatenation with commas.
     */
    method SetOperators(value: string)
      modifies this
      ensures operators == Added(old(operators), value)
      ensures properties == old(properties)[OperatorsKey := Join(operators, Comma)]
      ensures operands == old(operands) && generator == old(generator) && seed == old(seed)
      ensures old(SeedAgrees()) ==> SeedAgrees()
    {
      if value in operators {
        operators := RemoveFirst(operators, value);
      }
      operators := operators + [value];
      var composite := CommaJoin(operators);
      properties := properties[OperatorsKey := composite];
    }

    /** setOperands (setOperandProperty): the same for the operand list. */
    method SetOperands(value: string)
      modifies this
      ensures operands == Added(old(operands), value)
      ensures properties == old(properties)[OperandsKey := Join(operands, Comma)]
      ensures operators == old(operators) && generator == old(generator) && seed == old(seed)
      ensures old(SeedAgrees()) ==> SeedAgrees()
    {
      if value in operands {
        operands := RemoveFirst(operands, value);
      }
      operands := operands + [value];
      var composite := CommaJoin(operands);
      properties := properties[OperandsKey := composite];
    }
  }

  /**
   * Loading the settings (the private constructor behind getInstance): the generator is
   * always seeded, from the seed property or with 12345; a malformed seed property fails in
   * Long.parseLong.
   */
  method Load(loaded: map<string, string>, seeded: int -> (nat -> nat)) returns (r: Result<GPSettings>)
    ensures r.Err? <==> RandomSeed(loaded).Err?
    ensures r.Err? ==> r.fault == NumberFormat
    ensures r.Ok? ==> fresh(r.value) && fresh(r.value.generator)
    ensures r.Ok? ==> r.value.properties == loaded && r.value.seeded == seeded
    ensures r.Ok? ==> r.value.operators == [] && r.value.operands == []
    ensures r.Ok? ==> r.value.SeedAgrees() && r.value.generator.tape == seeded(r.value.seed)
    ensures r.Ok? && RandomSeedKey !in loaded ==> r.value.seed == 12345
  {
    match RandomSeed(loaded)
    case Err(f) =>
      r := Err(f);
    case Ok(s) =>
      if RandomSeedKey !in loaded {
        Defaults();
      }
      var settings := new GPSettings(loaded, s, seeded);
      r := Ok(settings);
  }
}
