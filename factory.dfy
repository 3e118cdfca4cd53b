/**
 * GPTreeFactory: random construction of expression trees on the node heap. The Full method
 * puts operators on every level above the maximum height and operands on it; the Grow method
 * draws an operator or an operand on every level above it. Every draw comes from the injected
 * stream of Randomness, in the order the Java code makes them: an operator or operand index, and
 * in Grow first the coin that chooses between them; children are built left before right.
 *
 * SubtreeSpec and ChildrenSpec compute the tree and the stream position on values; the heap
 * methods build the same tree node by node and are proved to realize it.
 */
module TreeFactory {
  import opened Wrappers
  import opened ExprTree
  import opened NodeHeap
  import opened Randomness
  import opened GPTrees

  // ---------------------------------------------------------------------------------------
  // The draws

  /** One node chosen from the lists: an operator, or an operand leaf; pos is the next draw. */
  datatype Drawn = DrawnOperator(op: OpKind, pos: nat) | DrawnOperand(leaf: Expr, pos: nat)

  /** The record a drawn node starts as. */
  function DrawnPayload(dr: Drawn): Payload
  {
    match dr
    case DrawnOperator(op, _) => OperatorData(op)
    case DrawnOperand(leaf, _) =>
      if leaf.Operand? then OperandData(leaf.variable, leaf.data) else OperatorData(leaf.op)
  }

  /**
   * new OperandNode(token): "x" in either case is the variable, any other token must parse as
   * a number (NumberFormatException otherwise).
   */
  function OperandFor(token: string, parse: string -> Option<real>): (r: Result<Expr>)
    ensures r.Err? <==> !IsVariableToken(token) && parse(token).None?
    ensures r.Err? ==> r.fault == NumberFormat
    ensures r.Ok? ==> r.value.Operand? && r.value.valid && OperandsSet(r.value)
    ensures r.Ok? ==> r.value.variable == IsVariableToken(token)
    ensures r.Ok? && !r.value.variable ==> r.value.data == parse(token)
  {
    if IsVariableToken(token) then Ok(Operand(true, None, true))
    else if parse(token).Some? then Ok(Operand(false, parse(token), true))
    else Err(NumberFormat)
  }

  /**
   * getRandomOperator: a uniform index into the operator list (nextInt of an empty list's
   * size is an IllegalArgumentException), and OperatorType.valueOf of the name found there.
   */
  function RandomOperator(tape: nat -> nat, pos: nat, operators: seq<string>): (r: Result<Drawn>)
    ensures |operators| == 0 ==> r == Err(IllegalArgument)
    ensures r.Err? ==> r.fault == IllegalArgument
    ensures r.Ok? ==> r.value.DrawnOperator? && r.value.pos == pos + 1 && Name(r.value.op) in operators
    ensures r.Ok? ==> Name(r.value.op) == operators[Draw(tape, pos, |operators|)]
    ensures |operators| > 0 && OperatorNames(operators) ==> r.Ok?
  {
    if |operators| == 0 then Err(IllegalArgument)
    else
      var name := operators[Draw(tape, pos, |operators|)];
      match ValueOf(name)
      case Err(f) => Err(f)
      case Ok(op) => Ok(DrawnOperator(op, pos + 1))
  }

  /** getRandomOperand: a uniform index into the operand list and the operand it names. */
  function RandomOperand(tape: nat -> nat, pos: nat, operands: seq<string>, parse: string -> Option<real>): (r: Result<Drawn>)
    ensures |operands| == 0 ==> r == Err(IllegalArgument)
    ensures r.Err? ==> r.fault == IllegalArgument || r.fault == NumberFormat
    ensures r.Ok? ==> r.value.DrawnOperand? && r.value.pos == pos + 1
    ensures r.Ok? ==> OperandFor(operands[Draw(tape, pos, |operands|)], parse) == Ok(r.value.leaf)
    ensures |operands| > 0 && TokensParse(operands, parse) ==> r.Ok?
  {
    if |operands| == 0 then Err(IllegalArgument)
    else
      match OperandFor(operands[Draw(tape, pos, |operands|)], parse)
      case Err(f) => Err(f)
      case Ok(leaf) => Ok(DrawnOperand(leaf, pos + 1))
  }

  /** getRandomNode: a coin in [0, 2); 1 draws an operator, 0 an operand. */
  function RandomNode(tape: nat -> nat, pos: nat, operators: seq<string>, operands: seq<string>,
                      parse: string -> Option<real>): (r: Result<Drawn>)
    ensures r.Ok? ==> r.value.pos == pos + 2
    ensures r.Ok? ==> (r.value.DrawnOperator? <==> Draw(tape, pos, 2) == 1)
    ensures Draw(tape, pos, 2) == 1 ==> r == RandomOperator(tape, pos + 1, operators)
    ensures Draw(tape, pos, 2) != 1 ==> r == RandomOperand(tape, pos + 1, operands, parse)
  {
    if Draw(tape, pos, 2) == 1 then RandomOperator(tape, pos + 1, operators)
    else RandomOperand(tape, pos + 1, operands, parse)
  }

  /** Every operand token is the variable or parses as a number. */
  predicate TokensParse(operands: seq<string>, parse: string -> Option<real>)
  {
    forall k :: 0 <= k < |operands| ==> IsVariableToken(operands[k]) || parse(operands[k]).Some?
  }

  // ---------------------------------------------------------------------------------------
  // The trees the two methods build

  /** A built subtree and the position of the next draw. */
  datatype Built = Built(tree: Expr, pos: nat)

  /** The levels still open below depth d when the maximum height is m. */
  function Room(d: nat, m: int): nat { if d < m then m - d else 0 }

  /**
   * generateFullSubtree (grow false) and generateGrowSubtree (grow true) at depth d for the
   * maximum height m: below m Full draws an operator and Grow draws a node; at m both draw an
   * operand; an operator's children are built one level down.
   */
  function SubtreeSpec(grow: bool, d: nat, m: int, tape: nat -> nat, pos: nat, operators: seq<string>,
                       operands: seq<string>, parse: string -> Option<real>): Result<Built>
    decreases Room(d, m), 1
  {
    if d < m then
      match (if grow then RandomNode(tape, pos, operators, operands, parse) else RandomOperator(tape, pos, operators))
      case Err(f) => Err(f)
      case Ok(DrawnOperand(leaf, p)) => Ok(Built(leaf, p))
      case Ok(DrawnOperator(op, p)) => ChildrenSpec(grow, op, d, m, tape, p, operators, operands, parse)
    else
      match RandomOperand(tape, pos, operands, parse)
      case Err(f) => Err(f)
      case Ok(dr) => Ok(Built(dr.leaf, dr.pos))
  }

  /**
   * The try block of both methods: the left subtree, then the right one when the operator
   * takes two arguments; the operator is valid and a one-argument operator has no right child.
   */
  function ChildrenSpec(grow: bool, op: OpKind, d: nat, m: int, tape: nat -> nat, pos: nat, operators: seq<string>,
                        operands: seq<string>, parse: string -> Option<real>): Result<Built>
    requires d < m
    decreases Room(d, m), 0
  {
    match SubtreeSpec(grow, d + 1, m, tape, pos, operators, operands, parse)
    case Err(f) => Err(f)
    case Ok(left) =>
      if Arity(op) > 1 then
        match SubtreeSpec(grow, d + 1, m, tape, left.pos, operators, operands, parse)
        case Err(f) => Err(f)
        case Ok(right) => Ok(Built(Operator(op, left.tree, Some(right.tree), true), right.pos))
      else Ok(Built(Operator(op, left.tree, None, true), left.pos))
  }

  /**
   * generateGrowTree's do-while loop as written: build a Grow tree, and unless it is for a
   * subtree start again while it is a single operand. The Java loop has no bound; attempts
   * bounds it here.
   */
  function GrowTreeAsWritten(m: int, subtree: bool, tape: nat -> nat, pos: nat, attempts: nat, operators: seq<string>,
                             operands: seq<string>, parse: string -> Option<real>): Result<Built>
    decreases attempts
  {
    if attempts == 0 then Err(RetriesExhausted)
    else
      match SubtreeSpec(true, 0, m, tape, pos, operators, operands, parse)
      case Err(f) => Err(f)
      case Ok(b) =>
        if !subtree && Height(b.tree) == 0 then GrowTreeAsWritten(m, subtree, tape, b.pos, attempts - 1, operators, operands, parse)
        else Ok(b)
  }

  /**
   * generateGrowTree corrected: a whole tree (not a subtree) of maximum height below 1 can only
   * be a single operand, which the loop never accepts, so that request is refused up front
   * instead of retried for ever.
   */
  function GrowTreeSpec(m: int, subtree: bool, tape: nat -> nat, pos: nat, attempts: nat, operators: seq<string>,
                        operands: seq<string>, parse: string -> Option<real>): Result<Built>
  {
    if !subtree && m <= 0 then Err(IllegalArgument)
    else GrowTreeAsWritten(m, subtree, tape, pos, attempts, operators, operands, parse)
  }

  /** GPTreeFactory.GenerationMethod. */
  datatype GenerationMethod = FULL | GROW | RANDOM

  /** GenerationMethod.valueOf: IllegalArgumentException for any other name. */
  function MethodOf(name: string): (r: Result<GenerationMethod>)
    ensures r.Err? ==> r.fault == IllegalArgument
    ensures r.Ok? ==> name == (match r.value case FULL => "FULL" case GROW => "GROW" case RANDOM => "RANDOM")
  {
    if name == "FULL" then Ok(FULL)
    else if name == "GROW" then Ok(GROW)
    else if name == "RANDOM" then Ok(RANDOM)
    else Err(IllegalArgument)
  }

  /**
   * generateTree (subtree false, m the initial height) and generateSubtree (subtree true, m the
   * crossover height): the method the settings name, RANDOM choosing Full on a 0 coin.
   */
  function TreeSpec(methodName: string, m: int, subtree: bool, tape: nat -> nat, pos: nat, attempts: nat,
                    operators: seq<string>, operands: seq<string>, parse: string -> Option<real>): Result<Built>
  {
    match MethodOf(methodName)
    case Err(f) => Err(f)
    case Ok(FULL) => SubtreeSpec(false, 0, m, tape, pos, operators, operands, parse)
    case Ok(GROW) => GrowTreeSpec(m, subtree, tape, pos, attempts, operators, operands, parse)
    case Ok(RANDOM) =>
      if Draw(tape, pos, 2) == 0 then SubtreeSpec(false, 0, m, tape, pos + 1, operators, operands, parse)
      else GrowTreeSpec(m, subtree, tape, pos + 1, attempts, operators, operands, parse)
  }

  // ---------------------------------------------------------------------------------------
  // The factory methods on the heap

  /** h keeps the first base records of h0. */
  ghost predicate Extends(h0: seq<Node>, h: seq<Node>, base: nat)
  {
    base <= |h0| && base <= |h| && h[..base] == h0[..base]
  }

  /**
   * A draw of one node: on failure nothing is allocated; otherwise the record the draw
   * describes is appended and the stream has moved on to the position the draw gives.
   */
  ghost predicate Drew(h0: seq<Node>, h: seq<Node>, r: Result<nat>, spec: Result<Drawn>, pos: nat)
  {
    (spec.Err? ==> r == Err(spec.fault) && h == h0) &&
    (spec.Ok? ==> r == Ok(|h0|) && h == h0 + [Heap.Fresh(DrawnPayload(spec.value))] && pos == spec.value.pos)
  }

  /**
   * The outcome of building a subtree from h0 to h: the records below base are kept; on
   * failure the fault of spec; otherwise the shape s rooted at the returned node realizes the
   * tree of spec with nodes at base or beyond, the stream is at spec's position, and the root
   * has neither parent nor tag yet.
   */
  ghost predicate Generated(h0: seq<Node>, h: seq<Node>, base: nat, r: Result<nat>, s: Shape, spec: Result<Built>, pos: nat)
  {
    Extends(h0, h, base) &&
    (spec.Err? ==> r == Err(spec.fault)) &&
    (spec.Ok? ==>
      r == Ok(s.id) && Realizes(h, s) && Abs(h, s) == spec.value.tree && pos == spec.value.pos &&
      h[s.id].parent.None? && h[s.id].nodeType.None? &&
      forall k :: k in Ids(s) ==> base <= k < |h|)
  }

  method GetRandomOperator(heap: Heap, rng: Random, operators: seq<string>) returns (r: Result<nat>)
    modifies heap, rng
    ensures Drew(old(heap.nodes), heap.nodes, r, RandomOperator(rng.tape, old(rng.pos), operators), rng.pos)
  {
    if |operators| == 0 {
      return Err(IllegalArgument);
    }
    var index := rng.NextInt(|operators|);
    var op := ValueOf(operators[index]);
    if op.Err? {
      return Err(op.fault);
    }
    var id := heap.NewOperatorNode(op.value);
    r := Ok(id);
  }

  method GetRandomOperand(heap: Heap, rng: Random, operands: seq<string>, parse: string -> Option<real>)
    returns (r: Result<nat>)
    modifies heap, rng
    ensures Drew(old(heap.nodes), heap.nodes, r, RandomOperand(rng.tape, old(rng.pos), operands, parse), rng.pos)
  {
    if |operands| == 0 {
      return Err(IllegalArgument);
    }
    var index := rng.NextInt(|operands|);
    r := heap.NewOperandNode(operands[index], parse);
  }

  method GetRandomNode(heap: Heap, rng: Random, operators: seq<string>, operands: seq<string>,
                       parse: string -> Option<real>) returns (r: Result<nat>)
    modifies heap, rng
    ensures Drew(old(heap.nodes), heap.nodes, r, RandomNode(rng.tape, old(rng.pos), operators, operands, parse), rng.pos)
  {
    var coin := rng.NextInt(2);
    if coin == 1 {
      r := GetRandomOperator(heap, rng, operators);
    } else {
      r := GetRandomOperand(heap, rng, operands, parse);
    }
  }

  /** generateFullSubtree(d, m): the Full subtree at depth d, built on the heap. */
  method GenerateFullSubtree(heap: Heap, rng: Random, d: nat, m: int, operators: seq<string>, operands: seq<string>,
                             parse: string -> Option<real>) returns (r: Result<nat>, ghost s: Shape)
    modifies heap, rng
    decreases Room(d, m), 2
    ensures Generated(old(heap.nodes), heap.nodes, |old(heap.nodes)|, r, s,
                      SubtreeSpec(false, d, m, rng.tape, old(rng.pos), operators, operands, parse), rng.pos)
  {
    if d < m {
      var o := GetRandomOperator(heap, rng, operators);
      if o.Err? {
        r, s := Err(o.fault), Leaf(0);
        return;
      }
      ghost var op := heap.nodes[o.value].payload.op;
      r, s := AddChildren(heap, rng, o.value, op, false, d, m, operators, operands, parse);
    } else {
      r := GetRandomOperand(heap, rng, operands, parse);
      s := Leaf(if r.Ok? then r.value else 0);
    }
  }

  /** generateGrowSubtree(d, m): the Grow subtree at depth d, built on the heap. */
  method GenerateGrowSubtree(heap: Heap, rng: Random, d: nat, m: int, operators: seq<string>, operands: seq<string>,
                             parse: string -> Option<real>) returns (r: Result<nat>, ghost s: Shape)
    modifies heap, rng
    decreases Room(d, m), 2
    ensures Generated(old(heap.nodes), heap.nodes, |old(heap.nodes)|, r, s,
                      SubtreeSpec(true, d, m, rng.tape, old(rng.pos), operators, operands, parse), rng.pos)
  {
    if d < m {
      var o := GetRandomNode(heap, rng, operators, operands, parse);
      if o.Err? {
        r, s := Err(o.fault), Leaf(0);
        return;
      }
      if heap.nodes[o.value].payload.OperandData? {
        r, s := o, Leaf(o.value);
        return;
      }
      ghost var op := heap.nodes[o.value].payload.op;
      r, s := AddChildren(heap, rng, o.value, op, true, d, m, operators, operands, parse);
    } else {
      r := GetRandomOperand(heap, rng, operands, parse);
      s := Leaf(if r.Ok? then r.value else 0);
    }
  }

  /**
   * One child of the operator n after building it from h0 to h: on failure the fault of spec
   * and the first records kept; otherwise the subtree cs of fresh nodes realizes the tree of
   * spec, hangs in slot d of n and points back to n with the slot's tag, and no other old
   * record changed.
   */
  ghost predicate Hung(h0: seq<Node>, h: seq<Node>, n: nat, d: Dir, r: Result<nat>, cs: Shape, spec: Result<Built>, pos: nat)
  {
    n < |h0| <= |h| &&
    (spec.Err? ==> r == Err(spec.fault) && h[..n] == h0[..n]) &&
    (spec.Ok? ==>
      r == Ok(cs.id) && Realizes(h, cs) && Abs(h, cs) == spec.value.tree && pos == spec.value.pos &&
      h[cs.id].parent == Some(n) && h[cs.id].nodeType == Some(SlotTag(d)) &&
      (forall k :: k in Ids(cs) ==> |h0| <= k < |h|) &&
      h[n] == WithSlot(h0[n], d, Some(cs.id)) &&
      forall k :: 0 <= k < |h0| && k != n ==> h[k] == h0[k])
  }

  /**
   * The try block of both methods for the fresh operator n at depth d: the left subtree is
   * built, attached, tagged LEFT and given its parent; then likewise the right subtree when
   * the operator takes two arguments.
   */
  method AddChildren(heap: Heap, rng: Random, n: nat, ghost op: OpKind, grow: bool, d: nat, m: int,
                     operators: seq<string>, operands: seq<string>, parse: string -> Option<real>)
    returns (r: Result<nat>, ghost s: Shape)
    requires d < m && n + 1 == |heap.nodes| && heap.nodes[n] == Heap.Fresh(OperatorData(op))
    modifies heap, rng
    decreases Room(d, m), 1
    ensures Generated(old(heap.nodes), heap.nodes, n, r, s,
                      ChildrenSpec(grow, op, d, m, rng.tape, old(rng.pos), operators, operands, parse), rng.pos)
  {
    ghost var h0, p0 := heap.nodes, rng.pos;
    ghost var specL := SubtreeSpec(grow, d + 1, m, rng.tape, p0, operators, operands, parse);
    var left: Result<nat>;
    ghost var ls: Shape;
    left, ls := AddChild(heap, rng, n, L, grow, d, m, operators, operands, parse);
    if left.Err? {
      r, s := Err(left.fault), Leaf(n);
      return;
    }
    ghost var h1 := heap.nodes;
    if Arity(heap.nodes[n].payload.op) > 1 {
      ghost var specR := SubtreeSpec(grow, d + 1, m, rng.tape, specL.value.pos, operators, operands, parse);
      var right: Result<nat>;
      ghost var rs: Shape;
      right, rs := AddChild(heap, rng, n, R, grow, d, m, operators, operands, parse);
      if right.Err? {
        r, s := Err(right.fault), Leaf(n);
        assert heap.nodes[..n] == h0[..n];
        return;
      }
      s := Fork(n, ls, Some(rs));
      assert ChildrenSpec(grow, op, d, m, rng.tape, p0, operators, operands, parse)
        == Ok(Built(Operator(op, specL.value.tree, Some(specR.value.tree), true), specR.value.pos));
      BinaryGenerated(h0, h1, heap.nodes, n, op, ls, rs, specL.value, specR.value);
    } else {
      s := Fork(n, ls, None);
      assert ChildrenSpec(grow, op, d, m, rng.tape, p0, operators, operands, parse)
        == Ok(Built(Operator(op, specL.value.tree, None, true), specL.value.pos));
      UnaryGenerated(h0, h1, n, op, ls, specL.value);
    }
    r := Ok(n);
  }

  /** The fresh operator n with its one child hung is a generated tree over that child. */
  lemma UnaryGenerated(h0: seq<Node>, h1: seq<Node>, n: nat, op: OpKind, ls: Shape, bl: Built)
    requires n + 1 == |h0| && h0[n] == Heap.Fresh(OperatorData(op))
    requires Hung(h0, h1, n, L, Ok(ls.id), ls, Ok(bl), bl.pos)
    ensures Generated(h0, h1, n, Ok(n), Fork(n, ls, None), Ok(Built(Operator(op, bl.tree, None, true), bl.pos)), bl.pos)
  {
    assert h1[..n] == h0[..n];
  }

  /** The fresh operator n with both children hung, left then right, is a generated tree over them. */
  lemma BinaryGenerated(h0: seq<Node>, h1: seq<Node>, h2: seq<Node>, n: nat, op: OpKind, ls: Shape, rs: Shape,
                        bl: Built, br: Built)
    requires n + 1 == |h0| && h0[n] == Heap.Fresh(OperatorData(op))
    requires Hung(h0, h1, n, L, Ok(ls.id), ls, Ok(bl), bl.pos)
    requires Hung(h1, h2, n, R, Ok(rs.id), rs, Ok(br), br.pos)
    ensures Generated(h0, h2, n, Ok(n), Fork(n, ls, Some(rs)),
                      Ok(Built(Operator(op, bl.tree, Some(br.tree), true), br.pos)), br.pos)
  {
    IdsInRange(h1, ls);
    assert AgreeOn(h1, h2, Ids(ls));
    RealizesFrame(h1, h2, ls);
    assert h2[..n] == h0[..n];
  }

  /** One child of the try block: the recursive call one level down, then Attach. */
  method AddChild(heap: Heap, rng: Random, n: nat, side: Dir, grow: bool, d: nat, m: int,
                  operators: seq<string>, operands: seq<string>, parse: string -> Option<real>)
    returns (r: Result<nat>, ghost cs: Shape)
    requires d < m && n < |heap.nodes| && heap.nodes[n].payload.OperatorData?
    modifies heap, rng
    decreases Room(d, m), 0
    ensures Hung(old(heap.nodes), heap.nodes, n, side, r, cs,
                 SubtreeSpec(grow, d + 1, m, rng.tape, old(rng.pos), operators, operands, parse), rng.pos)
  {
    ghost var h0 := heap.nodes;
    if grow {
      r, cs := GenerateGrowSubtree(heap, rng, d + 1, m, operators, operands, parse);
    } else {
      r, cs := GenerateFullSubtree(heap, rng, d + 1, m, operators, operands, parse);
    }
    ghost var h1 := heap.nodes;
    assert h1[..n] == h1[..|h0|][..n];
    if r.Err? {
      return;
    }
    forall k | 0 <= k < |h0| ensures h1[k] == h0[k] {
      assert h1[k] == h1[..|h0|][k];
    }
    heap.Attach(n, side, r.value, cs);
  }

  /**
   * generateFullSubtree(0, m) or generateGrowSubtree(0, m) followed by
   * nodeTreeRoot.setNodeType(ROOT): on success a whole tree of fresh nodes denoting spec's tree.
   */
  method BuildRooted(heap: Heap, rng: Random, grow: bool, m: int, operators: seq<string>, operands: seq<string>,
                     parse: string -> Option<real>) returns (r: Result<nat>, ghost s: Shape)
    modifies heap, rng
    ensures var spec := SubtreeSpec(grow, 0, m, rng.tape, old(rng.pos), operators, operands, parse);
      Extends(old(heap.nodes), heap.nodes, |old(heap.nodes)|) &&
      (spec.Err? ==> r == Err(spec.fault)) &&
      (spec.Ok? ==>
        r == Ok(s.id) && TreeOK(heap.nodes, s) && Abs(heap.nodes, s) == spec.value.tree && rng.pos == spec.value.pos &&
        forall k :: k in Ids(s) ==> |old(heap.nodes)| <= k)
  {
    ghost var h0 := heap.nodes;
    if grow {
      r, s := GenerateGrowSubtree(heap, rng, 0, m, operators, operands, parse);
    } else {
      r, s := GenerateFullSubtree(heap, rng, 0, m, operators, operands, parse);
    }
    if r.Err? {
      assert heap.nodes[..|h0|] == heap.nodes[..|h0|][..|h0|];
      return;
    }
    ghost var h1 := heap.nodes;
    IdsInRange(h1, s);
    heap.SetNodeType(r.value, ROOT);
    RealizesRootLinks(h1, heap.nodes, s);
    assert heap.nodes[..|h0|] == h1[..|h0|];
  }

  /**
   * What a tree-building method returns: on failure the fault of spec; otherwise a tree on
   * heap, whole and tagged ROOT, of fresh nodes, denoting spec's tree with the stream at
   * spec's position. The records before the call are kept either way.
   */
  ghost predicate Planted(heap: Heap, h0: seq<Node>, r: Result<GeneticProgrammingTree>, spec: Result<Built>, pos: nat)
    reads heap, if r.Ok? then {r.value} else {}
  {
    Extends(h0, heap.nodes, |h0|) &&
    (spec.Err? ==> r == Err(spec.fault)) &&
    (spec.Ok? ==>
      r.Ok? && r.value.heap == heap && r.value.Valid() && TreeOK(heap.nodes, r.value.shape) &&
      r.value.Value() == spec.value.tree && pos == spec.value.pos &&
      forall k :: k in Ids(r.value.shape) ==> |h0| <= k)
  }

  /** generateFullTree(m): a Full tree of maximum height m whose root is tagged ROOT. */
  method GenerateFullTree(heap: Heap, rng: Random, m: int, operators: seq<string>, operands: seq<string>,
                          parse: string -> Option<real>) returns (r: Result<GeneticProgrammingTree>)
    modifies heap, rng
    ensures r.Ok? ==> fresh(r.value)
    ensures Planted(heap, old(heap.nodes), r, SubtreeSpec(false, 0, m, rng.tape, old(rng.pos), operators, operands, parse), rng.pos)
  {
    var root: Result<nat>;
    ghost var s: Shape;
    root, s := BuildRooted(heap, rng, false, m, operators, operands, parse);
    if root.Err? {
      return Err(root.fault);
    }
    var t := new GeneticProgrammingTree(heap, root.value, s);
    r := Ok(t);
  }

  /** A tree planted beyond the records of h1 is planted beyond those of any heap h1 extends. */
  lemma PlantedEarlier(heap: Heap, h0: seq<Node>, h1: seq<Node>, r: Result<GeneticProgrammingTree>, pos: nat,
                       spec: Result<Built>)
    requires Extends(h0, h1, |h0|) && Planted(heap, h1, r, spec, pos)
    ensures Planted(heap, h0, r, spec, pos)
  {
    assert heap.nodes[..|h0|] == heap.nodes[..|h1|][..|h0|];
  }

  /** One turn of the retry loop, as GrowTreeAsWritten takes it. */
  lemma GrowTreeStep(m: int, subtree: bool, tape: nat -> nat, pos: nat, attempts: nat, operators: seq<string>,
                     operands: seq<string>, parse: string -> Option<real>)
    requires attempts > 0
    ensures var spec := SubtreeSpec(true, 0, m, tape, pos, operators, operands, parse);
      if spec.Ok? && !subtree && Height(spec.value.tree) == 0
      then GrowTreeAsWritten(m, subtree, tape, pos, attempts, operators, operands, parse)
             == GrowTreeAsWritten(m, subtree, tape, spec.value.pos, attempts - 1, operators, operands, parse)
      else GrowTreeAsWritten(m, subtree, tape, pos, attempts, operators, operands, parse) == spec
  {
  }

  /**
   * One turn of generateGrowTree's loop: a Grow tree tagged ROOT is built and kept unless it
   * is a single operand and a whole tree was asked for, in which case the loop goes round again.
   */
  method GrowAttempt(heap: Heap, rng: Random, m: int, subtree: bool, ghost h0: seq<Node>, ghost attempts: nat,
                     operators: seq<string>, operands: seq<string>, parse: string -> Option<real>)
    returns (r: Result<GeneticProgrammingTree>, retry: bool)
    requires attempts > 0 && Extends(h0, heap.nodes, |h0|)
    modifies heap, rng
    ensures r.Ok? ==> fresh(r.value)
    ensures retry ==> Extends(h0, heap.nodes, |h0|)
    ensures retry ==> GrowTreeAsWritten(m, subtree, rng.tape, old(rng.pos), attempts, operators, operands, parse)
                      == GrowTreeAsWritten(m, subtree, rng.tape, rng.pos, attempts - 1, operators, operands, parse)
    ensures !retry ==> Planted(heap, h0, r,
                               GrowTreeAsWritten(m, subtree, rng.tape, old(rng.pos), attempts, operators, operands, parse), rng.pos)
  {
    ghost var h1 := heap.nodes;
    var root: Result<nat>;
    ghost var s: Shape;
    ghost var p0 := rng.pos;
    root, s := BuildRooted(heap, rng, true, m, operators, operands, parse);
    GrowTreeStep(m, subtree, rng.tape, p0, attempts, operators, operands, parse);
    assert heap.nodes[..|h0|] == heap.nodes[..|h1|][..|h0|];
    if root.Err? {
      return Err(root.fault), false;
    }
    var height := heap.GetHeight(root.value, s);
    if subtree || height != 0 {
      var t := new GeneticProgrammingTree(heap, root.value, s);
      r := Ok(t);
      PlantedEarlier(heap, h0, h1, r, rng.pos, SubtreeSpec(true, 0, m, rng.tape, p0, operators, operands, parse));
      return r, false;
    }
    return Err(RetriesExhausted), true;
  }

  /**
   * generateGrowTree(m, subtree): Grow trees of maximum height m, each tagged ROOT, until one
   * is taller than a single operand or the tree is for a subtree; after attempts trees the
   * model gives up with RetriesExhausted where the Java loop would go on. A maximum height
   * below 1 for a whole tree is refused (the corrected GrowTreeSpec).
   */
  method GenerateGrowTree(heap: Heap, rng: Random, m: int, subtree: bool, attempts: nat, operators: seq<string>,
                          operands: seq<string>, parse: string -> Option<real>) returns (r: Result<GeneticProgrammingTree>)
    modifies heap, rng
    ensures r.Ok? ==> fresh(r.value)
    ensures Planted(heap, old(heap.nodes), r,
                    GrowTreeSpec(m, subtree, rng.tape, old(rng.pos), attempts, operators, operands, parse), rng.pos)
  {
    if !subtree && m <= 0 {
      return Err(IllegalArgument);
    }
    r := GrowRetries(heap, rng, m, subtree, attempts, operators, operands, parse);
  }

  /** generateGrowTree's do-while loop, bounded by attempts. */
  method GrowRetries(heap: Heap, rng: Random, m: int, subtree: bool, attempts: nat, operators: seq<string>,
                     operands: seq<string>, parse: string -> Option<real>) returns (r: Result<GeneticProgrammingTree>)
    modifies heap, rng
    ensures r.Ok? ==> fresh(r.value)
    ensures Planted(heap, old(heap.nodes), r,
                    GrowTreeAsWritten(m, subtree, rng.tape, old(rng.pos), attempts, operators, operands, parse), rng.pos)
  {
    var left := attempts;
    while left > 0
      invariant Extends(old(heap.nodes), heap.nodes, |old(heap.nodes)|)
      invariant GrowTreeAsWritten(m, subtree, rng.tape, rng.pos, left, operators, operands, parse)
                == GrowTreeAsWritten(m, subtree, rng.tape, old(rng.pos), attempts, operators, operands, parse)
    {
      var retry: bool;
      r, retry := GrowAttempt(heap, rng, m, subtree, old(heap.nodes), left, operators, operands, parse);
      if !retry {
        return;
      }
      left := left - 1;
    }
    r := Err(RetriesExhausted);
  }

  /**
   * generateTree and generateSubtree: the generation method named by the settings, with the
   * maximum height and subtree indicator of the caller; RANDOM tosses a coin, 0 for Full.
   */
  method GenerateTree(heap: Heap, rng: Random, methodName: string, m: int, subtree: bool, attempts: nat,
                      operators: seq<string>, operands: seq<string>, parse: string -> Option<real>)
    returns (r: Result<GeneticProgrammingTree>)
    modifies heap, rng
    ensures r.Ok? ==> fresh(r.value)
    ensures Planted(heap, old(heap.nodes), r,
                    TreeSpec(methodName, m, subtree, rng.tape, old(rng.pos), attempts, operators, operands, parse), rng.pos)
  {
    var gm := MethodOf(methodName);
    if gm.Err? {
      return Err(gm.fault);
    }
    match gm.value
    case FULL =>
      r := GenerateFullTree(heap, rng, m, operators, operands, parse);
    case GROW =>
      r := GenerateGrowTree(heap, rng, m, subtree, attempts, operators, operands, parse);
    case RANDOM =>
      var coin := rng.NextInt(2);
      if coin == 0 {
        r := GenerateFullTree(heap, rng, m, operators, operands, parse);
      } else {
        r := GenerateGrowTree(heap, rng, m, subtree, attempts, operators, operands, parse);
      }
  }

  // ---------------------------------------------------------------------------------------
  // What the generated trees look like

  /** Every leaf lies exactly k levels below the root: the balanced tree of a Full build. */
  predicate LeavesAt(e: Expr, k: nat)
  {
    match e
    case Operand(_, _, _) => k == 0
    case Operator(_, l, r, _) => k > 0 && LeavesAt(l, k - 1) && (r.Some? ==> LeavesAt(r.value, k - 1))
  }

  /** Every operator has a right child exactly when it takes two arguments. */
  predicate Saturated(e: Expr)
  {
    match e
    case Operand(_, _, _) => true
    case Operator(op, l, r, _) => (r.Some? <==> Arity(op) == 2) && Saturated(l) && (r.Some? ==> Saturated(r.value))
  }

  /** Every operator of e is named in operators. */
  predicate NamesIn(e: Expr, operators: seq<string>)
  {
    match e
    case Operand(_, _, _) => true
    case Operator(op, l, r, _) => Name(op) in operators && NamesIn(l, operators) && (r.Some? ==> NamesIn(r.value, operators))
  }

  /** The properties every generated tree has, whichever method built it. */
  predicate WellFormed(e: Expr, operators: seq<string>)
  {
    AllValid(e) && OperandsSet(e) && Saturated(e) && NamesIn(e, operators)
  }

  /** A tree whose leaves all lie k levels down has height k. */
  lemma {:induction false} LeavesAtHeight(e: Expr, k: nat)
    requires LeavesAt(e, k)
    ensures Height(e) == k
  {
    match e
    case Operand(_, _, _) =>
    case Operator(_, l, r, _) =>
      LeavesAtHeight(l, k - 1);
      if r.Some? { LeavesAtHeight(r.value, k - 1); }
  }

  /** With two-argument operators only, a generated tree has every right child. */
  lemma {:induction false} SaturatedBinary(e: Expr, operators: seq<string>)
    requires Saturated(e) && NamesIn(e, operators)
    requires forall k :: 0 <= k < |operators| ==> operators[k] != "SIN" && operators[k] != "COS"
    ensures Binary(e)
  {
    match e
    case Operand(_, _, _) =>
    case Operator(_, l, r, _) =>
      SaturatedBinary(l, operators);
      if r.Some? { SaturatedBinary(r.value, operators); }
  }

  /**
   * A generated subtree at depth d is well formed and at most Room(d, m) high; each of its
   * nodes took at least one draw. A Full subtree has every leaf at depth m, so its height is
   * exactly Room(d, m), and it took exactly one draw per node. Only the two list lookups fail.
   */
  lemma {:induction false} SubtreeShape(grow: bool, d: nat, m: int, tape: nat -> nat, pos: nat, operators: seq<string>,
                                        operands: seq<string>, parse: string -> Option<real>)
    decreases Room(d, m), 1
    ensures var r := SubtreeSpec(grow, d, m, tape, pos, operators, operands, parse);
      (r.Err? ==> r.fault == IllegalArgument || r.fault == NumberFormat) &&
      (r.Ok? ==>
        WellFormed(r.value.tree, operators) && Height(r.value.tree) <= Room(d, m) &&
        r.value.pos >= pos + Size(r.value.tree) &&
        (!grow ==> LeavesAt(r.value.tree, Room(d, m)) && r.value.pos == pos + Size(r.value.tree)))
  {
    if d < m {
      var dr := if grow then RandomNode(tape, pos, operators, operands, parse) else RandomOperator(tape, pos, operators);
      if dr.Ok? && dr.value.DrawnOperator? {
        ChildrenShape(grow, dr.value.op, d, m, tape, dr.value.pos, operators, operands, parse);
      }
    }
  }

  lemma {:induction false} ChildrenShape(grow: bool, op: OpKind, d: nat, m: int, tape: nat -> nat, pos: nat,
                                         operators: seq<string>, operands: seq<string>, parse: string -> Option<real>)
    requires d < m && Name(op) in operators
    decreases Room(d, m), 0
    ensures var r := ChildrenSpec(grow, op, d, m, tape, pos, operators, operands, parse);
      (r.Err? ==> r.fault == IllegalArgument || r.fault == NumberFormat) &&
      (r.Ok? ==>
        r.value.tree.Operator? && r.value.tree.op == op &&
        WellFormed(r.value.tree, operators) && Height(r.value.tree) <= Room(d, m) &&
        r.value.pos + 1 >= pos + Size(r.value.tree) &&
        (!grow ==> LeavesAt(r.value.tree, Room(d, m)) && r.value.pos + 1 == pos + Size(r.value.tree)))
  {
    SubtreeShape(grow, d + 1, m, tape, pos, operators, operands, parse);
    var left := SubtreeSpec(grow, d + 1, m, tape, pos, operators, operands, parse);
    if left.Ok? && Arity(op) > 1 {
      SubtreeShape(grow, d + 1, m, tape, left.value.pos, operators, operands, parse);
    }
  }

  /** With non-empty lists of operator names and of parseable operands a build never fails. */
  lemma {:induction false} SubtreeSucceeds(grow: bool, d: nat, m: int, tape: nat -> nat, pos: nat, operators: seq<string>,
                                           operands: seq<string>, parse: string -> Option<real>)
    requires |operators| > 0 && OperatorNames(operators) && |operands| > 0 && TokensParse(operands, parse)
    decreases Room(d, m), 1
    ensures SubtreeSpec(grow, d, m, tape, pos, operators, operands, parse).Ok?
  {
    if d < m {
      var dr := if grow then RandomNode(tape, pos, operators, operands, parse) else RandomOperator(tape, pos, operators);
      if dr.value.DrawnOperator? {
        ChildrenSucceed(grow, dr.value.op, d, m, tape, dr.value.pos, operators, operands, parse);
      }
    }
  }

  lemma {:induction false} ChildrenSucceed(grow: bool, op: OpKind, d: nat, m: int, tape: nat -> nat, pos: nat,
                                           operators: seq<string>, operands: seq<string>, parse: string -> Option<real>)
    requires d < m && |operators| > 0 && OperatorNames(operators) && |operands| > 0 && TokensParse(operands, parse)
    decreases Room(d, m), 0
    ensures ChildrenSpec(grow, op, d, m, tape, pos, operators, operands, parse).Ok?
  {
    SubtreeSucceeds(grow, d + 1, m, tape, pos, operators, operands, parse);
    var left := SubtreeSpec(grow, d + 1, m, tape, pos, operators, operands, parse);
    SubtreeSucceeds(grow, d + 1, m, tape, left.value.pos, operators, operands, parse);
  }

  /** Without operands nothing can be built: every tree ends in operand leaves. */
  lemma {:induction false} NoOperandsFails(grow: bool, d: nat, m: int, tape: nat -> nat, pos: nat, operators: seq<string>,
                                           parse: string -> Option<real>)
    decreases Room(d, m), 1
    ensures SubtreeSpec(grow, d, m, tape, pos, operators, [], parse) == Err(IllegalArgument)
  {
    if d < m {
      var dr := if grow then RandomNode(tape, pos, operators, [], parse) else RandomOperator(tape, pos, operators);
      if dr.Ok? && dr.value.DrawnOperator? {
        NoOperandsFails(grow, d + 1, m, tape, dr.value.pos, operators, parse);
      }
    }
  }

  /**
   * generateGrowTree: the tree is well formed and at most m high; unless it is for a subtree
   * it is at least one operator high, and for m <= 0 it is refused; for a subtree the first
   * Grow build is taken as it is.
   */
  lemma GrowTreeShape(m: int, subtree: bool, tape: nat -> nat, pos: nat, attempts: nat,
                      operators: seq<string>, operands: seq<string>, parse: string -> Option<real>)
    ensures var r := GrowTreeSpec(m, subtree, tape, pos, attempts, operators, operands, parse);
      (r.Err? ==> r.fault == IllegalArgument || r.fault == NumberFormat || r.fault == RetriesExhausted) &&
      (r.Ok? ==> WellFormed(r.value.tree, operators) && Height(r.value.tree) <= Room(0, m)) &&
      (r.Ok? && !subtree ==> 1 <= Height(r.value.tree)) &&
      (m <= 0 && !subtree ==> r == Err(IllegalArgument)) &&
      (subtree && attempts > 0 ==> r == SubtreeSpec(true, 0, m, tape, pos, operators, operands, parse))
  {
    GrowLoopShape(m, subtree, tape, pos, attempts, operators, operands, parse);
  }

  /** GrowTreeShape for the retry loop itself. */
  lemma {:induction false} GrowLoopShape(m: int, subtree: bool, tape: nat -> nat, pos: nat, attempts: nat,
                                         operators: seq<string>, operands: seq<string>, parse: string -> Option<real>)
    decreases attempts
    ensures var r := GrowTreeAsWritten(m, subtree, tape, pos, attempts, operators, operands, parse);
      (r.Err? ==> r.fault == IllegalArgument || r.fault == NumberFormat || r.fault == RetriesExhausted) &&
      (r.Ok? ==> WellFormed(r.value.tree, operators) && Height(r.value.tree) <= Room(0, m)) &&
      (r.Ok? && !subtree ==> 1 <= Height(r.value.tree)) &&
      (subtree && attempts > 0 ==> r == SubtreeSpec(true, 0, m, tape, pos, operators, operands, parse))
  {
    if attempts > 0 {
      SubtreeShape(true, 0, m, tape, pos, operators, operands, parse);
      var b := SubtreeSpec(true, 0, m, tape, pos, operators, operands, parse);
      if b.Ok? && !subtree && Height(b.value.tree) == 0 {
        GrowLoopShape(m, subtree, tape, b.value.pos, attempts - 1, operators, operands, parse);
      }
    }
  }

  /**
   * For a maximum height m <= 0 every Grow build is a single operand, so generateGrowTree's
   * loop (not for a subtree) starts again on every attempt: the Java loop never ends, and the
   * model runs out of attempts whatever their number, unless an operand draw itself fails.
   */
  lemma {:induction false} GrowNeverEnds(m: int, tape: nat -> nat, pos: nat, attempts: nat, operators: seq<string>,
                                         operands: seq<string>, parse: string -> Option<real>)
    requires m <= 0 && |operands| > 0 && TokensParse(operands, parse)
    ensures GrowTreeAsWritten(m, false, tape, pos, attempts, operators, operands, parse) == Err(RetriesExhausted)
    ensures GrowTreeSpec(m, false, tape, pos, attempts, operators, operands, parse) == Err(IllegalArgument)
    decreases attempts
  {
    if attempts > 0 {
      var b := SubtreeSpec(true, 0, m, tape, pos, operators, operands, parse);
      assert b.Ok? && Height(b.value.tree) == 0;
      GrowNeverEnds(m, tape, b.value.pos, attempts - 1, operators, operands, parse);
    }
  }

  /**
   * generateTree / generateSubtree: any tree they return is well formed and at most m high;
   * a Full tree is exactly Room(0, m) high with every leaf at that depth.
   */
  lemma TreeShape(methodName: string, m: int, subtree: bool, tape: nat -> nat, pos: nat, attempts: nat,
                  operators: seq<string>, operands: seq<string>, parse: string -> Option<real>)
    ensures var r := TreeSpec(methodName, m, subtree, tape, pos, attempts, operators, operands, parse);
      (r.Ok? ==> WellFormed(r.value.tree, operators) && Height(r.value.tree) <= Room(0, m)) &&
      (r.Ok? && methodName == "FULL" ==> LeavesAt(r.value.tree, Room(0, m)) && Height(r.value.tree) == Room(0, m)) &&
      (MethodOf(methodName).Err? ==> r == Err(IllegalArgument))
  {
    var p := if methodName == "RANDOM" then pos + 1 else pos;
    SubtreeShape(false, 0, m, tape, p, operators, operands, parse);
    GrowTreeShape(m, subtree, tape, p, attempts, operators, operands, parse);
    var full := SubtreeSpec(false, 0, m, tape, p, operators, operands, parse);
    if full.Ok? {
      LeavesAtHeight(full.value.tree, Room(0, m));
    }
  }
}
