/**
 * The value of an expression tree: operator nodes (OperatorNode) and operand nodes
 * (OperandNode), each carrying the validity flag of BinaryTreeNode. The functions here are the
 * recursive queries of BinaryTree and of the node classes (height, arity, infix rendering,
 * post-order and in-order lists, evaluation) stated on tree values; the node heap in module
 * NodeHeap is tied to these values by its abstraction function.
 */
module ExprTree {
  import opened Wrappers
  import Strings

  /** OperatorNode.OperatorType */
  datatype OpKind = ADD | SUB | MUL | DIV | SIN | COS | POW

  /** OperatorType.toString: the symbol an operator renders as. */
  function Symbol(op: OpKind): string
  {
    match op
    case ADD => "+"
    case SUB => "-"
    case MUL => "*"
    case DIV => "/"
    case SIN => "Sine"
    case COS => "Cosine"
    case POW => "Exponent"
  }

  /** OperatorType.name(): the text an operator node stores as its data. */
  function Name(op: OpKind): string
  {
    match op
    case ADD => "ADD"
    case SUB => "SUB"
    case MUL => "MUL"
    case DIV => "DIV"
    case SIN => "SIN"
    case COS => "COS"
    case POW => "POW"
  }

  /** OperatorType.valueOf: IllegalArgumentException for a string that names no operator. */
  function ValueOf(name: string): (r: Result<OpKind>)
    ensures r.Ok? ==> Name(r.value) == name
  {
    if name == "ADD" then Ok(ADD)
    else if name == "SUB" then Ok(SUB)
    else if name == "MUL" then Ok(MUL)
    else if name == "DIV" then Ok(DIV)
    else if name == "SIN" then Ok(SIN)
    else if name == "COS" then Ok(COS)
    else if name == "POW" then Ok(POW)
    else Err(IllegalArgument)
  }

  lemma ValueOfName(op: OpKind)
    ensures ValueOf(Name(op)) == Ok(op)
  {
  }

  /** OperatorNode.getNumberOfChildren: two for the binary operators, one for SIN and COS. */
  function Arity(op: OpKind): (n: nat)
    ensures n == 1 || n == 2
    ensures n == 1 <==> op == SIN || op == COS
  {
    match op
    case SIN => 1
    case COS => 1
    case _ => 2
  }

  /**
   * A node of the tree with its subtree. An operand holds the variable indicator and the
   * constant it was last given (setOperand("x") sets the indicator without touching the data).
   * An operator always has a left child and may lack a right child.
   */
  datatype Expr =
    | Operand(variable: bool, data: Option<real>, valid: bool)
    | Operator(op: OpKind, left: Expr, right: Option<Expr>, valid: bool)

  /** An operand that is not the variable has a constant: every constructor of OperandNode ensures it. */
  predicate OperandsSet(e: Expr)
  {
    match e
    case Operand(variable, data, _) => variable || data.Some?
    case Operator(_, l, r, _) => OperandsSet(l) && (r.Some? ==> OperandsSet(r.value))
  }

  /** Every operator has a right child, as the infix rendering requires. */
  predicate Binary(e: Expr)
  {
    match e
    case Operand(_, _, _) => true
    case Operator(_, l, r, _) => r.Some? && Binary(l) && Binary(r.value)
  }

  function Size(e: Expr): (n: nat)
    ensures n >= 1
  {
    match e
    case Operand(_, _, _) => 1
    case Operator(_, l, r, _) => 1 + Size(l) + (if r.Some? then Size(r.value) else 0)
  }

  /** getHeight: 0 for an operand, otherwise 1 + the larger child height (0 for a missing right child). */
  function Height(e: Expr): nat
  {
    match e
    case Operand(_, _, _) => 0
    case Operator(_, l, r, _) =>
      1 + Max(Height(l), if r.Some? then Height(r.value) else 0)
  }

  function Max(a: int, b: int): int { if a >= b then a else b }

  /** getNumberOfChildren: 0 for an operand, the operator's arity otherwise. */
  function NumberOfChildren(e: Expr): (n: nat)
    ensures e.Operand? <==> n == 0
  {
    match e
    case Operand(_, _, _) => 0
    case Operator(op, _, _, _) => Arity(op)
  }

  /** Every validity flag set. */
  predicate AllValid(e: Expr)
  {
    e.valid && match e
      case Operand(_, _, _) => true
      case Operator(_, l, r, _) => AllValid(l) && (r.Some? ==> AllValid(r.value))
  }

  /** resetTreeNodeInvalid applied to the root: every flag set, nothing else changed. */
  function ResetFlags(e: Expr): Expr
  {
    match e
    case Operand(v, d, _) => Operand(v, d, true)
    case Operator(op, l, r, _) =>
      Operator(op, ResetFlags(l), if r.Some? then Some(ResetFlags(r.value)) else None, true)
  }

  /** Two trees that differ at most in their validity flags. */
  predicate SameShape(a: Expr, b: Expr)
  {
    ResetFlags(a) == ResetFlags(b)
  }

  lemma {:induction false} ResetFlagsProperties(e: Expr)
    ensures AllValid(ResetFlags(e))
    ensures ResetFlags(ResetFlags(e)) == ResetFlags(e)
    ensures Size(ResetFlags(e)) == Size(e) && Height(ResetFlags(e)) == Height(e)
    ensures OperandsSet(ResetFlags(e)) == OperandsSet(e) && Binary(ResetFlags(e)) == Binary(e)
    ensures AllValid(e) ==> ResetFlags(e) == e
  {
    match e
    case Operand(_, _, _) =>
    case Operator(_, l, r, _) =>
      ResetFlagsProperties(l);
      if r.Some? { ResetFlagsProperties(r.value); }
  }

  /** Trees of the same shape have the same size and height and the same payloads. */
  lemma {:induction false} SameShapeMeasures(a: Expr, b: Expr)
    requires SameShape(a, b)
    ensures Size(a) == Size(b) && Height(a) == Height(b)
    ensures OperandsSet(a) == OperandsSet(b) && Binary(a) == Binary(b)
  {
    ResetFlagsProperties(a);
    ResetFlagsProperties(b);
  }

  // ---------------------------------------------------------------------------------------
  // Infix rendering (BinaryTree.toString and the node toString methods)

  /** Double.intValue: truncation toward zero, saturated at the range of int. */
  function TruncToInt(r: real): (i: int)
    ensures Strings.IntMin <= i <= Strings.IntMax
    ensures 0.0 <= r < (Strings.IntMax as real) ==> i == r.Floor
    ensures (Strings.IntMin as real) < r < 0.0 ==> -i == (-r).Floor
  {
    var t := if r >= 0.0 then r.Floor else -((-r).Floor);
    if t < Strings.IntMin then Strings.IntMin else if t > Strings.IntMax then Strings.IntMax else t
  }

  /** OperandNode.toString: "x" for the variable, the constant truncated to an int otherwise. */
  function OperandText(variable: bool, data: Option<real>): (s: string)
    requires variable || data.Some?
    ensures variable ==> s == "x"
  {
    if variable then "x" else Strings.IntToString(TruncToInt(data.value))
  }

  /**
   * BinaryTree.toString(node): an operand renders itself; an operator renders its left
   * subtree, its symbol and its right subtree, in parentheses unless it is the tree's root.
   */
  function Render(e: Expr, isRoot: bool): string
    requires Binary(e) && OperandsSet(e)
  {
    match e
    case Operand(v, d, _) => OperandText(v, d)
    case Operator(op, l, r, _) =>
      var inner := Render(l, false) + Symbol(op) + Render(r.value, false);
      if isRoot then inner else "(" + inner + ")"
  }

  function Occurrences(s: string, c: char): nat
  {
    if |s| == 0 then 0 else (if s[0] == c then 1 else 0) + Occurrences(s[1..], c)
  }

  lemma {:induction false} OccurrencesAppend(a: string, b: string, c: char)
    ensures Occurrences(a + b, c) == Occurrences(a, c) + Occurrences(b, c)
  {
    if |a| > 0 {
      assert (a + b)[1..] == a[1..] + b;
      OccurrencesAppend(a[1..], b, c);
    } else {
      assert a + b == b;
    }
  }

  lemma {:induction false} OccurrencesNone(s: string, c: char)
    requires c !in s
    ensures Occurrences(s, c) == 0
  {
    if |s| > 0 {
      OccurrencesNone(s[1..], c);
    }
  }

  function Operators(e: Expr): nat
  {
    match e
    case Operand(_, _, _) => 0
    case Operator(_, l, r, _) => 1 + Operators(l) + (if r.Some? then Operators(r.value) else 0)
  }

  lemma NoParensInInt(i: int)
    ensures '(' !in Strings.IntToString(i) && ')' !in Strings.IntToString(i)
  {
    var s := Strings.IntToString(i);
    var d := Strings.NatToString(if i < 0 then -i else i);
    assert forall k :: 0 <= k < |d| ==> Strings.IsDigit(d[k]);
    assert i < 0 ==> s == "-" + d;
    assert i >= 0 ==> s == d;
  }

  lemma OccurrencesOfThree(a: string, b: string, d: string, c: char)
    ensures Occurrences(a + b + d, c) == Occurrences(a, c) + Occurrences(b, c) + Occurrences(d, c)
  {
    OccurrencesAppend(a, b, c);
    OccurrencesAppend(a + b, d, c);
  }

  lemma OperandHasNoParens(v: bool, d: Option<real>, c: char)
    requires v || d.Some?
    requires c == '(' || c == ')'
    ensures Occurrences(OperandText(v, d), c) == 0
  {
    if !v { NoParensInInt(TruncToInt(d.value)); }
    OccurrencesNone(OperandText(v, d), c);
  }

  lemma SymbolHasNoParens(op: OpKind, c: char)
    requires c == '(' || c == ')'
    ensures Occurrences(Symbol(op), c) == 0
  {
    OccurrencesNone(Symbol(op), c);
  }

  /**
   * Every operator except the root contributes exactly one opening and one closing
   * parenthesis, so the rendering of a tree with k operators holds k (k - 1 at the root) of each.
   */
  lemma {:induction false} RenderParentheses(e: Expr, isRoot: bool, c: char)
    requires Binary(e) && OperandsSet(e)
    requires c == '(' || c == ')'
    ensures Occurrences(Render(e, isRoot), c) ==
      if isRoot && e.Operator? then Operators(e) - 1 else Operators(e)
  {
    match e
    case Operand(v, d, _) =>
      OperandHasNoParens(v, d, c);
    case Operator(op, l, r, _) =>
      RenderParentheses(l, false, c);
      RenderParentheses(r.value, false, c);
      SymbolHasNoParens(op, c);
      var inner := Render(l, false) + Symbol(op) + Render(r.value, false);
      OccurrencesOfThree(Render(l, false), Symbol(op), Render(r.value, false), c);
      if !isRoot {
        OccurrencesOfThree("(", inner, ")", c);
      }
  }

  /** The rendering of any tree has as many opening as closing parentheses. */
  lemma BalancedRendering(e: Expr, isRoot: bool)
    requires Binary(e) && OperandsSet(e)
    ensures Occurrences(Render(e, isRoot), '(') == Occurrences(Render(e, isRoot), ')')
  {
    RenderParentheses(e, isRoot, '(');
    RenderParentheses(e, isRoot, ')');
  }

  /** A non-root operator renders as its root rendering wrapped in one pair of parentheses. */
  lemma RenderWrapped(e: Expr)
    requires Binary(e) && OperandsSet(e) && e.Operator?
    ensures Render(e, false) == "(" + Render(e, true) + ")"
  {
  }

  // ---------------------------------------------------------------------------------------
  // Positions, post-order and in-order lists

  datatype Dir = L | R

  /** A node's position: the child links followed from the root. */
  type Path = seq<Dir>

  function Child(e: Expr, d: Dir): Option<Expr>
  {
    match e
    case Operand(_, _, _) => None
    case Operator(_, l, r, _) => if d == L then Some(l) else r
  }

  predicate ValidPath(e: Expr, p: Path)
  {
    |p| == 0 || (Child(e, p[0]).Some? && ValidPath(Child(e, p[0]).value, p[1..]))
  }

  function SubtreeAt(e: Expr, p: Path): Expr
    requires ValidPath(e, p)
  {
    if |p| == 0 then e else SubtreeAt(Child(e, p[0]).value, p[1..])
  }

  /** The tree with the subtree at p replaced by s. */
  function ReplaceAt(e: Expr, p: Path, s: Expr): Expr
    requires ValidPath(e, p)
  {
    if |p| == 0 then s
    else
      var c := ReplaceAt(Child(e, p[0]).value, p[1..], s);
      if p[0] == L then e.(left := c) else e.(right := Some(c))
  }

  function Prefixed(d: Dir, ps: seq<Path>): (r: seq<Path>)
    ensures |r| == |ps|
    ensures forall k :: 0 <= k < |ps| ==> r[k] == [d] + ps[k]
  {
    seq(|ps|, k requires 0 <= k < |ps| => [d] + ps[k])
  }

  /** getPostOrderList: left subtree, right subtree, then the node itself. */
  function PostOrder(e: Expr): seq<Path>
  {
    match e
    case Operand(_, _, _) => [[]]
    case Operator(_, l, r, _) =>
      Prefixed(L, PostOrder(l)) + (if r.Some? then Prefixed(R, PostOrder(r.value)) else []) + [[]]
  }

  /** getInOrderList: left subtree, the node itself, then the right subtree. */
  function InOrder(e: Expr): seq<Path>
  {
    match e
    case Operand(_, _, _) => [[]]
    case Operator(_, l, r, _) =>
      Prefixed(L, InOrder(l)) + [[]] + (if r.Some? then Prefixed(R, InOrder(r.value)) else [])
  }

  predicate Distinct(ps: seq<Path>)
  {
    forall i, j :: 0 <= i < j < |ps| ==> ps[i] != ps[j]
  }

  lemma PrefixedMembership(d: Dir, ps: seq<Path>, p: Path)
    ensures p in Prefixed(d, ps) <==> (|p| > 0 && p[0] == d && p[1..] in ps)
  {
    if |p| > 0 && p[0] == d && p[1..] in ps {
      var k :| 0 <= k < |ps| && ps[k] == p[1..];
      assert Prefixed(d, ps)[k] == p;
    }
  }

  lemma PrefixedDistinct(d: Dir, ps: seq<Path>)
    requires Distinct(ps)
    ensures Distinct(Prefixed(d, ps))
  {
    var r := Prefixed(d, ps);
    forall i, j | 0 <= i < j < |r| ensures r[i] != r[j] {
      assert r[i][1..] == ps[i] && r[j][1..] == ps[j];
    }
  }

  /** The post-order list holds exactly the positions of the tree. */
  lemma {:induction false} PostOrderMembers(e: Expr, p: Path)
    ensures p in PostOrder(e) <==> ValidPath(e, p)
  {
    match e
    case Operand(_, _, _) =>
    case Operator(_, l, r, _) =>
      PrefixedMembership(L, PostOrder(l), p);
      if |p| > 0 { PostOrderMembers(l, p[1..]); }
      if r.Some? {
        PrefixedMembership(R, PostOrder(r.value), p);
        if |p| > 0 { PostOrderMembers(r.value, p[1..]); }
      }
  }

  /** The in-order list holds exactly the positions of the tree. */
  lemma {:induction false} InOrderMembers(e: Expr, p: Path)
    ensures p in InOrder(e) <==> ValidPath(e, p)
  {
    match e
    case Operand(_, _, _) =>
    case Operator(_, l, r, _) =>
      PrefixedMembership(L, InOrder(l), p);
      if |p| > 0 { InOrderMembers(l, p[1..]); }
      if r.Some? {
        PrefixedMembership(R, InOrder(r.value), p);
        if |p| > 0 { InOrderMembers(r.value, p[1..]); }
      }
  }

  /** Post-order lists every node once: its length is the node count and the root comes last. */
  lemma {:induction false} PostOrderSize(e: Expr)
    ensures |PostOrder(e)| == Size(e)
  {
    match e
    case Operand(_, _, _) =>
    case Operator(_, l, r, _) =>
      PostOrderSize(l);
      if r.Some? { PostOrderSize(r.value); }
  }

  lemma {:induction false} InOrderSize(e: Expr)
    ensures |InOrder(e)| == Size(e)
  {
    match e
    case Operand(_, _, _) =>
    case Operator(_, l, r, _) =>
      InOrderSize(l);
      if r.Some? { InOrderSize(r.value); }
  }

  lemma {:induction false} PostOrderShape(e: Expr)
    ensures |PostOrder(e)| == Size(e) && Distinct(PostOrder(e))
    ensures PostOrder(e)[|PostOrder(e)| - 1] == []
  {
    match e
    case Operand(_, _, _) =>
    case Operator(_, l, r, _) =>
      PostOrderShape(l);
      PrefixedDistinct(L, PostOrder(l));
      var a := Prefixed(L, PostOrder(l));
      var b := if r.Some? then Prefixed(R, PostOrder(r.value)) else [];
      if r.Some? {
        PostOrderShape(r.value);
        PrefixedDistinct(R, PostOrder(r.value));
      }
      var all := a + b + [[]];
      forall i, j | 0 <= i < j < |all| ensures all[i] != all[j] {
        if j == |all| - 1 {
          assert |all[i]| > 0;
        } else if i < |a| && j >= |a| {
          assert all[i][0] == L && all[j][0] == R;
        }
      }
  }

  /** In-order lists every node once, so it holds the same nodes as post-order. */
  lemma {:induction false} InOrderShape(e: Expr)
    ensures |InOrder(e)| == Size(e) && Distinct(InOrder(e))
  {
    match e
    case Operand(_, _, _) =>
    case Operator(_, l, r, _) =>
      InOrderShape(l);
      PrefixedDistinct(L, InOrder(l));
      var a := Prefixed(L, InOrder(l));
      var b := if r.Some? then Prefixed(R, InOrder(r.value)) else [];
      if r.Some? {
        InOrderShape(r.value);
        PrefixedDistinct(R, InOrder(r.value));
      }
      var all := a + [[]] + b;
      forall i, j | 0 <= i < j < |all| ensures all[i] != all[j] {
        if i == |a| || j == |a| {
          assert |all[if i == |a| then j else i]| > 0;
        } else if i < |a| && j > |a| {
          assert all[i][0] == L && all[j][0] == R;
        }
      }
  }

  lemma SameNodesBothOrders(e: Expr)
    ensures (set p | p in PostOrder(e)) == (set p | p in InOrder(e))
  {
    forall p ensures p in PostOrder(e) <==> p in InOrder(e) {
      PostOrderMembers(e, p);
      InOrderMembers(e, p);
    }
  }

  /** Every node's depth is at most the tree's height. */
  lemma {:induction false} DepthBelowHeight(e: Expr, p: Path)
    requires ValidPath(e, p)
    ensures |p| <= Height(e)
    ensures Height(SubtreeAt(e, p)) <= Height(e) - |p|
  {
    if |p| > 0 {
      DepthBelowHeight(Child(e, p[0]).value, p[1..]);
    }
  }

  /** One more step down from a position reaches the matching child of the subtree there. */
  lemma {:induction false} SubtreeAtExtend(e: Expr, p: Path, d: Dir)
    requires ValidPath(e, p) && Child(SubtreeAt(e, p), d).Some?
    ensures ValidPath(e, p + [d]) && SubtreeAt(e, p + [d]) == Child(SubtreeAt(e, p), d).value
    decreases |p|
  {
    if |p| > 0 {
      assert (p + [d])[1..] == p[1..] + [d];
      SubtreeAtExtend(Child(e, p[0]).value, p[1..], d);
    } else {
      assert ([] + [d])[1..] == [];
    }
  }

  /** Replacing a subtree changes the node count by the difference of the two subtrees. */
  lemma {:induction false} ReplaceAtSize(e: Expr, p: Path, s: Expr)
    requires ValidPath(e, p)
    ensures Size(ReplaceAt(e, p, s)) == Size(e) - Size(SubtreeAt(e, p)) + Size(s)
  {
    if |p| > 0 {
      ReplaceAtSize(Child(e, p[0]).value, p[1..], s);
    }
  }

  /** Replacing a subtree by one of the same height keeps the height of the tree. */
  lemma {:induction false} ReplaceAtHeight(e: Expr, p: Path, s: Expr)
    requires ValidPath(e, p) && Height(s) == Height(SubtreeAt(e, p))
    ensures Height(ReplaceAt(e, p, s)) == Height(e)
  {
    if |p| > 0 {
      ReplaceAtHeight(Child(e, p[0]).value, p[1..], s);
    }
  }

  lemma {:induction false} SubtreeAtOperandsSet(e: Expr, p: Path)
    requires ValidPath(e, p) && OperandsSet(e)
    ensures OperandsSet(SubtreeAt(e, p))
  {
    if |p| > 0 {
      SubtreeAtOperandsSet(Child(e, p[0]).value, p[1..]);
    }
  }

  /** Replacing a subtree keeps every operand set when the new subtree has its operands set. */
  lemma {:induction false} ReplaceAtOperandsSet(e: Expr, p: Path, s: Expr)
    requires ValidPath(e, p) && OperandsSet(e) && OperandsSet(s)
    ensures OperandsSet(ReplaceAt(e, p, s))
  {
    if |p| > 0 {
      ReplaceAtOperandsSet(Child(e, p[0]).value, p[1..], s);
    }
  }

  lemma {:induction false} SubtreeAtBinary(e: Expr, p: Path)
    requires ValidPath(e, p) && Binary(e)
    ensures Binary(SubtreeAt(e, p))
  {
    if |p| > 0 {
      SubtreeAtBinary(Child(e, p[0]).value, p[1..]);
    }
  }

  /** Replacing a subtree of a fully binary tree by a fully binary tree keeps it fully binary. */
  lemma {:induction false} ReplaceAtBinary(e: Expr, p: Path, s: Expr)
    requires ValidPath(e, p) && Binary(e) && Binary(s)
    ensures Binary(ReplaceAt(e, p, s))
  {
    if |p| > 0 {
      ReplaceAtBinary(Child(e, p[0]).value, p[1..], s);
    }
  }

  lemma {:induction false} ReplaceAtProperties(e: Expr, p: Path, s: Expr)
    requires ValidPath(e, p)
    ensures ValidPath(ReplaceAt(e, p, s), p) && SubtreeAt(ReplaceAt(e, p, s), p) == s
    ensures ReplaceAt(e, p, SubtreeAt(e, p)) == e
  {
    if |p| > 0 {
      ReplaceAtProperties(Child(e, p[0]).value, p[1..], s);
    }
  }

  // ---------------------------------------------------------------------------------------
  // Evaluation (OperatorNode.evaluateOutput and OperandNode.evaluateOutput)

  /** Double.MAX_VALUE, the value an invalid subtree evaluates to. */
  const MaxValue: real := 179769313486231570814527423731704356798070567525844996598917476803157260780028538760589558632766878171540458953514382464234321326889464182768467546703537516986049910576551282076245490090389328944075868508455133942304583236903222948165808559332123348274797826204144723168738177180919299881250404026184124858368.0

  /** POW clamps its exponent to this value. */
  const MaxExponent: real := 20.0

  /** Math.sin, Math.cos and Math.pow, which the model does not compute. */
  datatype MathLib = MathLib(sin: real -> real, cos: real -> real, pow: (real, real) -> real)

  /**
   * The value an evaluation returns and the tree's flags afterwards. up says the evaluation
   * called setTreeNodeInvalid at this node or below it, which clears this node's flag and
   * the flags of all of its ancestors.
   */
  datatype Evaluation = Evaluation(value: real, tree: Expr, up: bool)

  function Min(a: real, b: real): real { if a <= b then a else b }

  function Combine(op: OpKind, a: real, b: real): real
    requires op == ADD || op == SUB || op == MUL
  {
    if op == ADD then a + b else if op == SUB then a - b else a * b
  }

  /**
   * evaluateOutput. An operand gives the input for the variable and its constant otherwise.
   * An operator whose flag is clear gives MaxValue and propagates invalidity upward without
   * evaluating its children. ADD, SUB and MUL evaluate left then right. DIV evaluates the right
   * child first; a zero divisor gives MaxValue and invalidates, without evaluating the left
   * child. SIN, COS and POW compute their value and always invalidate; POW clamps its exponent
   * at 20. A missing operand constant or right child is the NullPointerException of the source.
   */
  function Eval(e: Expr, x: real, m: MathLib): Result<Evaluation>
  {
    match e
    case Operand(variable, data, _) =>
      if variable then Ok(Evaluation(x, e, false))
      else if data.None? then Err(NullPointer)
      else Ok(Evaluation(data.value, e, false))
    case Operator(op, left, right, valid) =>
      if !valid then Ok(Evaluation(MaxValue, e, true))
      else if op == ADD || op == SUB || op == MUL then
        match Eval(left, x, m)
        case Err(f) => Err(f)
        case Ok(l) =>
          if right.None? then Err(NullPointer)
          else match Eval(right.value, x, m)
            case Err(f) => Err(f)
            case Ok(r) =>
              var up := l.up || r.up;
              Ok(Evaluation(Combine(op, l.value, r.value), Operator(op, l.tree, Some(r.tree), !up), up))
      else if op == DIV then
        if right.None? then Err(NullPointer)
        else match Eval(right.value, x, m)
          case Err(f) => Err(f)
          case Ok(r) =>
            if r.value != 0.0 then
              match Eval(left, x, m)
              case Err(f) => Err(f)
              case Ok(l) =>
                var up := l.up || r.up;
                Ok(Evaluation(l.value / r.value, Operator(op, l.tree, Some(r.tree), !up), up))
            else Ok(Evaluation(MaxValue, Operator(op, left, Some(r.tree), false), true))
      else if op == SIN || op == COS then
        match Eval(left, x, m)
        case Err(f) => Err(f)
        case Ok(l) =>
          var v := if op == SIN then m.sin(l.value) else m.cos(l.value);
          Ok(Evaluation(v, Operator(op, l.tree, right, false), true))
      else
        match Eval(left, x, m)
        case Err(f) => Err(f)
        case Ok(l) =>
          if right.None? then Err(NullPointer)
          else match Eval(right.value, x, m)
            case Err(f) => Err(f)
            case Ok(r) =>
              Ok(Evaluation(m.pow(l.value, Min(r.value, MaxExponent)), Operator(op, l.tree, Some(r.tree), false), true))
  }

  /** Every flag of a is at most the matching flag of b (evaluation only ever clears flags). */
  predicate FlagsBelow(a: Expr, b: Expr)
  {
    match a
    case Operand(_, _, va) => b.Operand? && (va ==> b.valid)
    case Operator(_, la, ra, va) =>
      b.Operator? && (va ==> b.valid) && FlagsBelow(la, b.left) && ra.Some? == b.right.Some? &&
      (ra.Some? ==> FlagsBelow(ra.value, b.right.value))
  }

  /** Invalidity has been propagated: a node with an invalid child is invalid itself. */
  predicate UpClosed(e: Expr)
  {
    match e
    case Operand(_, _, _) => true
    case Operator(_, l, r, v) =>
      (v ==> l.valid && (r.Some? ==> r.value.valid)) && UpClosed(l) && (r.Some? ==> UpClosed(r.value))
  }

  lemma {:induction false} FlagsBelowRefl(e: Expr)
    ensures FlagsBelow(e, e)
  {
    match e
    case Operand(_, _, _) =>
    case Operator(_, l, r, _) =>
      FlagsBelowRefl(l);
      if r.Some? { FlagsBelowRefl(r.value); }
  }

  /**
   * What evaluation does to the flags: the shape and payloads are unchanged, flags are only
   * cleared, nothing changes unless invalidity was propagated, and propagation clears this
   * node's own flag. Operands never propagate.
   */
  lemma {:induction false} EvalFlags(e: Expr, x: real, m: MathLib)
    requires Eval(e, x, m).Ok?
    ensures var r := Eval(e, x, m).value;
      SameShape(r.tree, e) && FlagsBelow(r.tree, e) &&
      (!r.up ==> r.tree == e) && (r.up ==> !r.tree.valid) && (e.Operand? ==> !r.up)
  {
    match e
    case Operand(_, _, _) => FlagsBelowRefl(e);
    case Operator(op, left, right, valid) =>
      if !valid {
        FlagsBelowRefl(e);
      } else {
        var l := Eval(left, x, m);
        if l.Ok? { EvalFlags(left, x, m); }
        if right.Some? && Eval(right.value, x, m).Ok? { EvalFlags(right.value, x, m); }
        if op == DIV || op == SIN || op == COS { FlagsBelowRefl(left); }
        if right.Some? { FlagsBelowRefl(right.value); }
      }
  }

  /** Evaluation keeps the invariant that invalidity has been propagated to the root. */
  lemma {:induction false} EvalKeepsUpClosed(e: Expr, x: real, m: MathLib)
    requires Eval(e, x, m).Ok? && UpClosed(e)
    ensures UpClosed(Eval(e, x, m).value.tree)
  {
    match e
    case Operand(_, _, _) =>
    case Operator(op, left, right, valid) =>
      if valid {
        EvalFlags(e, x, m);
        if Eval(left, x, m).Ok? {
          EvalFlags(left, x, m);
          EvalKeepsUpClosed(left, x, m);
        }
        if right.Some? && Eval(right.value, x, m).Ok? {
          EvalFlags(right.value, x, m);
          EvalKeepsUpClosed(right.value, x, m);
        }
      }
  }

  /** An invalid operator gives the sentinel, leaves its subtree alone and propagates. */
  lemma InvalidOperatorEval(e: Expr, x: real, m: MathLib)
    requires e.Operator? && !e.valid
    ensures Eval(e, x, m) == Ok(Evaluation(MaxValue, e, true))
  {
  }

  /**
   * A zero divisor gives the sentinel, invalidates the node and does not evaluate (so does
   * not touch) the left subtree.
   */
  lemma DivByZeroEval(e: Expr, x: real, m: MathLib)
    requires e.Operator? && e.op == DIV && e.valid && e.right.Some?
    requires Eval(e.right.value, x, m).Ok? && Eval(e.right.value, x, m).value.value == 0.0
    ensures Eval(e, x, m).Ok?
    ensures var r := Eval(e, x, m).value;
      r.value == MaxValue && r.up && r.tree.left == e.left && !r.tree.valid
  {
  }

  /** SIN, COS and POW always invalidate the node, whatever value they compute. */
  lemma TranscendentalEval(e: Expr, x: real, m: MathLib)
    requires e.Operator? && e.valid && (e.op == SIN || e.op == COS || e.op == POW)
    requires Eval(e, x, m).Ok?
    ensures Eval(e, x, m).value.up && !Eval(e, x, m).value.tree.valid
  {
  }

  /** POW's exponent is the right value clamped at 20. */
  lemma PowClamp(e: Expr, x: real, m: MathLib)
    requires e.Operator? && e.valid && e.op == POW && e.right.Some?
    requires Eval(e, x, m).Ok?
    ensures Eval(e.left, x, m).Ok? && Eval(e.right.value, x, m).Ok?
    ensures Eval(e, x, m).value.value ==
      m.pow(Eval(e.left, x, m).value.value, Min(Eval(e.right.value, x, m).value.value, 20.0))
  {
  }

  /** Only ADD, SUB, MUL and DIV, with their right children present. */
  predicate Arithmetic(e: Expr)
  {
    match e
    case Operand(_, _, _) => true
    case Operator(op, l, r, _) =>
      (op == ADD || op == SUB || op == MUL || op == DIV) && r.Some? && Arithmetic(l) && Arithmetic(r.value)
  }

  /** The value of an arithmetic expression, None when some divisor is zero. */
  function ArithValue(e: Expr, x: real): Option<real>
    requires Arithmetic(e) && OperandsSet(e)
  {
    match e
    case Operand(variable, data, _) => Some(if variable then x else data.value)
    case Operator(op, l, r, _) =>
      var a := ArithValue(l, x);
      var b := ArithValue(r.value, x);
      if op == DIV then
        if b.None? || b.value == 0.0 || a.None? then None else Some(a.value / b.value)
      else if a.None? || b.None? then None else Some(Combine(op, a.value, b.value))
  }

  /**
   * On a fully valid arithmetic tree, evaluation leaves the flags alone and returns the
   * arithmetic value exactly when no divisor is zero, and marks the root invalid otherwise.
   */
  lemma {:induction false} EvalArithmetic(e: Expr, x: real, m: MathLib)
    requires Arithmetic(e) && OperandsSet(e) && AllValid(e)
    ensures Eval(e, x, m).Ok?
    ensures var r := Eval(e, x, m).value;
      (ArithValue(e, x).Some? <==> !r.up) &&
      (ArithValue(e, x).Some? ==> r.value == ArithValue(e, x).value && r.tree == e)
  {
    match e
    case Operand(_, _, _) =>
    case Operator(op, l, r, _) =>
      EvalArithmetic(l, x, m);
      EvalArithmetic(r.value, x, m);
  }

  // ---------------------------------------------------------------------------------------
  // Concrete trees from the tests

  function Const(v: real): Expr { Operand(false, Some(v), true) }
  const Variable: Expr := Operand(true, None, true)
  function Apply(op: OpKind, a: Expr, b: Expr): Expr { Operator(op, a, Some(b), true) }

  /** (6-2)/4 */
  const SixMinusTwoOverFour: Expr := Apply(DIV, Apply(SUB, Const(6.0), Const(2.0)), Const(4.0))

  /** ((x*x)-1)/2, the tree that matches the target (x*x - 1)/2 */
  const Perfect: Expr := Apply(DIV, Apply(SUB, Apply(MUL, Variable, Variable), Const(1.0)), Const(2.0))

  lemma TestTreeMeasures()
    ensures Height(SixMinusTwoOverFour) == 2 && Height(Perfect) == 3
    ensures Height(SixMinusTwoOverFour.left) == 1
    ensures Size(SixMinusTwoOverFour) == 5
  {
  }

  lemma TestTreeRenderings()
    ensures Render(SixMinusTwoOverFour, true) == "(6-2)/4"
    ensures Render(Perfect, true) == "((x*x)-1)/2"
  {
    assert Strings.IntToString(6) == "6" && Strings.IntToString(2) == "2";
    assert Strings.IntToString(4) == "4" && Strings.IntToString(1) == "1";
    assert TruncToInt(6.0) == 6 && TruncToInt(2.0) == 2 && TruncToInt(4.0) == 4 && TruncToInt(1.0) == 1;
  }

  /** Post-order of (6-2)/4 is six, two, minus, four, divide. */
  lemma TestPostOrder()
    ensures PostOrder(SixMinusTwoOverFour) == [[L, L], [L, R], [L], [R], []]
    ensures SubtreeAt(SixMinusTwoOverFour, [L, L]) == Const(6.0)
    ensures SubtreeAt(SixMinusTwoOverFour, [L, R]) == Const(2.0)
    ensures SubtreeAt(SixMinusTwoOverFour, [R]) == Const(4.0)
  {
    assert PostOrder(Const(6.0)) == [[]];
    var pl, pr := Prefixed(L, [[]]), Prefixed(R, [[]]);
    assert pl[0] == [L] && pr[0] == [R];
    assert pl == [[L]] && pr == [[R]];
    assert PostOrder(SixMinusTwoOverFour.left) == [[L], [R], []];
    var q := Prefixed(L, [[L], [R], []]);
    assert q[0] == [L, L] && q[1] == [L, R] && q[2] == [L];
    assert q == [[L, L], [L, R], [L]];
  }

  /** A negative constant renders truncated toward zero: -0.5 renders as 0, -2.7 as -2. */
  lemma OperandTruncation()
    ensures OperandText(false, Some(-0.5)) == "0"
    ensures OperandText(false, Some(-2.7)) == "-2"
    ensures OperandText(false, Some(3.9)) == "3"
  {
    assert TruncToInt(-0.5) == 0;
    assert TruncToInt(-2.7) == -2;
    assert TruncToInt(3.9) == 3;
    assert Strings.IntToString(-2) == "-" + Strings.NatToString(2);
  }
}
