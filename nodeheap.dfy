/**
 * The node objects of an expression tree (BinaryTreeNode with its subclasses OperatorNode and
 * OperandNode) as records in an arena: a node is an index into Heap.nodes, and an object
 * reference is an Option of such an index. Every field the Java objects update in place (the
 * payload, both child links, the parent link, the valid flag and the LEFT/RIGHT/ROOT tag) is a
 * field of the record, and the methods of the Java classes are methods of Heap.
 *
 * A ghost Shape of indices witnesses that the links starting at a node form a finite tree with
 * consistent parent back-links (Realizes), and Abs reads that tree off as an ExprTree.Expr value,
 * so every heap method is proved against the functions on Expr.
 */
module NodeHeap {
  import opened Wrappers
  import opened ExprTree

  /** BinaryTreeNode.NodeType, the position a node holds in its tree. */
  datatype NodeType = ROOT | LEFT | RIGHT

  /**
   * The data object of a node: an OperatorNode stores the operator's name, an OperandNode its
   * variable indicator and its Double (null until a constant is set).
   */
  datatype Payload =
    | OperatorData(op: OpKind)
    | OperandData(variable: bool, data: Option<real>)

  datatype Node = Node(
    payload: Payload,
    left: Option<nat>,
    right: Option<nat>,
    parent: Option<nat>,
    valid: bool,
    nodeType: Option<NodeType>)

  /** The node indices of a tree, arranged as the tree. */
  datatype Shape = Leaf(id: nat) | Fork(id: nat, left: Shape, right: Option<Shape>)

  function Ids(s: Shape): set<nat>
  {
    match s
    case Leaf(id) => {id}
    case Fork(id, l, r) => {id} + Ids(l) + (if r.Some? then Ids(r.value) else {})
  }

  /** A fork on lo over children holding the ids lo+1..mid and mid..hi holds lo..hi. */
  lemma IdsOfFork(lo: nat, l: Shape, r: Option<Shape>, mid: nat, hi: nat)
    requires forall k :: k in Ids(l) <==> lo + 1 <= k < mid
    requires r.None? ==> mid == hi
    requires r.Some? ==> forall k :: k in Ids(r.value) <==> mid <= k < hi
    ensures forall k :: k in Ids(Fork(lo, l, r)) <==> lo <= k < hi
  {
  }

  /**
   * The links of h starting at s.id form the tree s: an operand has no children and, unless it
   * is the variable, a constant; an operator has its left child and an optional right child;
   * every child points back to its parent and is tagged LEFT or RIGHT; no index occurs twice.
   */
  ghost predicate Realizes(h: seq<Node>, s: Shape)
  {
    s.id < |h| &&
    match s
    case Leaf(id) =>
      h[id].payload.OperandData? && h[id].left.None? && h[id].right.None? &&
      (h[id].payload.variable || h[id].payload.data.Some?)
    case Fork(id, l, r) =>
      h[id].payload.OperatorData? && h[id].left == Some(l.id) &&
      Realizes(h, l) && h[l.id].parent == Some(id) && h[l.id].nodeType == Some(LEFT) &&
      id !in Ids(l) &&
      if r.None? then h[id].right.None?
      else
        h[id].right == Some(r.value.id) && Realizes(h, r.value) &&
        h[r.value.id].parent == Some(id) && h[r.value.id].nodeType == Some(RIGHT) &&
        id !in Ids(r.value) && Ids(l) !! Ids(r.value)
  }

  /** A whole tree: its root has no parent and is tagged ROOT. */
  ghost predicate TreeOK(h: seq<Node>, s: Shape)
  {
    Realizes(h, s) && h[s.id].parent.None? && h[s.id].nodeType == Some(ROOT)
  }

  /** The expression a realized shape denotes, with every node's valid flag. */
  ghost function Abs(h: seq<Node>, s: Shape): Expr
    requires Realizes(h, s)
  {
    match s
    case Leaf(id) => Operand(h[id].payload.variable, h[id].payload.data, h[id].valid)
    case Fork(id, l, r) =>
      Operator(h[id].payload.op, Abs(h, l), if r.None? then None else Some(Abs(h, r.value)), h[id].valid)
  }

  /** n's parent links run through chain and end at a node without a parent. */
  ghost predicate ChainUp(h: seq<Node>, n: nat, chain: seq<nat>)
    decreases |chain|
  {
    n < |h| &&
    if |chain| == 0 then h[n].parent.None?
    else h[n].parent == Some(chain[0]) && ChainUp(h, chain[0], chain[1..])
  }

  /** b differs from a at most in its valid flag. */
  predicate SameLinks(a: Node, b: Node) { b == a.(valid := b.valid) }

  ghost predicate LinksKept(h1: seq<Node>, h2: seq<Node>)
  {
    |h1| == |h2| && forall k :: 0 <= k < |h1| ==> SameLinks(h1[k], h2[k])
  }

  /** b agrees with a on every index of ids. */
  ghost predicate AgreeOn(a: seq<Node>, b: seq<Node>, ids: set<nat>)
  {
    forall k :: k in ids ==> k < |a| && k < |b| && a[k] == b[k]
  }

  // ---------------------------------------------------------------------------------------
  // Facts about realized shapes

  lemma {:induction false} IdsInRange(h: seq<Node>, s: Shape)
    requires Realizes(h, s)
    ensures s.id in Ids(s)
    ensures forall k :: k in Ids(s) ==> k < |h|
  {
    match s
    case Leaf(_) =>
    case Fork(_, l, r) =>
      IdsInRange(h, l);
      if r.Some? { IdsInRange(h, r.value); }
  }

  /** A realized tree and its denotation depend only on the records of its own nodes. */
  lemma {:induction false} RealizesFrame(h1: seq<Node>, h2: seq<Node>, s: Shape)
    requires Realizes(h1, s) && AgreeOn(h1, h2, Ids(s))
    ensures Realizes(h2, s) && Abs(h2, s) == Abs(h1, s)
  {
    match s
    case Leaf(_) =>
    case Fork(_, l, r) =>
      IdsInRange(h1, l);
      RealizesFrame(h1, h2, l);
      if r.Some? {
        IdsInRange(h1, r.value);
        RealizesFrame(h1, h2, r.value);
      }
  }

  /** Changing valid flags only keeps every tree realized, with the same shape. */
  lemma {:induction false} RealizesKept(h1: seq<Node>, h2: seq<Node>, s: Shape)
    requires Realizes(h1, s) && LinksKept(h1, h2)
    ensures Realizes(h2, s) && SameShape(Abs(h1, s), Abs(h2, s))
  {
    match s
    case Leaf(_) =>
    case Fork(_, l, r) =>
      RealizesKept(h1, h2, l);
      if r.Some? { RealizesKept(h1, h2, r.value); }
  }

  lemma {:induction false} ChainKept(h1: seq<Node>, h2: seq<Node>, n: nat, chain: seq<nat>)
    requires ChainUp(h1, n, chain) && LinksKept(h1, h2)
    ensures ChainUp(h2, n, chain)
    decreases |chain|
  {
    if |chain| > 0 { ChainKept(h1, h2, chain[0], chain[1..]); }
  }

  /** A child's parent chain is the parent followed by the parent's chain. */
  lemma ChainOfChild(h: seq<Node>, s: Shape, c: Shape, chain: seq<nat>)
    requires Realizes(h, s) && s.Fork? && ChainUp(h, s.id, chain)
    requires c == s.left || (s.right.Some? && c == s.right.value)
    ensures ChainUp(h, c.id, [s.id] + chain)
  {
    assert ([s.id] + chain)[1..] == chain;
  }

  /**
   * A tree stays realized when its root's parent link, tag and flag change: only the links
   * below the root matter, and only the root's flag changes in what it denotes.
   */
  lemma RealizesRootLinks(h1: seq<Node>, h2: seq<Node>, s: Shape)
    requires Realizes(h1, s) && AgreeOn(h1, h2, Ids(s) - {s.id}) && s.id < |h2|
    requires h2[s.id] == h1[s.id].(parent := h2[s.id].parent, nodeType := h2[s.id].nodeType, valid := h2[s.id].valid)
    ensures Realizes(h2, s) && Abs(h2, s) == Abs(h1, s).(valid := h2[s.id].valid)
  {
    match s
    case Leaf(_) =>
    case Fork(_, l, r) =>
      RealizesFrame(h1, h2, l);
      if r.Some? { RealizesFrame(h1, h2, r.value); }
  }

  /** Every operand of a realized tree is the variable or holds a constant. */
  lemma {:induction false} RealizesOperandsSet(h: seq<Node>, s: Shape)
    requires Realizes(h, s)
    ensures OperandsSet(Abs(h, s))
  {
    match s
    case Leaf(_) =>
    case Fork(_, l, r) =>
      RealizesOperandsSet(h, l);
      if r.Some? { RealizesOperandsSet(h, r.value); }
  }

  /** Setting every flag of a realized tree to true denotes ResetFlags of its expression. */
  lemma {:induction false} AbsReset(h1: seq<Node>, h2: seq<Node>, s: Shape)
    requires Realizes(h1, s) && |h1| == |h2|
    requires forall k :: k in Ids(s) ==> k < |h1| && h2[k] == h1[k].(valid := true)
    ensures Realizes(h2, s) && Abs(h2, s) == ResetFlags(Abs(h1, s))
  {
    match s
    case Leaf(_) =>
    case Fork(_, l, r) =>
      AbsReset(h1, h2, l);
      if r.Some? { AbsReset(h1, h2, r.value); }
  }

  // ---------------------------------------------------------------------------------------
  // Evaluation on the heap, specified by ExprTree.Eval

  /** What evaluateOutput may assume at node n: a realized subtree outside its parent chain. */
  ghost predicate EvalPre(h: seq<Node>, n: nat, s: Shape, chain: seq<nat>, x: real, m: MathLib)
  {
    Realizes(h, s) && s.id == n && ChainUp(h, n, chain) &&
    (forall k :: k in chain ==> k !in Ids(s))
  }

  ghost function EvalAt(h: seq<Node>, s: Shape, x: real, m: MathLib): Evaluation
    requires Realizes(h, s) && Eval(Abs(h, s), x, m).Ok?
  {
    Eval(Abs(h, s), x, m).value
  }

  /**
   * h1 is h0 after evaluating the subtree s: only flags changed, the subtree now denotes the
   * evaluated tree, and outside the subtree exactly the ancestors in chain lost their flag,
   * and only when the evaluation propagated invalidity upward.
   */
  ghost predicate Evaluated(h0: seq<Node>, h1: seq<Node>, s: Shape, chain: seq<nat>, ev: Evaluation)
  {
    LinksKept(h0, h1) && Realizes(h1, s) && Abs(h1, s) == ev.tree &&
    forall k :: 0 <= k < |h1| && k !in Ids(s) ==> h1[k].valid == (h0[k].valid && !(ev.up && k in chain))
  }

  /**
   * h1 is h0 after an evaluation of the subtree s that stopped with an exception: only flags
   * changed, and only inside the subtree and on its parent chain.
   */
  ghost predicate Disturbed(h0: seq<Node>, h1: seq<Node>, s: Shape, chain: seq<nat>)
  {
    LinksKept(h0, h1) && forall k :: 0 <= k < |h1| && k !in Ids(s) && k !in chain ==> h1[k].valid == h0[k].valid
  }

  /** A failed evaluation of a child disturbs no more than its parent's subtree and chain. */
  lemma DisturbedUp(h0: seq<Node>, h1: seq<Node>, s: Shape, c: Shape, chain: seq<nat>)
    requires s.Fork? && (c == s.left || (s.right.Some? && c == s.right.value))
    requires Disturbed(h0, h1, c, [s.id] + chain)
    ensures Disturbed(h0, h1, s, chain)
  {
  }

  /** An evaluated child has disturbed no more than its parent's subtree and chain. */
  lemma EvaluatedDisturbs(h0: seq<Node>, h1: seq<Node>, s: Shape, c: Shape, chain: seq<nat>, ev: Evaluation)
    requires s.Fork? && (c == s.left || (s.right.Some? && c == s.right.value))
    requires Evaluated(h0, h1, c, [s.id] + chain, ev)
    ensures Disturbed(h0, h1, s, chain)
  {
  }

  lemma DisturbedTrans(h0: seq<Node>, h1: seq<Node>, h2: seq<Node>, s: Shape, chain: seq<nat>)
    requires Disturbed(h0, h1, s, chain) && Disturbed(h1, h2, s, chain)
    ensures Disturbed(h0, h2, s, chain)
  {
  }

  /** Below a flagged operator other than DIV, a failing left child fails the whole subtree. */
  lemma FailsAtLeft(h: seq<Node>, s: Shape, x: real, m: MathLib)
    requires Realizes(h, s) && s.Fork? && h[s.id].valid && h[s.id].payload.op != DIV
    requires Eval(Abs(h, s.left), x, m).Err?
    ensures Eval(Abs(h, s), x, m) == Eval(Abs(h, s.left), x, m)
  {
  }

  /** A binary operator without a right child fails once its left child (if any) is evaluated. */
  lemma FailsAtMissingRight(h: seq<Node>, s: Shape, x: real, m: MathLib)
    requires Realizes(h, s) && s.Fork? && s.right.None? && h[s.id].valid
    requires h[s.id].payload.op !in {SIN, COS}
    requires h[s.id].payload.op == DIV || Eval(Abs(h, s.left), x, m).Ok?
    ensures Eval(Abs(h, s), x, m) == Err(NullPointer)
  {
  }

  /** A failing right child fails a flagged binary operator once its left child (if any) is evaluated. */
  lemma FailsAtRight(h: seq<Node>, s: Shape, x: real, m: MathLib)
    requires Realizes(h, s) && s.Fork? && s.right.Some? && h[s.id].valid
    requires h[s.id].payload.op !in {SIN, COS}
    requires h[s.id].payload.op == DIV || Eval(Abs(h, s.left), x, m).Ok?
    requires Eval(Abs(h, s.right.value), x, m).Err?
    ensures Eval(Abs(h, s), x, m) == Eval(Abs(h, s.right.value), x, m)
  {
  }

  /** DIV by a non-zero right value fails when its left child does. */
  lemma FailsAtDividend(h: seq<Node>, s: Shape, x: real, m: MathLib)
    requires Realizes(h, s) && s.Fork? && s.right.Some? && h[s.id].valid && h[s.id].payload.op == DIV
    requires Eval(Abs(h, s.right.value), x, m).Ok? && Eval(Abs(h, s.right.value), x, m).value.value != 0.0
    requires Eval(Abs(h, s.left), x, m).Err?
    ensures Eval(Abs(h, s), x, m) == Eval(Abs(h, s.left), x, m)
  {
  }

  /** What a flagged ADD, SUB, MUL or POW node evaluates to, given what its children evaluate to. */
  lemma EvalOfBoth(h: seq<Node>, s: Shape, x: real, m: MathLib, ev1: Evaluation, ev2: Evaluation)
    requires Realizes(h, s) && s.Fork? && s.right.Some? && h[s.id].valid
    requires h[s.id].payload.op in {ADD, SUB, MUL, POW}
    requires Eval(Abs(h, s.left), x, m) == Ok(ev1) && Eval(Abs(h, s.right.value), x, m) == Ok(ev2)
    ensures var op := h[s.id].payload.op;
      Eval(Abs(h, s), x, m) ==
        if op == POW then
          Ok(Evaluation(m.pow(ev1.value, Min(ev2.value, MaxExponent)), Operator(op, ev1.tree, Some(ev2.tree), false), true))
        else
          Ok(Evaluation(Combine(op, ev1.value, ev2.value), Operator(op, ev1.tree, Some(ev2.tree), !(ev1.up || ev2.up)), ev1.up || ev2.up))
  {
  }

  /**
   * POW at s after both children evaluated and setTreeNodeInvalid at s: the value and the heap
   * are the ones Eval gives for the subtree.
   */
  lemma PowerEvaluated(h0: seq<Node>, h1: seq<Node>, h2: seq<Node>, h3: seq<Node>, s: Shape, chain: seq<nat>,
                       x: real, m: MathLib, ev1: Evaluation, ev2: Evaluation)
    requires Realizes(h0, s) && s.Fork? && s.right.Some? && h0[s.id].valid && h0[s.id].payload.op == POW
    requires forall k :: k in chain ==> k !in Ids(s)
    requires Eval(Abs(h0, s.left), x, m) == Ok(ev1) && Eval(Abs(h0, s.right.value), x, m) == Ok(ev2)
    requires Evaluated(h0, h1, s.left, [s.id] + chain, ev1) && Evaluated(h1, h2, s.right.value, [s.id] + chain, ev2)
    requires |h3| == |h2| && forall k :: 0 <= k < |h3| ==>
      h3[k] == h2[k].(valid := h2[k].valid && k != s.id && k !in chain)
    ensures Eval(Abs(h0, s), x, m).Ok?
    ensures EvalAt(h0, s, x, m).value == m.pow(ev1.value, Min(ev2.value, MaxExponent))
    ensures Evaluated(h0, h3, s, chain, EvalAt(h0, s, x, m))
  {
    EvalOfBoth(h0, s, x, m, ev1, ev2);
    InvalidatedAfterBoth(h0, h1, h2, h3, s, chain, ev1, ev2, m.pow(ev1.value, Min(ev2.value, MaxExponent)));
  }

  /** What a flagged DIV node evaluates to, given what its right child and (for a non-zero divisor) its left child evaluate to. */
  lemma EvalOfDivision(h: seq<Node>, s: Shape, x: real, m: MathLib, evr: Evaluation, evl: Evaluation)
    requires Realizes(h, s) && s.Fork? && s.right.Some? && h[s.id].valid && h[s.id].payload.op == DIV
    requires Eval(Abs(h, s.right.value), x, m) == Ok(evr)
    requires evr.value != 0.0 ==> Eval(Abs(h, s.left), x, m) == Ok(evl)
    ensures Eval(Abs(h, s), x, m) ==
      if evr.value != 0.0 then
        Ok(Evaluation(evl.value / evr.value, Operator(DIV, evl.tree, Some(evr.tree), !(evl.up || evr.up)), evl.up || evr.up))
      else
        Ok(Evaluation(MaxValue, Operator(DIV, Abs(h, s.left), Some(evr.tree), false), true))
  {
  }

  /**
   * DIV at s after its right child evaluated to zero and setTreeNodeInvalid at s: MaxValue,
   * and the heap Eval gives for the subtree.
   */
  lemma ZeroDivisorEvaluated(h0: seq<Node>, h1: seq<Node>, h2: seq<Node>, s: Shape, chain: seq<nat>,
                             x: real, m: MathLib, ev: Evaluation)
    requires Realizes(h0, s) && s.Fork? && s.right.Some? && h0[s.id].valid && h0[s.id].payload.op == DIV
    requires forall k :: k in chain ==> k !in Ids(s)
    requires Eval(Abs(h0, s.right.value), x, m) == Ok(ev) && ev.value == 0.0
    requires Evaluated(h0, h1, s.right.value, [s.id] + chain, ev)
    requires |h2| == |h1| && forall k :: 0 <= k < |h2| ==>
      h2[k] == h1[k].(valid := h1[k].valid && k != s.id && k !in chain)
    ensures Eval(Abs(h0, s), x, m).Ok? && EvalAt(h0, s, x, m).value == MaxValue
    ensures Evaluated(h0, h2, s, chain, EvalAt(h0, s, x, m))
  {
    EvalOfDivision(h0, s, x, m, ev, ev);
    IdsInRange(h0, s);
    RealizesKept(h0, h1, s);
    EvaluatedFrame(h0, h1, s.right.value, [s.id] + chain, ev, s.left);
    InvalidatedRoot(h1, h2, s, chain);
    LinksKeptTrans(h0, h1, h2);
  }

  /** What a flagged SIN or COS node evaluates to, given what its left child evaluates to. */
  lemma EvalOfTranscendental(h: seq<Node>, s: Shape, x: real, m: MathLib, ev: Evaluation)
    requires Realizes(h, s) && s.Fork? && h[s.id].valid && h[s.id].payload.op in {SIN, COS}
    requires Eval(Abs(h, s.left), x, m) == Ok(ev)
    ensures var op := h[s.id].payload.op;
      Eval(Abs(h, s), x, m) ==
        Ok(Evaluation(if op == SIN then m.sin(ev.value) else m.cos(ev.value), Operator(op, ev.tree, Abs(h, s).right, false), true))
  {
  }

  /** A subtree outside an evaluated subtree and its parent chain is untouched. */
  lemma EvaluatedFrame(h1: seq<Node>, h2: seq<Node>, so: Shape, chain: seq<nat>, ev: Evaluation, c: Shape)
    requires Evaluated(h1, h2, so, chain, ev) && Realizes(h1, c)
    requires Ids(c) !! Ids(so) && forall k :: k in chain ==> k !in Ids(c)
    ensures Realizes(h2, c) && Abs(h2, c) == Abs(h1, c)
  {
    IdsInRange(h1, c);
    assert AgreeOn(h1, h2, Ids(c)) by {
      forall k | k in Ids(c) ensures h1[k] == h2[k] {
        assert SameLinks(h1[k], h2[k]);
      }
    }
    RealizesFrame(h1, h2, c);
  }

  /** The subtree of a child satisfies evaluateOutput's assumptions when its parent does. */
  lemma ChildPre(h: seq<Node>, s: Shape, chain: seq<nat>, c: Shape, x: real, m: MathLib)
    requires Realizes(h, s) && s.Fork? && ChainUp(h, s.id, chain)
    requires forall k :: k in chain ==> k !in Ids(s)
    requires c == s.left || (s.right.Some? && c == s.right.value)
    ensures EvalPre(h, c.id, c, [s.id] + chain, x, m)
  {
    ChainOfChild(h, s, c, chain);
  }

  lemma LinksKeptTrans(h0: seq<Node>, h1: seq<Node>, h2: seq<Node>)
    requires LinksKept(h0, h1) && LinksKept(h1, h2)
    ensures LinksKept(h0, h2)
  {
  }

  /**
   * Evaluating one child of s and then the other, both below the chain [s.id] + chain: the
   * second evaluation leaves the first child's result alone, and s and the ancestors lose their
   * flags exactly when one of the two propagated invalidity.
   */
  lemma SequencedChildren(h0: seq<Node>, h1: seq<Node>, h2: seq<Node>, s: Shape, c1: Shape, c2: Shape,
                          chain: seq<nat>, ev1: Evaluation, ev2: Evaluation)
    requires Realizes(h0, s) && s.Fork? && s.right.Some?
    requires (c1 == s.left && c2 == s.right.value) || (c1 == s.right.value && c2 == s.left)
    requires forall k :: k in chain ==> k !in Ids(s)
    requires Evaluated(h0, h1, c1, [s.id] + chain, ev1) && Evaluated(h1, h2, c2, [s.id] + chain, ev2)
    ensures LinksKept(h0, h2) && Realizes(h2, s)
    ensures Abs(h2, c1) == ev1.tree && Abs(h2, c2) == ev2.tree
    ensures h2[s.id].valid == (h0[s.id].valid && !(ev1.up || ev2.up))
    ensures forall k :: 0 <= k < |h2| && k !in Ids(s) ==>
      h2[k].valid == (h0[k].valid && !((ev1.up || ev2.up) && k in chain))
  {
    IdsInRange(h0, s);
    LinksKeptTrans(h0, h1, h2);
    RealizesKept(h0, h2, s);
    RealizesKept(h0, h1, c1);
    EvaluatedFrame(h1, h2, c2, [s.id] + chain, ev2, c1);
  }

  /** After setTreeNodeInvalid at the root of s: s denotes its expression with the root flag cleared. */
  lemma InvalidatedRoot(h2: seq<Node>, h3: seq<Node>, s: Shape, chain: seq<nat>)
    requires Realizes(h2, s) && |h3| == |h2|
    requires forall k :: 0 <= k < |h3| ==>
      h3[k] == h2[k].(valid := h2[k].valid && k != s.id && k !in chain)
    requires forall k :: k in chain ==> k !in Ids(s)
    ensures LinksKept(h2, h3) && Realizes(h3, s) && Abs(h3, s) == Abs(h2, s).(valid := false)
  {
    IdsInRange(h2, s);
    assert AgreeOn(h2, h3, Ids(s) - {s.id});
    RealizesRootLinks(h2, h3, s);
  }

  /**
   * Both children of s evaluated and then setTreeNodeInvalid at s: s denotes the operator over
   * the evaluated children with its flag cleared, and every ancestor has lost its flag.
   */
  lemma InvalidatedAfterBoth(h0: seq<Node>, h1: seq<Node>, h2: seq<Node>, h3: seq<Node>, s: Shape,
                             chain: seq<nat>, ev1: Evaluation, ev2: Evaluation, v: real)
    requires Realizes(h0, s) && s.Fork? && s.right.Some?
    requires forall k :: k in chain ==> k !in Ids(s)
    requires Evaluated(h0, h1, s.left, [s.id] + chain, ev1) && Evaluated(h1, h2, s.right.value, [s.id] + chain, ev2)
    requires |h3| == |h2| && forall k :: 0 <= k < |h3| ==>
      h3[k] == h2[k].(valid := h2[k].valid && k != s.id && k !in chain)
    ensures Evaluated(h0, h3, s, chain, Evaluation(v, Operator(h0[s.id].payload.op, ev1.tree, Some(ev2.tree), false), true))
  {
    SequencedChildren(h0, h1, h2, s, s.left, s.right.value, chain, ev1, ev2);
    InvalidatedRoot(h2, h3, s, chain);
    LinksKeptTrans(h0, h2, h3);
  }

  // ---------------------------------------------------------------------------------------
  // Positions in a shape, and splicing a subtree into a child slot

  ghost function ShapeChild(s: Shape, d: Dir): Option<Shape>
  {
    match s
    case Leaf(_) => None
    case Fork(_, l, r) => if d == L then Some(l) else r
  }

  ghost predicate OnShape(s: Shape, p: Path)
  {
    |p| == 0 || (ShapeChild(s, p[0]).Some? && OnShape(ShapeChild(s, p[0]).value, p[1..]))
  }

  ghost function ShapeAt(s: Shape, p: Path): Shape
    requires OnShape(s, p)
  {
    if |p| == 0 then s else ShapeAt(ShapeChild(s, p[0]).value, p[1..])
  }

  ghost function ShapeReplace(s: Shape, p: Path, t: Shape): Shape
    requires OnShape(s, p)
  {
    if |p| == 0 then t
    else
      var c := ShapeReplace(ShapeChild(s, p[0]).value, p[1..], t);
      if p[0] == L then s.(left := c) else s.(right := Some(c))
  }

  /** The positions of a realized shape are the positions of its expression, node for node. */
  lemma {:induction false} ShapePaths(h: seq<Node>, s: Shape, p: Path)
    requires Realizes(h, s)
    ensures OnShape(s, p) <==> ValidPath(Abs(h, s), p)
    ensures OnShape(s, p) ==>
      Realizes(h, ShapeAt(s, p)) && Abs(h, ShapeAt(s, p)) == SubtreeAt(Abs(h, s), p) &&
      Ids(ShapeAt(s, p)) <= Ids(s)
    decreases |p|
  {
    if |p| > 0 && ShapeChild(s, p[0]).Some? {
      ShapePaths(h, ShapeChild(s, p[0]).value, p[1..]);
    }
  }

  lemma ShapeAtParent(s: Shape, p: Path)
    requires OnShape(s, p) && |p| > 0
    ensures OnShape(s, p[..|p| - 1]) && ShapeAt(s, p[..|p| - 1]).Fork?
    ensures ShapeChild(ShapeAt(s, p[..|p| - 1]), p[|p| - 1]) == Some(ShapeAt(s, p))
    decreases |p|
  {
    if |p| > 1 {
      ShapeAtParent(ShapeChild(s, p[0]).value, p[1..]);
      assert p[1..][..|p[1..]| - 1] == p[..|p| - 1][1..];
    }
  }

  /** The node a splice at the slot p rewires: the operator at p's parent position. */
  ghost function SlotOwner(s: Shape, p: Path): nat
    requires OnShape(s, p) && |p| > 0
  {
    ShapeAtParent(s, p);
    ShapeAt(s, p[..|p| - 1]).id
  }

  function SlotTag(d: Dir): NodeType { if d == L then LEFT else RIGHT }

  /** The nodes after replacing the subtree at p by t. */
  lemma {:induction false} ShapeReplaceIds(h: seq<Node>, s: Shape, p: Path, t: Shape)
    requires Realizes(h, s) && OnShape(s, p) && Ids(t) !! Ids(s)
    ensures Ids(ShapeReplace(s, p, t)) == Ids(s) - Ids(ShapeAt(s, p)) + Ids(t)
    ensures |p| > 0 ==> ShapeReplace(s, p, t).id == s.id
    decreases |p|
  {
    if |p| > 0 {
      var c := ShapeChild(s, p[0]).value;
      ShapeReplaceIds(h, c, p[1..], t);
      ShapePaths(h, c, p[1..]);
    }
  }

  lemma ShapeReplaceOne(s: Shape, d: Dir, t: Shape)
    requires ShapeChild(s, d).Some?
    ensures s.Fork? && ShapeReplace(s, [d], t) == if d == L then s.(left := t) else s.(right := Some(t))
  {
    assert [d][1..] == [];
  }

  /** Splice at a child slot of the root of s. */
  lemma SpliceTop(h: seq<Node>, h2: seq<Node>, s: Shape, d: Dir, t: Shape)
    requires Realizes(h, s) && Realizes(h, t) && Ids(t) !! Ids(s) && ShapeChild(s, d).Some?
    requires |h2| == |h|
    requires h2[s.id] == if d == L then h[s.id].(left := Some(t.id)) else h[s.id].(right := Some(t.id))
    requires h2[t.id] == h[t.id].(parent := Some(s.id), nodeType := Some(SlotTag(d)))
    requires AgreeOn(h, h2, Ids(ShapeReplace(s, [d], t)) - {s.id, t.id})
    ensures Realizes(h2, ShapeReplace(s, [d], t))
    ensures Abs(h2, ShapeReplace(s, [d], t)) == ReplaceAt(Abs(h, s), [d], Abs(h, t))
  {
    IdsInRange(h, t);
    ShapeReplaceOne(s, d, t);
    ghost var s2 := ShapeReplace(s, [d], t);
    assert Ids(t) - {t.id} <= Ids(s2) - {s.id, t.id};
    RealizesRootLinks(h, h2, t);
    assert Abs(h2, t) == Abs(h, t);
    if d == L {
      if s.right.Some? {
        assert Ids(s.right.value) <= Ids(s2) - {s.id, t.id};
        RealizesFrame(h, h2, s.right.value);
      }
    } else {
      assert Ids(s.left) <= Ids(s2) - {s.id, t.id};
      RealizesFrame(h, h2, s.left);
    }
  }

  /** Splice below a child c of s: s's own record and its other child are unchanged. */
  lemma SpliceUp(h: seq<Node>, h2: seq<Node>, s: Shape, d: Dir, sc: Shape)
    requires Realizes(h, s) && s.Fork? && Abs(h, s).Operator? && ShapeChild(s, d).Some? && Realizes(h2, sc)
    requires sc.id == ShapeChild(s, d).value.id && sc.id < |h|
    requires s.id !in Ids(sc)
    requires Ids(sc) !! (if d == L then (if s.right.Some? then Ids(s.right.value) else {}) else Ids(s.left))
    requires h2[sc.id].parent == h[sc.id].parent && h2[sc.id].nodeType == h[sc.id].nodeType
    requires AgreeOn(h, h2, {s.id} + (if d == L then (if s.right.Some? then Ids(s.right.value) else {}) else Ids(s.left)))
    ensures Realizes(h2, if d == L then s.(left := sc) else s.(right := Some(sc)))
    ensures Abs(h2, if d == L then s.(left := sc) else s.(right := Some(sc))) ==
      if d == L then Abs(h, s).(left := Abs(h2, sc)) else Abs(h, s).(right := Some(Abs(h2, sc)))
  {
    if d == L {
      if s.right.Some? { RealizesFrame(h, h2, s.right.value); }
    } else {
      RealizesFrame(h, h2, s.left);
    }
  }

  /**
   * Splicing the realized tree t into the child slot at p of s, by relinking the slot's owner
   * to t and t's root back to the owner, gives a realized tree denoting the expression with the
   * subtree at p replaced.
   */
  lemma {:induction false} Splice(h: seq<Node>, h2: seq<Node>, s: Shape, p: Path, t: Shape)
    requires Realizes(h, s) && Realizes(h, t) && Ids(t) !! Ids(s) && OnShape(s, p) && |p| > 0
    requires ValidPath(Abs(h, s), p) && |h2| == |h| && SlotOwner(s, p) < |h|
    requires h2[SlotOwner(s, p)] ==
      if p[|p| - 1] == L then h[SlotOwner(s, p)].(left := Some(t.id))
      else h[SlotOwner(s, p)].(right := Some(t.id))
    requires h2[t.id] == h[t.id].(parent := Some(SlotOwner(s, p)), nodeType := Some(SlotTag(p[|p| - 1])))
    requires AgreeOn(h, h2, Ids(ShapeReplace(s, p, t)) - {SlotOwner(s, p), t.id})
    ensures Realizes(h2, ShapeReplace(s, p, t))
    ensures Abs(h2, ShapeReplace(s, p, t)) == ReplaceAt(Abs(h, s), p, Abs(h, t))
    decreases |p|, 1
  {
    if |p| == 1 {
      assert p[..|p| - 1] == [] && p == [p[0]];
      IdsInRange(h, t);
      SpliceTop(h, h2, s, p[0], t);
    } else {
      SpliceBelow(h, h2, s, p, t);
    }
  }

  lemma {:induction false} SpliceBelow(h: seq<Node>, h2: seq<Node>, s: Shape, p: Path, t: Shape)
    requires Realizes(h, s) && Realizes(h, t) && Ids(t) !! Ids(s) && OnShape(s, p) && |p| > 0
    requires ValidPath(Abs(h, s), p) && |h2| == |h| && SlotOwner(s, p) < |h|
    requires h2[SlotOwner(s, p)] ==
      if p[|p| - 1] == L then h[SlotOwner(s, p)].(left := Some(t.id))
      else h[SlotOwner(s, p)].(right := Some(t.id))
    requires h2[t.id] == h[t.id].(parent := Some(SlotOwner(s, p)), nodeType := Some(SlotTag(p[|p| - 1])))
    requires AgreeOn(h, h2, Ids(ShapeReplace(s, p, t)) - {SlotOwner(s, p), t.id})
    ensures Realizes(h2, ShapeReplace(s, p, t))
    ensures Abs(h2, ShapeReplace(s, p, t)) == ReplaceAt(Abs(h, s), p, Abs(h, t))
    requires |p| > 1
    decreases |p|, 0
  {
    var c := ShapeChild(s, p[0]).value;
    var p' := p[1..];
    SpliceChildFacts(h, s, p, t);
    Splice(h, h2, c, p', t);
    IdsInRange(h, c);
    assert Abs(h, s).Operator?;
    assert c.id < |h|;
    assert h2[c.id].parent == h[c.id].parent && h2[c.id].nodeType == h[c.id].nodeType;
    assert s.id != SlotOwner(s, p);
    ghost var other := if p[0] == L then (if s.right.Some? then Ids(s.right.value) else {}) else Ids(s.left);
    assert Ids(c) !! other;
    assert SlotOwner(s, p) !in other && t.id !in other;
    IdsInRange(h, s);
    assert {s.id} + other <= Ids(ShapeReplace(s, p, t)) - {SlotOwner(s, p), t.id};
    assert AgreeOn(h, h2, {s.id} + other);
    SpliceUp(h, h2, s, p[0], ShapeReplace(c, p', t));
  }

  /** The shape facts SpliceBelow needs about the child of s on the path p. */
  lemma SpliceChildFacts(h: seq<Node>, s: Shape, p: Path, t: Shape)
    requires Realizes(h, s) && Realizes(h, t) && Ids(t) !! Ids(s) && OnShape(s, p) && |p| > 1
    ensures s.Fork? && ShapeChild(s, p[0]).Some?
    ensures var c := ShapeChild(s, p[0]).value;
      var sc := ShapeReplace(c, p[1..], t);
      Realizes(h, c) && Ids(c) <= Ids(s) && OnShape(c, p[1..]) && ValidPath(Abs(h, c), p[1..]) &&
      SlotOwner(s, p) == SlotOwner(c, p[1..]) && SlotOwner(s, p) in Ids(c) &&
      p[1..][|p[1..]| - 1] == p[|p| - 1] &&
      Ids(sc) <= Ids(ShapeReplace(s, p, t)) && sc.id == c.id && s.id !in Ids(sc) &&
      s.id in Ids(ShapeReplace(s, p, t)) &&
      Ids(sc) !! (if p[0] == L then (if s.right.Some? then Ids(s.right.value) else {}) else Ids(s.left)) &&
      (if p[0] == L then (if s.right.Some? then Ids(s.right.value) else {}) else Ids(s.left))
        <= Ids(ShapeReplace(s, p, t)) - Ids(sc) &&
      ShapeReplace(s, p, t) == (if p[0] == L then s.(left := sc) else s.(right := Some(sc))) &&
      ShapeAt(s, p) == ShapeAt(c, p[1..])
  {
    IdsInRange(h, s);
    var c := ShapeChild(s, p[0]).value;
    var p' := p[1..];
    assert p[..|p| - 1][1..] == p'[..|p'| - 1];
    ShapePaths(h, s, [p[0]]);
    assert ShapeAt(s, [p[0]]) == c;
    ShapePaths(h, c, p');
    ShapeReplaceIds(h, c, p', t);
    ShapeReplaceIds(h, s, p, t);
    ShapeAtParent(c, p');
    ShapePaths(h, c, p'[..|p'| - 1]);
    IdsInRange(h, ShapeAt(c, p'[..|p'| - 1]));
  }

  /** One more step down from a position of the shape reaches the matching child shape. */
  lemma {:induction false} ShapeAtExtend(s: Shape, p: Path, d: Dir)
    requires OnShape(s, p) && ShapeChild(ShapeAt(s, p), d).Some?
    ensures OnShape(s, p + [d]) && ShapeAt(s, p + [d]) == ShapeChild(ShapeAt(s, p), d).value
    decreases |p|
  {
    if |p| > 0 {
      assert (p + [d])[1..] == p[1..] + [d];
      ShapeAtExtend(ShapeChild(s, p[0]).value, p[1..], d);
    } else {
      assert ([] + [d])[1..] == [];
    }
  }

  /**
   * Rewriting the payload of the node at position p, keeping its kind, keeps the tree realized;
   * the tree then denotes its old expression with the subtree at p replaced by what the
   * rewritten node denotes.
   */
  lemma {:induction false} PayloadAt(h: seq<Node>, h2: seq<Node>, s: Shape, p: Path, pl: Payload)
    requires Realizes(h, s) && OnShape(s, p)
    requires ShapeAt(s, p).id < |h| && |h2| == |h|
    requires h2 == h[ShapeAt(s, p).id := h[ShapeAt(s, p).id].(payload := pl)]
    requires pl.OperandData? == h[ShapeAt(s, p).id].payload.OperandData?
    requires pl.OperandData? ==> pl.variable || pl.data.Some?
    ensures ValidPath(Abs(h, s), p)
    ensures Realizes(h2, ShapeAt(s, p)) && Realizes(h2, s)
    ensures Abs(h2, s) == ReplaceAt(Abs(h, s), p, Abs(h2, ShapeAt(s, p)))
    ensures SubtreeAt(Abs(h, s), p).Operator? <==> pl.OperatorData?
    ensures pl.OperatorData? ==> Abs(h2, ShapeAt(s, p)) == SubtreeAt(Abs(h, s), p).(op := pl.op)
    ensures pl.OperandData? ==>
      Abs(h2, ShapeAt(s, p)) == SubtreeAt(Abs(h, s), p).(variable := pl.variable, data := pl.data)
    decreases |p|, 1
  {
    if |p| == 0 {
      PayloadAtRoot(h, h2, s, pl);
    } else {
      PayloadAtBelow(h, h2, s, p, pl);
    }
  }

  /** PayloadAt at the root of s. */
  lemma PayloadAtRoot(h: seq<Node>, h2: seq<Node>, s: Shape, pl: Payload)
    requires Realizes(h, s) && |h2| == |h| && h2 == h[s.id := h[s.id].(payload := pl)]
    requires pl.OperandData? == h[s.id].payload.OperandData?
    requires pl.OperandData? ==> pl.variable || pl.data.Some?
    ensures Realizes(h2, s)
    ensures Abs(h, s).Operator? <==> pl.OperatorData?
    ensures pl.OperatorData? ==> Abs(h2, s) == Abs(h, s).(op := pl.op)
    ensures pl.OperandData? ==> Abs(h2, s) == Abs(h, s).(variable := pl.variable, data := pl.data)
  {
    IdsInRange(h, s);
    match s
    case Leaf(_) =>
    case Fork(_, l, r) =>
      RealizesFrame(h, h2, l);
      if r.Some? { RealizesFrame(h, h2, r.value); }
  }

  /** PayloadAt below the root of s: the change happens in the child p leads into. */
  lemma {:induction false} PayloadAtBelow(h: seq<Node>, h2: seq<Node>, s: Shape, p: Path, pl: Payload)
    requires Realizes(h, s) && OnShape(s, p) && |p| > 0
    requires ShapeAt(s, p).id < |h| && |h2| == |h|
    requires h2 == h[ShapeAt(s, p).id := h[ShapeAt(s, p).id].(payload := pl)]
    requires pl.OperandData? == h[ShapeAt(s, p).id].payload.OperandData?
    requires pl.OperandData? ==> pl.variable || pl.data.Some?
    ensures ValidPath(Abs(h, s), p)
    ensures Realizes(h2, ShapeAt(s, p)) && Realizes(h2, s)
    ensures Abs(h2, s) == ReplaceAt(Abs(h, s), p, Abs(h2, ShapeAt(s, p)))
    ensures SubtreeAt(Abs(h, s), p).Operator? <==> pl.OperatorData?
    ensures pl.OperatorData? ==> Abs(h2, ShapeAt(s, p)) == SubtreeAt(Abs(h, s), p).(op := pl.op)
    ensures pl.OperandData? ==>
      Abs(h2, ShapeAt(s, p)) == SubtreeAt(Abs(h, s), p).(variable := pl.variable, data := pl.data)
    decreases |p|, 0
  {
    ShapePaths(h, s, p);
    IdsInRange(h, s);
    var c := ShapeChild(s, p[0]).value;
    ShapePaths(h, c, p[1..]);
    PayloadAt(h, h2, c, p[1..], pl);
    if p[0] == L {
      if s.right.Some? { RealizesFrame(h, h2, s.right.value); }
    } else {
      RealizesFrame(h, h2, s.left);
    }
  }

  /** The child link of n in slot d. */
  function SlotOf(n: Node, d: Dir): Option<nat> { if d == L then n.left else n.right }

  /** n with the child link in slot d replaced by c. */
  function WithSlot(n: Node, d: Dir, c: Option<nat>): (r: Node)
    ensures SlotOf(r, d) == c && r.payload == n.payload && r.parent == n.parent
    ensures r.valid == n.valid && r.nodeType == n.nodeType
  {
    if d == L then n.(left := c) else n.(right := c)
  }

  /**
   * The child in slot d of the node at position p: it is realized, it is the shape at p + [d],
   * its nodes lie in the tree and exclude its parent, and it denotes the matching child
   * expression.
   */
  lemma ChildAt(h: seq<Node>, s: Shape, p: Path, d: Dir)
    requires Realizes(h, s) && ValidPath(Abs(h, s), p) && Child(SubtreeAt(Abs(h, s), p), d).Some?
    ensures OnShape(s, p) && ShapeChild(ShapeAt(s, p), d).Some? && OnShape(s, p + [d])
    ensures ShapeAt(s, p + [d]) == ShapeChild(ShapeAt(s, p), d).value
    ensures Realizes(h, ShapeAt(s, p)) && Realizes(h, ShapeAt(s, p + [d]))
    ensures ShapeAt(s, p).Fork? && ShapeAt(s, p).id < |h| && SlotOf(h[ShapeAt(s, p).id], d) == Some(ShapeAt(s, p + [d]).id)
    ensures Ids(ShapeAt(s, p + [d])) <= Ids(s) && ShapeAt(s, p).id in Ids(s)
    ensures ShapeAt(s, p).id !in Ids(ShapeAt(s, p + [d]))
    ensures h[ShapeAt(s, p + [d]).id].nodeType == Some(SlotTag(d))
    ensures SlotOwner(s, p + [d]) == ShapeAt(s, p).id
    ensures ValidPath(Abs(h, s), p + [d])
    ensures Abs(h, ShapeAt(s, p + [d])) == Child(SubtreeAt(Abs(h, s), p), d).value
    ensures SubtreeAt(Abs(h, s), p + [d]) == Child(SubtreeAt(Abs(h, s), p), d).value
  {
    ShapePaths(h, s, p);
    ghost var n := ShapeAt(s, p);
    SubtreeAtExtend(Abs(h, s), p, d);
    ShapeAtExtend(s, p, d);
    ShapePaths(h, s, p + [d]);
    IdsInRange(h, n);
    assert (p + [d])[..|p + [d]| - 1] == p;
  }

  /** A realized node's child link in slot d is there exactly when its expression has that child. */
  lemma SlotPresent(h: seq<Node>, s: Shape, d: Dir)
    requires Realizes(h, s)
    ensures SlotOf(h[s.id], d).Some? <==> Child(Abs(h, s), d).Some?
    ensures SlotOf(h[s.id], d).Some? ==>
      ShapeChild(s, d).Some? && SlotOf(h[s.id], d).value == ShapeChild(s, d).value.id
    ensures h[s.id].payload.OperatorData? <==> Abs(h, s).Operator?
  {
  }

  /** A subtree below the root does not hold the root. */
  lemma RootAbove(h: seq<Node>, s: Shape, p: Path)
    requires Realizes(h, s) && OnShape(s, p) && |p| > 0
    ensures s.id !in Ids(ShapeAt(s, p))
  {
    ShapePaths(h, ShapeChild(s, p[0]).value, p[1..]);
  }

  /**
   * crossOver's exchange on the heap. The slot qa of sa holds ta, and the slot qb of sb holds
   * tb, where sa and sb are disjoint. Relink each slot's owner to the other subtree. Relink each
   * subtree's root to its new owner, retagged for its new slot. The result is two realized
   * trees, each denoting its expression with the subtree at the slot replaced by the other's.
   * The two node sets are exchanged accordingly, and the roots keep their records' parents.
   */
  lemma {:induction false} Exchange(h: seq<Node>, h2: seq<Node>, sa: Shape, qa: Path, sb: Shape, qb: Path,
                 a: nat, ta: nat, b: nat, tb: nat)
    requires Realizes(h, sa) && Realizes(h, sb) && Ids(sa) !! Ids(sb)
    requires OnShape(sa, qa) && |qa| > 0 && OnShape(sb, qb) && |qb| > 0
    requires ValidPath(Abs(h, sa), qa) && ValidPath(Abs(h, sb), qb)
    requires a == SlotOwner(sa, qa) && ta == ShapeAt(sa, qa).id
    requires b == SlotOwner(sb, qb) && tb == ShapeAt(sb, qb).id
    requires a < |h| && ta < |h| && b < |h| && tb < |h| && |h2| == |h|
    requires h2[a] == WithSlot(h[a], qa[|qa| - 1], Some(tb))
    requires h2[tb] == h[tb].(parent := Some(a), nodeType := Some(SlotTag(qa[|qa| - 1])))
    requires h2[b] == WithSlot(h[b], qb[|qb| - 1], Some(ta))
    requires h2[ta] == h[ta].(parent := Some(b), nodeType := Some(SlotTag(qb[|qb| - 1])))
    requires forall k :: 0 <= k < |h| && k != a && k != b && k != ta && k != tb ==> h2[k] == h[k]
    ensures Realizes(h2, ShapeReplace(sa, qa, ShapeAt(sb, qb)))
    ensures Abs(h2, ShapeReplace(sa, qa, ShapeAt(sb, qb))) ==
      ReplaceAt(Abs(h, sa), qa, SubtreeAt(Abs(h, sb), qb))
    ensures Realizes(h2, ShapeReplace(sb, qb, ShapeAt(sa, qa)))
    ensures Abs(h2, ShapeReplace(sb, qb, ShapeAt(sa, qa))) ==
      ReplaceAt(Abs(h, sb), qb, SubtreeAt(Abs(h, sa), qa))
    ensures ShapeReplace(sa, qa, ShapeAt(sb, qb)).id == sa.id
    ensures ShapeReplace(sb, qb, ShapeAt(sa, qa)).id == sb.id
    ensures Ids(ShapeReplace(sa, qa, ShapeAt(sb, qb))) !! Ids(ShapeReplace(sb, qb, ShapeAt(sa, qa)))
    ensures Ids(ShapeReplace(sa, qa, ShapeAt(sb, qb))) + Ids(ShapeReplace(sb, qb, ShapeAt(sa, qa))) ==
      Ids(sa) + Ids(sb)
    ensures h2[sa.id].parent == h[sa.id].parent && h2[sb.id].parent == h[sb.id].parent
  {
    SlotFacts(h, sa, qa);
    SlotFacts(h, sb, qb);
    ShapeReplaceIds(h, sa, qa, ShapeAt(sb, qb));
    ShapeReplaceIds(h, sb, qb, ShapeAt(sa, qa));
    ExchangeSide(h, h2, sa, qa, sb, qb, a, ta, b, tb);
    ExchangeSide(h, h2, sb, qb, sa, qa, b, tb, a, ta);
  }

  /** One half of Exchange: the tree sa with tb's subtree spliced in at qa. */
  lemma ExchangeSide(h: seq<Node>, h2: seq<Node>, sa: Shape, qa: Path, sb: Shape, qb: Path,
                     a: nat, ta: nat, b: nat, tb: nat)
    requires Realizes(h, sa) && Realizes(h, sb) && Ids(sa) !! Ids(sb)
    requires OnShape(sa, qa) && |qa| > 0 && OnShape(sb, qb) && |qb| > 0
    requires ValidPath(Abs(h, sa), qa) && ValidPath(Abs(h, sb), qb)
    requires a == SlotOwner(sa, qa) && ta == ShapeAt(sa, qa).id
    requires b == SlotOwner(sb, qb) && tb == ShapeAt(sb, qb).id
    requires a < |h| && ta < |h| && b < |h| && tb < |h| && |h2| == |h|
    requires h2[a] == WithSlot(h[a], qa[|qa| - 1], Some(tb))
    requires h2[tb] == h[tb].(parent := Some(a), nodeType := Some(SlotTag(qa[|qa| - 1])))
    requires forall k :: 0 <= k < |h| && k != a && k != b && k != ta && k != tb ==> h2[k] == h[k]
    ensures Realizes(h2, ShapeReplace(sa, qa, ShapeAt(sb, qb)))
    ensures Abs(h2, ShapeReplace(sa, qa, ShapeAt(sb, qb))) ==
      ReplaceAt(Abs(h, sa), qa, SubtreeAt(Abs(h, sb), qb))
    ensures h2[sa.id].parent == h[sa.id].parent
  {
    ghost var tB := ShapeAt(sb, qb);
    SlotFacts(h, sa, qa);
    SlotFacts(h, sb, qb);
    ExchangeAgree(h, h2, sa, qa, sb, qb, a, ta, b, tb);
    Splice(h, h2, sa, qa, tB);
    IdsInRange(h, sa);
    KeptParent(h, h2, sa.id, a, ta, b, tb, Ids(sa), Ids(sb), qa[|qa| - 1]);
  }

  /** Outside the two nodes Exchange relinks for it, the records of sa with tb's subtree spliced in are kept. */
  lemma ExchangeAgree(h: seq<Node>, h2: seq<Node>, sa: Shape, qa: Path, sb: Shape, qb: Path,
                      a: nat, ta: nat, b: nat, tb: nat)
    requires Realizes(h, sa) && Realizes(h, sb) && Ids(sa) !! Ids(sb)
    requires OnShape(sa, qa) && |qa| > 0 && OnShape(sb, qb) && |qb| > 0
    requires a == SlotOwner(sa, qa) && ta == ShapeAt(sa, qa).id
    requires b == SlotOwner(sb, qb) && tb == ShapeAt(sb, qb).id
    requires |h2| == |h|
    requires forall k :: 0 <= k < |h| && k != a && k != b && k != ta && k != tb ==> h2[k] == h[k]
    ensures AgreeOn(h, h2, Ids(ShapeReplace(sa, qa, ShapeAt(sb, qb))) - {a, tb})
  {
    ghost var tB := ShapeAt(sb, qb);
    SlotFacts(h, sa, qa);
    SlotFacts(h, sb, qb);
    ShapeReplaceIds(h, sa, qa, tB);
    IdsInRange(h, sa);
    IdsInRange(h, sb);
    forall k | k in Ids(ShapeReplace(sa, qa, tB)) - {a, tb} ensures k < |h| && k < |h2| && h[k] == h2[k] {
      assert k != b && k != ta;
    }
  }

  /** A node of one tree other than ta keeps its parent when only a's slot and three other nodes change. */
  lemma KeptParent(h: seq<Node>, h2: seq<Node>, r: nat, a: nat, ta: nat, b: nat, tb: nat,
                   ids: set<nat>, others: set<nat>, d: Dir)
    requires r in ids && b in others && tb in others && ids !! others && r != ta
    requires r < |h| && a < |h| && |h2| == |h| && h2[a] == WithSlot(h[a], d, Some(tb))
    requires forall k :: 0 <= k < |h| && k != a && k != b && k != ta && k != tb ==> h2[k] == h[k]
    ensures h2[r].parent == h[r].parent
  {
  }

  /**
   * The four nodes crossOver's exchange touches: the node at pa in sa with its child in slot da,
   * and the node at pb in sb with its child in slot db. They are four different nodes of the two
   * trees, the two owners are operators, and the two children sit at pa + [da] and pb + [db].
   */
  lemma SwapSites(h: seq<Node>, sa: Shape, pa: Path, da: Dir, sb: Shape, pb: Path, db: Dir)
    requires Realizes(h, sa) && Realizes(h, sb) && Ids(sa) !! Ids(sb)
    requires ValidPath(Abs(h, sa), pa) && Child(SubtreeAt(Abs(h, sa), pa), da).Some?
    requires ValidPath(Abs(h, sb), pb) && Child(SubtreeAt(Abs(h, sb), pb), db).Some?
    ensures OnShape(sa, pa) && OnShape(sb, pb) && OnShape(sa, pa + [da]) && OnShape(sb, pb + [db])
    ensures ValidPath(Abs(h, sa), pa + [da]) && ValidPath(Abs(h, sb), pb + [db])
    ensures var a := ShapeAt(sa, pa).id;
      var b := ShapeAt(sb, pb).id;
      var ta := ShapeAt(sa, pa + [da]).id;
      var tb := ShapeAt(sb, pb + [db]).id;
      a < |h| && b < |h| && ta < |h| && tb < |h| &&
      a != b && a != ta && a != tb && b != ta && b != tb && ta != tb &&
      h[a].payload.OperatorData? && h[b].payload.OperatorData? &&
      SlotOf(h[a], da) == Some(ta) && SlotOf(h[b], db) == Some(tb) &&
      a == SlotOwner(sa, pa + [da]) && b == SlotOwner(sb, pb + [db]) &&
      a in Ids(sa) && ta in Ids(sa) && b in Ids(sb) && tb in Ids(sb)
  {
    ChildAt(h, sa, pa, da);
    ChildAt(h, sb, pb, db);
    SlotFacts(h, sa, pa + [da]);
    SlotFacts(h, sb, pb + [db]);
  }

  /** The nodes around the slot q of a realized shape. */
  lemma SlotFacts(h: seq<Node>, s: Shape, q: Path)
    requires Realizes(h, s) && OnShape(s, q) && |q| > 0
    ensures SlotOwner(s, q) in Ids(s) && SlotOwner(s, q) !in Ids(ShapeAt(s, q))
    ensures s.id !in Ids(ShapeAt(s, q)) && s.id in Ids(s)
    ensures Ids(ShapeAt(s, q)) <= Ids(s) && ShapeAt(s, q).id in Ids(ShapeAt(s, q))
    ensures Realizes(h, ShapeAt(s, q)) && ValidPath(Abs(h, s), q)
    ensures Abs(h, ShapeAt(s, q)) == SubtreeAt(Abs(h, s), q)
  {
    ghost var d := q[|q| - 1];
    ShapeAtParent(s, q);
    ghost var o := ShapeAt(s, q[..|q| - 1]);
    ShapePaths(h, s, q[..|q| - 1]);
    IdsInRange(h, o);
    assert ShapeAt(o, [d]) == ShapeAt(s, q);
    RootAbove(h, o, [d]);
    ShapePaths(h, s, q);
    IdsInRange(h, ShapeAt(s, q));
    IdsInRange(h, s);
    RootAbove(h, s, q);
  }

  /** IsVariableToken: String.equalsIgnoreCase("x"). */
  predicate IsVariableToken(t: string) { t == "x" || t == "X" }

  /** BinaryTreeNode.getData as far as equals compares it: the operator name or the Double. */
  datatype Datum = Text(name: string) | Number(v: real)

  function DataOf(n: Node): Option<Datum>
  {
    match n.payload
    case OperatorData(op) => Some(Text(Name(op)))
    case OperandData(_, data) => if data.None? then None else Some(Number(data.value))
  }

  /**
   * BinaryTreeNode.equals: this node's data compared with the other node's data. The data of a
   * variable operand is null, so comparing from one is a NullPointerException.
   */
  function NodeEquals(a: Node, b: Node): (r: Result<bool>)
    ensures DataOf(a).None? <==> r == Err(NullPointer)
    ensures r.Ok? ==> (r.value <==> DataOf(a) == DataOf(b))
  {
    if DataOf(a).None? then Err(NullPointer) else Ok(DataOf(a) == DataOf(b))
  }

  /** Two nodes with the same payload are equal whatever their links, flags and tags. */
  lemma EqualsIgnoresLinks(a: Node, b: Node)
    requires DataOf(a).Some? && a.payload == b.payload
    ensures NodeEquals(a, b) == Ok(true)
    ensures forall c: Node :: c.payload == a.payload ==> NodeEquals(c, b) == Ok(true)
  {
  }

  /** Equality is symmetric where it is defined on both sides. */
  lemma EqualsSymmetric(a: Node, b: Node)
    requires DataOf(a).Some? && DataOf(b).Some?
    ensures NodeEquals(a, b) == NodeEquals(b, a)
  {
  }

  /** An operator is never equal to an operand, whatever the constant. */
  lemma OperatorNotOperand(op: OpKind, a: Node, b: Node)
    requires a.payload == OperatorData(op) && b.payload.OperandData?
    ensures NodeEquals(a, b) == Ok(false)
  {
  }

  class Heap {
    var nodes: seq<Node>

    constructor ()
      ensures nodes == []
    {
      nodes := [];
    }

    /** The record BinaryTreeNode's constructor leaves: no links, valid, no tag. */
    static function Fresh(p: Payload): (n: Node)
      ensures n.left.None? && n.right.None? && n.parent.None? && n.valid && n.nodeType.None?
      ensures n.payload == p
    {
      Node(p, None, None, None, true, None)
    }

    /** new OperatorNode(op): a fresh node storing the operator. */
    method NewOperatorNode(op: OpKind) returns (id: nat)
      modifies this
      ensures id == |old(nodes)| && nodes == old(nodes) + [Fresh(OperatorData(op))]
    {
      id := |nodes|;
      nodes := nodes + [Fresh(OperatorData(op))];
    }

    /** new OperandNode(Double): a fresh constant operand. */
    method NewConstantNode(v: real) returns (id: nat)
      modifies this
      ensures id == |old(nodes)| && nodes == old(nodes) + [Fresh(OperandData(false, Some(v)))]
    {
      id := |nodes|;
      nodes := nodes + [Fresh(OperandData(false, Some(v)))];
    }

    /**
     * new OperandNode(String): the variable for "x" in either case, otherwise the parsed
     * constant; a token that does not parse is a NumberFormatException and allocates nothing
     * that survives.
     */
    method NewOperandNode(token: string, parse: string -> Option<real>) returns (r: Result<nat>)
      modifies this
      ensures IsVariableToken(token) ==>
        r == Ok(|old(nodes)|) && nodes == old(nodes) + [Fresh(OperandData(true, None))]
      ensures !IsVariableToken(token) && parse(token).Some? ==>
        r == Ok(|old(nodes)|) && nodes == old(nodes) + [Fresh(OperandData(false, parse(token)))]
      ensures !IsVariableToken(token) && parse(token).None? ==>
        r == Err(NumberFormat) && nodes == old(nodes)
    {
      if IsVariableToken(token) {
        r := Ok(|nodes|);
        nodes := nodes + [Fresh(OperandData(true, None))];
      } else if parse(token).Some? {
        r := Ok(|nodes|);
        nodes := nodes + [Fresh(OperandData(false, parse(token)))];
      } else {
        r := Err(NumberFormat);
      }
    }

    /** OperatorNode.setOperator: replaces the operator and nothing else. */
    method SetOperator(n: nat, op: OpKind)
      requires n < |nodes| && nodes[n].payload.OperatorData?
      modifies this
      ensures nodes == old(nodes)[n := old(nodes[n]).(payload := OperatorData(op))]
    {
      nodes := nodes[n := nodes[n].(payload := OperatorData(op))];
    }

    /**
     * OperandNode.setOperand: "x" in either case sets the variable indicator and leaves the
     * stored constant alone; any other token is parsed and stored through setData, which
     * clears the indicator.
     */
    method SetOperand(n: nat, token: string, parse: string -> Option<real>) returns (o: Outcome)
      requires n < |nodes| && nodes[n].payload.OperandData?
      modifies this
      ensures IsVariableToken(token) ==> (o == Pass &&
        nodes == old(nodes)[n := old(nodes[n]).(payload := old(nodes[n]).payload.(variable := true))])
      ensures !IsVariableToken(token) && parse(token).Some? ==> (o == Pass &&
        nodes == old(nodes)[n := old(nodes[n]).(payload := OperandData(false, parse(token)))])
      ensures !IsVariableToken(token) && parse(token).None? ==>
        o == Fail(NumberFormat) && nodes == old(nodes)
    {
      if IsVariableToken(token) {
        nodes := nodes[n := nodes[n].(payload := nodes[n].payload.(variable := true))];
        o := Pass;
      } else if parse(token).Some? {
        SetData(n, parse(token).value);
        o := Pass;
      } else {
        o := Fail(NumberFormat);
      }
    }

    /** OperandNode.setData: stores the constant and always clears the variable indicator. */
    method SetData(n: nat, v: real)
      requires n < |nodes| && nodes[n].payload.OperandData?
      modifies this
      ensures nodes == old(nodes)[n := old(nodes[n]).(payload := OperandData(false, Some(v)))]
      ensures !nodes[n].payload.variable
    {
      nodes := nodes[n := nodes[n].(payload := OperandData(false, Some(v)))];
    }

    /** setLeftChild: an operator takes the new left child; an operand throws GPException. */
    method SetLeftChild(n: nat, c: Option<nat>) returns (o: Outcome)
      requires n < |nodes|
      modifies this
      ensures old(nodes[n].payload).OperandData? ==> o == Fail(GPFailure) && nodes == old(nodes)
      ensures old(nodes[n].payload).OperatorData? ==>
        o == Pass && nodes == old(nodes)[n := old(nodes[n]).(left := c)]
    {
      if nodes[n].payload.OperandData? {
        o := Fail(GPFailure);
      } else {
        nodes := nodes[n := nodes[n].(left := c)];
        o := Pass;
      }
    }

    /** setRightChild: an operator takes the new right child; an operand throws GPException. */
    method SetRightChild(n: nat, c: Option<nat>) returns (o: Outcome)
      requires n < |nodes|
      modifies this
      ensures old(nodes[n].payload).OperandData? ==> o == Fail(GPFailure) && nodes == old(nodes)
      ensures old(nodes[n].payload).OperatorData? ==>
        o == Pass && nodes == old(nodes)[n := old(nodes[n]).(right := c)]
    {
      if nodes[n].payload.OperandData? {
        o := Fail(GPFailure);
      } else {
        nodes := nodes[n := nodes[n].(right := c)];
        o := Pass;
      }
    }

    method SetParent(n: nat, p: Option<nat>)
      requires n < |nodes|
      modifies this
      ensures nodes == old(nodes)[n := old(nodes[n]).(parent := p)]
    {
      nodes := nodes[n := nodes[n].(parent := p)];
    }

    method SetNodeType(n: nat, t: NodeType)
      requires n < |nodes|
      modifies this
      ensures nodes == old(nodes)[n := old(nodes[n]).(nodeType := Some(t))]
    {
      nodes := nodes[n := nodes[n].(nodeType := Some(t))];
    }

    predicate HasLeftChild(n: nat)
      reads this
      requires n < |nodes|
    {
      nodes[n].left.Some?
    }

    predicate HasRightChild(n: nat)
      reads this
      requires n < |nodes|
    {
      nodes[n].right.Some?
    }

    predicate HasParent(n: nat)
      reads this
      requires n < |nodes|
    {
      nodes[n].parent.Some?
    }

    /** getHeight of node n: 0 for an operand, 1 + the larger child height for an operator. */
    function GetHeight(n: nat, ghost s: Shape): (r: nat)
      reads this
      requires Realizes(nodes, s) && s.id == n
      decreases s
      ensures r == ExprTree.Height(Abs(nodes, s))
    {
      if nodes[n].payload.OperandData? then 0
      else
        1 + Max(GetHeight(nodes[n].left.value, s.left),
                if nodes[n].right.Some? then GetHeight(nodes[n].right.value, s.right.value) else 0)
    }

    /** getNumberOfChildren of node n: 0 for an operand, the operator's arity otherwise. */
    function GetNumberOfChildren(n: nat, ghost s: Shape): (r: nat)
      reads this
      requires Realizes(nodes, s) && s.id == n
      ensures r == ExprTree.NumberOfChildren(Abs(nodes, s))
      ensures r == 0 <==> nodes[n].payload.OperandData?
    {
      match nodes[n].payload
      case OperandData(_, _) => 0
      case OperatorData(op) => Arity(op)
    }

    /**
     * setTreeNodeInvalid: clears the flag of n and of every ancestor up to the root; every
     * other node, descendants and siblings included, keeps its flag.
     */
    method SetTreeNodeInvalid(n: nat, ghost chain: seq<nat>)
      requires ChainUp(nodes, n, chain)
      modifies this
      decreases |chain|
      ensures |nodes| == |old(nodes)|
      ensures forall k :: 0 <= k < |nodes| ==>
        nodes[k] == old(nodes[k]).(valid := old(nodes[k].valid) && k != n && k !in chain)
    {
      nodes := nodes[n := nodes[n].(valid := false)];
      if nodes[n].parent.Some? {
        ChainKept(old(nodes), nodes, chain[0], chain[1..]);
        SetTreeNodeInvalid(nodes[n].parent.value, chain[1..]);
        assert forall k :: k in chain <==> k == chain[0] || k in chain[1..];
      }
    }

    /**
     * resetTreeNodeInvalid: sets the flag of n and of every descendant to true and touches no
     * other node; the subtree then denotes ResetFlags of what it denoted.
     */
    method ResetTreeNodeInvalid(n: nat, ghost s: Shape)
      requires Realizes(nodes, s) && s.id == n
      modifies this
      decreases s
      ensures |nodes| == |old(nodes)|
      ensures forall k :: 0 <= k < |nodes| ==>
        nodes[k] == old(nodes[k]).(valid := old(nodes[k].valid) || k in Ids(s))
      ensures Realizes(nodes, s) && Abs(nodes, s) == ResetFlags(old(Abs(nodes, s)))
    {
      ghost var h0 := nodes;
      IdsInRange(nodes, s);
      nodes := nodes[n := nodes[n].(valid := true)];
      if nodes[n].left.Some? {
        RealizesKept(h0, nodes, s.left);
        ResetTreeNodeInvalid(nodes[n].left.value, s.left);
      }
      if nodes[n].right.Some? {
        RealizesKept(h0, nodes, s.right.value);
        ResetTreeNodeInvalid(nodes[n].right.value, s.right.value);
      }
      AbsReset(h0, nodes, s);
    }

    /**
     * clone: a copy of n's record (parent and tag copied unchanged) followed by a fresh clone
     * of each child, whose parent becomes the copy. The copy denotes the same expression, its
     * nodes are exactly the new ones, and no existing record changes.
     */
    method CloneNode(n: nat, ghost s: Shape) returns (m: nat, ghost t: Shape)
      requires Realizes(nodes, s) && s.id == n
      modifies this
      decreases s, 2
      ensures |old(nodes)| < |nodes| && nodes[..|old(nodes)|] == old(nodes)
      ensures t.id == m && Realizes(nodes, t) && Abs(nodes, t) == old(Abs(nodes, s))
      ensures forall k :: k in Ids(t) <==> |old(nodes)| <= k < |nodes|
      ensures nodes[m].parent == old(nodes[n].parent) && nodes[m].nodeType == old(nodes[n].nodeType)
    {
      ghost var h0 := nodes;
      var copy := nodes[n];
      m := |nodes|;
      nodes := nodes + [copy];
      IdsInRange(h0, s);
      if copy.left.None? {
        t := Leaf(m);
        return;
      }
      t := CloneChildren(m, s, h0);
    }

    /** The children of clone: the copy m of an operator gets a fresh clone of each child. */
    method CloneChildren(m: nat, ghost s: Shape, ghost h0: seq<Node>) returns (ghost t: Shape)
      requires s.Fork? && Realizes(h0, s) && m == |h0| && nodes == h0 + [h0[s.id]]
      modifies this
      decreases s, 1
      ensures |h0| < |nodes| && nodes[..|h0|] == h0
      ensures t.id == m && Realizes(nodes, t) && Abs(nodes, t) == Abs(h0, s)
      ensures forall k :: k in Ids(t) <==> |h0| <= k < |nodes|
      ensures nodes[m].parent == h0[s.id].parent && nodes[m].nodeType == h0[s.id].nodeType
    {
      var copy := nodes[m];
      IdsInRange(h0, s);
      RealizesFrame(h0, nodes, s.left);
      ghost var lt := AttachClone(m, copy.left.value, s.left, LEFT);
      ghost var h2 := nodes;
      if copy.right.None? {
        t := Fork(m, lt, None);
        IdsOfFork(m, lt, None, |nodes|, |nodes|);
        return;
      }
      t := CloneRight(m, s, h0, lt);
    }

    /** The second child of clone, once the left clone lt hangs below the copy m. */
    method CloneRight(m: nat, ghost s: Shape, ghost h0: seq<Node>, ghost lt: Shape) returns (ghost t: Shape)
      requires s.Fork? && s.right.Some? && Realizes(h0, s) && m == |h0|
      requires m < |nodes| && nodes[..m] == h0 && nodes[m] == h0[s.id].(left := Some(lt.id))
      requires Realizes(nodes, lt) && Abs(nodes, lt) == Abs(h0, s.left)
      requires forall k :: k in Ids(lt) <==> m + 1 <= k < |nodes|
      requires nodes[lt.id].parent == Some(m) && nodes[lt.id].nodeType == Some(LEFT)
      modifies this
      decreases s, 0
      ensures |h0| < |nodes| && nodes[..|h0|] == h0
      ensures t.id == m && Realizes(nodes, t) && Abs(nodes, t) == Abs(h0, s)
      ensures forall k :: k in Ids(t) <==> |h0| <= k < |nodes|
      ensures nodes[m].parent == h0[s.id].parent && nodes[m].nodeType == h0[s.id].nodeType
    {
      ghost var h2 := nodes;
      var c := nodes[m].right.value;
      IdsInRange(h0, s);
      assert AgreeOn(h0, nodes, Ids(s.right.value)) by {
        IdsInRange(h0, s.right.value);
        forall k | k in Ids(s.right.value) ensures k < m && nodes[k] == h0[k] {
          assert nodes[..m][k] == nodes[k];
        }
      }
      RealizesFrame(h0, nodes, s.right.value);
      ghost var rt := AttachClone(m, c, s.right.value, RIGHT);
      RealizesFrame(h2, nodes, lt);
      assert nodes[..|h0|] == h2[..|h0|];
      t := Fork(m, lt, Some(rt));
      IdsOfFork(m, lt, Some(rt), |h2|, |nodes|);
    }

    /**
     * One child step of clone: the child c is cloned, the clone becomes the side child of the
     * operator copy m, and the copy becomes the clone's parent.
     */
    method AttachClone(m: nat, c: nat, ghost cs: Shape, side: NodeType) returns (ghost ct: Shape)
      requires Realizes(nodes, cs) && cs.id == c && m < |nodes| && m !in Ids(cs)
      requires nodes[m].payload.OperatorData? && side != ROOT
      modifies this
      decreases cs, 3
      ensures |old(nodes)| < |nodes|
      ensures forall k :: 0 <= k < |old(nodes)| && k != m ==> nodes[k] == old(nodes[k])
      ensures side == LEFT ==> nodes[m] == old(nodes[m]).(left := Some(ct.id))
      ensures side == RIGHT ==> nodes[m] == old(nodes[m]).(right := Some(ct.id))
      ensures Realizes(nodes, ct) && Abs(nodes, ct) == old(Abs(nodes, cs))
      ensures forall k :: k in Ids(ct) <==> |old(nodes)| <= k < |nodes|
      ensures nodes[ct.id].parent == Some(m) && nodes[ct.id].nodeType == old(nodes[c].nodeType)
    {
      ghost var h0 := nodes;
      var cc: nat;
      cc, ct := CloneNode(c, cs);
      ghost var h1 := nodes;
      IdsInRange(h1, ct);
      assert h1[..|h0|][m] == h0[m];
      var o: Outcome;
      if side == LEFT {
        o := SetLeftChild(m, Some(cc));
      } else {
        o := SetRightChild(m, Some(cc));
      }
      SetParent(cc, Some(m));
      forall k: nat | k < |h0| && k != m ensures nodes[k] == h0[k] {
        assert nodes[k] == h1[k] == h1[..|h0|][k];
      }
      RealizesRootLinks(h1, nodes, ct);
    }

    /**
     * The three statements that hang the subtree c below the operator n on side d: the child
     * link, the LEFT or RIGHT tag, and the parent link. The subtree keeps what it denotes.
     */
    method Attach(n: nat, d: Dir, c: nat, ghost cs: Shape)
      requires Realizes(nodes, cs) && cs.id == c && n < |nodes| && n !in Ids(cs)
      requires nodes[n].payload.OperatorData?
      modifies this
      ensures nodes == old(nodes)[n := WithSlot(old(nodes[n]), d, Some(c))]
                                 [c := old(nodes[c]).(nodeType := Some(SlotTag(d)), parent := Some(n))]
      ensures Realizes(nodes, cs) && Abs(nodes, cs) == old(Abs(nodes, cs))
    {
      ghost var h0 := nodes;
      var o: Outcome;
      if d == L {
        o := SetLeftChild(n, Some(c));
        SetNodeType(c, LEFT);
      } else {
        o := SetRightChild(n, Some(c));
        SetNodeType(c, RIGHT);
      }
      SetParent(c, Some(n));
      IdsInRange(h0, cs);
      RealizesRootLinks(h0, nodes, cs);
    }

    /**
     * evaluateOutput of the node n for the input x: the value Eval gives for the subtree, which
     * afterwards carries the flags Eval computes, while every ancestor loses its flag exactly
     * when the evaluation propagated invalidity upward. Where Eval fails (an operator without a
     * right child is dereferenced) the result is that exception, and only flags inside the
     * subtree and on its parent chain may have changed.
     */
    method EvaluateOutput(n: nat, x: real, m: MathLib, ghost s: Shape, ghost chain: seq<nat>) returns (r: Result<real>)
      requires EvalPre(nodes, n, s, chain, x, m)
      modifies this
      decreases s, 3
      ensures r.Ok? <==> old(Eval(Abs(nodes, s), x, m)).Ok?
      ensures r.Ok? ==> r.value == old(EvalAt(nodes, s, x, m)).value &&
                        Evaluated(old(nodes), nodes, s, chain, old(EvalAt(nodes, s, x, m)))
      ensures r.Err? ==> old(Eval(Abs(nodes, s), x, m)) == Err(r.fault) && Disturbed(old(nodes), nodes, s, chain)
    {
      if nodes[n].payload.OperandData? {
        r := Ok(if nodes[n].payload.variable then x else nodes[n].payload.data.value);
      } else {
        r := EvaluateOperator(n, x, m, s, chain);
      }
    }

    /** OperatorNode.evaluateOutput. */
    method EvaluateOperator(n: nat, x: real, m: MathLib, ghost s: Shape, ghost chain: seq<nat>) returns (r: Result<real>)
      requires EvalPre(nodes, n, s, chain, x, m) && nodes[n].payload.OperatorData?
      modifies this
      decreases s, 2
      ensures r.Ok? <==> old(Eval(Abs(nodes, s), x, m)).Ok?
      ensures r.Ok? ==> r.value == old(EvalAt(nodes, s, x, m)).value &&
                        Evaluated(old(nodes), nodes, s, chain, old(EvalAt(nodes, s, x, m)))
      ensures r.Err? ==> old(Eval(Abs(nodes, s), x, m)) == Err(r.fault) && Disturbed(old(nodes), nodes, s, chain)
    {
      var op := nodes[n].payload.op;
      if nodes[n].valid {
        if op == ADD || op == SUB || op == MUL {
          r := EvaluateBoth(n, x, m, s, chain);
        } else if op == POW {
          r := EvaluatePower(n, x, m, s, chain);
        } else if op == DIV {
          r := EvaluateDivision(n, x, m, s, chain);
        } else {
          r := EvaluateTranscendental(n, x, m, s, chain);
        }
      } else {
        ghost var h0 := nodes;
        IdsInRange(nodes, s);
        SetTreeNodeInvalid(n, chain);
        RealizesKept(h0, nodes, s);
        assert AgreeOn(h0, nodes, Ids(s) - {n});
        RealizesRootLinks(h0, nodes, s);
        r := Ok(MaxValue);
      }
    }

    /** The ADD, SUB and MUL cases: left child, then right child, combined. */
    method EvaluateBoth(n: nat, x: real, m: MathLib, ghost s: Shape, ghost chain: seq<nat>) returns (r: Result<real>)
      requires EvalPre(nodes, n, s, chain, x, m) && nodes[n].valid
      requires nodes[n].payload.OperatorData? && nodes[n].payload.op in {ADD, SUB, MUL}
      modifies this
      decreases s, 1
      ensures r.Ok? <==> old(Eval(Abs(nodes, s), x, m)).Ok?
      ensures r.Ok? ==> r.value == old(EvalAt(nodes, s, x, m)).value &&
                        Evaluated(old(nodes), nodes, s, chain, old(EvalAt(nodes, s, x, m)))
      ensures r.Err? ==> old(Eval(Abs(nodes, s), x, m)) == Err(r.fault) && Disturbed(old(nodes), nodes, s, chain)
    {
      ghost var h0 := nodes;
      var op := nodes[n].payload.op;
      var operands, h1, ev1, ev2 := EvaluateOperands(n, x, m, s, chain);
      if operands.Err? {
        return Err(operands.fault);
      }
      EvalOfBoth(h0, s, x, m, ev1, ev2);
      SequencedChildren(h0, h1, nodes, s, s.left, s.right.value, chain, ev1, ev2);
      r := Ok(Combine(op, operands.value.0, operands.value.1));
    }

    /**
     * The POW case: left child, then right child; the left value raised to the right value
     * capped at 20, and the node and its ancestors marked invalid.
     */
    method EvaluatePower(n: nat, x: real, m: MathLib, ghost s: Shape, ghost chain: seq<nat>) returns (r: Result<real>)
      requires EvalPre(nodes, n, s, chain, x, m) && nodes[n].valid
      requires nodes[n].payload.OperatorData? && nodes[n].payload.op == POW
      modifies this
      decreases s, 1
      ensures r.Ok? <==> old(Eval(Abs(nodes, s), x, m)).Ok?
      ensures r.Ok? ==> r.value == old(EvalAt(nodes, s, x, m)).value &&
                        Evaluated(old(nodes), nodes, s, chain, old(EvalAt(nodes, s, x, m)))
      ensures r.Err? ==> old(Eval(Abs(nodes, s), x, m)) == Err(r.fault) && Disturbed(old(nodes), nodes, s, chain)
    {
      ghost var h0 := nodes;
      var operands, h1, ev1, ev2 := EvaluateOperands(n, x, m, s, chain);
      if operands.Err? {
        return Err(operands.fault);
      }
      ghost var h2 := nodes;
      r := Ok(m.pow(operands.value.0, Min(operands.value.1, MaxExponent)));
      LinksKeptTrans(h0, h1, h2);
      ChainKept(h0, h2, n, chain);
      SetTreeNodeInvalid(n, chain);
      PowerEvaluated(h0, h1, h2, nodes, s, chain, x, m, ev1, ev2);
    }

    /**
     * The two child evaluations of ADD, SUB, MUL and POW: the left child, then the right one.
     * On success h1 is the heap between the two, and ev1 and ev2 are what Eval gives for the
     * children; otherwise the result is the exception Eval gives for the whole subtree.
     */
    method EvaluateOperands(n: nat, x: real, m: MathLib, ghost s: Shape, ghost chain: seq<nat>)
      returns (r: Result<(real, real)>, ghost h1: seq<Node>, ghost ev1: Evaluation, ghost ev2: Evaluation)
      requires EvalPre(nodes, n, s, chain, x, m) && nodes[n].valid
      requires nodes[n].payload.OperatorData? && nodes[n].payload.op in {ADD, SUB, MUL, POW}
      modifies this
      decreases s, 0
      ensures r.Ok? ==> s.right.Some? && r.value == (ev1.value, ev2.value) &&
                        old(Eval(Abs(nodes, s.left), x, m)) == Ok(ev1) &&
                        old(Eval(Abs(nodes, s.right.value), x, m)) == Ok(ev2) &&
                        Evaluated(old(nodes), h1, s.left, [n] + chain, ev1) &&
                        Evaluated(h1, nodes, s.right.value, [n] + chain, ev2)
      ensures r.Err? ==> old(Eval(Abs(nodes, s), x, m)) == Err(r.fault) && Disturbed(old(nodes), nodes, s, chain)
    {
      ghost var h0 := nodes;
      ev1, ev2 := Evaluation(0.0, Abs(h0, s), false), Evaluation(0.0, Abs(h0, s), false);
      IdsInRange(h0, s);
      ChildPre(h0, s, chain, s.left, x, m);
      var a := EvaluateOutput(nodes[n].left.value, x, m, s.left, [n] + chain);
      h1 := nodes;
      if a.Err? {
        assert Eval(Abs(h0, s), x, m) == Err(a.fault) && Disturbed(h0, h1, s, chain) by {
          FailsAtLeft(h0, s, x, m);
          DisturbedUp(h0, h1, s, s.left, chain);
        }
        r := Err(a.fault);
        return;
      }
      ev1 := EvalAt(h0, s.left, x, m);
      ChainKept(h0, h1, n, chain);
      RealizesKept(h0, h1, s);
      if nodes[n].right.None? {
        assert Eval(Abs(h0, s), x, m) == Err(NullPointer) && Disturbed(h0, h1, s, chain) by {
          FailsAtMissingRight(h0, s, x, m);
          EvaluatedDisturbs(h0, h1, s, s.left, chain, ev1);
        }
        r := Err(NullPointer);
        return;
      }
      EvaluatedFrame(h0, h1, s.left, [n] + chain, ev1, s.right.value);
      ChildPre(h1, s, chain, s.right.value, x, m);
      var b := EvaluateOutput(nodes[n].right.value, x, m, s.right.value, [n] + chain);
      ghost var h2 := nodes;
      if b.Err? {
        assert Eval(Abs(h0, s), x, m) == Err(b.fault) && Disturbed(h0, h2, s, chain) by {
          FailsAtRight(h0, s, x, m);
          EvaluatedDisturbs(h0, h1, s, s.left, chain, ev1);
          DisturbedUp(h1, h2, s, s.right.value, chain);
          DisturbedTrans(h0, h1, h2, s, chain);
        }
        r := Err(b.fault);
        return;
      }
      ev2 := EvalAt(h1, s.right.value, x, m);
      r := Ok((a.value, b.value));
    }

    /** The DIV case: the right child first; a zero divisor skips the left child. */
    method EvaluateDivision(n: nat, x: real, m: MathLib, ghost s: Shape, ghost chain: seq<nat>) returns (r: Result<real>)
      requires EvalPre(nodes, n, s, chain, x, m) && nodes[n].valid
      requires nodes[n].payload == OperatorData(DIV)
      modifies this
      decreases s, 0
      ensures r.Ok? <==> old(Eval(Abs(nodes, s), x, m)).Ok?
      ensures r.Ok? ==> r.value == old(EvalAt(nodes, s, x, m)).value &&
                        Evaluated(old(nodes), nodes, s, chain, old(EvalAt(nodes, s, x, m)))
      ensures r.Err? ==> old(Eval(Abs(nodes, s), x, m)) == Err(r.fault) && Disturbed(old(nodes), nodes, s, chain)
    {
      ghost var h0 := nodes;
      IdsInRange(h0, s);
      if nodes[n].right.None? {
        FailsAtMissingRight(h0, s, x, m);
        return Err(NullPointer);
      }
      ChildPre(h0, s, chain, s.right.value, x, m);
      var rightValue := EvaluateOutput(nodes[n].right.value, x, m, s.right.value, [n] + chain);
      ghost var h1 := nodes;
      if rightValue.Err? {
        FailsAtRight(h0, s, x, m);
        DisturbedUp(h0, h1, s, s.right.value, chain);
        return Err(rightValue.fault);
      }
      ghost var ev1 := EvalAt(h0, s.right.value, x, m);
      ChainKept(h0, h1, n, chain);
      RealizesKept(h0, h1, s);
      EvaluatedFrame(h0, h1, s.right.value, [n] + chain, ev1, s.left);
      if rightValue.value != 0.0 {
        ChildPre(h1, s, chain, s.left, x, m);
        var a := EvaluateOutput(nodes[n].left.value, x, m, s.left, [n] + chain);
        if a.Err? {
          FailsAtDividend(h0, s, x, m);
          EvaluatedDisturbs(h0, h1, s, s.right.value, chain, ev1);
          DisturbedUp(h1, nodes, s, s.left, chain);
          DisturbedTrans(h0, h1, nodes, s, chain);
          return Err(a.fault);
        }
        ghost var ev2 := EvalAt(h1, s.left, x, m);
        EvalOfDivision(h0, s, x, m, ev1, ev2);
        SequencedChildren(h0, h1, nodes, s, s.right.value, s.left, chain, ev1, ev2);
        r := Ok(a.value / rightValue.value);
      } else {
        r := Ok(MaxValue);
        SetTreeNodeInvalid(n, chain);
        ZeroDivisorEvaluated(h0, h1, nodes, s, chain, x, m, ev1);
      }
    }

    /** The SIN and COS cases: the left child only, then the node and its ancestors invalid. */
    method EvaluateTranscendental(n: nat, x: real, m: MathLib, ghost s: Shape, ghost chain: seq<nat>) returns (r: Result<real>)
      requires EvalPre(nodes, n, s, chain, x, m) && nodes[n].valid
      requires nodes[n].payload.OperatorData? && nodes[n].payload.op in {SIN, COS}
      modifies this
      decreases s, 0
      ensures r.Ok? <==> old(Eval(Abs(nodes, s), x, m)).Ok?
      ensures r.Ok? ==> r.value == old(EvalAt(nodes, s, x, m)).value &&
                        Evaluated(old(nodes), nodes, s, chain, old(EvalAt(nodes, s, x, m)))
      ensures r.Err? ==> old(Eval(Abs(nodes, s), x, m)) == Err(r.fault) && Disturbed(old(nodes), nodes, s, chain)
    {
      ghost var h0 := nodes;
      var op := nodes[n].payload.op;
      IdsInRange(h0, s);
      ChildPre(h0, s, chain, s.left, x, m);
      var a := EvaluateOutput(nodes[n].left.value, x, m, s.left, [n] + chain);
      ghost var h1 := nodes;
      if a.Err? {
        FailsAtLeft(h0, s, x, m);
        DisturbedUp(h0, h1, s, s.left, chain);
        return Err(a.fault);
      }
      ghost var ev1 := EvalAt(h0, s.left, x, m);
      EvalOfTranscendental(h0, s, x, m, ev1);
      r := Ok(if op == SIN then m.sin(a.value) else m.cos(a.value));
      ChainKept(h0, h1, n, chain);
      RealizesKept(h0, h1, s);
      if s.right.Some? {
        EvaluatedFrame(h0, h1, s.left, [n] + chain, ev1, s.right.value);
      }
      SetTreeNodeInvalid(n, chain);
      InvalidatedRoot(h1, nodes, s, chain);
      LinksKeptTrans(h0, h1, nodes);
    }
  }
}
