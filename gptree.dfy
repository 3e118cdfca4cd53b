/**
 * The trees of the newer generation: the abstract BinaryTree and its one concrete subclass
 * GeneticProgrammingTree, as a single class over the shared node heap. A tree holds the index
 * of its root node; the ghost shape witnesses the nodes below it, and Value() is the
 * expression the tree denotes.
 */
module GPTrees {
  import opened Wrappers
  import opened ExprTree
  import opened NodeHeap
  import opened Randomness

  class GeneticProgrammingTree {
    const heap: Heap
    var root: nat
    ghost var shape: Shape

    /** The root's links form a tree, and the root has no parent. */
    ghost predicate Valid()
      reads this, heap
    {
      Realizes(heap.nodes, shape) && shape.id == root && heap.nodes[root].parent.None?
    }

    ghost function Value(): Expr
      reads this, heap
      requires Valid()
    {
      Abs(heap.nodes, shape)
    }

    /** GeneticProgrammingTree(aNode): the tree rooted at an existing node. */
    constructor (heap: Heap, root: nat, ghost shape: Shape)
      requires Realizes(heap.nodes, shape) && shape.id == root && heap.nodes[root].parent.None?
      ensures this.heap == heap && this.root == root && this.shape == shape && Valid()
    {
      this.heap := heap;
      this.root := root;
      this.shape := shape;
    }

    /** setRoot: the tree is now the one rooted at n. */
    method SetRoot(n: nat, ghost s: Shape)
      requires Realizes(heap.nodes, s) && s.id == n && heap.nodes[n].parent.None?
      modifies this
      ensures root == n && shape == s && Valid()
    {
      root := n;
      shape := s;
    }

    /** isTreeValid: the validity flag of the root. */
    function IsTreeValid(): (r: bool)
      reads this, heap
      requires Valid()
      ensures r == Value().valid
    {
      heap.nodes[root].valid
    }

    /** getHeight: the height of the root node. */
    function GetHeight(): (r: nat)
      reads this, heap
      requires Valid()
      ensures r == Height(Value())
    {
      heap.GetHeight(root, shape)
    }

    /**
     * evaluate: the root's evaluateOutput. The result is the one Eval gives, the exception of
     * an operator without a right child included; on success the tree afterwards denotes the
     * tree Eval computes. Either way the tree stays well formed and no node outside it changes.
     */
    method Evaluate(x: real, m: MathLib) returns (r: Result<real>)
      requires Valid()
      modifies heap
      ensures Valid()
      ensures r.Ok? <==> old(Eval(Value(), x, m)).Ok?
      ensures r.Ok? ==> r.value == old(Eval(Value(), x, m)).value.value && Value() == old(Eval(Value(), x, m)).value.tree
      ensures r.Err? ==> old(Eval(Value(), x, m)) == Err(r.fault)
      ensures |heap.nodes| == |old(heap.nodes)|
      ensures forall k :: 0 <= k < |heap.nodes| && k !in Ids(shape) ==> heap.nodes[k] == old(heap.nodes[k])
    {
      ghost var h0 := heap.nodes;
      r := heap.EvaluateOutput(root, x, m, shape, []);
      RealizesKept(h0, heap.nodes, shape);
      assert SameLinks(h0[root], heap.nodes[root]);
      forall k | 0 <= k < |heap.nodes| && k !in Ids(shape) ensures heap.nodes[k] == h0[k] {
        assert SameLinks(h0[k], heap.nodes[k]);
      }
    }

    /**
     * toString(aNode): an operand renders itself; an operator renders its left subtree, its
     * symbol and its right subtree, wrapped in parentheses unless it is the root. A missing
     * right child (a SIN or COS node) is dereferenced, a NullPointerException.
     */
    function RenderNode(n: nat, ghost s: Shape): (r: Result<string>)
      reads this, heap
      requires Realizes(heap.nodes, s) && s.id == n && (n == root || root !in Ids(s))
      decreases s
      ensures r.Ok? <==> Binary(Abs(heap.nodes, s))
      ensures r.Ok? ==> OperandsSet(Abs(heap.nodes, s)) && r.value == Render(Abs(heap.nodes, s), n == root)
    {
      RealizesOperandsSet(heap.nodes, s);
      var node := heap.nodes[n];
      if node.payload.OperandData? then Ok(OperandText(node.payload.variable, node.payload.data))
      else
        match RenderNode(node.left.value, s.left)
        case Err(f) => Err(f)
        case Ok(a) =>
          if node.right.None? then Err(NullPointer)
          else
            match RenderNode(node.right.value, s.right.value)
            case Err(f) => Err(f)
            case Ok(b) =>
              var inner := a + Symbol(node.payload.op) + b;
              Ok(if n != root then "(" + inner + ")" else inner)
    }

    /** toString: the infix rendering of the whole tree, defined when every operator is binary. */
    function ToString(): (r: Result<string>)
      reads this, heap
      requires Valid()
      ensures r.Ok? <==> Binary(Value())
      ensures r.Ok? ==> OperandsSet(Value()) && r.value == Render(Value(), true)
    {
      RenderNode(root, shape)
    }

    /** getPostOrderList(aNode): the left subtree's list, the right subtree's list, then the node. */
    function PostOrderList(n: nat, ghost s: Shape): (r: seq<nat>)
      reads this, heap
      requires Realizes(heap.nodes, s) && s.id == n
      decreases s
      ensures r == PostIds(s)
    {
      var node := heap.nodes[n];
      (if node.left.Some? then PostOrderList(node.left.value, s.left) else []) +
      (if node.right.Some? then PostOrderList(node.right.value, s.right.value) else []) +
      [n]
    }

    /** getInOrderList(aNode): the left subtree's list, the node, then the right subtree's list. */
    function InOrderList(n: nat, ghost s: Shape): (r: seq<nat>)
      reads this, heap
      requires Realizes(heap.nodes, s) && s.id == n
      decreases s
      ensures r == InIds(s)
    {
      var node := heap.nodes[n];
      (if node.left.Some? then InOrderList(node.left.value, s.left) else []) +
      [n] +
      (if node.right.Some? then InOrderList(node.right.value, s.right.value) else [])
    }

    function GetPostOrderList(): (r: seq<nat>)
      reads this, heap
      requires Valid()
      ensures |r| == Size(Value()) && r[|r| - 1] == root
      ensures forall i :: i in r <==> i in Ids(shape)
      ensures |PostOrder(Value())| == |r| && forall k :: 0 <= k < |r| ==>
        OnShape(shape, PostOrder(Value())[k]) && r[k] == ShapeAt(shape, PostOrder(Value())[k]).id
    {
      PostIdsFacts(heap.nodes, shape);
      PostIdsPositions(heap.nodes, shape);
      PostOrderList(root, shape)
    }

    function GetInOrderList(): (r: seq<nat>)
      reads this, heap
      requires Valid()
      ensures |r| == Size(Value())
      ensures forall i :: i in r <==> i in Ids(shape)
      ensures |InOrder(Value())| == |r| && forall k :: 0 <= k < |r| ==>
        OnShape(shape, InOrder(Value())[k]) && r[k] == ShapeAt(shape, InOrder(Value())[k]).id
    {
      InIdsFacts(heap.nodes, shape);
      InIdsPositions(heap.nodes, shape);
      InOrderList(root, shape)
    }

    /**
     * The for-loop of mutate: aRandomLevel steps of the walk from the root, each drawing a child
     * index; it stops with IllegalArgument at an operand with steps left, as getRandomInt(0)
     * throws there.
     */
    method MutationPoint(rng: Random, aRandomLevel: nat) returns (o: Outcome, aNode: nat, ghost p: Path)
      requires Valid()
      modifies rng
      ensures var walk := MutateWalk(Value(), [], rng.tape, old(rng.pos), aRandomLevel);
        (walk.Err? <==> o.Fail?) && (walk.Err? ==> o == Fail(walk.fault)) &&
        (walk.Ok? ==> walk.value == Landing(p, rng.pos) && OnShape(shape, p) && aNode == ShapeAt(shape, p).id)
    {
      ghost var e0 := Value();
      ghost var pos0 := rng.pos;
      aNode := root;
      p := [];
      var i := 0;
      ghost var left: nat := aRandomLevel;
      while i < aRandomLevel
        invariant 0 <= i <= aRandomLevel && left == aRandomLevel - i && Value() == e0
        invariant OnShape(shape, p) && ValidPath(e0, p) && aNode == ShapeAt(shape, p).id
        invariant MutateWalk(e0, [], rng.tape, pos0, aRandomLevel) == MutateWalk(e0, p, rng.tape, rng.pos, left)
      {
        ghost var m: nat := left - 1;
        assert left == m + 1;
        o, aNode, p := MutateStep(rng, aNode, p, m);
        if o.Fail? {
          return;
        }
        i, left := i + 1, m;
      }
      o := Pass;
    }

    /** One step of mutate's walk, with m steps to come after it. */
    method MutateStep(rng: Random, aNode: nat, ghost p: Path, ghost m: nat) returns (o: Outcome, next: nat, ghost q: Path)
      requires Valid() && OnShape(shape, p) && ValidPath(Value(), p) && aNode == ShapeAt(shape, p).id
      modifies rng
      ensures o.Fail? ==> o == Fail(IllegalArgument)
      ensures o.Fail? ==> MutateWalk(Value(), p, rng.tape, old(rng.pos), m + 1) == Err(IllegalArgument)
      ensures o.Pass? ==> OnShape(shape, q) && ValidPath(Value(), q) && next == ShapeAt(shape, q).id
      ensures o.Pass? ==> MutateWalk(Value(), p, rng.tape, old(rng.pos), m + 1) == MutateWalk(Value(), q, rng.tape, rng.pos, m)
    {
      ghost var e0 := Value();
      ShapePaths(heap.nodes, shape, p);
      var numberOfChildren := heap.GetNumberOfChildren(aNode, ShapeAt(shape, p));
      if numberOfChildren == 0 {
        return Fail(IllegalArgument), aNode, p;
      }
      var randomChild := rng.NextInt(numberOfChildren);
      next, q := aNode, p;
      if randomChild == 0 && heap.HasLeftChild(aNode) {
        ShapeAtExtend(shape, p, L);
        SubtreeAtExtend(e0, p, L);
        next := heap.nodes[aNode].left.value;
        q := p + [L];
      } else if randomChild == 1 && heap.HasRightChild(aNode) {
        ShapeAtExtend(shape, p, R);
        SubtreeAtExtend(e0, p, R);
        next := heap.nodes[aNode].right.value;
        q := p + [R];
      }
      o := Pass;
    }

    /**
     * mutate: random-walk point mutation. When MutateSpec succeeds the tree denotes the
     * mutated expression; when it fails (a draw below 0, a token that does not parse) the
     * tree is unchanged. No node outside the tree changes either way, and the tree's nodes stay
     * the same nodes.
     */
    method Mutate(rng: Random, operators: seq<string>, operands: seq<string>, parse: string -> Option<real>)
      returns (o: Outcome)
      requires Valid()
      modifies heap, rng
      ensures Valid() && |heap.nodes| == |old(heap.nodes)|
      ensures var spec := old(MutateSpec(Value(), rng.tape, rng.pos, operators, operands, parse));
        (spec.Ok? ==> o == Pass && Value() == spec.value.tree && rng.pos == spec.value.pos) &&
        (spec.Err? ==> o == Fail(spec.fault) && Value() == old(Value()))
      ensures forall k :: 0 <= k < |heap.nodes| && k !in Ids(shape) ==> heap.nodes[k] == old(heap.nodes[k])
    {
      ghost var e0 := Value();
      ghost var h0 := heap.nodes;
      ghost var pos0 := rng.pos;
      var aHeight := GetHeight();
      var aRandomLevel := rng.NextInt(aHeight + 1);
      var aNode: nat;
      ghost var p: Path;
      o, aNode, p := MutationPoint(rng, aRandomLevel);
      if o.Fail? {
        return;
      }
      ShapePaths(h0, shape, p);
      MutateSpecAt(e0, rng.tape, pos0, operators, operands, parse, Landing(p, rng.pos));
      o := RewriteAt(rng, aNode, p, operators, operands, parse);
      if o.Fail? {
        return;
      }
      heap.ResetTreeNodeInvalid(root, shape);
    }

    /**
     * The rewrite of mutate at the node the walk reached: a fresh operand token (one draw;
     * IllegalArgument for an empty list, NumberFormat for a token that does not parse) or a
     * fresh operator (one draw). The tree then denotes its expression with the node rewritten
     * as Rewritten gives it; on failure nothing changes.
     */
    method RewriteAt(rng: Random, aNode: nat, ghost p: Path, operators: seq<string>, operands: seq<string>,
                     parse: string -> Option<real>) returns (o: Outcome)
      requires Valid() && OnShape(shape, p) && aNode == ShapeAt(shape, p).id
      requires ValidPath(Value(), p)
      modifies heap, rng
      ensures Valid() && |heap.nodes| == |old(heap.nodes)|
      ensures var spec := old(Rewritten(SubtreeAt(Value(), p), rng.tape, rng.pos, operators, operands, parse));
        (spec.Ok? ==> o == Pass && Value() == ReplaceAt(old(Value()), p, spec.value) && rng.pos == old(rng.pos) + 1) &&
        (spec.Err? ==> o == Fail(spec.fault) && heap.nodes == old(heap.nodes))
      ensures forall k :: 0 <= k < |heap.nodes| && k !in Ids(shape) ==> heap.nodes[k] == old(heap.nodes[k])
    {
      ghost var e0 := Value();
      ghost var h0 := heap.nodes;
      ShapePaths(h0, shape, p);
      IdsInRange(h0, shape);
      ghost var sub := ShapeAt(shape, p);
      ghost var rewritten := Rewritten(SubtreeAt(e0, p), rng.tape, rng.pos, operators, operands, parse);
      if heap.nodes[aNode].payload.OperandData? {
        if |operands| == 0 {
          o := Fail(IllegalArgument);
          return;
        }
        var randOperandPos := rng.NextInt(|operands|);
        o := heap.SetOperand(aNode, operands[randOperandPos], parse);
        if o.Fail? {
          assert rewritten == Err(NumberFormat);
          return;
        }
      } else {
        if |operators| == 0 {
          o := Fail(IllegalArgument);
          return;
        }
        var randOperatorPos := rng.NextInt(|operators|);
        var op := ValueOf(operators[randOperatorPos]);
        if op.Err? {
          o := Fail(op.fault);
          return;
        }
        heap.SetOperator(aNode, op.value);
        o := Pass;
      }
      PayloadAt(h0, heap.nodes, shape, p, heap.nodes[aNode].payload);
      assert rewritten == Ok(Abs(heap.nodes, sub));
    }

    /**
     * One of the two for-loops of crossOver: randomLevel steps of the walk from the root, each
     * drawing a child index and moving to that child only when it is an operator; it stops
     * with IllegalArgument at an operand with steps left, as getRandomInt(0) throws there.
     */
    method CrossPoint(rng: Random, randomLevel: nat) returns (o: Outcome, aNode: nat, ghost p: Path)
      requires Valid()
      modifies rng
      ensures var walk := CrossWalk(Value(), [], rng.tape, old(rng.pos), randomLevel);
        (walk.Err? <==> o.Fail?) && (walk.Err? ==> o == Fail(walk.fault)) &&
        (walk.Ok? ==> walk.value == Landing(p, rng.pos) && OnShape(shape, p) && aNode == ShapeAt(shape, p).id)
    {
      ghost var e0 := Value();
      ghost var pos0 := rng.pos;
      aNode := root;
      p := [];
      var i := 0;
      ghost var left: nat := randomLevel;
      while i < randomLevel
        invariant 0 <= i <= randomLevel && left == randomLevel - i && Value() == e0
        invariant OnShape(shape, p) && ValidPath(e0, p) && aNode == ShapeAt(shape, p).id
        invariant CrossWalk(e0, [], rng.tape, pos0, randomLevel) == CrossWalk(e0, p, rng.tape, rng.pos, left)
      {
        ghost var m: nat := left - 1;
        assert left == m + 1;
        o, aNode, p := CrossStep(rng, aNode, p, m);
        if o.Fail? {
          return;
        }
        i, left := i + 1, m;
      }
      o := Pass;
    }

    /** One step of a crossOver walk, with m steps to come after it. */
    method CrossStep(rng: Random, aNode: nat, ghost p: Path, ghost m: nat) returns (o: Outcome, next: nat, ghost q: Path)
      requires Valid() && OnShape(shape, p) && ValidPath(Value(), p) && aNode == ShapeAt(shape, p).id
      modifies rng
      ensures o.Fail? ==> o == Fail(IllegalArgument)
      ensures o.Fail? ==> CrossWalk(Value(), p, rng.tape, old(rng.pos), m + 1) == Err(IllegalArgument)
      ensures o.Pass? ==> OnShape(shape, q) && ValidPath(Value(), q) && next == ShapeAt(shape, q).id
      ensures o.Pass? ==> CrossWalk(Value(), p, rng.tape, old(rng.pos), m + 1) == CrossWalk(Value(), q, rng.tape, rng.pos, m)
    {
      ghost var e0 := Value();
      ShapePaths(heap.nodes, shape, p);
      var numberOfChildren := heap.GetNumberOfChildren(aNode, ShapeAt(shape, p));
      if numberOfChildren == 0 {
        return Fail(IllegalArgument), aNode, p;
      }
      var randomChild := rng.NextInt(numberOfChildren);
      SlotPresent(heap.nodes, ShapeAt(shape, p), L);
      SlotPresent(heap.nodes, ShapeAt(shape, p), R);
      next, q := aNode, p;
      if randomChild == 0 && heap.HasLeftChild(aNode) {
        ShapeAtExtend(shape, p, L);
        SubtreeAtExtend(e0, p, L);
        ShapePaths(heap.nodes, shape, p + [L]);
        SlotPresent(heap.nodes, ShapeAt(shape, p + [L]), L);
        if heap.nodes[heap.nodes[aNode].left.value].payload.OperatorData? {
          next := heap.nodes[aNode].left.value;
          q := p + [L];
        }
      } else if randomChild == 1 && heap.HasRightChild(aNode) {
        ShapeAtExtend(shape, p, R);
        SubtreeAtExtend(e0, p, R);
        ShapePaths(heap.nodes, shape, p + [R]);
        SlotPresent(heap.nodes, ShapeAt(shape, p + [R]), L);
        if heap.nodes[heap.nodes[aNode].right.value].payload.OperatorData? {
          next := heap.nodes[aNode].right.value;
          q := p + [R];
        }
      }
      o := Pass;
    }

    /**
     * crossOver: the subtree in a random child slot of a random operator of this tree and the
     * one in a random child slot of an operator of aGPT trade places, and both trees' flags are
     * reset. When CrossOverSpec succeeds the two trees denote its two expressions and their
     * node sets are exchanged accordingly; when it fails with IllegalArgument nothing has
     * changed. No node outside the two trees changes.
     */
    method CrossOver(aGPT: GeneticProgrammingTree, rng: Random) returns (o: Outcome)
      requires Valid() && aGPT.Valid() && aGPT != this && aGPT.heap == heap
      requires Ids(shape) !! Ids(aGPT.shape)
      modifies this, aGPT, heap, rng
      ensures root == old(root) && aGPT.root == old(aGPT.root) && |heap.nodes| == |old(heap.nodes)|
      ensures var spec := old(CrossOverSpec(Value(), aGPT.Value(), rng.tape, rng.pos));
        (spec.Ok? ==>
           o == Pass && Valid() && aGPT.Valid() && Value() == spec.value.mine &&
           aGPT.Value() == spec.value.theirs && rng.pos == spec.value.pos &&
           Ids(shape) !! Ids(aGPT.shape) && Ids(shape) + Ids(aGPT.shape) == old(Ids(shape) + Ids(aGPT.shape))) &&
        (spec.Err? ==> o == Fail(spec.fault)) &&
        (spec.Err? && spec.fault == IllegalArgument ==>
           heap.nodes == old(heap.nodes) && shape == old(shape) && aGPT.shape == old(aGPT.shape))
      ensures forall k :: 0 <= k < |heap.nodes| && k !in old(Ids(shape) + Ids(aGPT.shape)) ==>
        heap.nodes[k] == old(heap.nodes[k])
    {
      ghost var ea := Value();
      ghost var eb := aGPT.Value();
      ghost var h0 := heap.nodes;
      ghost var pos0 := rng.pos;
      ghost var sa := shape;
      ghost var sb := aGPT.shape;
      var aHeight := GetHeight();
      if aHeight == 0 {
        o := Fail(IllegalArgument);
        return;
      }
      var randomLevel := rng.NextInt(aHeight);
      var aNode: nat;
      var bNode: nat;
      ghost var pa: Path;
      ghost var pb: Path;
      o, aNode, pa := CrossPoint(rng, randomLevel);
      if o.Fail? {
        return;
      }
      ghost var posA := rng.pos;
      o, bNode, pb := aGPT.CrossPoint(rng, randomLevel);
      if o.Fail? {
        return;
      }
      assert CrossOverSpec(ea, eb, rng.tape, pos0) == CrossAt(ea, eb, rng.tape, pa, pb, rng.pos);
      o := SwapChildren(aGPT, rng, aNode, bNode, pa, pb);
    }

    /**
     * The try-block of crossOver, once both walks have ended at aNode (position pa of this
     * tree) and bNode (position pb of aGPT): the two child draws and the exchange.
     */
    method SwapChildren(aGPT: GeneticProgrammingTree, rng: Random, aNode: nat, bNode: nat, ghost pa: Path, ghost pb: Path)
      returns (o: Outcome)
      requires Valid() && aGPT.Valid() && aGPT != this && aGPT.heap == heap
      requires Ids(shape) !! Ids(aGPT.shape)
      requires OnShape(shape, pa) && aNode == ShapeAt(shape, pa).id
      requires OnShape(aGPT.shape, pb) && bNode == ShapeAt(aGPT.shape, pb).id
      requires ValidPath(Value(), pa) && ValidPath(aGPT.Value(), pb)
      modifies this, aGPT, heap, rng
      ensures root == old(root) && aGPT.root == old(aGPT.root) && |heap.nodes| == |old(heap.nodes)|
      ensures var spec := old(CrossAt(Value(), aGPT.Value(), rng.tape, pa, pb, rng.pos));
        (spec.Ok? ==>
           o == Pass && Valid() && aGPT.Valid() && Value() == spec.value.mine &&
           aGPT.Value() == spec.value.theirs && rng.pos == spec.value.pos &&
           Ids(shape) !! Ids(aGPT.shape) && Ids(shape) + Ids(aGPT.shape) == old(Ids(shape) + Ids(aGPT.shape))) &&
        (spec.Err? ==> o == Fail(spec.fault)) &&
        (spec.Err? && spec.fault == IllegalArgument ==>
           heap.nodes == old(heap.nodes) && shape == old(shape) && aGPT.shape == old(aGPT.shape))
      ensures forall k :: 0 <= k < |heap.nodes| && k !in old(Ids(shape) + Ids(aGPT.shape)) ==>
        heap.nodes[k] == old(heap.nodes[k])
    {
      ghost var ea := Value();
      ghost var eb := aGPT.Value();
      ghost var h0 := heap.nodes;
      ghost var sa := shape;
      ghost var sb := aGPT.shape;
      ghost var spec := CrossAt(ea, eb, rng.tape, pa, pb, rng.pos);
      ShapePaths(h0, sa, pa);
      ShapePaths(h0, sb, pb);
      IdsInRange(h0, sa);
      IdsInRange(h0, sb);
      ghost var oa := ShapeAt(sa, pa);
      ghost var ob := ShapeAt(sb, pb);
      var aNumber := heap.GetNumberOfChildren(aNode, oa);
      if aNumber == 0 {
        o := Fail(IllegalArgument);
        return;
      }
      var aRandomChild := rng.NextInt(aNumber);
      var bNumber := heap.GetNumberOfChildren(bNode, ob);
      if bNumber == 0 {
        o := Fail(IllegalArgument);
        return;
      }
      var bRandomChild := rng.NextInt(bNumber);
      var da := SlotFor(aRandomChild);
      var db := SlotFor(bRandomChild);
      o := Relink(aGPT, aNode, da, bNode, db, pa, pb);
    }

    /**
     * The exchange of crossOver on the heap, once the slots are drawn: relink aNode's slot da to
     * bNode's child in slot db and back, retagging each moved child for its new slot, then reset
     * both trees' flags. An empty slot stops it with NullPointer.
     */
    method Relink(aGPT: GeneticProgrammingTree, aNode: nat, da: Dir, bNode: nat, db: Dir, ghost pa: Path, ghost pb: Path)
      returns (o: Outcome)
      requires Valid() && aGPT.Valid() && aGPT != this && aGPT.heap == heap
      requires Ids(shape) !! Ids(aGPT.shape)
      requires OnShape(shape, pa) && aNode == ShapeAt(shape, pa).id
      requires OnShape(aGPT.shape, pb) && bNode == ShapeAt(aGPT.shape, pb).id
      requires ValidPath(Value(), pa) && ValidPath(aGPT.Value(), pb)
      requires SubtreeAt(Value(), pa).Operator? && SubtreeAt(aGPT.Value(), pb).Operator?
      modifies this, aGPT, heap
      ensures root == old(root) && aGPT.root == old(aGPT.root) && |heap.nodes| == |old(heap.nodes)|
      ensures var swap := old(SwapAt(Value(), aGPT.Value(), pa, da, pb, db));
        (swap.Ok? ==>
           o == Pass && Valid() && aGPT.Valid() && Value() == swap.value.0 && aGPT.Value() == swap.value.1 &&
           Ids(shape) !! Ids(aGPT.shape) && Ids(shape) + Ids(aGPT.shape) == old(Ids(shape) + Ids(aGPT.shape))) &&
        (swap.Err? ==> o == Fail(swap.fault))
      ensures forall k :: 0 <= k < |heap.nodes| && k !in old(Ids(shape) + Ids(aGPT.shape)) ==>
        heap.nodes[k] == old(heap.nodes[k])
    {
      ghost var ea := Value();
      ghost var eb := aGPT.Value();
      ghost var h0 := heap.nodes;
      ghost var sa := shape;
      ghost var sb := aGPT.shape;
      ShapePaths(h0, sa, pa);
      ShapePaths(h0, sb, pb);
      ghost var oa := ShapeAt(sa, pa);
      ghost var ob := ShapeAt(sb, pb);
      SlotPresent(h0, oa, da);
      SlotPresent(h0, ob, db);
      var tempNode := SlotOf(heap.nodes[aNode], da);
      var bChild := SlotOf(heap.nodes[bNode], db);
      if bChild.None? || tempNode.None? {
        IdsInRange(h0, sa);
        IdsInRange(h0, sb);
        IdsInRange(h0, oa);
        IdsInRange(h0, ob);
        if bChild.Some? {
          IdsInRange(h0, ShapeChild(ob, db).value);
        }
        RewireUntil(aNode, da, bNode, db);
        o := Fail(NullPointer);
        return;
      }
      o := Transplant(aGPT, aNode, da, bNode, db, pa, pb);
    }

    /**
     * crossOver's exchange up to the NullPointerException an empty slot causes: the updates
     * made before it, all on aNode, bNode and bNode's child.
     */
    method RewireUntil(aNode: nat, da: Dir, bNode: nat, db: Dir)
      requires aNode < |heap.nodes| && bNode < |heap.nodes|
      requires SlotOf(heap.nodes[bNode], db).Some? ==> SlotOf(heap.nodes[bNode], db).value < |heap.nodes|
      modifies heap
      ensures |heap.nodes| == |old(heap.nodes)|
      ensures forall k :: 0 <= k < |heap.nodes| && k != aNode && k != bNode && Some(k) != SlotOf(old(heap.nodes[bNode]), db) ==>
        heap.nodes[k] == old(heap.nodes[k])
    {
      var o: Outcome;
      var tempNode := SlotOf(heap.nodes[aNode], da);
      var bChild := SlotOf(heap.nodes[bNode], db);
      if da == L {
        o := heap.SetLeftChild(aNode, bChild);
      } else {
        o := heap.SetRightChild(aNode, bChild);
      }
      if bChild.Some? {
        heap.SetNodeType(bChild.value, SlotTag(da));
        heap.SetParent(bChild.value, Some(aNode));
        if db == L {
          o := heap.SetLeftChild(bNode, tempNode);
        } else {
          o := heap.SetRightChild(bNode, tempNode);
        }
      }
    }

    /** crossOver's exchange when both drawn slots hold a child. */
    method Transplant(aGPT: GeneticProgrammingTree, aNode: nat, da: Dir, bNode: nat, db: Dir, ghost pa: Path, ghost pb: Path)
      returns (o: Outcome)
      requires Valid() && aGPT.Valid() && aGPT != this && aGPT.heap == heap
      requires Ids(shape) !! Ids(aGPT.shape)
      requires OnShape(shape, pa) && aNode == ShapeAt(shape, pa).id
      requires OnShape(aGPT.shape, pb) && bNode == ShapeAt(aGPT.shape, pb).id
      requires ValidPath(Value(), pa) && ValidPath(aGPT.Value(), pb)
      requires Child(SubtreeAt(Value(), pa), da).Some? && Child(SubtreeAt(aGPT.Value(), pb), db).Some?
      modifies this, aGPT, heap
      ensures root == old(root) && aGPT.root == old(aGPT.root) && |heap.nodes| == |old(heap.nodes)|
      ensures var swap := old(SwapAt(Value(), aGPT.Value(), pa, da, pb, db));
        o == Pass && swap.Ok? && Valid() && aGPT.Valid() && Value() == swap.value.0 && aGPT.Value() == swap.value.1 &&
        Ids(shape) !! Ids(aGPT.shape) && Ids(shape) + Ids(aGPT.shape) == old(Ids(shape) + Ids(aGPT.shape))
      ensures forall k :: 0 <= k < |heap.nodes| && k !in old(Ids(shape) + Ids(aGPT.shape)) ==>
        heap.nodes[k] == old(heap.nodes[k])
    {
      ghost var ea := Value();
      ghost var eb := aGPT.Value();
      SubtreeAtExtend(ea, pa, da);
      SubtreeAtExtend(eb, pb, db);
      ghost var swap := SwapAt(ea, eb, pa, da, pb, db);
      assert swap == Ok((ResetFlags(ReplaceAt(ea, pa + [da], SubtreeAt(eb, pb + [db]))),
                         ResetFlags(ReplaceAt(eb, pb + [db], SubtreeAt(ea, pa + [da])))));
      ExchangeLinks(aGPT, aNode, da, bNode, db, pa, pb);
      ResetBoth(aGPT);
      o := Pass;
    }

    /**
     * The link updates of crossOver's exchange when both slots hold a child: afterwards each
     * tree denotes its expression with the subtree at its slot replaced by the other's.
     */
    method ExchangeLinks(aGPT: GeneticProgrammingTree, aNode: nat, da: Dir, bNode: nat, db: Dir, ghost pa: Path, ghost pb: Path)
      requires Valid() && aGPT.Valid() && aGPT != this && aGPT.heap == heap
      requires Ids(shape) !! Ids(aGPT.shape)
      requires OnShape(shape, pa) && aNode == ShapeAt(shape, pa).id
      requires OnShape(aGPT.shape, pb) && bNode == ShapeAt(aGPT.shape, pb).id
      requires ValidPath(Value(), pa) && ValidPath(aGPT.Value(), pb)
      requires Child(SubtreeAt(Value(), pa), da).Some? && Child(SubtreeAt(aGPT.Value(), pb), db).Some?
      requires ValidPath(Value(), pa + [da]) && ValidPath(aGPT.Value(), pb + [db])
      modifies this, aGPT, heap
      ensures root == old(root) && aGPT.root == old(aGPT.root) && |heap.nodes| == |old(heap.nodes)|
      ensures Valid() && aGPT.Valid() && Ids(shape) !! Ids(aGPT.shape)
      ensures Value() == old(ReplaceAt(Value(), pa + [da], SubtreeAt(aGPT.Value(), pb + [db])))
      ensures aGPT.Value() == old(ReplaceAt(aGPT.Value(), pb + [db], SubtreeAt(Value(), pa + [da])))
      ensures Ids(shape) + Ids(aGPT.shape) == old(Ids(shape) + Ids(aGPT.shape))
      ensures forall k :: 0 <= k < |heap.nodes| && k !in old(Ids(shape) + Ids(aGPT.shape)) ==>
        heap.nodes[k] == old(heap.nodes[k])
    {
      ghost var h0 := heap.nodes;
      ghost var sa := shape;
      ghost var sb := aGPT.shape;
      ghost var qa := pa + [da];
      ghost var qb := pb + [db];
      SwapSites(h0, sa, pa, da, sb, pb, db);
      var tempNode := SlotOf(heap.nodes[aNode], da);
      var bChild := SlotOf(heap.nodes[bNode], db);
      ghost var ta := ShapeAt(sa, qa);
      ghost var tb := ShapeAt(sb, qb);
      assert qa[|qa| - 1] == da && qb[|qb| - 1] == db;
      Rewire(aNode, da, tempNode.value, bNode, db, bChild.value);
      NodeHeap.Exchange(h0, heap.nodes, sa, qa, sb, qb, aNode, ta.id, bNode, tb.id);
      shape := ShapeReplace(sa, qa, tb);
      aGPT.shape := ShapeReplace(sb, qb, ta);
    }

    /**
     * The six link updates of crossOver's exchange when both slots hold a child: aNode's slot
     * da takes tb, which is retagged and points back to aNode, and bNode's slot db takes ta,
     * likewise. Nothing else changes.
     */
    method Rewire(aNode: nat, da: Dir, ta: nat, bNode: nat, db: Dir, tb: nat)
      requires aNode < |heap.nodes| && bNode < |heap.nodes| && ta < |heap.nodes| && tb < |heap.nodes|
      requires aNode != bNode && aNode != ta && aNode != tb && bNode != ta && bNode != tb && ta != tb
      requires heap.nodes[aNode].payload.OperatorData? && heap.nodes[bNode].payload.OperatorData?
      requires SlotOf(heap.nodes[aNode], da) == Some(ta) && SlotOf(heap.nodes[bNode], db) == Some(tb)
      modifies heap
      ensures |heap.nodes| == |old(heap.nodes)|
      ensures heap.nodes[aNode] == WithSlot(old(heap.nodes[aNode]), da, Some(tb))
      ensures heap.nodes[tb] == old(heap.nodes[tb]).(parent := Some(aNode), nodeType := Some(SlotTag(da)))
      ensures heap.nodes[bNode] == WithSlot(old(heap.nodes[bNode]), db, Some(ta))
      ensures heap.nodes[ta] == old(heap.nodes[ta]).(parent := Some(bNode), nodeType := Some(SlotTag(db)))
      ensures forall k :: 0 <= k < |heap.nodes| && k != aNode && k != bNode && k != ta && k != tb ==>
        heap.nodes[k] == old(heap.nodes[k])
    {
      var tempNode := SlotOf(heap.nodes[aNode], da);
      SetChildSlot(aNode, da, SlotOf(heap.nodes[bNode], db));
      heap.SetNodeType(tb, SlotTag(da));
      heap.SetParent(tb, Some(aNode));
      SetChildSlot(bNode, db, tempNode);
      heap.SetNodeType(ta, SlotTag(db));
      heap.SetParent(ta, Some(bNode));
    }

    /** setLeftChild or setRightChild on an operator node, as the drawn slot says. */
    method SetChildSlot(n: nat, d: Dir, c: Option<nat>)
      requires n < |heap.nodes| && heap.nodes[n].payload.OperatorData?
      modifies heap
      ensures heap.nodes == old(heap.nodes)[n := WithSlot(old(heap.nodes[n]), d, c)]
    {
      var o: Outcome;
      if d == L {
        o := heap.SetLeftChild(n, c);
      } else {
        o := heap.SetRightChild(n, c);
      }
    }

    /** The two resetTreeNodeInvalid calls that end crossOver: both trees get every flag set. */
    method ResetBoth(aGPT: GeneticProgrammingTree)
      requires Valid() && aGPT.Valid() && aGPT != this && aGPT.heap == heap
      requires Ids(shape) !! Ids(aGPT.shape)
      modifies heap
      ensures Valid() && aGPT.Valid() && |heap.nodes| == |old(heap.nodes)|
      ensures Value() == ResetFlags(old(Value())) && aGPT.Value() == ResetFlags(old(aGPT.Value()))
      ensures forall k :: 0 <= k < |heap.nodes| && k !in Ids(shape) + Ids(aGPT.shape) ==>
        heap.nodes[k] == old(heap.nodes[k])
    {
      ghost var h1 := heap.nodes;
      IdsInRange(h1, shape);
      IdsInRange(h1, aGPT.shape);
      heap.ResetTreeNodeInvalid(root, shape);
      ghost var h2 := heap.nodes;
      assert AgreeOn(h1, h2, Ids(aGPT.shape));
      RealizesFrame(h1, h2, aGPT.shape);
      heap.ResetTreeNodeInvalid(aGPT.root, aGPT.shape);
      assert AgreeOn(h2, heap.nodes, Ids(shape));
      RealizesFrame(h2, heap.nodes, shape);
    }

    /**
     * getRandomTreeNode: the post-order element at a draw below the node count, so always a
     * node of the tree.
     */
    method GetRandomTreeNode(rng: Random) returns (r: nat)
      requires Valid()
      modifies rng
      ensures r == GetPostOrderList()[Draw(rng.tape, old(rng.pos), Size(Value()))]
      ensures r in Ids(shape) && rng.pos == old(rng.pos) + 1
    {
      var treeNodes := GetPostOrderList();
      var randomPosition := rng.NextInt(|treeNodes|);
      r := treeNodes[randomPosition];
    }

    /**
     * clone: a new tree on the same heap rooted at a deep copy of the root. It denotes the same
     * expression, so it renders the same and has the same height, and it shares no node with
     * this tree, which is unchanged.
     */
    method Clone() returns (t: GeneticProgrammingTree)
      requires Valid()
      modifies heap
      ensures fresh(t) && t.heap == heap && t.Valid() && Valid()
      ensures t.Value() == old(Value()) && Value() == old(Value())
      ensures Ids(t.shape) !! Ids(shape)
      ensures |old(heap.nodes)| < |heap.nodes| && heap.nodes[..|old(heap.nodes)|] == old(heap.nodes)
    {
      ghost var h0 := heap.nodes;
      IdsInRange(h0, shape);
      var m: nat;
      ghost var ts: Shape;
      m, ts := heap.CloneNode(root, shape);
      assert AgreeOn(h0, heap.nodes, Ids(shape)) by {
        forall k | k in Ids(shape) ensures h0[k] == heap.nodes[k] {
          assert heap.nodes[..|h0|][k] == h0[k];
        }
      }
      RealizesFrame(h0, heap.nodes, shape);
      assert heap.nodes[..|h0|][root] == h0[root];
      t := new GeneticProgrammingTree(heap, m, ts);
    }
  }

  // ---------------------------------------------------------------------------------------
  // mutate, specified on the expression the tree denotes

  /** Where a random walk ends, and the cursor of the draw stream after it. */
  datatype Landing = Landing(path: Path, pos: nat)

  /**
   * mutate's walk from position p with steps steps left: each step draws a child index below
   * the node's number of children and moves to that child when the slot holds one, staying put
   * otherwise. A step at an operand draws below 0, the IllegalArgumentException of
   * Random.nextInt.
   */
  function MutateWalk(e: Expr, p: Path, tape: nat -> nat, pos: nat, steps: nat): (r: Result<Landing>)
    requires ValidPath(e, p)
    decreases steps
    ensures r.Err? ==> r.fault == IllegalArgument
    ensures r.Ok? ==> ValidPath(e, r.value.path) && r.value.pos == pos + steps
    ensures r.Ok? ==> |p| <= |r.value.path| <= |p| + steps && r.value.path[..|p|] == p
  {
    if steps == 0 then Ok(Landing(p, pos))
    else
      var node := SubtreeAt(e, p);
      if node.Operand? then Err(IllegalArgument)
      else
        var randomChild := Draw(tape, pos, Arity(node.op));
        if randomChild == 0 then
          SubtreeAtExtend(e, p, L);
          var r := MutateWalk(e, p + [L], tape, pos + 1, steps - 1);
          assert r.Ok? ==> r.value.path[..|p|] == r.value.path[..|p| + 1][..|p|];
          r
        else if randomChild == 1 && node.right.Some? then
          SubtreeAtExtend(e, p, R);
          var r := MutateWalk(e, p + [R], tape, pos + 1, steps - 1);
          assert r.Ok? ==> r.value.path[..|p|] == r.value.path[..|p| + 1][..|p|];
          r
        else
          MutateWalk(e, p, tape, pos + 1, steps - 1)
  }

  /** Every name in the operator list is one OperatorType.valueOf accepts. */
  predicate OperatorNames(operators: seq<string>)
  {
    forall k :: 0 <= k < |operators| ==> ValueOf(operators[k]).Ok?
  }

  /**
   * The node mutate puts in place of node, drawing at pos: an operand takes a random entry of
   * the operand list through setOperand, an operator takes a random operator name. An empty
   * list is a draw below 0; an operand token that does not parse is a NumberFormatException,
   * and an operator name that OperatorType.valueOf rejects is an IllegalArgumentException.
   */
  function Rewritten(node: Expr, tape: nat -> nat, pos: nat, operators: seq<string>, operands: seq<string>,
                     parse: string -> Option<real>): (r: Result<Expr>)
    ensures r.Ok? ==> r.value.Operand? == node.Operand? && r.value.valid == node.valid
    ensures r.Ok? && node.Operator? ==> r.value.left == node.left && r.value.right == node.right
    ensures r.Ok? && node.Operand? ==> r.value.variable || r.value.data.Some?
  {
    if node.Operand? then
      if |operands| == 0 then Err(IllegalArgument)
      else
        var token := operands[Draw(tape, pos, |operands|)];
        if IsVariableToken(token) then Ok(node.(variable := true))
        else if parse(token).None? then Err(NumberFormat)
        else Ok(node.(variable := false, data := parse(token)))
    else
      if |operators| == 0 then Err(IllegalArgument)
      else
        match ValueOf(operators[Draw(tape, pos, |operators|)])
        case Err(f) => Err(f)
        case Ok(op) => Ok(node.(op := op))
  }

  datatype Mutation = Mutation(tree: Expr, pos: nat)

  /**
   * mutate: a level drawn in [0, height], a walk of that many steps from the root, the node
   * reached rewritten in place, and then every flag of the tree reset.
   */
  function MutateSpec(e: Expr, tape: nat -> nat, pos: nat, operators: seq<string>, operands: seq<string>,
                      parse: string -> Option<real>): Result<Mutation>
  {
    var level := Draw(tape, pos, Height(e) + 1);
    match MutateWalk(e, [], tape, pos + 1, level)
    case Err(f) => Err(f)
    case Ok(land) =>
      match Rewritten(SubtreeAt(e, land.path), tape, land.pos, operators, operands, parse)
      case Err(f) => Err(f)
      case Ok(node) => Ok(Mutation(ResetFlags(ReplaceAt(e, land.path, node)), land.pos + 1))
  }

  /** MutateSpec once the walk has ended at land. */
  lemma MutateSpecAt(e: Expr, tape: nat -> nat, pos: nat, operators: seq<string>, operands: seq<string>,
                     parse: string -> Option<real>, land: Landing)
    requires MutateWalk(e, [], tape, pos + 1, Draw(tape, pos, Height(e) + 1)) == Ok(land)
    ensures ValidPath(e, land.path)
    ensures MutateSpec(e, tape, pos, operators, operands, parse) ==
      match Rewritten(SubtreeAt(e, land.path), tape, land.pos, operators, operands, parse)
      case Err(f) => Err(f)
      case Ok(node) => Ok(Mutation(ResetFlags(ReplaceAt(e, land.path, node)), land.pos + 1))
  {
  }

  /**
   * mutate changes the payload of one node: the tree keeps its node count and its height, the
   * rewritten node sits at a depth no greater than the height, and every flag is set.
   */
  lemma MutatePreserves(e: Expr, tape: nat -> nat, pos: nat, operators: seq<string>, operands: seq<string>,
                        parse: string -> Option<real>)
    requires MutateSpec(e, tape, pos, operators, operands, parse).Ok?
    ensures var t := MutateSpec(e, tape, pos, operators, operands, parse).value.tree;
      Size(t) == Size(e) && Height(t) == Height(e) && AllValid(t)
    ensures OperandsSet(e) ==> OperandsSet(MutateSpec(e, tape, pos, operators, operands, parse).value.tree)
  {
    var level := Draw(tape, pos, Height(e) + 1);
    var land := MutateWalk(e, [], tape, pos + 1, level).value;
    var node := Rewritten(SubtreeAt(e, land.path), tape, land.pos, operators, operands, parse).value;
    var sub := SubtreeAt(e, land.path);
    assert Size(node) == Size(sub) && Height(node) == Height(sub);
    ReplaceAtSize(e, land.path, node);
    ReplaceAtHeight(e, land.path, node);
    ResetFlagsProperties(ReplaceAt(e, land.path, node));
    if OperandsSet(e) {
      SubtreeAtOperandsSet(e, land.path);
      ReplaceAtOperandsSet(e, land.path, node);
    }
  }

  /** The walk of mutate ends at a depth no greater than the tree's height. */
  lemma MutateDepth(e: Expr, tape: nat -> nat, pos: nat)
    requires MutateWalk(e, [], tape, pos + 1, Draw(tape, pos, Height(e) + 1)).Ok?
    ensures |MutateWalk(e, [], tape, pos + 1, Draw(tape, pos, Height(e) + 1)).value.path| <= Height(e)
  {
    DepthBelowHeight(e, MutateWalk(e, [], tape, pos + 1, Draw(tape, pos, Height(e) + 1)).value.path);
  }

  // ---------------------------------------------------------------------------------------
  // crossOver, specified on the expressions the two trees denote

  /**
   * One of crossOver's two walks from position p with steps steps left: each step draws a
   * child index below the node's number of children and moves to that child only when it is
   * an operator, so the walk never leaves the operators. A step at an operand draws below 0.
   */
  function CrossWalk(e: Expr, p: Path, tape: nat -> nat, pos: nat, steps: nat): (r: Result<Landing>)
    requires ValidPath(e, p)
    decreases steps
    ensures r.Err? ==> r.fault == IllegalArgument
    ensures SubtreeAt(e, p).Operand? && steps > 0 ==> r.Err?
    ensures r.Ok? ==> ValidPath(e, r.value.path) && r.value.pos == pos + steps
    ensures r.Ok? ==> |p| <= |r.value.path| <= |p| + steps && r.value.path[..|p|] == p
    ensures r.Ok? && SubtreeAt(e, p).Operator? ==> SubtreeAt(e, r.value.path).Operator?
  {
    if steps == 0 then Ok(Landing(p, pos))
    else
      var node := SubtreeAt(e, p);
      if node.Operand? then Err(IllegalArgument)
      else
        var randomChild := Draw(tape, pos, Arity(node.op));
        if randomChild == 0 && node.left.Operator? then
          SubtreeAtExtend(e, p, L);
          var r := CrossWalk(e, p + [L], tape, pos + 1, steps - 1);
          assert r.Ok? ==> r.value.path[..|p|] == r.value.path[..|p| + 1][..|p|];
          r
        else if randomChild == 1 && node.right.Some? && node.right.value.Operator? then
          SubtreeAtExtend(e, p, R);
          var r := CrossWalk(e, p + [R], tape, pos + 1, steps - 1);
          assert r.Ok? ==> r.value.path[..|p|] == r.value.path[..|p| + 1][..|p|];
          r
        else
          CrossWalk(e, p, tape, pos + 1, steps - 1)
  }

  /** The slot a child index names: 0 is the left child, anything else the right one. */
  function SlotFor(randomChild: nat): Dir { if randomChild == 0 then L else R }

  datatype Crossing = Crossing(mine: Expr, theirs: Expr, pos: nat)

  /**
   * crossOver of a with b: a level drawn below a's height, a walk of that many steps in a and
   * then in b, a child slot drawn under each of the two operators reached, and the subtrees in
   * the two slots exchanged, after which every flag of both trees is reset. A level below a
   * height of 0, or a b that is a single operand, draws below 0; a slot that holds no child is
   * the NullPointerException of the first call on it.
   */
  function CrossOverSpec(a: Expr, b: Expr, tape: nat -> nat, pos: nat): (r: Result<Crossing>)
    ensures r.Err? ==> r.fault == IllegalArgument || r.fault == NullPointer
    ensures Height(a) == 0 ==> r == Err(IllegalArgument)
  {
    if Height(a) == 0 then Err(IllegalArgument)
    else
      var level := Draw(tape, pos, Height(a));
      match CrossWalk(a, [], tape, pos + 1, level)
      case Err(f) => Err(f)
      case Ok(wa) =>
        match CrossWalk(b, [], tape, wa.pos, level)
        case Err(f) => Err(f)
        case Ok(wb) => CrossAt(a, b, tape, wa.path, wb.path, wb.pos)
  }

  /**
   * The exchange of crossOver: the child in slot da of the node at pa in a and the child in slot
   * db of the node at pb in b trade places, and every flag is reset. A slot that holds no child
   * is the NullPointerException of the first call on it.
   */
  function SwapAt(a: Expr, b: Expr, pa: Path, da: Dir, pb: Path, db: Dir): (r: Result<(Expr, Expr)>)
    requires ValidPath(a, pa) && ValidPath(b, pb)
    ensures r.Err? <==> Child(SubtreeAt(a, pa), da).None? || Child(SubtreeAt(b, pb), db).None?
    ensures r.Err? ==> r.fault == NullPointer
  {
    if Child(SubtreeAt(b, pb), db).None? || Child(SubtreeAt(a, pa), da).None? then Err(NullPointer)
    else
      SubtreeAtExtend(a, pa, da);
      SubtreeAtExtend(b, pb, db);
      var qa := pa + [da];
      var qb := pb + [db];
      Ok((ResetFlags(ReplaceAt(a, qa, SubtreeAt(b, qb))), ResetFlags(ReplaceAt(b, qb, SubtreeAt(a, qa)))))
  }

  /**
   * crossOver once the walks have ended at pa in a and at pb in b, with the draw cursor at pos:
   * one child draw under each node, then the exchange.
   */
  function CrossAt(a: Expr, b: Expr, tape: nat -> nat, pa: Path, pb: Path, pos: nat): (r: Result<Crossing>)
    requires ValidPath(a, pa) && ValidPath(b, pb)
    ensures r.Err? ==> r.fault == IllegalArgument || r.fault == NullPointer
    ensures r.Ok? ==> r.value.pos == pos + 2
  {
    var na := SubtreeAt(a, pa);
    var nb := SubtreeAt(b, pb);
    if na.Operand? || nb.Operand? then Err(IllegalArgument)
    else
      var da := SlotFor(Draw(tape, pos, Arity(na.op)));
      var db := SlotFor(Draw(tape, pos + 1, Arity(nb.op)));
      match SwapAt(a, b, pa, da, pb, db)
      case Err(f) => Err(f)
      case Ok((mine, theirs)) => Ok(Crossing(mine, theirs, pos + 2))
  }

  /**
   * crossOver exchanges two subtrees below the roots: the two trees keep their combined node
   * count, every flag is set, the roots stay operators, and trees with their operands set, or
   * fully binary trees, stay so.
   */
  lemma CrossOverPreserves(a: Expr, b: Expr, tape: nat -> nat, pos: nat)
    requires CrossOverSpec(a, b, tape, pos).Ok?
    ensures var c := CrossOverSpec(a, b, tape, pos).value;
      Size(c.mine) + Size(c.theirs) == Size(a) + Size(b) && AllValid(c.mine) && AllValid(c.theirs) &&
      c.mine.Operator? && c.theirs.Operator?
    ensures var c := CrossOverSpec(a, b, tape, pos).value;
      OperandsSet(a) && OperandsSet(b) ==> OperandsSet(c.mine) && OperandsSet(c.theirs)
    ensures var c := CrossOverSpec(a, b, tape, pos).value;
      Binary(a) && Binary(b) ==> Binary(c.mine) && Binary(c.theirs)
  {
    var level := Draw(tape, pos, Height(a));
    var wa := CrossWalk(a, [], tape, pos + 1, level).value;
    var wb := CrossWalk(b, [], tape, wa.pos, level).value;
    assert CrossOverSpec(a, b, tape, pos) == CrossAt(a, b, tape, wa.path, wb.path, wb.pos);
    CrossAtPreserves(a, b, tape, wa.path, wb.path, wb.pos);
  }

  lemma CrossAtPreserves(a: Expr, b: Expr, tape: nat -> nat, pa: Path, pb: Path, pos: nat)
    requires ValidPath(a, pa) && ValidPath(b, pb) && CrossAt(a, b, tape, pa, pb, pos).Ok?
    ensures var c := CrossAt(a, b, tape, pa, pb, pos).value;
      Size(c.mine) + Size(c.theirs) == Size(a) + Size(b) && AllValid(c.mine) && AllValid(c.theirs) &&
      c.mine.Operator? && c.theirs.Operator?
    ensures var c := CrossAt(a, b, tape, pa, pb, pos).value;
      OperandsSet(a) && OperandsSet(b) ==> OperandsSet(c.mine) && OperandsSet(c.theirs)
    ensures var c := CrossAt(a, b, tape, pa, pb, pos).value;
      Binary(a) && Binary(b) ==> Binary(c.mine) && Binary(c.theirs)
  {
    var na := SubtreeAt(a, pa);
    var nb := SubtreeAt(b, pb);
    var da := SlotFor(Draw(tape, pos, Arity(na.op)));
    var db := SlotFor(Draw(tape, pos + 1, Arity(nb.op)));
    SwapAtPreserves(a, b, pa, da, pb, db);
  }

  /**
   * The exchange keeps the two trees' combined node count, sets every flag, keeps the roots
   * operators, and keeps operands set and trees fully binary.
   */
  lemma SwapAtPreserves(a: Expr, b: Expr, pa: Path, da: Dir, pb: Path, db: Dir)
    requires ValidPath(a, pa) && ValidPath(b, pb) && SwapAt(a, b, pa, da, pb, db).Ok?
    ensures var (mine, theirs) := SwapAt(a, b, pa, da, pb, db).value;
      Size(mine) + Size(theirs) == Size(a) + Size(b) && AllValid(mine) && AllValid(theirs) &&
      mine.Operator? && theirs.Operator?
    ensures var (mine, theirs) := SwapAt(a, b, pa, da, pb, db).value;
      OperandsSet(a) && OperandsSet(b) ==> OperandsSet(mine) && OperandsSet(theirs)
    ensures var (mine, theirs) := SwapAt(a, b, pa, da, pb, db).value;
      Binary(a) && Binary(b) ==> Binary(mine) && Binary(theirs)
  {
    SubtreeAtExtend(a, pa, da);
    SubtreeAtExtend(b, pb, db);
    var qa := pa + [da];
    var qb := pb + [db];
    assert SwapAt(a, b, pa, da, pb, db).value ==
      (ResetFlags(ReplaceAt(a, qa, SubtreeAt(b, qb))), ResetFlags(ReplaceAt(b, qb, SubtreeAt(a, qa))));
    ExchangePreserves(a, qa, b, qb);
  }

  /** Exchanging the subtrees at qa and qb, then resetting the flags, keeps the size sum and the shape facts. */
  lemma ExchangePreserves(a: Expr, qa: Path, b: Expr, qb: Path)
    requires ValidPath(a, qa) && ValidPath(b, qb) && |qa| > 0 && |qb| > 0
    ensures var mine, theirs := ResetFlags(ReplaceAt(a, qa, SubtreeAt(b, qb))), ResetFlags(ReplaceAt(b, qb, SubtreeAt(a, qa)));
      Size(mine) + Size(theirs) == Size(a) + Size(b) && AllValid(mine) && AllValid(theirs) &&
      mine.Operator? && theirs.Operator? &&
      (OperandsSet(a) && OperandsSet(b) ==> OperandsSet(mine) && OperandsSet(theirs)) &&
      (Binary(a) && Binary(b) ==> Binary(mine) && Binary(theirs))
  {
    var ta := SubtreeAt(a, qa);
    var tb := SubtreeAt(b, qb);
    ReplaceAtSize(a, qa, tb);
    ReplaceAtSize(b, qb, ta);
    ResetFlagsProperties(ReplaceAt(a, qa, tb));
    ResetFlagsProperties(ReplaceAt(b, qb, ta));
    if OperandsSet(a) && OperandsSet(b) {
      SubtreeAtOperandsSet(a, qa);
      SubtreeAtOperandsSet(b, qb);
      ReplaceAtOperandsSet(a, qa, tb);
      ReplaceAtOperandsSet(b, qb, ta);
    }
    if Binary(a) && Binary(b) {
      SubtreeAtBinary(a, qa);
      SubtreeAtBinary(b, qb);
      ReplaceAtBinary(a, qa, tb);
      ReplaceAtBinary(b, qb, ta);
    }
  }

  /**
   * Between two fully binary trees crossOver never meets an empty slot: the only failure left
   * is the draw below 0 of a tree of height 0 (or a b that is a single operand).
   */
  lemma CrossOverBinaryNoNull(a: Expr, b: Expr, tape: nat -> nat, pos: nat)
    requires Binary(a) && Binary(b)
    ensures CrossOverSpec(a, b, tape, pos).Err? ==> CrossOverSpec(a, b, tape, pos).fault == IllegalArgument
  {
    if Height(a) > 0 {
      var level := Draw(tape, pos, Height(a));
      var wa := CrossWalk(a, [], tape, pos + 1, level);
      if wa.Ok? {
        var wb := CrossWalk(b, [], tape, wa.value.pos, level);
        if wb.Ok? {
          SubtreeAtBinary(a, wa.value.path);
          SubtreeAtBinary(b, wb.value.path);
        }
      }
    }
  }

  /** The nodes of a shape in post-order: left subtree, right subtree, then the node. */
  ghost function PostIds(s: Shape): seq<nat>
  {
    match s
    case Leaf(id) => [id]
    case Fork(id, l, r) => PostIds(l) + (if r.Some? then PostIds(r.value) else []) + [id]
  }

  /** The nodes of a shape in in-order: left subtree, the node, then the right subtree. */
  ghost function InIds(s: Shape): seq<nat>
  {
    match s
    case Leaf(id) => [id]
    case Fork(id, l, r) => InIds(l) + [id] + (if r.Some? then InIds(r.value) else [])
  }

  lemma {:induction false} PostIdsFacts(h: seq<Node>, s: Shape)
    requires Realizes(h, s)
    ensures |PostIds(s)| == Size(Abs(h, s)) && PostIds(s)[|PostIds(s)| - 1] == s.id
    ensures forall i :: i in PostIds(s) <==> i in Ids(s)
  {
    match s
    case Leaf(_) =>
    case Fork(_, l, r) =>
      PostIdsFacts(h, l);
      if r.Some? { PostIdsFacts(h, r.value); }
  }

  lemma {:induction false} PostIdsSize(h: seq<Node>, s: Shape)
    requires Realizes(h, s)
    ensures |PostIds(s)| == Size(Abs(h, s))
  {
    match s
    case Leaf(_) =>
    case Fork(_, l, r) =>
      PostIdsSize(h, l);
      if r.Some? { PostIdsSize(h, r.value); }
  }

  lemma {:induction false} InIdsSize(h: seq<Node>, s: Shape)
    requires Realizes(h, s)
    ensures |InIds(s)| == Size(Abs(h, s))
  {
    match s
    case Leaf(_) =>
    case Fork(_, l, r) =>
      InIdsSize(h, l);
      if r.Some? { InIdsSize(h, r.value); }
  }

  lemma {:induction false} InIdsFacts(h: seq<Node>, s: Shape)
    requires Realizes(h, s)
    ensures |InIds(s)| == Size(Abs(h, s))
    ensures forall i :: i in InIds(s) <==> i in Ids(s)
  {
    match s
    case Leaf(_) =>
    case Fork(_, l, r) =>
      InIdsFacts(h, l);
      if r.Some? { InIdsFacts(h, r.value); }
  }

  /**
   * The k-th node of the post-order list is the node at the k-th position of ExprTree's
   * post-order, so the list and the positions visit the tree node for node.
   */
  lemma PostIdsPositions(h: seq<Node>, s: Shape)
    requires Realizes(h, s)
    ensures |PostIds(s)| == |PostOrder(Abs(h, s))|
    ensures forall k :: 0 <= k < |PostIds(s)| ==>
      OnShape(s, PostOrder(Abs(h, s))[k]) && PostIds(s)[k] == ShapeAt(s, PostOrder(Abs(h, s))[k]).id
  {
    PostIdsFacts(h, s);
    PostOrderShape(Abs(h, s));
    forall k | 0 <= k < |PostIds(s)|
      ensures OnShape(s, PostOrder(Abs(h, s))[k]) && PostIds(s)[k] == ShapeAt(s, PostOrder(Abs(h, s))[k]).id
    {
      PostIdsAt(h, s, k);
    }
  }

  lemma PostIdsAt(h: seq<Node>, s: Shape, k: nat)
    requires Realizes(h, s) && k < Size(Abs(h, s))
    ensures k < |PostOrder(Abs(h, s))| && k < |PostIds(s)|
    ensures OnShape(s, PostOrder(Abs(h, s))[k]) && PostIds(s)[k] == ShapeAt(s, PostOrder(Abs(h, s))[k]).id
  {
    PostOrderAbs(h, s);
    PostIdsSize(h, s);
    ShapePostIdsAt(s, k);
  }

  /** The positions of a shape in post-order, as ExprTree lists them for an expression. */
  ghost function ShapePostOrder(s: Shape): seq<Path>
  {
    match s
    case Leaf(_) => [[]]
    case Fork(_, l, r) =>
      Prefixed(L, ShapePostOrder(l)) + (if r.Some? then Prefixed(R, ShapePostOrder(r.value)) else []) + [[]]
  }

  /** The positions of a shape in in-order. */
  ghost function ShapeInOrder(s: Shape): seq<Path>
  {
    match s
    case Leaf(_) => [[]]
    case Fork(_, l, r) =>
      Prefixed(L, ShapeInOrder(l)) + [[]] + (if r.Some? then Prefixed(R, ShapeInOrder(r.value)) else [])
  }

  lemma {:induction false} PostOrderAbs(h: seq<Node>, s: Shape)
    requires Realizes(h, s)
    ensures PostOrder(Abs(h, s)) == ShapePostOrder(s)
  {
    match s
    case Leaf(_) =>
    case Fork(_, l, r) =>
      PostOrderAbs(h, l);
      if r.Some? { PostOrderAbs(h, r.value); }
  }

  lemma {:induction false} InOrderAbs(h: seq<Node>, s: Shape)
    requires Realizes(h, s)
    ensures InOrder(Abs(h, s)) == ShapeInOrder(s)
  {
    match s
    case Leaf(_) =>
    case Fork(_, l, r) =>
      InOrderAbs(h, l);
      if r.Some? { InOrderAbs(h, r.value); }
  }

  /** The k-th post-order id is the id at the k-th post-order position. */
  lemma {:induction false} ShapePostIdsAt(s: Shape, k: nat)
    requires k < |PostIds(s)|
    ensures |ShapePostOrder(s)| == |PostIds(s)|
    ensures OnShape(s, ShapePostOrder(s)[k]) && PostIds(s)[k] == ShapeAt(s, ShapePostOrder(s)[k]).id
    decreases s, 1
  {
    ShapePostSize(s);
    match s
    case Leaf(_) =>
    case Fork(id, l, r) =>
      if k < |PostIds(l)| {
        ShapePostIdsLeft(s, k);
      } else if r.Some? && k < |PostIds(l)| + |PostIds(r.value)| {
        ShapePostIdsRight(s, k);
      } else {
        ShapePostSize(l);
        if r.Some? { ShapePostSize(r.value); }
        assert ShapePostOrder(s)[k] == [];
      }
  }

  lemma {:induction false} ShapePostIdsLeft(s: Shape, k: nat)
    requires s.Fork? && k < |PostIds(s.left)|
    ensures |ShapePostOrder(s)| == |PostIds(s)|
    ensures OnShape(s, ShapePostOrder(s)[k]) && PostIds(s)[k] == ShapeAt(s, ShapePostOrder(s)[k]).id
    decreases s, 0
  {
    var pl := ShapePostOrder(s.left);
    var mid := if s.right.Some? then Prefixed(R, ShapePostOrder(s.right.value)) else [];
    ShapePostSize(s);
    ShapePostSize(s.left);
    ShapePostIdsAt(s.left, k);
    FirstIndex(Prefixed(L, pl), mid, [[]], k);
    FirstIndex(PostIds(s.left), if s.right.Some? then PostIds(s.right.value) else [], [s.id], k);
    ShapeAtChild(s, L, pl[k]);
  }

  lemma {:induction false} ShapePostIdsRight(s: Shape, k: nat)
    requires s.Fork? && s.right.Some?
    requires |PostIds(s.left)| <= k < |PostIds(s.left)| + |PostIds(s.right.value)|
    ensures |ShapePostOrder(s)| == |PostIds(s)|
    ensures OnShape(s, ShapePostOrder(s)[k]) && PostIds(s)[k] == ShapeAt(s, ShapePostOrder(s)[k]).id
    decreases s, 0
  {
    var r := s.right.value;
    var j: nat := k - |PostIds(s.left)|;
    var pr := ShapePostOrder(r);
    ShapePostSize(s);
    ShapePostSize(s.left);
    ShapePostSize(r);
    ShapePostIdsAt(r, j);
    SecondIndex(Prefixed(L, ShapePostOrder(s.left)), Prefixed(R, pr), [[]], k);
    SecondIndex(PostIds(s.left), PostIds(r), [s.id], k);
    ShapeAtChild(s, R, pr[j]);
  }

  /** The k-th in-order id is the id at the k-th in-order position. */
  lemma {:induction false} ShapeInIdsAt(s: Shape, k: nat)
    requires k < |InIds(s)|
    ensures |ShapeInOrder(s)| == |InIds(s)|
    ensures OnShape(s, ShapeInOrder(s)[k]) && InIds(s)[k] == ShapeAt(s, ShapeInOrder(s)[k]).id
    decreases s, 1
  {
    ShapeInSize(s);
    match s
    case Leaf(_) =>
    case Fork(id, l, r) =>
      if k < |InIds(l)| {
        ShapeInIdsLeft(s, k);
      } else if k == |InIds(l)| {
        ShapeInSize(l);
        assert ShapeInOrder(s)[k] == [];
      } else {
        ShapeInIdsRight(s, k);
      }
  }

  lemma {:induction false} ShapeInIdsLeft(s: Shape, k: nat)
    requires s.Fork? && k < |InIds(s.left)|
    ensures |ShapeInOrder(s)| == |InIds(s)|
    ensures OnShape(s, ShapeInOrder(s)[k]) && InIds(s)[k] == ShapeAt(s, ShapeInOrder(s)[k]).id
    decreases s, 0
  {
    var pl := ShapeInOrder(s.left);
    var rest := if s.right.Some? then Prefixed(R, ShapeInOrder(s.right.value)) else [];
    ShapeInSize(s);
    ShapeInSize(s.left);
    ShapeInIdsAt(s.left, k);
    FirstIndex(Prefixed(L, pl), [[]], rest, k);
    FirstIndex(InIds(s.left), [s.id], if s.right.Some? then InIds(s.right.value) else [], k);
    ShapeAtChild(s, L, pl[k]);
  }

  lemma {:induction false} ShapeInIdsRight(s: Shape, k: nat)
    requires s.Fork? && |InIds(s.left)| < k < |InIds(s)|
    ensures |ShapeInOrder(s)| == |InIds(s)|
    ensures OnShape(s, ShapeInOrder(s)[k]) && InIds(s)[k] == ShapeAt(s, ShapeInOrder(s)[k]).id
    decreases s, 0
  {
    assert s.right.Some?;
    var r := s.right.value;
    var j: nat := k - |InIds(s.left)| - 1;
    var pr := ShapeInOrder(r);
    ShapeInSize(s.left);
    ShapeInSize(r);
    ShapeInIdsAt(r, j);
    ThirdIndex(Prefixed(L, ShapeInOrder(s.left)), [[]], Prefixed(R, pr), k);
    ThirdIndex(InIds(s.left), [s.id], InIds(r), k);
    ShapeAtChild(s, R, pr[j]);
  }

  /** Indexing into the first, second or third part of a concatenation. */
  lemma FirstIndex<T>(a: seq<T>, b: seq<T>, c: seq<T>, k: nat)
    requires k < |a|
    ensures (a + b + c)[k] == a[k]
  {
  }

  lemma SecondIndex<T>(a: seq<T>, b: seq<T>, c: seq<T>, k: nat)
    requires |a| <= k < |a| + |b|
    ensures (a + b + c)[k] == b[k - |a|]
  {
  }

  lemma ThirdIndex<T>(a: seq<T>, b: seq<T>, c: seq<T>, k: nat)
    requires |a| + |b| <= k < |a| + |b| + |c|
    ensures (a + b + c)[k] == c[k - |a| - |b|]
  {
  }

  lemma {:induction false} ShapePostSize(s: Shape)
    ensures |ShapePostOrder(s)| == |PostIds(s)|
  {
    match s
    case Leaf(_) =>
    case Fork(_, l, r) =>
      ShapePostSize(l);
      if r.Some? { ShapePostSize(r.value); }
  }

  lemma {:induction false} ShapeInSize(s: Shape)
    ensures |ShapeInOrder(s)| == |InIds(s)|
  {
    match s
    case Leaf(_) =>
    case Fork(_, l, r) =>
      ShapeInSize(l);
      if r.Some? { ShapeInSize(r.value); }
  }

  /** A position below a child of a shape is that position in the child, behind the child's direction. */
  lemma ShapeAtChild(s: Shape, d: Dir, p: Path)
    requires ShapeChild(s, d).Some? && OnShape(ShapeChild(s, d).value, p)
    ensures OnShape(s, [d] + p) && ShapeAt(s, [d] + p) == ShapeAt(ShapeChild(s, d).value, p)
  {
    assert ([d] + p)[0] == d && ([d] + p)[1..] == p;
  }


  /** The same for the in-order list and ExprTree's in-order. */
  lemma InIdsPositions(h: seq<Node>, s: Shape)
    requires Realizes(h, s)
    ensures |InIds(s)| == |InOrder(Abs(h, s))|
    ensures forall k :: 0 <= k < |InIds(s)| ==>
      OnShape(s, InOrder(Abs(h, s))[k]) && InIds(s)[k] == ShapeAt(s, InOrder(Abs(h, s))[k]).id
  {
    InIdsFacts(h, s);
    InOrderShape(Abs(h, s));
    forall k | 0 <= k < |InIds(s)|
      ensures OnShape(s, InOrder(Abs(h, s))[k]) && InIds(s)[k] == ShapeAt(s, InOrder(Abs(h, s))[k]).id
    {
      InIdsAt(h, s, k);
    }
  }

  lemma InIdsAt(h: seq<Node>, s: Shape, k: nat)
    requires Realizes(h, s) && k < Size(Abs(h, s))
    ensures k < |InOrder(Abs(h, s))| && k < |InIds(s)|
    ensures OnShape(s, InOrder(Abs(h, s))[k]) && InIds(s)[k] == ShapeAt(s, InOrder(Abs(h, s))[k]).id
  {
    InOrderAbs(h, s);
    InIdsSize(h, s);
    ShapeInIdsAt(s, k);
  }




}
