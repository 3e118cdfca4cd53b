/**
 * The older GeneticProgrammingTree of the trunk generation: a tree of nodes that hold the
 * operator or operand string they were given with setData, without parent tags or validity
 * flags. The height constructor builds a perfect binary tree; mutate walks down from the root
 * and replaces one node's data; crossOver walks down both trees and swaps one child slot of
 * each.
 *
 * The class keeps the tree a value: a node reference is the node value together with the path
 * that leads to it, and an update in place is a function of the old tree and that path.
 */
module TrunkTrees {
  import opened Wrappers
  import opened Randomness

  /** A trunk BinaryTreeNode: its data object (a string) and its two optional children. */
  datatype TNode = TNode(data: string, left: Option<TNode>, right: Option<TNode>)

  datatype Dir = L | R

  type Path = seq<Dir>

  function Kid(n: TNode, d: Dir): Option<TNode>
  {
    if d == L then n.left else n.right
  }

  /** isLeaf: a node without children. */
  predicate IsLeaf(n: TNode) { n.left.None? && n.right.None? }

  function Max(a: nat, b: nat): nat { if a >= b then a else b }

  /** getHeight: 0 for a leaf, otherwise 1 + the larger height of the children present. */
  function Height(n: TNode): nat
  {
    if IsLeaf(n) then 0
    else 1 + Max(if n.left.Some? then Height(n.left.value) else 0,
                 if n.right.Some? then Height(n.right.value) else 0)
  }

  function Size(n: TNode): (r: nat)
    ensures r >= 1
  {
    1 + (if n.left.Some? then Size(n.left.value) else 0) + (if n.right.Some? then Size(n.right.value) else 0)
  }

  function SizeOf(c: Option<TNode>): nat { if c.Some? then Size(c.value) else 0 }

  /** p follows existing children from n. */
  predicate OnPath(n: TNode, p: Path)
    decreases |p|
  {
    |p| == 0 || (Kid(n, p[0]).Some? && OnPath(Kid(n, p[0]).value, p[1..]))
  }

  function NodeAt(n: TNode, p: Path): TNode
    requires OnPath(n, p)
    decreases |p|
  {
    if |p| == 0 then n else NodeAt(Kid(n, p[0]).value, p[1..])
  }

  function WithKid0(n: TNode, d: Dir, c: Option<TNode>): TNode
  {
    if d == L then n.(left := c) else n.(right := c)
  }

  /** setData on the node at p. */
  function WithData(n: TNode, p: Path, s: string): TNode
    requires OnPath(n, p)
    decreases |p|
  {
    if |p| == 0 then n.(data := s)
    else WithKid0(n, p[0], Some(WithData(Kid(n, p[0]).value, p[1..], s)))
  }

  /** setLeftChild / setRightChild on the node at p. */
  function WithKid(n: TNode, p: Path, d: Dir, c: Option<TNode>): TNode
    requires OnPath(n, p)
    decreases |p|
  {
    if |p| == 0 then WithKid0(n, d, c)
    else WithKid0(n, p[0], Some(WithKid(Kid(n, p[0]).value, p[1..], d, c)))
  }

  /** Two trees with the same children everywhere; only data may differ. */
  predicate SameShape(a: TNode, b: TNode)
  {
    a.left.Some? == b.left.Some? && a.right.Some? == b.right.Some? &&
    (a.left.Some? ==> SameShape(a.left.value, b.left.value)) &&
    (a.right.Some? ==> SameShape(a.right.value, b.right.value))
  }

  // ---------------------------------------------------------------------------------------
  // Facts about paths and updates

  lemma {:induction false} OnPathExtend(n: TNode, p: Path, d: Dir)
    requires OnPath(n, p) && Kid(NodeAt(n, p), d).Some?
    ensures OnPath(n, p + [d]) && NodeAt(n, p + [d]) == Kid(NodeAt(n, p), d).value
    decreases |p|
  {
    if |p| > 0 {
      assert (p + [d])[1..] == p[1..] + [d];
      OnPathExtend(Kid(n, p[0]).value, p[1..], d);
    }
  }

  /** setData changes the data of the node at p and nothing else: the shape stays. */
  lemma {:induction false} WithDataShape(n: TNode, p: Path, s: string)
    requires OnPath(n, p)
    ensures SameShape(n, WithData(n, p, s)) && Size(WithData(n, p, s)) == Size(n)
    ensures Height(WithData(n, p, s)) == Height(n)
    ensures OnPath(WithData(n, p, s), p) && NodeAt(WithData(n, p, s), p) == NodeAt(n, p).(data := s)
    decreases |p|
  {
    if |p| == 0 {
      SameShapeRefl(n.left);
      SameShapeRefl(n.right);
    } else {
      var c := Kid(n, p[0]).value;
      WithDataShape(c, p[1..], s);
      SameShapeRefl(Kid(n, if p[0] == L then R else L));
    }
  }

  lemma {:induction false} SameShapeRefl(c: Option<TNode>)
    ensures c.Some? ==> SameShape(c.value, c.value)
    decreases if c.Some? then Size(c.value) else 0
  {
    if c.Some? {
      SameShapeRefl(c.value.left);
      SameShapeRefl(c.value.right);
    }
  }

  /** Putting the old data back undoes setData. */
  lemma {:induction false} WithDataRestore(n: TNode, p: Path, s: string)
    requires OnPath(n, p)
    ensures OnPath(WithData(n, p, s), p)
    ensures WithData(WithData(n, p, s), p, NodeAt(n, p).data) == n
    decreases |p|
  {
    WithDataShape(n, p, s);
    if |p| > 0 {
      WithDataRestore(Kid(n, p[0]).value, p[1..], s);
    }
  }

  /** Replacing one child slot changes the node count by the sizes of the old and new child. */
  lemma {:induction false} WithKidSize(n: TNode, p: Path, d: Dir, c: Option<TNode>)
    requires OnPath(n, p)
    ensures Size(WithKid(n, p, d, c)) + SizeOf(Kid(NodeAt(n, p), d)) == Size(n) + SizeOf(c)
    ensures OnPath(WithKid(n, p, d, c), p) && Kid(NodeAt(WithKid(n, p, d, c), p), d) == c
    decreases |p|
  {
    if |p| > 0 {
      WithKidSize(Kid(n, p[0]).value, p[1..], d, c);
    }
  }

  // ---------------------------------------------------------------------------------------
  // The height constructor

  datatype Built = Built(tree: TNode, pos: nat)

  /** A perfect binary tree of height h: leaves exactly h levels down, no missing child. */
  predicate Perfect(n: TNode, h: nat)
  {
    if h == 0 then IsLeaf(n)
    else n.left.Some? && n.right.Some? && Perfect(n.left.value, h - 1) && Perfect(n.right.value, h - 1)
  }

  function Pow2(k: nat): (r: nat)
    ensures r >= 1
  {
    if k == 0 then 1 else 2 * Pow2(k - 1)
  }

  /**
   * GeneticProgrammingTree(h): for h == 0 an operand drawn from the operand list; otherwise an
   * operator drawn from the operator list, then the left and the right tree of height h - 1.
   * nextInt of an empty list's size is an IllegalArgumentException. A negative height never
   * reaches 0: after its operator draw the constructor calls itself without end.
   */
  function OfHeightSpec(h: int, tape: nat -> nat, pos: nat, operators: seq<string>, operands: seq<string>): Result<Built>
    decreases if h < 0 then 0 else h
  {
    if h < 0 then
      if |operators| == 0 then Err(IllegalArgument) else Err(StackOverflow)
    else if h == 0 then
      if |operands| == 0 then Err(IllegalArgument)
      else Ok(Built(TNode(operands[Draw(tape, pos, |operands|)], None, None), pos + 1))
    else if |operators| == 0 then Err(IllegalArgument)
    else
      var data := operators[Draw(tape, pos, |operators|)];
      match OfHeightSpec(h - 1, tape, pos + 1, operators, operands)
      case Err(f) => Err(f)
      case Ok(l) =>
        match OfHeightSpec(h - 1, tape, l.pos, operators, operands)
        case Err(f) => Err(f)
        case Ok(r) => Ok(Built(TNode(data, Some(l.tree), Some(r.tree)), r.pos))
  }

  /**
   * Every node's data comes from the operator list for inner nodes and from the operand
   * list for leaves.
   */
  predicate DrawnFrom(n: TNode, operators: seq<string>, operands: seq<string>)
  {
    (if IsLeaf(n) then n.data in operands else n.data in operators) &&
    (n.left.Some? ==> DrawnFrom(n.left.value, operators, operands)) &&
    (n.right.Some? ==> DrawnFrom(n.right.value, operators, operands))
  }

  /**
   * The height constructor builds a perfect tree of height h with 2^(h+1) - 1 nodes, one draw
   * per node, its data drawn from the lists; it fails exactly when a list it needs is empty.
   */
  lemma OfHeightShape(h: int, tape: nat -> nat, pos: nat, operators: seq<string>, operands: seq<string>)
    ensures var r := OfHeightSpec(h, tape, pos, operators, operands);
      (r.Err? <==> h < 0 || |operands| == 0 || (h > 0 && |operators| == 0)) &&
      (r.Err? ==> r.fault == (if h < 0 && |operators| > 0 then StackOverflow else IllegalArgument)) &&
      (r.Ok? ==> h >= 0 && Perfect(r.value.tree, h) && Height(r.value.tree) == h) &&
      (r.Ok? ==> Size(r.value.tree) == Pow2(h + 1) - 1 && r.value.pos == pos + Size(r.value.tree)) &&
      (r.Ok? ==> DrawnFrom(r.value.tree, operators, operands))
  {
    if h >= 0 {
      PerfectOfHeight(h, tape, pos, operators, operands);
    }
  }

  /** OfHeightShape for the heights that reach the base case. */
  lemma {:induction false} PerfectOfHeight(h: nat, tape: nat -> nat, pos: nat, operators: seq<string>, operands: seq<string>)
    ensures var r := OfHeightSpec(h, tape, pos, operators, operands);
      (r.Err? <==> |operands| == 0 || (h > 0 && |operators| == 0)) &&
      (r.Err? ==> r.fault == IllegalArgument) &&
      (r.Ok? ==>
        Perfect(r.value.tree, h) && Height(r.value.tree) == h && Size(r.value.tree) == Pow2(h + 1) - 1 &&
        r.value.pos == pos + Size(r.value.tree) && DrawnFrom(r.value.tree, operators, operands))
  {
    if h > 0 && |operators| > 0 {
      PerfectOfHeight(h - 1, tape, pos + 1, operators, operands);
      var l := OfHeightSpec(h - 1, tape, pos + 1, operators, operands);
      if l.Ok? {
        PerfectOfHeight(h - 1, tape, l.value.pos, operators, operands);
      }
    }
  }

  // ---------------------------------------------------------------------------------------
  // The walks

  /**
   * mutate's walk from the node at p: each step draws a child index in [0, 2) and moves to
   * that child when it exists, staying put otherwise.
   */
  function MutateWalk(n: TNode, p: Path, tape: nat -> nat, pos: nat, steps: nat): (r: (Path, nat))
    requires OnPath(n, p)
    ensures OnPath(n, r.0) && r.1 == pos + steps && |r.0| <= |p| + steps
    decreases steps
  {
    if steps == 0 then (p, pos)
    else
      var c := Draw(tape, pos, 2);
      var here := NodeAt(n, p);
      var d := if c == 0 then L else R;
      if Kid(here, d).Some? then
        OnPathExtend(n, p, d);
        MutateWalk(n, p + [d], tape, pos + 1, steps - 1)
      else MutateWalk(n, p, tape, pos + 1, steps - 1)
  }

  /** One step of mutate's walk: the child the draw names when the node has it, else the same node. */
  lemma MutateWalkStep(n: TNode, p: Path, tape: nat -> nat, pos: nat, k: nat, q: Path)
    requires OnPath(n, p) && k > 0
    requires var c, here := Draw(tape, pos, 2), NodeAt(n, p);
      q == (if c == 0 && here.left.Some? then p + [L] else if c == 1 && here.right.Some? then p + [R] else p)
    ensures OnPath(n, q) && MutateWalk(n, p, tape, pos, k) == MutateWalk(n, q, tape, pos + 1, k - 1)
  {
    var c, here := Draw(tape, pos, 2), NodeAt(n, p);
    if c == 0 && here.left.Some? {
      OnPathExtend(n, p, L);
    } else if c == 1 && here.right.Some? {
      OnPathExtend(n, p, R);
    }
  }

  /**
   * crossOver's walk from the node at p: like mutate's, but it moves only into a child that
   * is not a leaf, so from an inner node it always ends on an inner node.
   */
  function CrossWalk(n: TNode, p: Path, tape: nat -> nat, pos: nat, steps: nat): (r: (Path, nat))
    requires OnPath(n, p)
    ensures OnPath(n, r.0) && r.1 == pos + steps && |r.0| <= |p| + steps
    ensures !IsLeaf(NodeAt(n, p)) ==> !IsLeaf(NodeAt(n, r.0))
    decreases steps
  {
    if steps == 0 then (p, pos)
    else
      var c := Draw(tape, pos, 2);
      var here := NodeAt(n, p);
      var d := if c == 0 then L else R;
      if Kid(here, d).Some? && !IsLeaf(Kid(here, d).value) then
        OnPathExtend(n, p, d);
        CrossWalk(n, p + [d], tape, pos + 1, steps - 1)
      else CrossWalk(n, p, tape, pos + 1, steps - 1)
  }

  /** One step of crossOver's walk: the child the draw names when it is an inner node, else the same node. */
  lemma CrossWalkStep(n: TNode, p: Path, tape: nat -> nat, pos: nat, k: nat, q: Path)
    requires OnPath(n, p) && k > 0
    requires var c, here := Draw(tape, pos, 2), NodeAt(n, p);
      q == (if c == 0 && here.left.Some? && !IsLeaf(here.left.value) then p + [L]
            else if c == 1 && here.right.Some? && !IsLeaf(here.right.value) then p + [R] else p)
    ensures OnPath(n, q) && CrossWalk(n, p, tape, pos, k) == CrossWalk(n, q, tape, pos + 1, k - 1)
  {
    var c, here := Draw(tape, pos, 2), NodeAt(n, p);
    if c == 0 && here.left.Some? && !IsLeaf(here.left.value) {
      OnPathExtend(n, p, L);
    } else if c == 1 && here.right.Some? && !IsLeaf(here.right.value) {
      OnPathExtend(n, p, R);
    }
  }

  // ---------------------------------------------------------------------------------------
  // mutate and crossOver on values

  /**
   * mutate: a level in [0, height], the walk, then new data for the node reached: an operand
   * for a leaf, an operator for an inner node.
   */
  function MutateSpec(t: TNode, tape: nat -> nat, pos: nat, operators: seq<string>, operands: seq<string>): Result<Built>
  {
    var level := Draw(tape, pos, Height(t) + 1);
    var (p, q) := MutateWalk(t, [], tape, pos + 1, level);
    var list := if IsLeaf(NodeAt(t, p)) then operands else operators;
    if |list| == 0 then Err(IllegalArgument)
    else Ok(Built(WithData(t, p, list[Draw(tape, q, |list|)]), q + 1))
  }

  /** The two trees after crossOver and the position of the next draw. */
  datatype Crossing = Crossing(mine: TNode, theirs: TNode, pos: nat)

  /**
   * crossOver: a level in [0, height of this tree) (nextInt(0) for a single leaf), the two
   * walks of that many steps, a slot of each node, and the two slots exchanged.
   */
  function CrossOverSpec(a: TNode, b: TNode, tape: nat -> nat, pos: nat): Result<Crossing>
  {
    if Height(a) == 0 then Err(IllegalArgument)
    else
      var level := Draw(tape, pos, Height(a));
      var wa := CrossWalk(a, [], tape, pos + 1, level);
      var wb := CrossWalk(b, [], tape, wa.1, level);
      Ok(SwapSlots(a, wa.0, b, wb.0, tape, wb.1))
  }

  /** CrossOverSpec once the level, both walks, both slots and both end nodes are taken. */
  lemma CrossOverSpecAt(a: TNode, b: TNode, tape: nat -> nat, pos: nat, level: nat, pa: Path, q1: nat, pb: Path, q2: nat,
                        da: Dir, db: Dir, an: TNode, bn: TNode)
    requires Height(a) > 0 && level == Draw(tape, pos, Height(a))
    requires (pa, q1) == CrossWalk(a, [], tape, pos + 1, level) && (pb, q2) == CrossWalk(b, [], tape, q1, level)
    requires OnPath(a, pa) && OnPath(b, pb) && an == NodeAt(a, pa) && bn == NodeAt(b, pb)
    requires da == SlotFor(Draw(tape, q2, 2)) && db == SlotFor(Draw(tape, q2 + 1, 2))
    ensures CrossOverSpec(a, b, tape, pos) == Ok(Crossing(WithKid(a, pa, da, Kid(bn, db)), WithKid(b, pb, db, Kid(an, da)), q2 + 2))
  {
    SwapSlotsAt(a, pa, b, pb, tape, q2, da, db, an, bn);
  }

  /** SwapSlots with its two slot draws and end nodes already taken. */
  lemma SwapSlotsAt(a: TNode, pa: Path, b: TNode, pb: Path, tape: nat -> nat, q: nat, da: Dir, db: Dir, an: TNode, bn: TNode)
    requires OnPath(a, pa) && OnPath(b, pb) && an == NodeAt(a, pa) && bn == NodeAt(b, pb)
    requires da == SlotFor(Draw(tape, q, 2)) && db == SlotFor(Draw(tape, q + 1, 2))
    ensures SwapSlots(a, pa, b, pb, tape, q) == Crossing(WithKid(a, pa, da, Kid(bn, db)), WithKid(b, pb, db, Kid(an, da)), q + 2)
  {
  }

  /** The slot choice: 0 the left child, 1 the right one. */
  function SlotFor(randomChild: nat): Dir { if randomChild == 0 then L else R }

  /** The end of crossOver: a slot of each end node, drawn at q and q + 1, exchanged. */
  function SwapSlots(a: TNode, pa: Path, b: TNode, pb: Path, tape: nat -> nat, q: nat): Crossing
    requires OnPath(a, pa) && OnPath(b, pb)
  {
    var da := SlotFor(Draw(tape, q, 2));
    var db := SlotFor(Draw(tape, q + 1, 2));
    Crossing(WithKid(a, pa, da, Kid(NodeAt(b, pb), db)), WithKid(b, pb, db, Kid(NodeAt(a, pa), da)), q + 2)
  }

  /**
   * mutate keeps the shape, size and height of the tree and changes the data of one node,
   * which it takes from the operand list for a leaf and from the operator list otherwise;
   * it fails only when that list is empty.
   */
  lemma MutatePreserves(t: TNode, tape: nat -> nat, pos: nat, operators: seq<string>, operands: seq<string>)
    ensures var r := MutateSpec(t, tape, pos, operators, operands);
      (r.Err? ==> r.fault == IllegalArgument) &&
      (|operators| > 0 && |operands| > 0 ==> r.Ok?) &&
      (r.Ok? ==>
        SameShape(t, r.value.tree) && Size(r.value.tree) == Size(t) && Height(r.value.tree) == Height(t) &&
        r.value.pos == pos + 2 + Draw(tape, pos, Height(t) + 1) &&
        exists p :: OnPath(t, p) && |p| <= Height(t) && OnPath(r.value.tree, p) &&
          NodeAt(r.value.tree, p) == NodeAt(t, p).(data := NodeAt(r.value.tree, p).data) &&
          (if IsLeaf(NodeAt(t, p)) then NodeAt(r.value.tree, p).data in operands
           else NodeAt(r.value.tree, p).data in operators) &&
          WithData(r.value.tree, p, NodeAt(t, p).data) == t)
  {
    var level := Draw(tape, pos, Height(t) + 1);
    var (p, q) := MutateWalk(t, [], tape, pos + 1, level);
    var list := if IsLeaf(NodeAt(t, p)) then operands else operators;
    if |list| > 0 {
      var s := list[Draw(tape, q, |list|)];
      MutatedAt(t, p, s);
      var u := WithData(t, p, s);
      assert MutateSpec(t, tape, pos, operators, operands) == Ok(Built(u, q + 1));
      assert OnPath(t, p) && |p| <= Height(t) && OnPath(u, p) && NodeAt(u, p) == NodeAt(t, p).(data := NodeAt(u, p).data);
    }
  }

  /** setData at p changes the data at p and nothing else, and setting the old data back restores the tree. */
  lemma MutatedAt(t: TNode, p: Path, s: string)
    requires OnPath(t, p)
    ensures var u := WithData(t, p, s);
      SameShape(t, u) && Size(u) == Size(t) && Height(u) == Height(t) && OnPath(u, p) &&
      NodeAt(u, p) == NodeAt(t, p).(data := s) && NodeAt(u, p).data == s && WithData(u, p, NodeAt(t, p).data) == t
  {
    WithDataShape(t, p, s);
    WithDataRestore(t, p, s);
  }

  /**
   * crossOver fails exactly on a tree of height 0; otherwise both walks end on inner nodes
   * (the second unless the other tree is a single leaf), and the two trees together keep
   * their number of nodes.
   */
  lemma CrossOverPreserves(a: TNode, b: TNode, tape: nat -> nat, pos: nat)
    ensures var r := CrossOverSpec(a, b, tape, pos);
      (r.Err? <==> Height(a) == 0) && (r.Err? ==> r.fault == IllegalArgument) &&
      (r.Ok? ==> Size(r.value.mine) + Size(r.value.theirs) == Size(a) + Size(b) &&
                 r.value.pos == pos + 3 + 2 * Draw(tape, pos, Height(a)))
  {
    if Height(a) > 0 {
      var level := Draw(tape, pos, Height(a));
      var wa := CrossWalk(a, [], tape, pos + 1, level);
      var wb := CrossWalk(b, [], tape, wa.1, level);
      var da := SlotFor(Draw(tape, wb.1, 2));
      var db := SlotFor(Draw(tape, wb.1 + 1, 2));
      WithKidSize(a, wa.0, da, Kid(NodeAt(b, wb.0), db));
      WithKidSize(b, wb.0, db, Kid(NodeAt(a, wa.0), da));
    }
  }

  // ---------------------------------------------------------------------------------------
  // The class

  class GeneticProgrammingTree {
    var root: TNode

    /** GeneticProgrammingTree(aNode): the tree rooted at an existing node. */
    constructor (aNode: TNode)
      ensures root == aNode
    {
      root := aNode;
    }

    /** The loop of mutate: aRandomLevel draws, each moving to the child it names when there is one. */
    method MutationPoint(rng: Random, aRandomLevel: nat) returns (aNode: TNode, p: Path)
      modifies rng
      ensures OnPath(root, p) && aNode == NodeAt(root, p)
      ensures (p, rng.pos) == MutateWalk(root, [], rng.tape, old(rng.pos), aRandomLevel)
    {
      aNode := root;
      p := [];
      ghost var pos0 := rng.pos;
      var i := 0;
      ghost var left: nat := aRandomLevel;
      while i < aRandomLevel
        invariant i <= aRandomLevel && left == aRandomLevel - i && OnPath(root, p) && aNode == NodeAt(root, p)
        invariant MutateWalk(root, p, rng.tape, rng.pos, left) == MutateWalk(root, [], rng.tape, pos0, aRandomLevel)
      {
        ghost var p0, at := p, rng.pos;
        var randomChild := rng.NextInt(2);
        if randomChild == 0 && aNode.left.Some? {
          OnPathExtend(root, p, L);
          aNode, p := aNode.left.value, p + [L];
        } else if randomChild == 1 && aNode.right.Some? {
          OnPathExtend(root, p, R);
          aNode, p := aNode.right.value, p + [R];
        }
        MutateWalkStep(root, p0, rng.tape, at, left, p);
        i, left := i + 1, left - 1;
      }
    }

    /** mutate: the walk down from the root, then setData on the node it reaches. */
    method Mutate(rng: Random, operators: seq<string>, operands: seq<string>) returns (o: Outcome)
      modifies this, rng
      ensures var spec := old(MutateSpec(root, rng.tape, rng.pos, operators, operands));
        (spec.Ok? ==> o == Pass && root == spec.value.tree && rng.pos == spec.value.pos) &&
        (spec.Err? ==> o == Fail(spec.fault) && root == old(root))
    {
      var aHeight := Height(root);
      var aRandomLevel := rng.NextInt(aHeight + 1);
      var aNode, p := MutationPoint(rng, aRandomLevel);
      var list := if IsLeaf(aNode) then operands else operators;
      if |list| == 0 {
        return Fail(IllegalArgument);
      }
      var k := rng.NextInt(|list|);
      root := WithData(root, p, list[k]);
      o := Pass;
    }

    /**
     * crossOver(aGPT): the walks down both trees, a child slot of each end node, and the two
     * slots exchanged. The other tree must be a different object.
     */
    method CrossOver(aGPT: GeneticProgrammingTree, rng: Random) returns (o: Outcome)
      requires aGPT != this
      modifies this, aGPT, rng
      ensures var spec := old(CrossOverSpec(root, aGPT.root, rng.tape, rng.pos));
        (spec.Ok? ==> o == Pass && root == spec.value.mine && aGPT.root == spec.value.theirs && rng.pos == spec.value.pos) &&
        (spec.Err? ==> o == Fail(spec.fault) && root == old(root) && aGPT.root == old(aGPT.root))
    {
      var aHeight := Height(root);
      if aHeight == 0 {
        return Fail(IllegalArgument);
      }
      ghost var pos0 := rng.pos;
      var a, b := root, aGPT.root;
      var randomLevel := rng.NextInt(aHeight);
      var aNode: TNode, pa: Path := WalkDown(a, rng, randomLevel);
      ghost var q1 := rng.pos;
      var bNode: TNode, pb: Path := WalkDown(b, rng, randomLevel);
      ghost var q2 := rng.pos;
      var aRandomChild := rng.NextInt(2);
      var bRandomChild := rng.NextInt(2);
      var da := SlotFor(aRandomChild);
      var db := SlotFor(bRandomChild);
      CrossOverSpecAt(a, b, rng.tape, pos0, randomLevel, pa, q1, pb, q2, da, db, aNode, bNode);
      var tempNode := Kid(aNode, da);
      var mine, theirs := WithKid(a, pa, da, Kid(bNode, db)), WithKid(b, pb, db, tempNode);
      root := mine;
      aGPT.root := theirs;
      o := Pass;
    }
  }

  /** One of crossOver's two walk loops, from the root of t. */
  method WalkDown(t: TNode, rng: Random, steps: nat) returns (node: TNode, p: Path)
    modifies rng
    ensures (p, rng.pos) == CrossWalk(t, [], rng.tape, old(rng.pos), steps)
    ensures OnPath(t, p) && node == NodeAt(t, p)
  {
    node, p := t, [];
    ghost var pos0 := rng.pos;
    var i := 0;
    ghost var left: nat := steps;
    while i < steps
      invariant i <= steps && left == steps - i && OnPath(t, p) && node == NodeAt(t, p)
      invariant CrossWalk(t, p, rng.tape, rng.pos, left) == CrossWalk(t, [], rng.tape, pos0, steps)
    {
      ghost var p0, at := p, rng.pos;
      var randomChild := rng.NextInt(2);
      if randomChild == 0 && node.left.Some? {
        if !IsLeaf(node.left.value) {
          OnPathExtend(t, p, L);
          node, p := node.left.value, p + [L];
        }
      } else if randomChild == 1 && node.right.Some? {
        if !IsLeaf(node.right.value) {
          OnPathExtend(t, p, R);
          node, p := node.right.value, p + [R];
        }
      }
      CrossWalkStep(t, p0, rng.tape, at, left, p);
      i, left := i + 1, left - 1;
    }
  }

  /**
   * GeneticProgrammingTree(h): the height constructor. Java builds the two subtrees as trees
   * of their own and adopts their roots; a failed draw is the IllegalArgumentException.
   */
  method OfHeight(h: int, rng: Random, operators: seq<string>, operands: seq<string>)
    returns (r: Result<GeneticProgrammingTree>)
    modifies rng
    decreases if h < 0 then 0 else h
    ensures var spec := OfHeightSpec(h, rng.tape, old(rng.pos), operators, operands);
      (spec.Err? ==> r == Err(spec.fault)) &&
      (spec.Ok? ==> r.Ok? && fresh(r.value) && r.value.root == spec.value.tree && rng.pos == spec.value.pos)
  {
    if h < 0 {
      if |operators| == 0 {
        return Err(IllegalArgument);
      }
      return Err(StackOverflow);
    }
    if h == 0 {
      if |operands| == 0 {
        return Err(IllegalArgument);
      }
      var randomTerminalIndex := rng.NextInt(|operands|);
      var t := new GeneticProgrammingTree(TNode(operands[randomTerminalIndex], None, None));
      return Ok(t);
    }
    if |operators| == 0 {
      return Err(IllegalArgument);
    }
    var randomFunctionIndex := rng.NextInt(|operators|);
    var data := operators[randomFunctionIndex];
    var leftSubTree := OfHeight(h - 1, rng, operators, operands);
    if leftSubTree.Err? {
      return Err(leftSubTree.fault);
    }
    var rightSubTree := OfHeight(h - 1, rng, operators, operands);
    if rightSubTree.Err? {
      return Err(rightSubTree.fault);
    }
    var t := new GeneticProgrammingTree(TNode(data, Some(leftSubTree.value.root), Some(rightSubTree.value.root)));
    r := Ok(t);
  }
}
