# A verified model of a genetic-programming symbolic regressor

The system evolves arithmetic expression trees toward a target function of one variable `x`
(the later code selects `(2(x * x) - 4) / 2`; the older code and the fitness fixtures of the
tests use the initial target `((x * x) - 1) / 2`). Each tree is scored by its standardized fitness, the summed
difference between its output and the target's on a set of training pairs, and each generation
keeps or breeds the fittest trees by reproduction, crossover and mutation until a tree fits
within the error threshold or the run ends. The repository holds two generations of the code:
the later one under `src/` (a node-object binary tree with validity flags, a tree factory with
the Full, Grow and ramped methods, a `GPGeneration` class, a driver, a properties-backed
settings singleton and a fitness datum) and the older one under `trunk/` (a simpler tree,
a single `GPMain` loop, its own settings and a CSV summarizing tool).

The Dafny project follows that structure, one module per source concept:

| module | file | models |
|---|---|---|
| `Wrappers` | wrappers.dfy | `Result`, `Option`, `Outcome` and the Java exceptions the code raises |
| `Strings` | strings.dfy | decimal rendering and parsing, `String.split`, `String.trim`, joining |
| `Randomness` | random.dfy | `java.util.Random` as an injected stream of draws |
| `ExprTree` | expr.dfy | a tree as a value: evaluation, rendering, traversals, splicing |
| `NodeHeap` | nodeheap.dfy | the src node objects (`BinaryTreeNode`, `OperatorNode`, `OperandNode`) in a heap class with parent links and tags |
| `GPTrees` | gptree.dfy | the src `BinaryTree` / `GeneticProgrammingTree` class: evaluation, lists, clone, mutate, crossOver |
| `TreeFactory` | factory.dfy | `GPTreeFactory`: Full, Grow, generateTree, generateSubtree |
| `Training`, `TrunkTraining` | training.dfy | `TrainingData` of both generations |
| `Fitness` | fitness.dfy | `FitnessDatum` and the `Double` arithmetic it needs |
| `Generation` | generation.dfy | `GPGeneration`: initial population, reproduction, crossover, mutation |
| `Driver` | driver.dfy | src `GPMain.processGP` and the elapsed-time rendering |
| `TrunkTrees` | trunktree.dfy | the trunk `GeneticProgrammingTree` and `BinaryTreeNode` |
| `TrunkMain` | trunkmain.dfy | the trunk `GPMain` loop |
| `Properties` | properties.dfy | the property store and the comma-list helpers both settings classes share |
| `Settings`, `TrunkSettings` | settings.dfy, trunksettings.dfy | `GPSettings` of both generations |
| `Summaries` | summarize.dfy | the trunk `SummarizeCSV` tool |

Code that changes state in place is modelled as classes with `modifies` clauses (node objects,
trees, the generation, the settings, the generator, the in-place sort of `SummarizeCSV`), with
every method proved against a pure specification function; the pure logic is datatypes,
functions and lemmas. Randomness is a parameter: a generator is a stream `tape: nat -> nat`
and a cursor, and a draw `nextInt(n)` is `tape(pos) % n`, so every statement holds for every
possible sequence of random numbers. `Double` is modelled on exact reals with NaN and the
infinities as separate cases.

## Model

| member | source | states |
|---|---|---|
| ExprTree.ValueOf | trunk/src/edu/stthomas/seis610/tree/OperatorNode.java:95-105 | a name that parses denotes an operator whose stored name is that text; any other text is an IllegalArgument failure |
| ExprTree.ValueOfName | trunk/src/edu/stthomas/seis610/tree/OperatorNode.java:95-105 | parsing the name an operator node stores gives the operator back (getOperator after setOperator) |
| ExprTree.Arity | trunk/src/edu/stthomas/seis610/tree/OperatorNode.java:76-90 | an operator has one or two children, and exactly SIN and COS have one |
| ExprTree.Size | src/edu/stthomas/seis610/tree/BinaryTree.java:114-139 | every tree has at least one node |
| ExprTree.NumberOfChildren | src/edu/stthomas/seis610/tree/OperandNode.java:76-78 | a node has no children exactly when it is an operand |
| ExprTree.ResetFlagsProperties | trunk/src/edu/stthomas/seis610/tree/BinaryTreeNode.java:112-120 | after resetTreeNodeInvalid every flag of the subtree is set, a second reset changes nothing, size, height and payloads are kept, and a fully valid tree is left as it was |
| ExprTree.SameShapeMeasures | trunk/src/edu/stthomas/seis610/tree/BinaryTreeNode.java:112-120 | trees that differ only in their validity flags have the same size, height and payload properties |
| ExprTree.TruncToInt | src/edu/stthomas/seis610/tree/OperandNode.java:119-128 | Double.intValue stays in the int range and truncates toward zero on either side of zero |
| ExprTree.OperandText | src/edu/stthomas/seis610/tree/OperandNode.java:119-128 | the variable renders as "x" |
| ExprTree.OperandTruncation | src/edu/stthomas/seis610/tree/OperandNode.java:119-128 | a constant renders truncated toward zero: -0.5 as "0", -2.7 as "-2", 3.9 as "3" |
| ExprTree.RenderParentheses | src/edu/stthomas/seis610/tree/BinaryTree.java:93-109 | the rendering holds one pair of parentheses per operator, one fewer when the root is an operator |
| ExprTree.BalancedRendering | src/edu/stthomas/seis610/tree/BinaryTree.java:93-109 | every rendering has as many opening as closing parentheses |
| ExprTree.RenderWrapped | src/edu/stthomas/seis610/tree/BinaryTree.java:93-109 | an operator below the root renders as its root rendering wrapped in one pair of parentheses |
| ExprTree.PostOrderMembers | src/edu/stthomas/seis610/tree/BinaryTree.java:114-139 | the post-order list holds a position exactly when it is a node of the tree |
| ExprTree.InOrderMembers | src/edu/stthomas/seis610/tree/BinaryTree.java:144-169 | the in-order list holds a position exactly when it is a node of the tree |
| ExprTree.PostOrderSize | src/edu/stthomas/seis610/tree/BinaryTree.java:114-139 | the post-order list is as long as the node count |
| ExprTree.InOrderSize | src/edu/stthomas/seis610/tree/BinaryTree.java:144-169 | the in-order list is as long as the node count |
| ExprTree.PostOrderShape | src/edu/stthomas/seis610/tree/BinaryTree.java:125-139 | post-order lists every node once, without repetition, with the root last |
| ExprTree.InOrderShape | src/edu/stthomas/seis610/tree/BinaryTree.java:155-169 | in-order lists every node once, without repetition |
| ExprTree.SameNodesBothOrders | src/edu/stthomas/seis610/tree/BinaryTree.java:114-169 | post-order and in-order hold the same set of nodes |
| ExprTree.DepthBelowHeight | src/edu/stthomas/seis610/tree/BinaryTree.java:60-62 | every node lies no deeper than the tree's height, and its subtree is no taller than the height less its depth |
| ExprTree.SubtreeAtExtend | src/edu/stthomas/seis610/tree/GeneticProgrammingTree.java:19-30 | one step down a walk reaches the matching child of the current subtree |
| ExprTree.ReplaceAtSize | src/edu/stthomas/seis610/tree/GeneticProgrammingTree.java:79-113 | splicing a subtree in changes the node count by the difference of the two subtrees |
| ExprTree.ReplaceAtHeight | src/edu/stthomas/seis610/tree/GeneticProgrammingTree.java:32-39 | splicing in a subtree of the same height keeps the tree's height |
| ExprTree.ReplaceAtOperandsSet | src/edu/stthomas/seis610/tree/OperandNode.java:23-48 | splicing keeps every constant operand holding a constant |
| ExprTree.ReplaceAtBinary | src/edu/stthomas/seis610/tree/BinaryTree.java:103 | splicing a binary-only tree into a binary-only tree keeps it renderable |
| ExprTree.ReplaceAtProperties | src/edu/stthomas/seis610/tree/GeneticProgrammingTree.java:79-113 | after a splice the position holds the new subtree, and splicing in what was there changes nothing |
| ExprTree.EvalFlags | trunk/src/edu/stthomas/seis610/tree/OperatorNode.java:119-160 | evaluation keeps shape and payloads, only clears flags, changes nothing unless it propagated invalidity, clears the node's own flag when it does, and operands never propagate |
| ExprTree.EvalKeepsUpClosed | trunk/src/edu/stthomas/seis610/tree/BinaryTreeNode.java:99-106 | after evaluation every node with an invalid child is itself invalid, as setTreeNodeInvalid's walk to the root leaves it |
| ExprTree.InvalidOperatorEval | trunk/src/edu/stthomas/seis610/tree/OperatorNode.java:121-160 | an operator already invalid returns MAX_VALUE, does not evaluate its children and propagates invalidity |
| ExprTree.DivByZeroEval | trunk/src/edu/stthomas/seis610/tree/OperatorNode.java:132-139 | a zero divisor returns MAX_VALUE, marks the node invalid and leaves the left subtree unevaluated |
| ExprTree.TranscendentalEval | trunk/src/edu/stthomas/seis610/tree/OperatorNode.java:140-152 | SIN, COS and POW always mark the node invalid and propagate |
| ExprTree.PowClamp | trunk/src/edu/stthomas/seis610/tree/OperatorNode.java:149-150 | POW raises the left value to the right value capped at 20 |
| ExprTree.EvalArithmetic | trunk/src/edu/stthomas/seis610/tree/OperatorNode.java:123-139 | on a valid tree of + - * / evaluation gives the arithmetic value and touches no flag exactly when no divisor is zero, and marks the root invalid otherwise |
| ExprTree.TestTreeMeasures | src/edu/stthomas/seis610/test/GPGenericTest.java:110-120 | (6-2)/4 has height 2 and five nodes, ((x*x)-1)/2 has height 3 |
| ExprTree.TestTreeRenderings | src/edu/stthomas/seis610/test/GPGenericTest.java:170-179 | the two test trees render as "(6-2)/4" and "((x*x)-1)/2" |
| ExprTree.TestPostOrder | src/edu/stthomas/seis610/test/GPGenericTest.java:122-134 | the post-order of (6-2)/4 is six, two, minus, four, divide |
| NodeHeap.IdsOfFork | trunk/src/edu/stthomas/seis610/tree/BinaryTreeNode.java:188-214 | a clone's nodes occupy one contiguous block of fresh indices, the copied node first |
| NodeHeap.RealizesFrame | trunk/src/edu/stthomas/seis610/tree/BinaryTreeNode.java:60-88 | a tree's links and what it denotes depend only on its own nodes' records |
| NodeHeap.RealizesKept | trunk/src/edu/stthomas/seis610/tree/BinaryTreeNode.java:90-120 | changing validity flags keeps every tree linked as it was |
| NodeHeap.ChainOfChild | trunk/src/edu/stthomas/seis610/tree/BinaryTreeNode.java:99-172 | a child's parent chain is its parent followed by the parent's chain |
| NodeHeap.RealizesOperandsSet | src/edu/stthomas/seis610/tree/OperandNode.java:23-48 | every operand of a linked tree is the variable or holds a constant |
| NodeHeap.AbsReset | trunk/src/edu/stthomas/seis610/tree/BinaryTreeNode.java:112-120 | setting every flag of a tree denotes ResetFlags of its expression |
| NodeHeap.EvaluatedFrame | trunk/src/edu/stthomas/seis610/tree/OperatorNode.java:119-160 | evaluating one subtree leaves every subtree outside it and its parent chain untouched |
| NodeHeap.SequencedChildren | trunk/src/edu/stthomas/seis610/tree/OperatorNode.java:123-152 | evaluating one child and then the other: the second evaluation keeps the first child's result, and the parent and its ancestors lose their flags exactly when one of them propagated |
| NodeHeap.InvalidatedRoot | trunk/src/edu/stthomas/seis610/tree/BinaryTreeNode.java:99-106 | after setTreeNodeInvalid at a subtree's root the subtree denotes its expression with the root flag cleared |
| NodeHeap.InvalidatedAfterBoth | trunk/src/edu/stthomas/seis610/tree/OperatorNode.java:148-151 | after both children are evaluated and setTreeNodeInvalid runs at the node, the subtree denotes the operator over the evaluated children with its flag cleared, and every ancestor has lost its flag |
| NodeHeap.DisturbedUp | trunk/src/edu/stthomas/seis610/tree/OperatorNode.java:119-162 | an evaluation of a child that stops with an exception changes no flag outside its parent's subtree and chain |
| NodeHeap.DisturbedTrans | trunk/src/edu/stthomas/seis610/tree/OperatorNode.java:119-162 | two such evaluations in a row together change no flag outside the subtree and its chain |
| NodeHeap.EvaluatedDisturbs | trunk/src/edu/stthomas/seis610/tree/OperatorNode.java:119-162 | a completed evaluation of a child changes no flag outside its parent's subtree and chain |
| NodeHeap.FailsAtLeft | trunk/src/edu/stthomas/seis610/tree/OperatorNode.java:123-131 | below a flagged operator other than DIV, an exception in the left child is the exception of the whole node |
| NodeHeap.FailsAtMissingRight | trunk/src/edu/stthomas/seis610/tree/OperatorNode.java:123-139 | a flagged binary operator without a right child throws NullPointerException once its left child (DIV: none) has been evaluated |
| NodeHeap.FailsAtRight | trunk/src/edu/stthomas/seis610/tree/OperatorNode.java:123-139 | an exception in the right child of a flagged binary operator is the exception of the whole node |
| NodeHeap.FailsAtDividend | trunk/src/edu/stthomas/seis610/tree/OperatorNode.java:132-136 | DIV by a non-zero value fails exactly as its left child does |
| NodeHeap.EvalOfBoth | trunk/src/edu/stthomas/seis610/tree/OperatorNode.java:123-131 | a flagged ADD, SUB, MUL or POW node evaluates to its operation on the values of its children, invalidated exactly when a child propagated invalidity, or always for POW |
| NodeHeap.EvalOfDivision | trunk/src/edu/stthomas/seis610/tree/OperatorNode.java:132-139 | a flagged DIV node gives left / right for a non-zero divisor, and MaxValue with the node invalidated and the left child untouched for a zero one |
| NodeHeap.EvalOfTranscendental | trunk/src/edu/stthomas/seis610/tree/OperatorNode.java:140-147 | a flagged SIN or COS node gives the sine or cosine of its left value and is invalidated |
| NodeHeap.PowerEvaluated | trunk/src/edu/stthomas/seis610/tree/OperatorNode.java:148-151 | after both children and setTreeNodeInvalid, a POW node's value and heap are the ones Eval gives |
| NodeHeap.ZeroDivisorEvaluated | trunk/src/edu/stthomas/seis610/tree/OperatorNode.java:132-139 | after a zero divisor and setTreeNodeInvalid, a DIV node gives MaxValue and its heap is the one Eval gives |
| NodeHeap.ShapePaths | src/edu/stthomas/seis610/tree/BinaryTree.java:114-139 | the positions of a linked tree are the positions of its expression, node for node |
| NodeHeap.Splice | src/edu/stthomas/seis610/tree/GeneticProgrammingTree.java:79-113 | relinking a slot's owner to a new subtree and the subtree's root back to the owner gives a linked tree denoting the expression with that subtree replaced |
| NodeHeap.PayloadAt | src/edu/stthomas/seis610/tree/GeneticProgrammingTree.java:32-39 | rewriting one node's payload, keeping its kind, keeps the tree linked and denotes the old expression with that one node replaced |
| NodeHeap.ChildAt | trunk/src/edu/stthomas/seis610/tree/BinaryTreeNode.java:60-88 | a node's child in a slot is linked, lies in the tree, excludes its parent, and denotes the matching child expression |
| NodeHeap.SlotPresent | trunk/src/edu/stthomas/seis610/tree/BinaryTreeNode.java:125-137 | a node's child link in a slot is present exactly when its expression has that child |
| NodeHeap.Exchange | src/edu/stthomas/seis610/tree/GeneticProgrammingTree.java:79-113 | crossOver's exchange of two child slots between disjoint trees leaves both linked, each denoting its expression with the other's subtree spliced in |
| NodeHeap.SwapSites | src/edu/stthomas/seis610/tree/GeneticProgrammingTree.java:79-113 | the two slot owners and the two subtree roots crossOver touches are four different nodes of the two trees |
| NodeHeap.NodeEquals | trunk/src/edu/stthomas/seis610/tree/BinaryTreeNode.java:148-158 | equals fails (null pointer) exactly when this node's data is null, and otherwise holds exactly when both nodes carry the same data |
| NodeHeap.EqualsIgnoresLinks | trunk/src/edu/stthomas/seis610/tree/BinaryTreeNode.java:156-158 | equality looks only at the data object, never at children, parents, flags or tags |
| NodeHeap.EqualsSymmetric | trunk/src/edu/stthomas/seis610/tree/BinaryTreeNode.java:156-158 | where both data objects are set, equality is symmetric |
| NodeHeap.OperatorNotOperand | trunk/src/edu/stthomas/seis610/tree/BinaryTreeNode.java:156-158 | an operator's name never equals an operand's number |
| NodeHeap.Heap.constructor | trunk/src/edu/stthomas/seis610/tree/BinaryTreeNode.java:35-41 | an empty arena of nodes |
| NodeHeap.Heap.NewOperatorNode | trunk/src/edu/stthomas/seis610/tree/OperatorNode.java:50-105 | a fresh node storing the operator's name, without children or parent, and valid |
| NodeHeap.Heap.NewConstantNode | src/edu/stthomas/seis610/tree/OperandNode.java:33-38 | a fresh constant operand, without children or parent, and valid |
| NodeHeap.Heap.NewOperandNode | src/edu/stthomas/seis610/tree/OperandNode.java:23-48 | "x" in either case makes the variable, another token its parsed constant, and a token that does not parse fails and leaves the arena as it was |
| NodeHeap.Heap.SetOperator | trunk/src/edu/stthomas/seis610/tree/OperatorNode.java:102-105 | only the node's operator changes |
| NodeHeap.Heap.SetOperand | src/edu/stthomas/seis610/tree/OperandNode.java:41-48 | "x" in either case sets the variable indicator and keeps the constant; another token stores its parsed value and clears the indicator; a token that does not parse fails and changes nothing |
| NodeHeap.Heap.SetData | src/edu/stthomas/seis610/tree/OperandNode.java:97-101 | the constant is stored and the variable indicator always cleared |
| NodeHeap.Heap.SetLeftChild | trunk/src/edu/stthomas/seis610/tree/BinaryTreeNode.java:68-73 | an operator takes the new left child and nothing else changes; an operand throws and nothing changes |
| NodeHeap.Heap.SetRightChild | trunk/src/edu/stthomas/seis610/tree/BinaryTreeNode.java:83-88 | an operator takes the new right child and nothing else changes; an operand throws and nothing changes |
| NodeHeap.Heap.SetParent | trunk/src/edu/stthomas/seis610/tree/BinaryTreeNode.java:170-172 | only the node's parent link changes |
| NodeHeap.Heap.SetNodeType | trunk/src/edu/stthomas/seis610/tree/BinaryTreeNode.java:184-186 | only the node's tag changes |
| NodeHeap.Heap.GetHeight | trunk/src/edu/stthomas/seis610/tree/OperatorNode.java:68-71 | the height of a node is the height of the expression its subtree denotes |
| NodeHeap.Heap.GetNumberOfChildren | trunk/src/edu/stthomas/seis610/tree/OperatorNode.java:76-90 | a node has as many children as its expression, none exactly for an operand |
| NodeHeap.Heap.SetTreeNodeInvalid | trunk/src/edu/stthomas/seis610/tree/BinaryTreeNode.java:99-106 | exactly the node and its chain of ancestors lose their flag; descendants and siblings keep theirs and no link changes |
| NodeHeap.Heap.ResetTreeNodeInvalid | trunk/src/edu/stthomas/seis610/tree/BinaryTreeNode.java:112-120 | exactly the node and its descendants get their flag set, ancestors are untouched, and the subtree denotes ResetFlags of what it denoted |
| NodeHeap.Heap.CloneNode | trunk/src/edu/stthomas/seis610/tree/BinaryTreeNode.java:188-214 | the copy denotes the same expression, consists only of fresh nodes, keeps the original's parent and tag, and leaves every old node as it was |
| NodeHeap.Heap.AttachClone | trunk/src/edu/stthomas/seis610/tree/BinaryTreeNode.java:196-212 | a cloned child hangs below the copy in its slot, with the copy as its parent and its tag kept |
| NodeHeap.Heap.Attach | src/edu/stthomas/seis610/tree/GPTreeFactory.java:220-226 | the child link, the LEFT or RIGHT tag and the parent link are set, and the subtree denotes what it did |
| NodeHeap.Heap.EvaluateOutput | trunk/src/edu/stthomas/seis610/tree/OperatorNode.java:119-162 | the result is the one Eval gives, the NullPointer exception of an operator without a right child included; on success the subtree afterwards carries Eval's flags and exactly the ancestors lose their flag when the evaluation propagated invalidity; on the exception only flags inside the subtree and on its parent chain have changed |
| NodeHeap.Heap.EvaluateOperator | trunk/src/edu/stthomas/seis610/tree/OperatorNode.java:119-162 | the same for an operator node, including the already-invalid case, which evaluates nothing below it |
| NodeHeap.Heap.EvaluateBoth | trunk/src/edu/stthomas/seis610/tree/OperatorNode.java:123-131 | ADD, SUB and MUL evaluate left then right and combine; the result, exception included, and the flags afterwards are Eval's |
| NodeHeap.Heap.EvaluatePower | trunk/src/edu/stthomas/seis610/tree/OperatorNode.java:148-151 | POW evaluates left then right, raises to the right value capped at 20 and invalidates the node and its ancestors; result and flags are Eval's |
| NodeHeap.Heap.EvaluateOperands | trunk/src/edu/stthomas/seis610/tree/OperatorNode.java:123-131 | the two child evaluations of a binary operator: the left child, then the right one, each giving what Eval gives for it; a failure of either, or a missing right child, is the exception Eval gives for the whole node |
| NodeHeap.Heap.EvaluateDivision | trunk/src/edu/stthomas/seis610/tree/OperatorNode.java:132-139 | DIV evaluates the right child first and skips the left one on a zero divisor; a missing right child is a NullPointer exception before anything is evaluated; result and flags are Eval's |
| NodeHeap.Heap.EvaluateTranscendental | trunk/src/edu/stthomas/seis610/tree/OperatorNode.java:140-147 | SIN and COS evaluate the left child and then invalidate the node and its ancestors; a failure below is passed on |
| GPTrees.GeneticProgrammingTree.constructor | src/edu/stthomas/seis610/tree/GeneticProgrammingTree.java:13-15 | the tree is the one rooted at the given node |
| GPTrees.GeneticProgrammingTree.SetRoot | src/edu/stthomas/seis610/tree/BinaryTree.java:46-48 | the tree is now the one rooted at the given node |
| GPTrees.GeneticProgrammingTree.IsTreeValid | src/edu/stthomas/seis610/tree/BinaryTree.java:53-55 | tree validity is exactly the root's flag |
| GPTrees.GeneticProgrammingTree.GetHeight | src/edu/stthomas/seis610/tree/BinaryTree.java:60-62 | the tree's height is the height of the expression it denotes |
| GPTrees.GeneticProgrammingTree.Evaluate | src/edu/stthomas/seis610/tree/BinaryTree.java:71-74 | the result is the one Eval gives for the tree, the NullPointer exception of an operator without a right child included; on success the tree afterwards denotes the tree Eval computes; either way the tree stays well formed and no node outside it changes |
| GPTrees.GeneticProgrammingTree.RenderNode | src/edu/stthomas/seis610/tree/BinaryTree.java:93-109 | the rendering succeeds exactly when every operator below has a right child (a unary node dereferences null), and then it is the infix rendering, parenthesized except at the root |
| GPTrees.GeneticProgrammingTree.ToString | src/edu/stthomas/seis610/tree/BinaryTree.java:185-187 | the whole tree renders exactly when it is binary-only, as the infix rendering of its expression |
| GPTrees.GeneticProgrammingTree.PostOrderList | src/edu/stthomas/seis610/tree/BinaryTree.java:125-139 | the list of node objects is the shape's post-order |
| GPTrees.GeneticProgrammingTree.InOrderList | src/edu/stthomas/seis610/tree/BinaryTree.java:155-169 | the list of node objects is the shape's in-order |
| GPTrees.GeneticProgrammingTree.GetPostOrderList | src/edu/stthomas/seis610/tree/BinaryTree.java:114-118 | the list holds every node of the tree once, is as long as the node count, ends with the root, and visits the nodes in the expression's post-order |
| GPTrees.GeneticProgrammingTree.GetInOrderList | src/edu/stthomas/seis610/tree/BinaryTree.java:144-148 | the list holds every node of the tree once, is as long as the node count, and visits them in the expression's in-order |
| GPTrees.GeneticProgrammingTree.GetRandomTreeNode | src/edu/stthomas/seis610/tree/BinaryTree.java:80-84 | the post-order element at a draw below the node count, so always a node of the tree, after one draw |
| GPTrees.GeneticProgrammingTree.Clone | src/edu/stthomas/seis610/tree/BinaryTree.java:172-182 | a fresh tree denoting the same expression, sharing no node with the original, which is unchanged |
| GPTrees.GeneticProgrammingTree.MutationPoint | src/edu/stthomas/seis610/tree/GeneticProgrammingTree.java:23-30 | the loop's walk ends where MutateWalk says, or fails with IllegalArgument where it does |
| GPTrees.GeneticProgrammingTree.MutateStep | src/edu/stthomas/seis610/tree/GeneticProgrammingTree.java:24-29 | one step of the walk agrees with MutateWalk |
| GPTrees.GeneticProgrammingTree.Mutate | src/edu/stthomas/seis610/tree/GeneticProgrammingTree.java:17-41 | on success the tree denotes MutateSpec's result and the draws advance as it says; on failure the tree is unchanged; no node outside the tree changes |
| GPTrees.GeneticProgrammingTree.RewriteAt | src/edu/stthomas/seis610/tree/GeneticProgrammingTree.java:32-39 | the node reached is rewritten as Rewritten says: an operand takes a drawn operand token, an operator a drawn operator name |
| GPTrees.GeneticProgrammingTree.CrossPoint | src/edu/stthomas/seis610/tree/GeneticProgrammingTree.java:52-76 | each walk of crossOver ends where CrossWalk says, or fails with IllegalArgument where it does |
| GPTrees.GeneticProgrammingTree.CrossStep | src/edu/stthomas/seis610/tree/GeneticProgrammingTree.java:53-62 | one step of a crossOver walk agrees with CrossWalk |
| GPTrees.GeneticProgrammingTree.CrossOver | src/edu/stthomas/seis610/tree/GeneticProgrammingTree.java:43-119 | on success both trees denote CrossOverSpec's result and together keep the same nodes, disjoint; a failed draw changes nothing; no node outside the two trees changes |
| GPTrees.GeneticProgrammingTree.SwapChildren | src/edu/stthomas/seis610/tree/GeneticProgrammingTree.java:78-115 | the two child draws and the exchange agree with CrossAt |
| GPTrees.GeneticProgrammingTree.Relink | src/edu/stthomas/seis610/tree/GeneticProgrammingTree.java:81-115 | the exchange agrees with SwapAt, including the NullPointer stop at an empty slot |
| GPTrees.GeneticProgrammingTree.RewireUntil | src/edu/stthomas/seis610/tree/GeneticProgrammingTree.java:81-113 | up to the null dereference only aNode, bNode and bNode's child are touched |
| GPTrees.GeneticProgrammingTree.Transplant | src/edu/stthomas/seis610/tree/GeneticProgrammingTree.java:81-113 | with both slots filled each tree denotes its expression with the other's subtree spliced in |
| GPTrees.GeneticProgrammingTree.ExchangeLinks | src/edu/stthomas/seis610/tree/GeneticProgrammingTree.java:81-113 | the link updates make each tree denote its expression with the subtree at its slot replaced by the other's |
| GPTrees.GeneticProgrammingTree.Rewire | src/edu/stthomas/seis610/tree/GeneticProgrammingTree.java:82-112 | the six link updates: each slot takes the other subtree, retagged for its slot and pointing back to its new owner, and nothing else changes |
| GPTrees.GeneticProgrammingTree.SetChildSlot | src/edu/stthomas/seis610/tree/GeneticProgrammingTree.java:83-110 | the drawn slot of an operator takes the new child and nothing else changes |
| GPTrees.GeneticProgrammingTree.ResetBoth | src/edu/stthomas/seis610/tree/GeneticProgrammingTree.java:114-115 | both trees get every flag set and denote ResetFlags of what they denoted |
| GPTrees.MutateWalk | src/edu/stthomas/seis610/tree/GeneticProgrammingTree.java:23-30 | a walk ends at a node of the tree, below where it started, at most one level per step, after one draw per step; stepping from an operand fails with IllegalArgument |
| GPTrees.Rewritten | src/edu/stthomas/seis610/tree/GeneticProgrammingTree.java:32-39 | the rewritten node keeps its kind, its flag and, for an operator, its children; an operand ends holding the variable or a constant |
| GPTrees.MutateSpecAt | src/edu/stthomas/seis610/tree/GeneticProgrammingTree.java:17-41 | mutate is the walk, then the rewrite of the node reached, then a flag reset of the whole tree |
| GPTrees.MutatePreserves | src/edu/stthomas/seis610/tree/GeneticProgrammingTree.java:17-41 | a mutation keeps the node count and the height, sets every flag, and keeps operands set |
| GPTrees.MutateDepth | src/edu/stthomas/seis610/tree/GeneticProgrammingTree.java:19-30 | the walk ends no deeper than the tree's height |
| GPTrees.CrossWalk | src/edu/stthomas/seis610/tree/GeneticProgrammingTree.java:52-63 | a walk never leaves the operators once it starts at one, fails when it must step from an operand, and draws once per step |
| GPTrees.CrossOverSpec | src/edu/stthomas/seis610/tree/GeneticProgrammingTree.java:43-50 | crossOver fails only with IllegalArgument or NullPointer, and always with IllegalArgument when this tree has height 0 |
| GPTrees.SwapAt | src/edu/stthomas/seis610/tree/GeneticProgrammingTree.java:81-113 | the exchange fails with NullPointer exactly when one of the two drawn slots is empty |
| GPTrees.CrossAt | src/edu/stthomas/seis610/tree/GeneticProgrammingTree.java:78-80 | after the walks crossOver draws exactly two more times |
| GPTrees.CrossOverPreserves | src/edu/stthomas/seis610/tree/GeneticProgrammingTree.java:43-119 | crossOver keeps the two trees' combined node count, sets every flag, keeps both roots operators, and keeps operands set and trees binary-only |
| GPTrees.SwapAtPreserves | src/edu/stthomas/seis610/tree/GeneticProgrammingTree.java:81-115 | the exchange keeps the combined node count, sets every flag and keeps the shape facts |
| GPTrees.ExchangePreserves | src/edu/stthomas/seis610/tree/GeneticProgrammingTree.java:81-115 | exchanging two non-root subtrees and resetting flags keeps the combined node count and the shape facts |
| GPTrees.CrossOverBinaryNoNull | src/edu/stthomas/seis610/tree/GeneticProgrammingTree.java:78-113 | between binary-only trees crossOver never meets an empty slot, so its only failure is a zero-bound draw |
| GPTrees.PostIdsPositions | src/edu/stthomas/seis610/tree/BinaryTree.java:125-139 | the k-th node object of the post-order list sits at the k-th position of the expression's post-order |
| GPTrees.InIdsPositions | src/edu/stthomas/seis610/tree/BinaryTree.java:155-169 | the k-th node object of the in-order list sits at the k-th position of the expression's in-order |
| TreeFactory.OperandFor | src/edu/stthomas/seis610/tree/OperandNode.java:23-48 | a token gives the variable exactly when it is "x" in either case, otherwise its parsed constant; a token that does not parse fails with NumberFormat |
| TreeFactory.RandomOperator | src/edu/stthomas/seis610/tree/GPTreeFactory.java:284-289 | one draw indexes the operator list and the named operator is returned; an empty list fails with IllegalArgument, as does a name valueOf rejects; a list of valid names never fails |
| TreeFactory.RandomOperand | src/edu/stthomas/seis610/tree/GPTreeFactory.java:297-302 | one draw indexes the operand list and the operand it names is returned; an empty list fails with IllegalArgument, a token that does not parse with NumberFormat |
| TreeFactory.RandomNode | src/edu/stthomas/seis610/tree/GPTreeFactory.java:310-316 | a coin is drawn first; 1 gives an operator and anything else an operand, two draws in all |
| TreeFactory.MethodOf | src/edu/stthomas/seis610/tree/GPTreeFactory.java:45 | GenerationMethod.valueOf accepts exactly FULL, GROW and RANDOM, and fails with IllegalArgument otherwise |
| TreeFactory.GetRandomOperator | src/edu/stthomas/seis610/tree/GPTreeFactory.java:284-289 | the node allocated is the one RandomOperator describes, and a failure allocates nothing |
| TreeFactory.GetRandomOperand | src/edu/stthomas/seis610/tree/GPTreeFactory.java:297-302 | the node allocated is the one RandomOperand describes, and a failure allocates nothing |
| TreeFactory.GetRandomNode | src/edu/stthomas/seis610/tree/GPTreeFactory.java:310-316 | the node allocated is the one RandomNode describes |
| TreeFactory.GenerateFullSubtree | src/edu/stthomas/seis610/tree/GPTreeFactory.java:210-237 | the nodes built realize the Full subtree SubtreeSpec describes, are all fresh, and the draws advance as it says; a failure has SubtreeSpec's fault |
| TreeFactory.GenerateGrowSubtree | src/edu/stthomas/seis610/tree/GPTreeFactory.java:248-277 | the nodes built realize the Grow subtree SubtreeSpec describes, are all fresh, and the draws advance as it says |
| TreeFactory.AddChildren | src/edu/stthomas/seis610/tree/GPTreeFactory.java:217-230 | the left subtree is built and hung (tag LEFT, parent set), then the right one only for a two-argument operator, as ChildrenSpec describes |
| TreeFactory.AddChild | src/edu/stthomas/seis610/tree/GPTreeFactory.java:220-222 | one child is built one level down and hung below the operator in its slot |
| TreeFactory.BuildRooted | src/edu/stthomas/seis610/tree/GPTreeFactory.java:156-157 | a whole tree of fresh nodes, tagged ROOT, denoting SubtreeSpec's tree at depth 0 |
| TreeFactory.GenerateFullTree | src/edu/stthomas/seis610/tree/GPTreeFactory.java:151-166 | a fresh tree, whole and tagged ROOT, denoting the Full tree of maximum height m |
| TreeFactory.GenerateGrowTree | src/edu/stthomas/seis610/tree/GPTreeFactory.java:179-199 | a fresh tree, whole and tagged ROOT, denoting the Grow tree GrowTreeSpec describes: retried until it is taller than one operand unless it is for a subtree |
| TreeFactory.GrowRetries | src/edu/stthomas/seis610/tree/GPTreeFactory.java:186-190 | the do-while loop, bounded by the attempts, plants the tree GrowTreeAsWritten describes beyond the nodes already allocated, or fails as it says |
| TreeFactory.GrowAttempt | src/edu/stthomas/seis610/tree/GPTreeFactory.java:187-190 | one pass of the loop: it goes round again exactly when the Grow tree drawn is a single operand and a whole tree was asked for, and the remaining attempts then describe the same outcome; otherwise it plants what one attempt gives |
| TreeFactory.GrowTreeStep | src/edu/stthomas/seis610/tree/GPTreeFactory.java:186-190 | one unfolding of the retry loop: a single-operand whole tree leads to the next attempt at the stream position after it; anything else is the outcome |
| TreeFactory.PlantedEarlier | src/edu/stthomas/seis610/tree/GPTreeFactory.java:179-199 | a tree planted beyond the nodes of a later heap is planted beyond those of any heap it extends |
| TreeFactory.GenerateTree | src/edu/stthomas/seis610/tree/GPTreeFactory.java:40-99 | the tree of the generation method the settings name, with RANDOM tossing a coin first (0 for Full); an unknown method fails with IllegalArgument |
| TreeFactory.LeavesAtHeight | src/edu/stthomas/seis610/tree/GPTreeFactory.java:210-237 | a tree whose leaves all lie k levels down has height k |
| TreeFactory.SaturatedBinary | src/edu/stthomas/seis610/tree/GPTreeFactory.java:223-227 | with no SIN or COS in the operator list every generated operator has a right child, so the tree can be rendered |
| TreeFactory.SubtreeShape | src/edu/stthomas/seis610/tree/GPTreeFactory.java:210-277 | a subtree built at depth d is well formed and at most m-d high, every node took at least one draw, and a Full subtree has every leaf at depth m, so its height is exactly m-d |
| TreeFactory.ChildrenShape | src/edu/stthomas/seis610/tree/GPTreeFactory.java:217-230 | an operator with its built children is well formed, within the height room, and for Full has every leaf at depth m |
| TreeFactory.SubtreeSucceeds | src/edu/stthomas/seis610/tree/GPTreeFactory.java:210-302 | with valid operator names and parseable operand tokens, building never fails |
| TreeFactory.NoOperandsFails | src/edu/stthomas/seis610/tree/GPTreeFactory.java:233-299 | without operands every build fails with IllegalArgument, since every branch ends in an operand draw |
| TreeFactory.GrowTreeShape | src/edu/stthomas/seis610/tree/GPTreeFactory.java:179-199 | a Grow tree is well formed and at most m high; a whole tree is at least one level high and is refused for m below 1; for a subtree the first build is taken |
| TreeFactory.GrowLoopShape | src/edu/stthomas/seis610/tree/GPTreeFactory.java:186-190 | the retry loop as written returns only well-formed trees of height at most m, of height at least 1 for a whole tree |
| TreeFactory.GrowNeverEnds | src/edu/stthomas/seis610/tree/GPTreeFactory.java:186-190 | for a maximum height below 1 the loop for a whole tree restarts on every attempt, so it never ends, while the corrected version refuses the request |
| TreeFactory.TreeShape | src/edu/stthomas/seis610/tree/GPTreeFactory.java:40-65 | any generated tree is well formed and at most m high, a Full tree exactly m high with every leaf at that depth, and an unknown method fails with IllegalArgument |
| TrunkTrees.Size | trunk/src/edu/stthomas/seis610/tree/BinaryTreeNode.java:35-41 | every tree has at least its root node |
| TrunkTrees.OnPathExtend | trunk/src/edu/stthomas/seis610/tree/BinaryTreeNode.java:125-141 | when the node at p has a child on side d, p followed by d reaches exactly that child |
| TrunkTrees.WithDataShape | trunk/src/edu/stthomas/seis610/tree/BinaryTreeNode.java:53 | setData on one node keeps the shape, the size and the height of the tree and changes only that node's data |
| TrunkTrees.SameShapeRefl | trunk/src/edu/stthomas/seis610/tree/BinaryTreeNode.java:148-158 | every tree has its own shape |
| TrunkTrees.WithDataRestore | trunk/src/edu/stthomas/seis610/tree/BinaryTreeNode.java:53 | putting the old data back on the node undoes setData |
| TrunkTrees.WithKidSize | trunk/src/edu/stthomas/seis610/tree/BinaryTreeNode.java:68-88 | setting one child slot changes the node count by the new child's size less the old one's, and the slot then holds the new child |
| TrunkTrees.Pow2 | trunk/src/edu/stthomas/seis610/tree/GeneticProgrammingTree.java:20-39 | powers of two are positive |
| TrunkTrees.OfHeightShape | trunk/src/edu/stthomas/seis610/tree/GeneticProgrammingTree.java:20-39 | the height constructor builds a perfect tree of height h with 2^(h+1)-1 nodes, one draw per node, inner data from the operator list and leaf data from the operand list; it fails exactly when a list it needs is empty or h is negative, a negative h with operators being the unbounded recursion |
| TrunkTrees.PerfectOfHeight | trunk/src/edu/stthomas/seis610/tree/GeneticProgrammingTree.java:22-36 | for a height of 0 or more, the constructor fails exactly when a list it draws from is empty, and otherwise builds the perfect tree |
| TrunkTrees.MutateWalk | trunk/src/edu/stthomas/seis610/tree/GeneticProgrammingTree.java:47-54 | the walk stays on existing nodes, takes one draw per step and goes at most one level down per step |
| TrunkTrees.MutateWalkStep | trunk/src/edu/stthomas/seis610/tree/GeneticProgrammingTree.java:48-53 | one step moves into the child the draw names when that child exists and otherwise stays put |
| TrunkTrees.CrossWalk | trunk/src/edu/stthomas/seis610/tree/GeneticProgrammingTree.java:75-86 | the walk stays on existing nodes, takes one draw per step, and from an inner node never ends on a leaf |
| TrunkTrees.CrossWalkStep | trunk/src/edu/stthomas/seis610/tree/GeneticProgrammingTree.java:76-85 | one step moves into the child the draw names only when that child exists and is not a leaf |
| TrunkTrees.CrossOverSpecAt | trunk/src/edu/stthomas/seis610/tree/GeneticProgrammingTree.java:66-121 | crossOver is the level draw, the two walks of that many steps, two slot draws, and the exchange of the two chosen slots |
| TrunkTrees.SwapSlotsAt | trunk/src/edu/stthomas/seis610/tree/GeneticProgrammingTree.java:101-119 | slot draw 0 names the left child and 1 the right one, and the two named slots exchange their subtrees |
| TrunkTrees.MutatePreserves | trunk/src/edu/stthomas/seis610/tree/GeneticProgrammingTree.java:41-64 | mutate keeps the shape, size and height and changes the data of one node at most height levels down, to an operand for a leaf and an operator otherwise; the old data put back restores the tree; it fails only when the list it draws from is empty |
| TrunkTrees.MutatedAt | trunk/src/edu/stthomas/seis610/tree/GeneticProgrammingTree.java:58-61 | setData on the chosen node changes that node's data and nothing else, and is undone by the old data |
| TrunkTrees.CrossOverPreserves | trunk/src/edu/stthomas/seis610/tree/GeneticProgrammingTree.java:66-121 | crossOver fails exactly on a tree of height 0, where nextInt(0) is refused; otherwise the two trees together keep their node count and it takes the level draw, two walks of that length and two slot draws |
| TrunkTrees.GeneticProgrammingTree.constructor | trunk/src/edu/stthomas/seis610/tree/GeneticProgrammingTree.java:16-18 | the tree is rooted at the given node |
| TrunkTrees.GeneticProgrammingTree.MutationPoint | trunk/src/edu/stthomas/seis610/tree/GeneticProgrammingTree.java:47-54 | the loop ends on the node the walk reaches and advances the generator by one draw per step |
| TrunkTrees.GeneticProgrammingTree.Mutate | trunk/src/edu/stthomas/seis610/tree/GeneticProgrammingTree.java:41-64 | the tree after mutate is the one MutatePreserves describes, and a failed draw leaves the tree as it was |
| TrunkTrees.GeneticProgrammingTree.CrossOver | trunk/src/edu/stthomas/seis610/tree/GeneticProgrammingTree.java:66-121 | both trees after crossOver are those CrossOverPreserves describes, and a tree of height 0 is left unchanged with the fault |
| TrunkTrees.WalkDown | trunk/src/edu/stthomas/seis610/tree/GeneticProgrammingTree.java:75-86 | each walk loop ends on the node CrossWalk reaches |
| TrunkTrees.OfHeight | trunk/src/edu/stthomas/seis610/tree/GeneticProgrammingTree.java:20-39 | the tree built is a fresh object rooted at the tree OfHeightShape describes, and a failure is its fault |
| Strings.IntToString | src/edu/stthomas/seis610/gp/GPSettings.java:461-490 | the decimal rendering of an int starts with a minus sign exactly when the int is negative |
| Strings.ParseInteger | src/edu/stthomas/seis610/gp/GPSettings.java:392-403 | Integer.parseInt and Long.parseLong accept only values in their range, and reject the empty string with a NumberFormat failure |
| Strings.ParseIntToString | src/edu/stthomas/seis610/gp/GPSettings.java:392-403 | parsing the rendering that setIntProperty stores gives the same integer back |
| Strings.SplitJoin | src/edu/stthomas/seis610/gp/GPSettings.java:417-437 | splitting a comma-joined list gives the list back when no element holds a comma and the last is not empty |
| Strings.TrimIsTrimmed | src/edu/stthomas/seis610/gp/GPSettings.java:417-425 | String.trim leaves no leading or trailing blank |
| Strings.TrimOfTrimmed | src/edu/stthomas/seis610/gp/GPSettings.java:417-425 | String.trim leaves a trimmed token unchanged |
| Randomness.Draw | trunk/src/edu/stthomas/seis610/gp/GPSettings.java:108-110 | a draw for a positive bound lies below the bound |
| Randomness.Random.NextInt | src/edu/stthomas/seis610/gp/GPSettings.java:126-128 | nextInt gives the stream's next draw, in [0, bound), and advances the stream by one |
| Training.SetInputData | src/edu/stthomas/seis610/gp/TrainingData.java:16-18 | the input is replaced and the output kept |
| Training.SetOutputData | src/edu/stthomas/seis610/gp/TrainingData.java:24-26 | the output is replaced and the input kept |
| Training.CalculatePerfectOutput | src/edu/stthomas/seis610/gp/TrainingData.java:39-42 | the selected target (2x^2-4)/2 equals x^2-2 |
| Training.PerfectOutputEven | src/edu/stthomas/seis610/gp/TrainingData.java:64-66 | the selected target is even |
| Training.PerfectOutputMinimum | src/edu/stthomas/seis610/gp/TrainingData.java:64-66 | the selected target is at least -2, and equals -2 exactly at 0 |
| TrunkTraining.SetInputData | trunk/src/edu/stthomas/seis610/gp/TrainingData.java:16-18 | the input is replaced and the output kept |
| TrunkTraining.SetOutputData | trunk/src/edu/stthomas/seis610/gp/TrainingData.java:24-26 | the output is replaced and the input kept |
| TrunkTraining.PerfectOutputShape | trunk/src/edu/stthomas/seis610/gp/TrainingData.java:39-41 | (x^2-1)/2 is even, at least -1/2, and -1/2 exactly at 0 |
| TrunkTraining.DefaultOutputValues | trunk/src/edu/stthomas/seis610/test/SettingsTest.java:233-250 | on the inputs -5..5 the target gives 12, 7.5, 4, 1.5, 0, -0.5, 0, 1.5, 4, 7.5, 12 |
| Properties.IntProperty | src/edu/stthomas/seis610/gp/GPSettings.java:392-394 | a property that does not parse as an int fails with NumberFormat |
| Properties.IntPropertyStored | src/edu/stthomas/seis610/gp/GPSettings.java:461-490 | what setIntProperty stores under a key, getIntProperty reads back, whatever the default |
| Properties.RemoveFirstFacts | src/edu/stthomas/seis610/gp/GPSettings.java:570-573 | Vector.remove drops one copy of the value, and nothing when it is absent, leaving the other values in order |
| Properties.AddedFacts | src/edu/stthomas/seis610/gp/GPSettings.java:570-573 | remove-then-add keeps every value, puts the added value last, keeps the order of the others, and never duplicates it |
| Properties.AddedTwice | src/edu/stthomas/seis610/gp/GPSettings.java:570-573 | adding the same value twice is the same as adding it once |
| Properties.AddedMoves | src/edu/stthomas/seis610/gp/GPSettings.java:570-573 | an earlier copy of the value moves to the end and the rest close up |
| Properties.TokensOfJoin | src/edu/stthomas/seis610/gp/GPSettings.java:579-590 | reloading the written-back string (split on commas, trimmed) gives the list again for comma-free trimmed tokens |
| Properties.AddedStorable | src/edu/stthomas/seis610/gp/GPSettings.java:570-590 | adding a comma-free trimmed value keeps the list reloadable |
| Properties.AddedReloads | src/edu/stthomas/seis610/gp/GPSettings.java:570-590 | after an update, a reload of the stored string gives the updated list |
| Properties.CommaJoin | src/edu/stthomas/seis610/gp/GPSettings.java:579-583 | the StringBuffer loop builds the list joined by commas |
| Properties.SplitTrimmed | src/edu/stthomas/seis610/gp/GPSettings.java:417-425 | the load loop gives one trimmed token per comma-separated piece |
| Settings.RandomSeedAsWritten | src/edu/stthomas/seis610/gp/GPSettings.java:228-235 | getRandomSeed as written: no seed and no failure, whatever the properties say |
| Settings.RandomSeed | src/edu/stthomas/seis610/gp/GPSettings.java:228-235 | the intended seed: none while the property reads "null" or is absent, otherwise a long, or a NumberFormat failure |
| Settings.RandomSeedStored | src/edu/stthomas/seis610/gp/GPSettings.java:228-251 | without a seed property there is no seed; a stored decimal seed is read back |
| Settings.DefaultOperatorTokens | src/edu/stthomas/seis610/gp/GPSettings.java:66-67 | the default operator string loads as ADD, SUB, MUL, DIV, and the operand string as -9..9 and x |
| Settings.OperatorUpdatesExample | trunk/src/edu/stthomas/seis610/test/SettingsTest.java:87-104 | ADD,SUB,MUL,DIV followed by POW, DIV, SIN, COS, ADD gives SUB,MUL,POW,DIV,SIN,COS,ADD |
| Settings.OperatorUpdatesReload | trunk/src/edu/stthomas/seis610/test/SettingsTest.java:119-131 | the string that run stores reloads to the same list |
| Settings.LoadedFacts | src/edu/stthomas/seis610/gp/GPSettings.java:442-451 | the training cache holds one pair per token when each parses, with the target function's output; otherwise it stops at the first rejected token |
| Settings.DefaultIntegers | src/edu/stthomas/seis610/gp/GPSettings.java:68-73 | the integer defaults are population 400, tournament 6, generations 500000 and heights 4, 10 and 2 |
| Settings.GPSettings.GetRandomInt | src/edu/stthomas/seis610/gp/GPSettings.java:126-128 | a positive bound gives the live generator's next draw; a bound below 1 fails with IllegalArgument and draws nothing |
| Settings.GPSettings.RecycleRandomGenerator | src/edu/stthomas/seis610/gp/GPSettings.java:133-139 | a new generator that is never seeded, since getRandomSeed answers null; the stored seed agrees with the seed property exactly when that property names none; nothing else changes |
| Settings.GPSettings.SetRandomSeed | src/edu/stthomas/seis610/gp/GPSettings.java:240-251 | "null" installs an unseeded generator, anything else reseeds the live one with its parsed long; a malformed value fails before anything is stored; the value is stored as given |
| Settings.GPSettings.SetIntProperty | src/edu/stthomas/seis610/gp/GPSettings.java:461-490 | the decimal value is stored under the key and nothing else changes |
| Settings.GPSettings.GetOperators | src/edu/stthomas/seis610/gp/GPSettings.java:186-195 | a non-empty cache is returned unchanged; an empty one is filled from the operator string, split and trimmed |
| Settings.GPSettings.GetOperands | src/edu/stthomas/seis610/gp/GPSettings.java:207-216 | the same for the operand cache |
| Settings.GPSettings.AddOperators | src/edu/stthomas/seis610/gp/GPSettings.java:556-590 | the cached list as it stands gets the value moved to its end, and the operator property becomes the list joined with commas |
| Settings.GPSettings.AddOperands | src/edu/stthomas/seis610/gp/GPSettings.java:607-641 | the same for the operand list and property |
| Settings.GPSettings.SetTrainingInputString | src/edu/stthomas/seis610/gp/GPSettings.java:375-378 | the input string is stored and the cached pairs dropped |
| Settings.GPSettings.GetTrainingData | src/edu/stthomas/seis610/gp/GPSettings.java:442-451 | a non-empty cache is returned unchanged; an empty one is filled with one pair per token, and a token that does not parse fails with NumberFormat |
| Settings.LoadPairs | src/edu/stthomas/seis610/gp/GPSettings.java:443-449 | the load loop gives the pairs of the leading tokens that parse and reports whether all did |
| Settings.Load | src/edu/stthomas/seis610/gp/GPSettings.java:83-107 | the loaded properties, empty caches and an unseeded generator, since getRandomSeed answers null; the generator agrees with the seed property exactly when that property names none |
| TrunkSettings.RandomSeed | trunk/src/edu/stthomas/seis610/gp/GPSettings.java:199-201 | Long.parseLong of the seed property or of "12345"; a malformed property fails |
| TrunkSettings.Quot | trunk/src/edu/stthomas/seis610/gp/GPSettings.java:216-218 | Java's int division truncates toward zero on both signs |
| TrunkSettings.NumCrossOversFollowsPopulation | trunk/src/edu/stthomas/seis610/gp/GPSettings.java:216-219 | without a crossover property the count is the population divided by 4 rounded toward zero; a stored count is read back |
| TrunkSettings.Defaults | trunk/src/edu/stthomas/seis610/gp/GPSettings.java:53-63 | with no properties: population 100, 25 crossovers, seed 12345, 10 training points, heights 4 and 20 |
| TrunkSettings.GPSettings.GetRandomInt | trunk/src/edu/stthomas/seis610/gp/GPSettings.java:108-110 | a positive bound gives the live generator's next draw; a bound below 1 fails |
| TrunkSettings.GPSettings.SetRandomSeed | trunk/src/edu/stthomas/seis610/gp/GPSettings.java:206-211 | the live generator restarts from the value and the value is stored, so property and generator agree |
| TrunkSettings.GPSettings.SetIntProperty | trunk/src/edu/stthomas/seis610/gp/GPSettings.java:344-374 | the decimal value is stored under the key and nothing else changes |
| TrunkSettings.GPSettings.GetOperators | trunk/src/edu/stthomas/seis610/gp/GPSettings.java:314-325 | a non-empty cache is returned unchanged; an empty one is filled from the operator string, split and trimmed |
| TrunkSettings.GPSettings.GetOperands | trunk/src/edu/stthomas/seis610/gp/GPSettings.java:327-334 | the same for the operand cache |
| TrunkSettings.GPSettings.SetOperators | trunk/src/edu/stthomas/seis610/gp/GPSettings.java:439-465 | the value moves to the end of the cached list and the property becomes the list joined with commas by concatenation |
| TrunkSettings.GPSettings.SetOperands | trunk/src/edu/stthomas/seis610/gp/GPSettings.java:489-515 | the same for the operand list and property |
| TrunkSettings.Load | trunk/src/edu/stthomas/seis610/gp/GPSettings.java:68-89 | the generator is always seeded, from the property or with 12345; a malformed seed fails with NumberFormat |
| Fitness.Plus | src/edu/stthomas/seis610/gp/FitnessDatum.java:90-122 | the Double sum add relies on: NaN if either side is NaN or the infinities are opposite, the exact sum of finite values, and finite only for two finite values |
| Fitness.Abs | src/edu/stthomas/seis610/gp/FitnessDatum.java:192-194 | Math.abs is NaN only for NaN, never -Infinity, and for a finite value its non-negative magnitude |
| Fitness.Compare | src/edu/stthomas/seis610/gp/FitnessDatum.java:124-137 | Double.compareTo gives -1, 0 or 1, 0 exactly for equal values, orders -Infinity, the finite values, +Infinity and NaN in that order, and finite values by size |
| Fitness.CompareTotalOrder | src/edu/stthomas/seis610/gp/FitnessDatum.java:124-137 | Double.compareTo is antisymmetric and transitive |
| Fitness.Accumulate | src/edu/stthomas/seis610/gp/FitnessDatum.java:90-122 | two numbers are summed; an unset receiver takes the other value as it is; a NaN argument leaves a number receiver unchanged |
| Fitness.AccumulateAllSum | src/edu/stthomas/seis610/gp/FitnessDatum.java:90-122 | adding finite-or-NaN values one after another gives the start plus the sum of the finite ones, and stays unset only when the start and every value were unset |
| Fitness.AccumulateFromZero | src/edu/stthomas/seis610/gp/FitnessDatum.java:63 | a cleared datum accumulates exactly the sum of the finite values added |
| Fitness.FitnessDatum.constructor | src/edu/stthomas/seis610/gp/FitnessDatum.java:20 | a new datum is unset and not valid |
| Fitness.FitnessDatum.FromValue | src/edu/stthomas/seis610/gp/FitnessDatum.java:26 | the datum holds the value given |
| Fitness.FitnessDatum.GetStandardizedFitness | src/edu/stthomas/seis610/gp/FitnessDatum.java:41-44 | the reading is never NaN: the stored value when valid and +Infinity otherwise |
| Fitness.FitnessDatum.SetStandardizedFitness | src/edu/stthomas/seis610/gp/FitnessDatum.java:49 | the datum holds the value given |
| Fitness.FitnessDatum.SetFromDatum | src/edu/stthomas/seis610/gp/FitnessDatum.java:56 | the datum holds the other datum's reading and is therefore valid |
| Fitness.FitnessDatum.Clear | src/edu/stthomas/seis610/gp/FitnessDatum.java:63 | the datum is a valid zero |
| Fitness.FitnessDatum.Reset | src/edu/stthomas/seis610/gp/FitnessDatum.java:71 | the datum is unset again |
| Fitness.FitnessDatum.Add | src/edu/stthomas/seis610/gp/FitnessDatum.java:90-106 | the receiver, returned, holds the accumulation of the two stored values |
| Fitness.FitnessDatum.AddDouble | src/edu/stthomas/seis610/gp/FitnessDatum.java:108-122 | the receiver, returned, holds the accumulation of its value and the number |
| Fitness.FitnessDatum.CompareTo | src/edu/stthomas/seis610/gp/FitnessDatum.java:124-137 | two invalid datums compare equal, an invalid datum is above every finite one, and valid datums compare as their values do |
| Fitness.FitnessDatum.Equals | src/edu/stthomas/seis610/gp/FitnessDatum.java:147-159 | equals holds exactly for a non-null datum that compares equal |
| Fitness.FitnessDatum.Clone | src/edu/stthomas/seis610/gp/FitnessDatum.java:162-175 | the clone is a new valid datum holding the reading, comparing equal to the original, and holding its value when the original is valid |
| Fitness.FitnessDatum.ToString | src/edu/stthomas/seis610/gp/FitnessDatum.java:177-180 | an invalid datum prints as *Invalid, the infinities as Java prints them, and a finite value through Double.toString |
| Fitness.CalculateStandardizedFitness | src/edu/stthomas/seis610/gp/FitnessDatum.java:192-194 | the distance from the target output is never negative, NaN exactly for a NaN measurement, +Infinity for an infinite one, and zero exactly on target |
| Fitness.InvalidOrdering | src/edu/stthomas/seis610/gp/FitnessDatum.java:124-159 | two invalid datums are equal, and an invalid datum is worse than any finite one in both directions of compareTo and is not equal to it |
| Fitness.CompareToPreorder | src/edu/stthomas/seis610/gp/FitnessDatum.java:124-137 | compareTo on datums is reflexive, antisymmetric in sign and transitive |
| Fitness.Deviations | src/edu/stthomas/seis610/gp/FitnessDatum.java:192-194 | one deviation per training pair, each finite or NaN |
| Fitness.FixtureDataOnTarget | src/edu/stthomas/seis610/gp/TrainingData.java:53-55 | every fixture training pair has the output of the initial target (x*x-1)/2 |
| Fitness.SixMinusTwoOverFourIsOne | src/edu/stthomas/seis610/test/GPGenericTest.java:52-75 | the test tree (6-2)/4 has the value 1 at every input |
| Fitness.PerfectValue | src/edu/stthomas/seis610/test/GPGenericTest.java:80-107 | the perfect tree ((x*x)-1)/2 computes the target function |
| Fitness.SixMinusTwoOverFourDeviation | src/edu/stthomas/seis610/test/GPGenericTest.java:142-149 | the deviation of (6-2)/4 from a pair is the distance of its output from 1 |
| Fitness.SixMinusTwoOverFourFixtureDeviations | src/edu/stthomas/seis610/test/GPGenericTest.java:142-149 | the deviations of (6-2)/4 from the default pairs are the listed distances |
| Fitness.SixMinusTwoOverFourDeviationsOf | src/edu/stthomas/seis610/test/GPGenericTest.java:142-149 | on any pairs, the deviations of (6-2)/4 are the distances of the outputs from 1 |
| Fitness.SixMinusTwoOverFourDeviationsSum | src/edu/stthomas/seis610/test/GPGenericTest.java:146 | those distances add up to 45.5 |
| Fitness.FixtureFitnessOfSixMinusTwoOverFour | src/edu/stthomas/seis610/test/GPGenericTest.java:142-149 | a cleared datum accumulating the deviations of (6-2)/4 on the default pairs reaches 45.5 |
| Fitness.FixtureFitnessOfPerfect | src/edu/stthomas/seis610/test/GPGenericTest.java:152-161 | the same accumulation for the perfect tree stays 0 |
| Fitness.PerfectFitness | src/edu/stthomas/seis610/test/GPGenericTest.java:152-161 | on any pairs of the target function, the perfect tree's accumulated deviation is 0 |
| Fitness.FiniteSumOfZeros | src/edu/stthomas/seis610/gp/FitnessDatum.java:90-122 | a sum of zeros is zero |
| Generation.CompareFitness | src/edu/stthomas/seis610/gp/GPGeneration.java:189 | individuals compare by their fitness datums: two unset fitnesses tie, an unset one is above every finite one, and set ones compare as Double.compareTo does |
| Generation.CompareFitnessPreorder | src/edu/stthomas/seis610/gp/GPGeneration.java:186-195 | that comparison is antisymmetric and transitive, and strict through any strict step |
| Generation.CompareFitnessIsDatumCompare | src/edu/stthomas/seis610/gp/FitnessDatum.java:124-137 | the comparison of two individuals is FitnessDatum.compareTo on their datums, and their readings are getValue |
| Generation.FirstMin | src/edu/stthomas/seis610/gp/GPGeneration.java:186-195 | the scan's position is inside the population |
| Generation.FirstMinIsFirstMin | src/edu/stthomas/seis610/gp/GPGeneration.java:186-195 | the scan ends on the first minimal element, every earlier one strictly above it, and that position is unique |
| Generation.FirstMinStep | src/edu/stthomas/seis610/gp/GPGeneration.java:188-192 | the scan's last step keeps the first-minimum property |
| Generation.FirstMinLast | src/edu/stthomas/seis610/gp/GPGeneration.java:189-190 | a last element strictly below the earlier best becomes the best |
| Generation.FirstMinKept | src/edu/stthomas/seis610/gp/GPGeneration.java:189-190 | a last element not strictly below the earlier best leaves it the best |
| Generation.InsertFacts | src/edu/stthomas/seis610/gp/GPGeneration.java:247 | one insertion step adds exactly the element, and the new head is the element only when it is strictly below the old head |
| Generation.InsertSorted | src/edu/stthomas/seis610/gp/GPGeneration.java:247 | inserting into an ascending list keeps it ascending |
| Generation.InsertLowerBound | src/edu/stthomas/seis610/gp/GPGeneration.java:280-281 | a lower bound of a list and of an element stays a lower bound after the insertion |
| Generation.SortFacts | src/edu/stthomas/seis610/gp/GPGeneration.java:247 | Collections.sort gives an ascending permutation of the list whose head is the first minimum the scan of getBestIndividual finds |
| Generation.SortLength | src/edu/stthomas/seis610/gp/GPGeneration.java:247 | sorting keeps the length |
| Generation.InsertLength | src/edu/stthomas/seis610/gp/GPGeneration.java:247 | an insertion adds one element |
| Generation.SortHead | src/edu/stthomas/seis610/gp/GPGeneration.java:280-281 | the head of the sorted list is the first minimum of the list |
| Generation.SortedPrefixIsTop | src/edu/stthomas/seis610/gp/GPGeneration.java:244-250 | every individual among the first k of the sorted population is no worse than every individual after them |
| Generation.GenerationMethodOf | src/edu/stthomas/seis610/gp/GPGeneration.java:27-30 | valueOf gives the constant whose name is the string, and fails with IllegalArgument otherwise |
| Generation.GenerationMethodRoundTrip | src/edu/stthomas/seis610/gp/GPGeneration.java:27-30 | valueOf of a constant's name gives that constant |
| Generation.ReproductionMethodOf | src/edu/stthomas/seis610/gp/GPGeneration.java:31-32 | valueOf gives the constant whose name is the string, and fails with IllegalArgument otherwise |
| Generation.ReproductionMethodRoundTrip | src/edu/stthomas/seis610/gp/GPGeneration.java:31-32 | valueOf of a constant's name gives that constant |
| Generation.ReproductionCount | src/edu/stthomas/seis610/gp/GPGeneration.java:157-160 | the reproduction count is at least 1 and otherwise the rounded share (1 - p) of the population |
| Generation.CrossoverCount | src/edu/stthomas/seis610/gp/GPGeneration.java:169-171 | the crossover count is at least 2 and otherwise the rounded share p of the population |
| Generation.RoundComplement | src/edu/stthomas/seis610/gp/GPGeneration.java:150-171 | rounding a share and its complement gives the whole, or one more at a half |
| Generation.CountsFillPopulation | src/edu/stthomas/seis610/gp/GPGeneration.java:150-171 | unless a minimum takes over, the two counts refill the population, with one extra individual when p * N lies half-way between integers |
| Generation.CountsOfTwelve | src/edu/stthomas/seis610/gp/GPGeneration.java:157-171 | twelve individuals with crossover probability 0.7 reproduce 4 and cross over 8 |
| Generation.Quot | src/edu/stthomas/seis610/gp/GPGeneration.java:85 | Java's int division agrees with Dafny's on non-negative operands |
| Generation.Batch | src/edu/stthomas/seis610/gp/GPGeneration.java:85-95 | every batch count is at least 1 |
| Generation.InitSize | src/edu/stthomas/seis610/gp/GPGeneration.java:71-115 | an unknown method name fails with IllegalArgument; the other failure is the division by zero of a ramped method with a maximum height of 1 |
| Generation.InitSizeExamples | src/edu/stthomas/seis610/gp/GPGeneration.java:64-67 | population 3 adds 6 trees for ramped half-and-half at height 4 and 4 for ramped Grow at height 5, fails for a ramped method at height 1, and adds 3 for Full: no top-up to the population size |
| Generation.Picks | src/edu/stthomas/seis610/gp/GPGeneration.java:273-277 | the n entrants are drawn with replacement, the i-th at draw pos + i below the population size |
| Generation.Entrants | src/edu/stthomas/seis610/gp/GPGeneration.java:280 | the sorted tournament list has one entry per draw |
| Generation.EntrantsAreSortedPicks | src/edu/stthomas/seis610/gp/GPGeneration.java:273-280 | the sorted tournament list is Collections.sort of the drawn entrants |
| Generation.Retried | src/edu/stthomas/seis610/gp/GPGeneration.java:291 | a deeper tournament's winner, stream, entrants and failure pass up unchanged, with one round more |
| Generation.TournamentOutcome | src/edu/stthomas/seis610/gp/GPGeneration.java:270-296 | a tournament size below 1 fails at firstElement and an empty population at nextInt(0); otherwise at most 6 - level tournaments are held, the winner is a qualifying member of the population unless all of them were held, and the last entrants are sorted |
| Generation.TournamentHeld | src/edu/stthomas/seis610/gp/GPGeneration.java:270-281 | with a tournament size and a population, the winner is decided on the sorted entrants of the draws |
| Generation.TournamentFaults | src/edu/stthomas/seis610/gp/GPGeneration.java:271-281 | the two failures before anything is sorted: no entrants, or no population to draw from |
| Generation.TournamentHeadWins | src/edu/stthomas/seis610/gp/GPGeneration.java:281-295 | when the head of the sorted entrants has a valid fitness and a valid tree, it wins after one tournament |
| Generation.TournamentGrows | src/edu/stthomas/seis610/gp/GPGeneration.java:287-289 | at level 5 an unqualified head gives way to a Grow tree of the initial height with unset fitness |
| Generation.TournamentRetries | src/edu/stthomas/seis610/gp/GPGeneration.java:290-291 | below level 5 an unqualified head leaves the outcome to the next tournament, one level deeper |
| Generation.RealizedRetry | src/edu/stthomas/seis610/gp/GPGeneration.java:291 | what a deeper call returns is what the retrying call returns |
| Generation.EntrantsSorted | src/edu/stthomas/seis610/gp/GPGeneration.java:280 | the sorted tournament list is ascending |
| Generation.EntrantsHead | src/edu/stthomas/seis610/gp/GPGeneration.java:280-281 | its head is the first minimum of the entrants in the order drawn, and so a member of the population |
| Generation.PicksMember | src/edu/stthomas/seis610/gp/GPGeneration.java:276 | every entrant is a member of the population |
| Generation.TournamentFirstRound | src/edu/stthomas/seis610/gp/GPGeneration.java:280-284 | a qualifying first minimum of the drawn entrants wins at once |
| Generation.Won | src/edu/stthomas/seis610/gp/GPGeneration.java:229-231 | a winner is appended and the stream moves on, or the run fails with the tournament's fault |
| Generation.TournamentRunsOutcome | src/edu/stthomas/seis610/gp/GPGeneration.java:229-231 | n tournaments give n winners, each a qualifying member of the population or a Grow tree, and fail only as one tournament does |
| Generation.TournamentRunsUnfold | src/edu/stthomas/seis610/gp/GPGeneration.java:229-231 | j + 1 tournaments are j of them followed by one more |
| Generation.MoreRunsOk | src/edu/stthomas/seis610/gp/GPGeneration.java:229-231 | after j successful tournaments, one more is held from the draw they left |
| Generation.MoreRunsErr | src/edu/stthomas/seis610/gp/GPGeneration.java:229-231 | after a failure no more tournaments are held |
| Generation.WinnerAppended | src/edu/stthomas/seis610/gp/GPGeneration.java:230 | appending a chosen winner keeps every winner chosen and counts one more |
| Generation.TournamentRunsFailed | src/edu/stthomas/seis610/gp/GPGeneration.java:229-231 | a failure ends the loop with that fault |
| Generation.TournamentRunsStep | src/edu/stthomas/seis610/gp/GPGeneration.java:229-231 | one more run of tournamentSelection extends the winners by its result or ends the loop with its fault |
| Generation.RandomTreeNode | src/edu/stthomas/seis610/tree/BinaryTree.java:80-84 | getRandomTreeNode names a node of the tree |
| Generation.SubtreeAtAllValid | src/edu/stthomas/seis610/gp/GPGeneration.java:332-333 | a subtree of a tree whose nodes are all valid has all nodes valid |
| Generation.ReplaceAtAllValid | src/edu/stthomas/seis610/gp/GPGeneration.java:342-368 | hanging a valid subtree into a valid tree keeps it valid |
| Generation.SwapPreserves | src/edu/stthomas/seis610/gp/GPGeneration.java:336-368 | the swap loses and copies no node: the counts add up as before, each point holds the other tree's subtree, and valid trees stay valid |
| Generation.SwappedAt | src/edu/stthomas/seis610/gp/GPGeneration.java:323-368 | the offspring are the reset clones crossed at the nodes the two draws name |
| Generation.CrossoverOutcome | src/edu/stthomas/seis610/gp/GPGeneration.java:320-386 | both offspring have unset fitness, every flag set, and are within the crossover height or are Grow trees; when neither swapped tree is too high they are the swapped trees, which together hold exactly the parents' nodes |
| Generation.FirstParent | src/edu/stthomas/seis610/gp/GPGeneration.java:308 | the first tournament of a pass decides the first parent or the pass's failure |
| Generation.SecondParent | src/edu/stthomas/seis610/gp/GPGeneration.java:309-310 | the second tournament decides the second parent or the pass's failure, then the crossover operation follows |
| Generation.CrossoverRoundOutcome | src/edu/stthomas/seis610/gp/GPGeneration.java:307-311 | a pass of the loop breeds two offspring and fails only as a tournament or the operation does |
| Generation.CrossoverRoundsOutcome | src/edu/stthomas/seis610/gp/GPGeneration.java:304-313 | k passes breed 2k offspring, each unset, flagged and within the height guard |
| Generation.PassThenOutcome | src/edu/stthomas/seis610/gp/GPGeneration.java:307-311 | a pass and the j after it breed 2(j + 1) offspring or fail as one pass does |
| Generation.AfterPassOutcome | src/edu/stthomas/seis610/gp/GPGeneration.java:307-311 | what j passes breed after a pass, given what the pass bred |
| Generation.CrossoverRoundsUnfold | src/edu/stthomas/seis610/gp/GPGeneration.java:307-311 | k passes are a first pass and the k - 1 after it |
| Generation.BredPrepended | src/edu/stthomas/seis610/gp/GPGeneration.java:310 | two offspring in front of what j passes breed are 2(j + 1) offspring |
| Generation.CrossoverRoundsStep | src/edu/stthomas/seis610/gp/GPGeneration.java:307-311 | one more pass of the loop moves its offspring into the list and leaves the rest of the passes to breed the remainder |
| Generation.PassPrepended | src/edu/stthomas/seis610/gp/GPGeneration.java:310 | the offspring a pass appends lie in front of what the later passes breed |
| Generation.OffspringPrepended | src/edu/stthomas/seis610/gp/GPGeneration.java:310 | two offspring put in front of offspring are all offspring |
| Generation.CrossoverPassCount | src/edu/stthomas/seis610/gp/GPGeneration.java:307 | the loop runs until it holds at least getCrossoverCount offspring, two per pass: that count rounded up to even |
| Generation.PassesLeft | src/edu/stthomas/seis610/gp/GPGeneration.java:307 | another pass is due exactly while fewer than getCrossoverCount offspring are held |
| Generation.PrependNothing | src/edu/stthomas/seis610/gp/GPGeneration.java:306 | the cleared list adds nothing in front of what the passes breed |
| Generation.RoundsDone | src/edu/stthomas/seis610/gp/GPGeneration.java:312 | with no passes left the list held is the result |
| Generation.MutateCountBounds | src/edu/stthomas/seis610/gp/GPGeneration.java:400 | no mutation happens in an empty population, so nextInt(0) is never reached, and at most N happen for a probability up to 1 |
| Generation.MutateAt | src/edu/stthomas/seis610/gp/GPGeneration.java:403-414 | one mutation keeps the population size |
| Generation.Draws | src/edu/stthomas/seis610/gp/GPGeneration.java:402 | each mutation index is below the population size |
| Generation.MutationsFrame | src/edu/stthomas/seis610/gp/GPGeneration.java:397-417 | mutation keeps the population size and leaves every individual no draw picked as it was |
| Generation.Scored | src/edu/stthomas/seis610/gp/GPGeneration.java:144-148 | scoring keeps every tree and gives each individual its tree's fitness |
| Generation.FullTree | src/edu/stthomas/seis610/tree/GPTreeFactory.java:151-166 | the individual holds the Full build's tree with unset fitness, every leaf at the requested depth |
| Generation.GrowTree | src/edu/stthomas/seis610/tree/GPTreeFactory.java:179-199 | the individual holds the Grow build's tree with unset fitness, between 1 and the requested height |
| Generation.GPGeneration.constructor | src/edu/stthomas/seis610/gp/GPGeneration.java:45-53 | a generation starts with an empty population and empty working lists |
| Generation.GPGeneration.Init | src/edu/stthomas/seis610/gp/GPGeneration.java:71-125 | init appends InitSize trees, each of the shape its method and position give, keeps the earlier individuals' trees, scores every fitness, and fails for an unknown method name |
| Generation.GPGeneration.AddRampedHalfAndHalf | src/edu/stthomas/seis610/gp/GPGeneration.java:80-92 | for each height from 2 to H, batch pairs of a Full and a Grow tree of that height are appended |
| Generation.GPGeneration.AddHalfAndHalfBatch | src/edu/stthomas/seis610/gp/GPGeneration.java:87-90 | one height's batch of pairs is appended in position order |
| Generation.GPGeneration.AddHalfAndHalfPair | src/edu/stthomas/seis610/gp/GPGeneration.java:88-89 | a Full tree and then a Grow tree of the ramp's height are appended |
| Generation.GPGeneration.AddRamped | src/edu/stthomas/seis610/gp/GPGeneration.java:93-105 | for each height from 2 to H, a batch of Full or of Grow trees of that height is appended |
| Generation.GPGeneration.AddRampedBatch | src/edu/stthomas/seis610/gp/GPGeneration.java:97-103 | one height's batch is appended in position order |
| Generation.GPGeneration.AddRampedOne | src/edu/stthomas/seis610/gp/GPGeneration.java:98-102 | one Full or Grow tree of the ramp's height is appended |
| Generation.GPGeneration.AddUniform | src/edu/stthomas/seis610/gp/GPGeneration.java:106-115 | N trees of the maximum initial height are appended |
| Generation.GPGeneration.ScoreFitness | src/edu/stthomas/seis610/gp/GPGeneration.java:144-148 | every individual's fitness is calculated from its tree |
| Generation.GPGeneration.GetBestIndividual | src/edu/stthomas/seis610/gp/GPGeneration.java:186-195 | the best individual is a member no worse than every other, the first such; an empty population fails in firstElement |
| Generation.GPGeneration.NaturalSelection | src/edu/stthomas/seis610/gp/GPGeneration.java:244-250 | the population is sorted in place and its first k are returned; subList refuses a k above the size or below zero |
| Generation.GPGeneration.DrawEntrants | src/edu/stthomas/seis610/gp/GPGeneration.java:272-277 | the tournament list holds the drawn entrants; it fails only with no population to draw from |
| Generation.GPGeneration.SortEntrants | src/edu/stthomas/seis610/gp/GPGeneration.java:280 | the tournament list becomes its sort |
| Generation.GPGeneration.TournamentSelection | src/edu/stthomas/seis610/gp/GPGeneration.java:270-296 | the winner, the stream and the tournament list are those TournamentOutcome describes |
| Generation.GPGeneration.TournamentWinner | src/edu/stthomas/seis610/gp/GPGeneration.java:281-295 | the rest of the selection after the sort realizes the outcome on the sorted entrants |
| Generation.GPGeneration.TournamentFallback | src/edu/stthomas/seis610/gp/GPGeneration.java:287-289 | at level 5 the result is the Grow tree |
| Generation.GPGeneration.TournamentRetry | src/edu/stthomas/seis610/gp/GPGeneration.java:290-291 | below level 5 the result is the deeper tournament's |
| Generation.GPGeneration.Reproduction | src/edu/stthomas/seis610/gp/GPGeneration.java:210-235 | natural selection sorts the population and keeps its first getReproductionCount individuals, refused by subList if too few; tournament selection leaves the population and collects the winners of that many tournaments; an unknown method name fails |
| Generation.GPGeneration.TournamentReproduction | src/edu/stthomas/seis610/gp/GPGeneration.java:229-231 | the cleared list receives the winners of count tournaments |
| Generation.GPGeneration.ReproduceOne | src/edu/stthomas/seis610/gp/GPGeneration.java:230 | one more winner is appended, or the loop ends with the tournament's fault |
| Generation.GPGeneration.Guarded | src/edu/stthomas/seis610/gp/GPGeneration.java:374-385 | an offspring within the crossover height is kept and otherwise replaced by a Grow tree of the initial height |
| Generation.GPGeneration.CrossoverOperation | src/edu/stthomas/seis610/gp/GPGeneration.java:320-386 | the list receives the two offspring CrossoverOutcome describes, or on a failed Grow build at most the first |
| Generation.GPGeneration.SwapAtRandomPoints | src/edu/stthomas/seis610/gp/GPGeneration.java:323-368 | the two reset clones are crossed at the drawn points, two draws in all |
| Generation.GPGeneration.AppendGuarded | src/edu/stthomas/seis610/gp/GPGeneration.java:374-385 | each swapped tree, or a Grow tree for one too high, is appended in turn |
| Generation.GPGeneration.CrossoverStep | src/edu/stthomas/seis610/gp/GPGeneration.java:307-311 | one pass: two tournament winners crossed into the list |
| Generation.GPGeneration.Crossover | src/edu/stthomas/seis610/gp/GPGeneration.java:304-313 | the cleared list holds the offspring of getCrossoverCount rounded up to even, two per pass, or the failure of a pass |
| Generation.GPGeneration.BreedOne | src/edu/stthomas/seis610/gp/GPGeneration.java:307-311 | a pass adds two offspring and leaves the remaining passes to breed the rest |
| Generation.GPGeneration.Mutate | src/edu/stthomas/seis610/gp/GPGeneration.java:397-417 | (int)(size * pm) individuals at drawn indices are mutated, each staying as it was on a GPException |
| Generation.GPGeneration.NextGeneration | src/edu/stthomas/seis610/gp/GPGeneration.java:173-180 | the new generation holds the reproduced individuals and the crossover offspring, getReproductionCount plus getCrossoverCount rounded up to even, mutated and scored; a failure of a phase ends it |
| Generation.GPGeneration.ReproductionPhase | src/edu/stthomas/seis610/gp/GPGeneration.java:175 | reproduction gives getReproductionCount individuals or fails |
| Generation.GPGeneration.CrossoverPhase | src/edu/stthomas/seis610/gp/GPGeneration.java:176 | crossover gives getCrossoverCount rounded up to even offspring or fails |
| Generation.GPGeneration.MutateAndScore | src/edu/stthomas/seis610/gp/GPGeneration.java:177-178 | the new population is mutated, then scored |
| Generation.NewGeneration | src/edu/stthomas/seis610/gp/GPGeneration.java:45-53 | the constructor fails with IllegalArgument exactly when a vector capacity is negative, and otherwise gives an empty generation |
| Generation.HalfAndHalfShape | src/edu/stthomas/seis610/gp/GPGeneration.java:86-90 | the Full tree of step i at height 2 + q is at an even position and the Grow tree after it at the next, both in that height's block |
| Generation.RampedShape | src/edu/stthomas/seis610/gp/GPGeneration.java:96-103 | the tree of step i at height 2 + q sits at position q * batch + i |
| Generation.InitSizeOfAppended | src/edu/stthomas/seis610/gp/GPGeneration.java:79-115 | the number of trees the three branches append is InitSize |
| Generation.ScoredKeepsShape | src/edu/stthomas/seis610/gp/GPGeneration.java:120 | scoring keeps the trees and so their shapes |
| Generation.AppendShaped | src/edu/stthomas/seis610/gp/GPGeneration.java:88-113 | appending a tree of the shape of its position keeps every tree shaped |
| Driver.ElapsedParts | src/edu/stthomas/seis610/gp/GPMain.java:52-58 | a duration splits into its whole minutes, seconds below 60 and milliseconds below 1000, which add back up to it |
| Driver.ElapsedArith | src/edu/stthomas/seis610/gp/GPMain.java:53-57 | the seconds and milliseconds left after the minutes are below 60 and 1000 |
| Driver.ElapsedUnique | src/edu/stthomas/seis610/gp/GPMain.java:52-58 | that split is the only one with seconds below 60 and milliseconds below 1000 |
| Driver.ElapsedText | src/edu/stthomas/seis610/gp/GPMain.java:59 | the text reads back as the elapsed time: the digits before the colon are the minutes, the two after it the seconds and the digits after the point the milliseconds, which carry no leading zero; below 100 minutes the colon and the point sit at positions 2 and 5 |
| Driver.ElapsedFields | src/edu/stthomas/seis610/gp/GPMain.java:59 | the %02d:%02d.%d rendering of minutes, seconds and milliseconds can be cut at the colon and the point and each field read back |
| Driver.SecondsTwoDigits | src/edu/stthomas/seis610/gp/GPMain.java:59 | a number below 100 pads to two digits |
| Driver.ElapsedTextUnpaddedMillis | src/edu/stthomas/seis610/gp/GPMain.java:59 | 61005 ms prints as 01:01.5, the milliseconds unpadded |
| Driver.Quot | src/edu/stthomas/seis610/gp/GPMain.java:221 | Java's int division agrees with Dafny's on non-negative operands |
| Driver.InjectThreshold | src/edu/stthomas/seis610/gp/GPMain.java:166 | the threshold is maxGenerations / 1000 rounded to the nearest integer, at least 1 exactly for 500 or more generations and 0 for fewer down to -500 |
| Driver.ChooseActionSchedule | src/edu/stthomas/seis610/gp/GPMain.java:206-241 | with a positive threshold t, a restart happens exactly once more than RESTART_POPULATION_THRESHOLD injections were made, and otherwise an injection exactly when the stall count reaches t times one more than the injections made |
| Driver.QuotientAbove | src/edu/stthomas/seis610/gp/GPMain.java:221 | the quotient test is that multiplication test |
| Driver.ChooseActionZeroThreshold | src/edu/stthomas/seis610/gp/GPMain.java:221 | with a zero threshold every branch but the restart throws an ArithmeticException |
| Driver.NextCountersCases | src/edu/stthomas/seis610/gp/GPMain.java:206-254 | a best unchanged from the previous one adds one to the stall count and otherwise zeroes both counters; a restart zeroes the injections and an injection adds one |
| Driver.NextCountersInvariant | src/edu/stthomas/seis610/gp/GPMain.java:206-254 | each pass keeps the injections at most one beyond the restart threshold and, for a positive threshold, within the stall count over the threshold |
| Driver.Step | src/edu/stthomas/seis610/gp/GPMain.java:200-258 | each pass counts one generation |
| Driver.ProcessGP | src/edu/stthomas/seis610/gp/GPMain.java:164-262 | the loop ends in the state the pass-by-pass definition reaches from the first generation, and the first best individual is that generation's best |
| Driver.RunStops | src/edu/stthomas/seis610/gp/GPMain.java:198-199 | a loop that ends without failure ends with its test false, generationCount never falls, and it stops at maxGenerations at the latest |
| Driver.RunFromStart | src/edu/stthomas/seis610/gp/GPMain.java:173-199 | from generation 1 the loop takes at most maxGenerations - 1 passes, and ending early within the time budget means the best fitness is below the goal |
| Driver.InvalidBestContinues | src/edu/stthomas/seis610/gp/GPMain.java:198 | an unset best fitness reads +Infinity and never meets the goal |
| Driver.InvalidBestsRunToTheLimit | src/edu/stthomas/seis610/gp/GPMain.java:198-199 | if no best fitness is ever set, the loop ends only at maxGenerations or at the time budget |
| Driver.FinalIsSomeBest | src/edu/stthomas/seis610/gp/GPMain.java:257 | the final best is the best individual of the final generation unless no pass was made |
| Driver.RunSucceeds | src/edu/stthomas/seis610/gp/GPMain.java:166-221 | with at least 500 generations the threshold is positive and the loop never fails |
| Driver.ZeroThresholdFails | src/edu/stthomas/seis610/gp/GPMain.java:166-221 | with from 2 to 499 generations the threshold is 0 and the first pass throws an ArithmeticException |
| Driver.RunKeepsCounters | src/edu/stthomas/seis610/gp/GPMain.java:198-258 | every state the loop reaches keeps the counter invariant |
| Driver.StepLags | src/edu/stthomas/seis610/gp/GPMain.java:248-257 | the stall test compares the two bests the pass started with, and the new generation's best only becomes current afterwards |
| TrunkMain.MinIndex | trunk/src/edu/stthomas/seis610/gp/GPMain.java:16-28 | the scan ends on the first minimum, every earlier value strictly above it; an empty vector gives 0 |
| TrunkMain.MinimumValIdx | trunk/src/edu/stthomas/seis610/gp/GPMain.java:16-28 | minimumValIdx returns the position of the first minimum, and 0 for an empty vector |
| TrunkMain.TrainingPair | trunk/src/edu/stthomas/seis610/gp/GPMain.java:55 | as written, pair i has input i - h and an output exactly 1 above the target ((x*x)-1)/2 at that input |
| TrunkMain.IntendedPair | trunk/src/edu/stthomas/seis610/gp/GPMain.java:55 | the pair meant: the written one with its output lowered by 1, which is the target at the input |
| TrunkMain.TrainingDataSet | trunk/src/edu/stthomas/seis610/gp/GPMain.java:53-57 | the training set as written has one pair per index below the size |
| TrunkMain.IntendedDataSet | trunk/src/edu/stthomas/seis610/gp/GPMain.java:53-57 | the training set meant has one intended pair per index below the size |
| TrunkMain.TrainingSet | trunk/src/edu/stthomas/seis610/gp/GPMain.java:53-57 | the loop builds the training set as written: pair k has input k - size/2 and an output 1 above the target there |
| TrunkMain.DefaultTrainingInputs | trunk/src/edu/stthomas/seis610/gp/GPMain.java:53-57 | size 10 trains on the inputs -5 to 4, from (-5, 13) to (4, 8.5) as written, where the intended set starts with (-5, 12) |
| TrunkMain.Dist | trunk/src/edu/stthomas/seis610/gp/GPMain.java:80-81 | the distance is never negative and zero exactly for equal values |
| TrunkMain.TotalErrorZero | trunk/src/edu/stthomas/seis610/gp/GPMain.java:76-83 | a tree's fitness is never negative, and zero exactly when it hits every training output |
| TrunkMain.PerfectTreeFitsTraining | trunk/src/edu/stthomas/seis610/gp/GPMain.java:53-83 | a tree computing the target has error 0 on the intended training set of any size |
| TrunkMain.TotalErrorOfUnitMisses | trunk/src/edu/stthomas/seis610/gp/GPMain.java:53-83 | a tree that misses every pair by exactly 1 has total error equal to the number of pairs |
| TrunkMain.PerfectTreeMissesTraining | trunk/src/edu/stthomas/seis610/gp/GPMain.java:53-83 | as written, even a tree computing the target has total error equal to the size of the training set |
| TrunkMain.IndividualFitness | trunk/src/edu/stthomas/seis610/gp/GPMain.java:76-83 | the inner loop sums the distances of the tree's outputs from the training outputs |
| TrunkMain.PopulationFitness | trunk/src/edu/stthomas/seis610/gp/GPMain.java:75-85 | the outer loop gives each of the first populationSize trees its fitness, and elementAt past the end fails |
| TrunkMain.LoopCount | trunk/src/edu/stthomas/seis610/gp/GPMain.java:96 | the loop with a Double bound makes the least number of passes not below the bound |
| TrunkMain.LoopCountPasses | trunk/src/edu/stthomas/seis610/gp/GPMain.java:96 | pass i runs exactly when i is below the bound |
| TrunkMain.Remove | trunk/src/edu/stthomas/seis610/gp/GPMain.java:99-100 | removeElementAt drops one element |
| TrunkMain.Pick | trunk/src/edu/stthomas/seis610/gp/GPMain.java:97-100 | a pass keeps the fitness list no longer than the tree list |
| TrunkMain.Pairs | trunk/src/edu/stthomas/seis610/gp/GPMain.java:97-100 | one pair per fitness value |
| TrunkMain.PairsAt | trunk/src/edu/stthomas/seis610/gp/GPMain.java:97-100 | the i-th pair is the i-th tree with the i-th fitness |
| TrunkMain.PairsRemove | trunk/src/edu/stthomas/seis610/gp/GPMain.java:99-100 | removing position i from both lists removes exactly that pair |
| TrunkMain.PairsAppend | trunk/src/edu/stthomas/seis610/gp/GPMain.java:98 | appending a tree and its fitness appends their pair |
| TrunkMain.PickKeepsBag | trunk/src/edu/stthomas/seis610/gp/GPMain.java:97-100 | a pass moves one tree with its fitness and loses none |
| TrunkMain.SelectStep | trunk/src/edu/stthomas/seis610/gp/GPMain.java:96-101 | a pass moves the tree of the first minimum fitness |
| TrunkMain.SelectOutcome | trunk/src/edu/stthomas/seis610/gp/GPMain.java:94-101 | the selection succeeds exactly when enough fitness values are left, and then moves exactly that many trees and values; otherwise removeElementAt fails |
| TrunkMain.SelectOrdered | trunk/src/edu/stthomas/seis610/gp/GPMain.java:94-101 | the kept fitness values are ascending and none is above a value left behind: the fittest trees are kept, best first |
| TrunkMain.SelectKeepsPairs | trunk/src/edu/stthomas/seis610/gp/GPMain.java:94-101 | no tree is lost or made up, and each travels with its own fitness |
| TrunkMain.SelectFittest | trunk/src/edu/stthomas/seis610/gp/GPMain.java:94-101 | the new population is the trees SelectOutcome describes, or its failure |
| TrunkMain.CrossoverStep | trunk/src/edu/stthomas/seis610/gp/GPMain.java:107-117 | a pass draws two parents from the whole current list, crosses copies of them and appends both children |
| TrunkMain.CrossoverGrowth | trunk/src/edu/stthomas/seis610/gp/GPMain.java:106-119 | the loop keeps the parents in front and appends two children per pass; it fails only by an IllegalArgumentException, always for an empty list |
| TrunkMain.CrossoverPass | trunk/src/edu/stthomas/seis610/gp/GPMain.java:107-117 | one pass as CrossoverStep describes it |
| TrunkMain.CrossoverLoop | trunk/src/edu/stthomas/seis610/gp/GPMain.java:106-119 | the list after numCrossOvers passes is the one CrossoverGrowth describes |
| TrunkMain.MutationStep | trunk/src/edu/stthomas/seis610/gp/GPMain.java:123-125 | a pass mutates the drawn tree where it stands |
| TrunkMain.MutationKeepsShapes | trunk/src/edu/stthomas/seis610/gp/GPMain.java:122-127 | the mutation loop keeps the population size and the size and height of every tree, failing only when a list it draws from is empty |
| TrunkMain.MutationBoundPositive | trunk/src/edu/stthomas/seis610/gp/GPMain.java:122 | a pass of the mutation loop needs a non-empty list |
| TrunkMain.MutationPass | trunk/src/edu/stthomas/seis610/gp/GPMain.java:123-125 | one pass keeps the population size, as MutationStep describes |
| TrunkMain.MutationLoop | trunk/src/edu/stthomas/seis610/gp/GPMain.java:122-127 | the bound is re-read each pass but the size does not change, so the loop makes LoopCount(pm * size) passes |
| TrunkMain.Prepare | trunk/src/edu/stthomas/seis610/gp/GPMain.java:60-64 | populationSize perfect trees of the configured height over the lists, failing exactly when a list is empty or the height is negative |
| TrunkMain.EvaluatePopulation | trunk/src/edu/stthomas/seis610/gp/GPMain.java:75-89 | the fitness of the first populationSize trees and the position of their first minimum; Collections.min of an empty list fails and elementAt past the end fails |
| TrunkMain.Breed | trunk/src/edu/stthomas/seis610/gp/GPMain.java:105-127 | the kept trees stay in front with their size and height, and two children per crossover follow |
| TrunkMain.NextGeneration | trunk/src/edu/stthomas/seis610/gp/GPMain.java:72-132 | one generation gives LoopCount(N * fp) kept trees plus two per crossover, and its best fitness is the minimum over the evaluated trees |
| TrunkMain.DefaultPopulationStable | trunk/src/edu/stthomas/seis610/gp/GPMain.java:94-119 | with the defaults the population keeps its size of 100 |
| TrunkMain.Run | trunk/src/edu/stthomas/seis610/gp/GPMain.java:41-136 | run ends within the margin of error or at the stop point, after at least one generation unless stopped at once, with minFitness starting at the margin plus 1 |
| Summaries.Average | trunk/src/edu/stthomas/seis610/util/SummarizeCSV.java:89-95 | the mean is undefined exactly for an empty list, where Java divides 0.0 by 0 |
| Summaries.SumWithin | trunk/src/edu/stthomas/seis610/util/SummarizeCSV.java:91-93 | a sum of values within bounds lies within the bounds times the count |
| Summaries.AverageWithin | trunk/src/edu/stthomas/seis610/util/SummarizeCSV.java:89-95 | the mean of a non-empty list lies between its least and greatest value |
| Summaries.SumConstant | trunk/src/edu/stthomas/seis610/util/SummarizeCSV.java:91-93 | a sum of equal values is the value times their count |
| Summaries.SumSnoc | trunk/src/edu/stthomas/seis610/util/SummarizeCSV.java:91-93 | the for-each loop adds one value per pass |
| Summaries.CalculateAvg | trunk/src/edu/stthomas/seis610/util/SummarizeCSV.java:89-95 | calculateAvg computes the mean |
| Summaries.SortedTail | trunk/src/edu/stthomas/seis610/util/SummarizeCSV.java:99 | the tail of an ascending list is ascending |
| Summaries.SortedHeadLeast | trunk/src/edu/stthomas/seis610/util/SummarizeCSV.java:99 | the head of an ascending list is its least value |
| Summaries.SortedCons | trunk/src/edu/stthomas/seis610/util/SummarizeCSV.java:99 | a value no greater than every value of an ascending list can go in front of it |
| Summaries.InsertFacts | trunk/src/edu/stthomas/seis610/util/SummarizeCSV.java:99 | inserting into an ascending list keeps it ascending and adds exactly the value |
| Summaries.Insert | trunk/src/edu/stthomas/seis610/util/SummarizeCSV.java:99 | inserting a value lengthens the list by one |
| Summaries.Sort | trunk/src/edu/stthomas/seis610/util/SummarizeCSV.java:99 | Collections.sort keeps the number of values (order and permutation: SortFacts) |
| Summaries.SortFacts | trunk/src/edu/stthomas/seis610/util/SummarizeCSV.java:99 | Collections.sort gives an ascending permutation |
| Summaries.SortedUnique | trunk/src/edu/stthomas/seis610/util/SummarizeCSV.java:99 | an ascending arrangement of a multiset is unique |
| Summaries.SortPermutation | trunk/src/edu/stthomas/seis610/util/SummarizeCSV.java:99 | the sort depends only on the values, not on their order |
| Summaries.SortedSliceWithin | trunk/src/edu/stthomas/seis610/util/SummarizeCSV.java:99-101 | a slice of the sorted list holds only values of the list |
| Summaries.SortInPlace | trunk/src/edu/stthomas/seis610/util/SummarizeCSV.java:99 | the list is sorted in place |
| Summaries.TrimCount | trunk/src/edu/stthomas/seis610/util/SummarizeCSV.java:98 | the trim count (int) Math.floor(p * n) always lies in the int range |
| Summaries.TrimCountFloor | trunk/src/edu/stthomas/seis610/util/SummarizeCSV.java:98 | where the floor of p * n is in the int range, the trim count is that floor |
| Summaries.TrimmedAvgAsWritten | trunk/src/edu/stthomas/seis610/util/SummarizeCSV.java:97-105 | calculateTrimmedAvg as written: subList throws IndexOutOfBounds when the trim count is below 1 (the end index passes the list) and IllegalArgument when the range is reversed, 2t > n + 1; otherwise the n-2t+1 values from t are summed and divided by n-2t |
| Summaries.TrimmedAvgAsWrittenNaN | trunk/src/edu/stthomas/seis610/util/SummarizeCSV.java:97-105 | as written, the mean is undefined (0/0 or x/0) exactly when 2t = n with t at least 1 |
| Summaries.TrimmedAvgExcess | trunk/src/edu/stthomas/seis610/util/SummarizeCSV.java:97-105 | where both are defined, the mean as written is the corrected trimmed mean plus the first value past the trimmed range divided by n-2t |
| Summaries.TrimmedAverage | trunk/src/edu/stthomas/seis610/util/SummarizeCSV.java:97-105 | the corrected trimmed mean fails exactly when the trim count is negative or more than half the list, is undefined exactly when nothing is left, and otherwise averages the middle values |
| Summaries.TrimmedAverageWithin | trunk/src/edu/stthomas/seis610/util/SummarizeCSV.java:97-105 | the trimmed mean lies between the least and greatest value |
| Summaries.TrimmedAverageConstant | trunk/src/edu/stthomas/seis610/util/SummarizeCSV.java:97-105 | the trimmed mean of equal values is that value |
| Summaries.TrimmedAveragePermutation | trunk/src/edu/stthomas/seis610/util/SummarizeCSV.java:97-105 | the trimmed mean does not depend on the order of the values |
| Summaries.BlockTrim | trunk/src/edu/stthomas/seis610/util/SummarizeCSV.java:63-65 | a block of 100 values has trim count 10; as written its mean is the sum of the 81 sorted values from index 10 divided by 80, while the corrected mean averages the 80 values left |
| Summaries.SortConstant | trunk/src/edu/stthomas/seis610/util/SummarizeCSV.java:99 | a list of equal values is already sorted |
| Summaries.TrimmedAvgOnePast | trunk/src/edu/stthomas/seis610/util/SummarizeCSV.java:101 | as written, ten values of 1.0 average 9/8, since the sublist runs one past the trimmed range; the corrected mean is 1 |
| Summaries.TrimmedAvgPastEnd | trunk/src/edu/stthomas/seis610/util/SummarizeCSV.java:101 | as written, fewer than ten values make subList run past the end and throw; the corrected mean is the plain mean |
| Summaries.CalculateTrimmedAvg | trunk/src/edu/stthomas/seis610/util/SummarizeCSV.java:97-105 | the list is sorted in place and the result, exceptions included, is the trimmed mean as written |
| Summaries.SumRange | trunk/src/edu/stthomas/seis610/util/SummarizeCSV.java:101-103 | the loop over a sublist sums exactly its values |
| Summaries.ParseRow | trunk/src/edu/stthomas/seis610/util/SummarizeCSV.java:52-54 | a row parses exactly when it has two columns that parse as doubles, the first two, taken in order; a missing column is out of bounds |
| Summaries.ParseRows | trunk/src/edu/stthomas/seis610/util/SummarizeCSV.java:50-59 | one row per line read |
| Summaries.ParseRowsFacts | trunk/src/edu/stthomas/seis610/util/SummarizeCSV.java:52-54 | each row read is its own line's parse |
| Summaries.ParseRowsErrExtends | trunk/src/edu/stthomas/seis610/util/SummarizeCSV.java:50-59 | the first row that fails ends the program with its fault |
| Summaries.GenCnts | trunk/src/edu/stthomas/seis610/util/SummarizeCSV.java:53 | the generation counts are column 0 of each row |
| Summaries.ElapsedTimes | trunk/src/edu/stthomas/seis610/util/SummarizeCSV.java:54 | the elapsed times are column 1 of each row |
| Summaries.Summarized | trunk/src/edu/stthomas/seis610/util/SummarizeCSV.java:61-67 | a full block gives the means and the as-written trimmed means of both columns and columns 3 to 15 of its second row; a second row with fewer than 16 columns fails in writeCsvSummary |
| Summaries.SummarizeFromStep | trunk/src/edu/stthomas/seis610/util/SummarizeCSV.java:49-78 | one turn of the loop: a block read, a short block ending the file, a full block summarized, then the separator line |
| Summaries.SummarizeTurn | trunk/src/edu/stthomas/seis610/util/SummarizeCSV.java:49-78 | one turn of main's loop: either main ends here with the outcome SummarizeFrom gives at this block, or it goes on at the next block with the same outcome ahead |
| Summaries.BlockCount | trunk/src/edu/stthomas/seis610/util/SummarizeCSV.java:49-78 | k blocks of 101 lines fit in the file, and are all of them when fewer than 101 lines remain |
| Summaries.BlocksExtend | trunk/src/edu/stthomas/seis610/util/SummarizeCSV.java:61-67 | the summary of the next block extends the summaries of the earlier ones |
| Summaries.SummarizeFrom | trunk/src/edu/stthomas/seis610/util/SummarizeCSV.java:49-78 | the main loop from a block on only appends to the summaries already written |
| Summaries.Summarize | trunk/src/edu/stthomas/seis610/util/SummarizeCSV.java:26-87 | an empty file yields no summaries and ends normally; there are never more summaries than 101-line blocks in the file |
| Summaries.SummarizeFromFacts | trunk/src/edu/stthomas/seis610/util/SummarizeCSV.java:49-78 | from any block on, each summary is that of its block in file order, and on a normal end every complete block is summarized |
| Summaries.SummarizeBlocks | trunk/src/edu/stthomas/seis610/util/SummarizeCSV.java:26-87 | the summaries, with their as-written trimmed means, are those of the complete 100-row blocks in file order, no more than the file has room for, and all of them when main ends normally |
| Summaries.ReadBlock | trunk/src/edu/stthomas/seis610/util/SummarizeCSV.java:50-59 | the inner loop reads up to 100 lines and parses them, stopping at the end of the file |
| Summaries.ParseRowsStep | trunk/src/edu/stthomas/seis610/util/SummarizeCSV.java:51-54 | reading one more line extends the rows by its parse |
| Summaries.SummarizeBlock | trunk/src/edu/stthomas/seis610/util/SummarizeCSV.java:61-67 | the summary computed, as-written trimmed means included, is the one Summarized describes |
| Summaries.SummarizeCsv | trunk/src/edu/stthomas/seis610/util/SummarizeCSV.java:26-87 | main writes the summaries SummarizeBlocks describes and ends as it says |
| Strings.NatToString | src/edu/stthomas/seis610/gp/GPMain.java:59 | the decimal rendering of a count is a non-empty run of digits with no leading zero |
| Strings.DigitsValueOfNatToString | src/edu/stthomas/seis610/gp/GPSettings.java:461-490 | reading the digits of a rendered count back gives the count |
| Strings.Pad2 | src/edu/stthomas/seis610/gp/GPMain.java:59 | the %02d field is at least two digits wide and holds only digits |
| Strings.DigitsValueLeadingZero | src/edu/stthomas/seis610/gp/GPMain.java:59 | a leading zero does not change the value of a digit string |
| Strings.NatToStringLong | src/edu/stthomas/seis610/gp/GPMain.java:59 | numbers from 10 on render with at least two digits |
| Strings.Pad2Value | src/edu/stthomas/seis610/gp/GPMain.java:59 | the %02d field reads back as its number, and is exactly two digits wide below 100 |
| Strings.Pieces | src/edu/stthomas/seis610/gp/GPSettings.java:417-425 | splitting at a separator always yields at least one piece, even for the empty string |
| Strings.DropTrailingEmpty | src/edu/stthomas/seis610/gp/GPSettings.java:417-425 | String.split keeps a prefix of the pieces that does not end in an empty piece, and drops only empty pieces |
| Strings.Join | src/edu/stthomas/seis610/gp/GPSettings.java:579-583 | joining a single element gives that element, with no separator added |
| Strings.PiecesOfJoin | src/edu/stthomas/seis610/gp/GPSettings.java:579-590 | cutting a join of separator-free elements at the separator gives the elements back |
| Strings.TrimStart | src/edu/stthomas/seis610/gp/GPSettings.java:417-425 | trimming the front keeps a suffix that starts with a non-blank character or is empty |
| Strings.TrimEnd | src/edu/stthomas/seis610/gp/GPSettings.java:417-425 | trimming the back keeps a prefix that ends with a non-blank character or is empty |
| Randomness.Random.constructor | src/edu/stthomas/seis610/gp/GPSettings.java:95-99 | a new generator starts at the first draw of the tape it is seeded with |
| Properties.Tokens | src/edu/stthomas/seis610/gp/GPSettings.java:417-425 | the list read from a comma string has one entry per split piece |
| Properties.TrimAll | src/edu/stthomas/seis610/gp/GPSettings.java:417-425 | trimming each piece keeps the number of pieces |
| Properties.TrimAllOfTrimmed | src/edu/stthomas/seis610/gp/GPSettings.java:417-425 | pieces that are already trimmed come back unchanged |
| Properties.WithoutAppend | src/edu/stthomas/seis610/gp/GPSettings.java:570-573 | removing every copy of a value from a list with one more element removes it from the old list and from the new element separately |
| Properties.RemoveLastOccurrence | src/edu/stthomas/seis610/gp/GPSettings.java:570-573 | when the value occurs only at the end, Vector.remove drops that last element |
| Properties.RemoveFirstAfter | src/edu/stthomas/seis610/gp/GPSettings.java:570-573 | Vector.remove drops exactly the first occurrence and keeps everything before and after it |
| Properties.JoinSnoc | src/edu/stthomas/seis610/gp/GPSettings.java:579-583 | joining one more element adds a comma and that element to the old join |
| Settings.SeedNeverRead | src/edu/stthomas/seis610/gp/GPSettings.java:228-235 | a seed property of 42 is ignored by getRandomSeed as written, but read as 42 by the method its comment describes |
| Settings.OperatorsStorable | src/edu/stthomas/seis610/gp/GPSettings.java:66-67 | the default operators contain no comma and no surrounding blanks, so they survive being stored and reloaded |
| Settings.ExampleMovesDiv | trunk/src/edu/stthomas/seis610/test/SettingsTest.java:89 | adding DIV when it is already listed moves it to the end |
| Settings.ExampleAppends | trunk/src/edu/stthomas/seis610/test/SettingsTest.java:90-91 | adding SIN and then COS, which are not listed yet, appends them |
| Settings.ExampleMovesAdd | trunk/src/edu/stthomas/seis610/test/SettingsTest.java:92 | adding ADD when it is first in the list moves it to the end |
| Settings.FirstUnparsed | src/edu/stthomas/seis610/gp/GPSettings.java:442-451 | the load takes exactly the leading tokens that Double.parseDouble accepts and stops at the first one it rejects |
| Settings.GPSettings.constructor | src/edu/stthomas/seis610/gp/GPSettings.java:93-100 | the loaded properties are kept, the caches start empty, and the generator is seeded when a seed is given and unseeded otherwise |
| TrunkSettings.GPSettings.constructor | trunk/src/edu/stthomas/seis610/gp/GPSettings.java:78-84 | the loaded properties are kept, the caches start empty, and the generator is always seeded with the given seed |
| NodeHeap.Heap.CloneChildren | trunk/src/edu/stthomas/seis610/tree/BinaryTreeNode.java:200-207 | the copy's subtree is made only of new nodes, has the same shape and contents as the original, and keeps the original's parent and tag |
| NodeHeap.Heap.CloneRight | trunk/src/edu/stthomas/seis610/tree/BinaryTreeNode.java:204-207 | after the left child is copied, copying the right child completes a copy equal to the original subtree, with old nodes untouched |
| TreeFactory.ChildrenSucceed | src/edu/stthomas/seis610/tree/GPTreeFactory.java:217-230 | with valid operator names and parsable operands, building the children under an operator never fails while there is room below |
| GPTrees.PostIdsFacts | src/edu/stthomas/seis610/tree/BinaryTree.java:124-139 | the post-order list of node objects has one entry per node, ends with the root, and holds exactly the tree's nodes |
| GPTrees.PostIdsSize | src/edu/stthomas/seis610/tree/BinaryTree.java:124-139 | the post-order list of node objects has as many entries as the tree has nodes |
| GPTrees.InIdsFacts | src/edu/stthomas/seis610/tree/BinaryTree.java:154-169 | the in-order list of node objects has one entry per node and holds exactly the tree's nodes |
| GPTrees.InIdsSize | src/edu/stthomas/seis610/tree/BinaryTree.java:154-169 | the in-order list of node objects has as many entries as the tree has nodes |
| GPTrees.PostOrderAbs | src/edu/stthomas/seis610/tree/BinaryTree.java:124-139 | walking the linked nodes in post-order visits the same positions as walking the expression they stand for |
| GPTrees.InOrderAbs | src/edu/stthomas/seis610/tree/BinaryTree.java:154-169 | walking the linked nodes in-order visits the same positions as walking the expression they stand for |
| GPTrees.CrossAtPreserves | src/edu/stthomas/seis610/tree/GeneticProgrammingTree.java:43-119 | a successful crossover keeps the total node count of both trees, leaves both flagged and rooted at an operator, and keeps constants set and operators binary |
| ExprTree.Prefixed | src/edu/stthomas/seis610/tree/BinaryTree.java:129-131 | every path of a child's traversal is extended by the step into that child, in order |
| ExprTree.PrefixedMembership | src/edu/stthomas/seis610/tree/BinaryTree.java:129-131 | a path is in the extended list exactly when it starts with that step and its rest is in the child's list |
| ExprTree.PrefixedDistinct | src/edu/stthomas/seis610/tree/BinaryTree.java:129-131 | extending a list of distinct paths keeps them distinct |
| ExprTree.SubtreeAtOperandsSet | src/edu/stthomas/seis610/tree/OperandNode.java:23-48 | every subtree of a tree whose constants are set has its constants set |
| ExprTree.SubtreeAtBinary | src/edu/stthomas/seis610/tree/BinaryTree.java:103 | every subtree of a binary-only tree is binary-only |

## Left out

- TreeFactory.GrowTreeAsWritten: generateGrowTree's do-while loop has no bound in the source (src/edu/stthomas/seis610/tree/GPTreeFactory.java:186-190); the model bounds it by an `attempts` parameter and answers `RetriesExhausted` where Java would go on drawing, because termination over an arbitrary random stream cannot be proved. For a maximum height below 1 the Java loop never ends (see Findings); TreeFactory.GrowNeverEnds proves every bound runs out there.
- TreeFactory.GenerateGrowTree, TreeFactory.GrowTreeSpec and Generation.Guard: the same `attempts` bound is carried wherever a Grow tree is built, so these fail with `RetriesExhausted` in runs where Java keeps drawing.
- TrunkTrees.OfHeightSpec: the trunk height constructor recurses without a base case for a negative height (trunk/src/edu/stthomas/seis610/tree/GeneticProgrammingTree.java:20-39); the model answers `StackOverflow` instead of running out of stack.
- Generation.GPGeneration.Mutate: individuals are values in the model, one per population slot. In Java the population holds references: reproduction hands the same objects on (src/edu/stthomas/seis610/gp/GPGeneration.java:203-205), tournament entrants are drawn with replacement so one winner can fill several slots (lines 229-231 and 276), and mutate_new works on the object in place (line 406). A mutation in Java therefore changes every slot that shares the mutated object; the model changes only the drawn slot. The Crossover path is unaffected, because crossoverOperation clones both parents first (lines 323-324).
- GPTrees.GeneticProgrammingTree.Mutate: an operator name that `OperatorType.valueOf` rejects fails the model's mutate with `IllegalArgument` at the moment it is drawn; Java stores the string and fails only when the node is next evaluated or rendered (trunk/src/edu/stthomas/seis610/tree/OperatorNode.java:95-97).
- Generation.CompareFitness: Collections.sort on the population (src/edu/stthomas/seis610/gp/GPGeneration.java:247 and 280) needs a `Comparable` on GeneticProgrammingTree, which BinaryTree.java does not show (it implements only `Cloneable`); following the comments at lines 245-246 and 278-279 the order is taken as the fitness datums' compareTo.
- Generation.Swapped: `reset()` is not part of the shown GeneticProgrammingTree; following the comment at src/edu/stthomas/seis610/gp/GPGeneration.java:325-326 it is taken to reset every validity flag and clear the fitness.
- calculateFitness and mutate_new are not part of the shown GeneticProgrammingTree either; they are functions held in the generation's `Generation.Settings` record.
- Generation.GPGeneration.Mutate and Generation.GPGeneration.ScoreFitness: as functions in `Generation.Settings`, mutate_new and calculateFitness have two effects of the Java methods cut off. mutate_new draws from the shared generator itself, so its draws fall between the index draws of the mutate loop (src/edu/stthomas/seis610/gp/GPGeneration.java:402-406); in the model `mutateNew` draws nothing and each index is the next draw of the stream. calculateFitness evaluates the tree, and evaluation clears validity flags (trunk/src/edu/stthomas/seis610/tree/OperatorNode.java:119-162 shows how); in the model `calculateFitness` only returns a fitness, so after scoring the tree keeps its flags, and tournament qualification (src/edu/stthomas/seis610/gp/GPGeneration.java:284), which reads the tree's flag, sees the flags from before scoring.
- The src driver takes the generations it sees (GPGeneration.init and nextGeneration(boolean)) from a `World` parameter rather than from the `Generation` module, so the two are proved separately.
- Evaluating a trunk tree on an input is a parameter of `TrunkMain`: the arithmetic of the trunk node classes is not part of this model, only its tree shapes and edits.
- GPTrees.GeneticProgrammingTree.CrossOver: requires two distinct trees on one node heap with disjoint nodes; crossing a tree with itself, which the source does not do, is not modelled.
- TrunkTrees.GeneticProgrammingTree.CrossOver: requires two distinct trees, for the same reason; the trunk tree has no parent links, which its crossOver and mutate never read.
- `Double` arithmetic is exact real arithmetic: rounding, negative zero and overflow to infinity are not modelled; NaN and the two infinities are separate cases of `Fitness.Double`.
- Math.sin, Math.cos and Math.pow are parameters of evaluation (the source calls into java.lang.Math); Double.parseDouble is a parameter of loading operands and training data.
- The int overflow of `(i - h) * (i - h)` in trunk/src/edu/stthomas/seis610/gp/GPMain.java:55 and the 32-bit wrap-around of the population and generation counters are not modelled; the integers are unbounded.
- java.util.Random is an injected stream of draws; its linear congruential generator and `setSeed` mixing are not modelled, only which stream each seed selects.
- Reading the properties file, the singleton `getInstance`, logging, `toString` output beyond the node renderings, and the CSV reading and writing of SummarizeCSV (trunk/src/edu/stthomas/seis610/util/SummarizeCSV.java:107-172 writes through a FileWriter) are I/O: the model takes the loaded properties map and the parsed columns as inputs and returns the rows it would write.
- The separator-line check in SummarizeCSV main (trunk/src/edu/stthomas/seis610/util/SummarizeCSV.java:72-76) only logs a message and is left out.
- Threads, Thread.sleep, the timer that raises the trunk Stop flag and the wall-clock budget of the src driver are parameters: the elapsed milliseconds each loop test sees, and the generation at which Stop is raised, are inputs.

## Findings

| source | as written | input that shows it | evidently intended | confidence | as-written member | corrected member |
|---|---|---|---|---|---|---|
| trunk/src/edu/stthomas/seis610/gp/GPMain.java:53-57 | the training output is `((i-h)*(i-h)+1)/2`, while the target in trunk/src/edu/stthomas/seis610/gp/TrainingData.java:39-41 is `((x*x)-1)/2` | any pair: at input 0 the stored output is 0.5 where the target is -0.5, so even the exact target tree scores an error of 1 per pair | the training output is the target at the input | not executed | TrunkMain.PerfectTreeMissesTraining | TrunkMain.PerfectTreeFitsTraining |
| src/edu/stthomas/seis610/gp/GPSettings.java:228-235 | getRandomSeed compares the default constant, not the property value, with "null", so it answers null whatever the properties say and the generator is never seeded | properties with randomSeed=42: the seed read is null | the property value is compared with "null" and otherwise parsed | not executed | Settings.SeedNeverRead | Settings.RandomSeedStored |
| trunk/src/edu/stthomas/seis610/util/SummarizeCSV.java:101 | the trimmed sublist runs from t to n-t+1, one value past the trimmed range, while the sum is divided by n-2t; with t = 0 the sublist ends past the list | ten values of 1.0 at 10% average 9/8; fewer than ten values throw IndexOutOfBoundsException | the n-2t middle values of the sorted list are averaged | not executed | Summaries.TrimmedAvgOnePast | Summaries.TrimmedAverage |
| src/edu/stthomas/seis610/tree/GPTreeFactory.java:186-190 | generateGrowTree retries while the tree is a single operand, but for a maximum height below 1 every Grow tree is a single operand | maxHtOfInitTree = 0: the loop never ends | a maximum height below 1 is rejected rather than retried for ever | not executed | TreeFactory.GrowNeverEnds | TreeFactory.GrowTreeShape |
