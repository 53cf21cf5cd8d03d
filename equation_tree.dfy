/** The equation tree and its random builder (generateEquationTree with its
    inner generateSubtree and countNodes). */
module EquationTree {
  import opened Types
  import opened NumberGenerator

  /** A node is a number leaf or an operation applied to its children. */
  datatype Node = Num(value: real) | Op(op: Operation, children: seq<Node>)

  /** The list of operations the builder gives a single child, in the
      order it is written. Exp is not in it. */
  const UnaryOperations: seq<Operation> := [Square, Cube, SquareRoot, CubeRoot, Log10, Ln, Sin, Cos, Tan]

  /** Whether the builder gives op a single child: exactly the members of
      the unary list, so an Exp node is built with two children. */
  predicate IsUnary(op: Operation): (u: bool)
    ensures u <==> op in UnaryOperations
  {
    match op
    case Multiplication | Division | Exp => false
    case Square | Cube | SquareRoot | CubeRoot | Log10 | Ln | Sin | Cos | Tan => true
  }

  function Arity(op: Operation): (n: nat)
    ensures n == 1 <==> IsUnary(op)
    ensures n == 2 <==> op == Multiplication || op == Division || op == Exp
  {
    if IsUnary(op) then 1 else 2
  }

  /** Every operation node has exactly as many children as its arity. */
  predicate WellFormed(t: Node)
  {
    match t
    case Num(_) => true
    case Op(op, cs) => |cs| == Arity(op) && forall i :: 0 <= i < |cs| ==> WellFormed(cs[i])
  }

  /** Every operation in the tree is one of ops. */
  predicate OpsIn(t: Node, ops: seq<Operation>)
  {
    match t
    case Num(_) => true
    case Op(op, cs) => op in ops && forall i :: 0 <= i < |cs| ==> OpsIn(cs[i], ops)
  }

  /** Every leaf value lies in [lo, hi]. */
  predicate LeavesWithin(t: Node, lo: real, hi: real)
  {
    match t
    case Num(v) => lo <= v <= hi
    case Op(_, cs) => forall i :: 0 <= i < |cs| ==> LeavesWithin(cs[i], lo, hi)
  }

  /** No root-to-leaf path passes through more than h operation nodes. */
  predicate OpDepthAtMost(t: Node, h: int)
  {
    match t
    case Num(_) => h >= 0
    case Op(_, cs) => h >= 1 && forall i :: 0 <= i < |cs| ==> OpDepthAtMost(cs[i], h - 1)
  }

  /** The first k nodes of the leftmost path are operation nodes. */
  predicate LeftSpineOps(t: Node, k: int)
  {
    k <= 0 || (t.Op? && |t.children| > 0 && LeftSpineOps(t.children[0], k - 1))
  }

  /** countNodes: one for the node itself plus the nodes of its children. */
  function CountNodes(t: Node): (n: nat)
    ensures n >= 1
    ensures t.Num? ==> n == 1
  {
    match t
    case Num(_) => 1
    case Op(_, cs) => 1 + CountForest(cs)
  }

  function CountForest(ts: seq<Node>): (n: nat)
    ensures n >= |ts|
  {
    if |ts| == 0 then 0 else CountNodes(ts[0]) + CountForest(ts[1..])
  }

  /** The leaf values from left to right. */
  function Leaves(t: Node): seq<real>
  {
    match t
    case Num(v) => [v]
    case Op(_, cs) => LeavesOfForest(cs)
  }

  function LeavesOfForest(ts: seq<Node>): seq<real>
  {
    if |ts| == 0 then [] else Leaves(ts[0]) + LeavesOfForest(ts[1..])
  }

  function OperationCount(t: Node): nat
  {
    match t
    case Num(_) => 0
    case Op(_, cs) => 1 + OperationCountOfForest(cs)
  }

  function OperationCountOfForest(ts: seq<Node>): nat
  {
    if |ts| == 0 then 0 else OperationCount(ts[0]) + OperationCountOfForest(ts[1..])
  }

  /** countNodes agrees with counting leaves and operation nodes apart. */
  lemma {:induction false} CountNodesSplits(t: Node)
    ensures CountNodes(t) == |Leaves(t)| + OperationCount(t)
    decreases t, 1
  {
    match t
    case Num(_) =>
    case Op(_, cs) => CountForestSplits(cs);
  }

  lemma {:induction false} CountForestSplits(ts: seq<Node>)
    ensures CountForest(ts) == |LeavesOfForest(ts)| + OperationCountOfForest(ts)
    decreases ts, 0
  {
    if |ts| > 0 {
      CountNodesSplits(ts[0]);
      CountForestSplits(ts[1..]);
    }
  }

  /** In a well-formed tree every operation node has one or two children,
      so there are at most one more leaves than operation nodes. */
  lemma {:induction false} LeavesAtMostOperationsPlusOne(t: Node)
    requires WellFormed(t)
    ensures |Leaves(t)| <= OperationCount(t) + 1
  {
    match t
    case Num(_) =>
    case Op(op, cs) =>
      LeavesAtMostOperationsPlusOne(cs[0]);
      assert LeavesOfForest(cs) == Leaves(cs[0]) + LeavesOfForest(cs[1..]);
      assert OperationCountOfForest(cs) == OperationCount(cs[0]) + OperationCountOfForest(cs[1..]);
      if |cs| == 1 {
        assert cs[1..] == [];
      } else {
        LeavesAtMostOperationsPlusOne(cs[1]);
        var rest := cs[1..];
        assert rest[0] == cs[1] && rest[1..] == [];
        assert LeavesOfForest(rest) == Leaves(cs[1]) + LeavesOfForest([]);
        assert OperationCountOfForest(rest) == OperationCount(cs[1]) + OperationCountOfForest([]);
      }
  }

  /** The result of building a subtree: the tree and the position of the
      next unused random draw. */
  datatype Built = Built(tree: Node, next: nat)

  /** The index floor(draw * len) picks an element of a non-empty list. */
  function OperationIndex(draw: Draw, len: nat): (i: nat)
    requires len > 0
    ensures i < len
  {
    var x := draw * len as real;
    DrawScaled(draw, len as real, x);
    FloorInRange(x, len);
    x.Floor
  }

  function Max(a: int, b: int): int
  {
    if a < b then b else a
  }

  /** The most operation nodes on a path of a subtree built at (depth,
      nodesCreated): forced operations continue below depth 0 until two
      nodes exist. */
  function DepthBound(depth: int, nodesCreated: nat): int
  {
    Max(Max(depth, 2 - nodesCreated), 0)
  }

  /** How many operations are forced on the leftmost path. */
  function Forced(nodesCreated: nat): nat
  {
    if nodesCreated < 2 then 2 - nodesCreated else 0
  }

  function Measure(depth: int, nodesCreated: nat): nat
  {
    Max(depth, 0) + Max(2 - nodesCreated, 0)
  }

  /** The coin is tossed only when no operation is forced and depth
      remains. */
  predicate Tossed(depth: int, nodesCreated: nat)
  {
    nodesCreated >= 2 && depth > 0
  }

  /** The position of the first draw after the coin. */
  function AfterCoin(depth: int, nodesCreated: nat, pos: nat): (p: nat)
    ensures p >= pos
  {
    if Tossed(depth, nodesCreated) then pos + 1 else pos
  }

  /** With fewer than two nodes created an operation is forced; otherwise,
      at positive depth, a draw below 0.5 makes one. */
  predicate CreatesOperation(rnd: nat -> Draw, depth: int, nodesCreated: nat, pos: nat): (c: bool)
    ensures nodesCreated < 2 ==> c
    ensures c ==> nodesCreated < 2 || depth > 0
  {
    nodesCreated < 2 || (Tossed(depth, nodesCreated) && rnd(pos) < 0.5)
  }

  /** Where leaf values come from: generateNumber with the magnitude and
      significant figures of the requirements, applied to a mantissa draw
      and an exponent draw. */
  type NumberSource = (Draw, Draw) -> real

  /** With a non-negative magnitude and at least one significant figure
      every number drawn lies in [10^-magnitude, 10^(magnitude+1)]. */
  function NumberSourceOf(req: Requirements): (number: NumberSource)
    ensures req.magnitude >= 0 && req.significantFigures >= 1 ==>
      forall base: Draw, power: Draw ::
        Pow10(-req.magnitude) <= number(base, power) <= Pow10(req.magnitude + 1)
  {
    (base: Draw, power: Draw) => GenerateNumber(req.magnitude, req.significantFigures, base, power)
  }

  /** generateSubtree over the operation list ops: a number leaf draws its
      mantissa and then its exponent; otherwise an operation node is
      built. */
  function GenerateSubtree(ops: seq<Operation>, number: NumberSource, rnd: nat -> Draw,
    depth: int, nodesCreated: nat, pos: nat): (b: Built)
    requires |ops| > 0
    ensures b.next > pos
    decreases Measure(depth, nodesCreated), 2
  {
    var p := AfterCoin(depth, nodesCreated, pos);
    if CreatesOperation(rnd, depth, nodesCreated, pos) then
      GenerateOperation(ops, number, rnd, depth, nodesCreated, p)
    else
      Built(Num(number(rnd(p), rnd(p + 1))), p + 2)
  }

  /** The operation drawn at position p. */
  function OperationAt(ops: seq<Operation>, rnd: nat -> Draw, p: nat): (op: Operation)
    requires |ops| > 0
    ensures op in ops
  {
    ops[OperationIndex(rnd(p), |ops|)]
  }

  /** The operation branch of generateSubtree: the operation is drawn
      from the list at p, then its children are built. */
  function GenerateOperation(ops: seq<Operation>, number: NumberSource, rnd: nat -> Draw,
    depth: int, nodesCreated: nat, p: nat): (b: Built)
    requires |ops| > 0
    requires nodesCreated < 2 || depth > 0
    ensures b.next > p + 1
    decreases Measure(depth, nodesCreated), 1
  {
    GenerateChildren(OperationAt(ops, rnd, p), ops, number, rnd, depth, nodesCreated, p + 1)
  }

  /** The children of an operation node, from the draw at q: one child, or
      two when the operation is not unary, the right child told how many
      nodes the left one holds. */
  function GenerateChildren(op: Operation, ops: seq<Operation>, number: NumberSource, rnd: nat -> Draw,
    depth: int, nodesCreated: nat, q: nat): (b: Built)
    requires |ops| > 0 && op in ops
    requires nodesCreated < 2 || depth > 0
    ensures b.next > q
    decreases Measure(depth, nodesCreated), 0
  {
    var left := GenerateSubtree(ops, number, rnd, depth - 1, nodesCreated + 1, q);
    if IsUnary(op) then
      Built(Op(op, [left.tree]), left.next)
    else
      var right := GenerateSubtree(ops, number, rnd, depth - 1, nodesCreated + 1 + CountNodes(left.tree), left.next);
      Built(Op(op, [left.tree, right.tree]), right.next)
  }

  /** An operation over one child, or over two when it is not unary. */
  function NodeOf(op: Operation, left: Node, right: Node): Node
  {
    if IsUnary(op) then Op(op, [left]) else Op(op, [left, right])
  }

  /** The operation node's shape: the operation over the left child, and
      over the right child too when it is not unary. */
  lemma ChildrenShape(op: Operation, ops: seq<Operation>, number: NumberSource, rnd: nat -> Draw,
    depth: int, nodesCreated: nat, q: nat)
    requires |ops| > 0 && op in ops
    requires nodesCreated < 2 || depth > 0
    ensures var left := GenerateSubtree(ops, number, rnd, depth - 1, nodesCreated + 1, q);
      var right := GenerateSubtree(ops, number, rnd, depth - 1, nodesCreated + 1 + CountNodes(left.tree), left.next);
      GenerateChildren(op, ops, number, rnd, depth, nodesCreated, q).tree == NodeOf(op, left.tree, right.tree)
  {
  }

  /** Every node built has as many children as its operation's arity,
      and every operation in it comes from the list. */
  lemma {:induction false} SubtreeWellFormed(ops: seq<Operation>, number: NumberSource, rnd: nat -> Draw,
    depth: int, nodesCreated: nat, pos: nat)
    requires |ops| > 0
    ensures WellFormed(GenerateSubtree(ops, number, rnd, depth, nodesCreated, pos).tree)
    ensures OpsIn(GenerateSubtree(ops, number, rnd, depth, nodesCreated, pos).tree, ops)
    decreases Measure(depth, nodesCreated), 1
  {
    if CreatesOperation(rnd, depth, nodesCreated, pos) {
      var p := AfterCoin(depth, nodesCreated, pos);
      ChildrenWellFormed(OperationAt(ops, rnd, p), ops, number, rnd, depth, nodesCreated, p + 1);
    }
  }

  lemma {:induction false} ChildrenWellFormed(op: Operation, ops: seq<Operation>, number: NumberSource, rnd: nat -> Draw,
    depth: int, nodesCreated: nat, q: nat)
    requires |ops| > 0 && op in ops
    requires nodesCreated < 2 || depth > 0
    ensures WellFormed(GenerateChildren(op, ops, number, rnd, depth, nodesCreated, q).tree)
    ensures OpsIn(GenerateChildren(op, ops, number, rnd, depth, nodesCreated, q).tree, ops)
    decreases Measure(depth, nodesCreated), 0
  {
    var left := GenerateSubtree(ops, number, rnd, depth - 1, nodesCreated + 1, q);
    var n := nodesCreated + 1 + CountNodes(left.tree);
    SubtreeWellFormed(ops, number, rnd, depth - 1, nodesCreated + 1, q);
    SubtreeWellFormed(ops, number, rnd, depth - 1, n, left.next);
    ChildrenShape(op, ops, number, rnd, depth, nodesCreated, q);
    NodeWellFormed(op, ops, left.tree, GenerateSubtree(ops, number, rnd, depth - 1, n, left.next).tree);
  }

  lemma NodeWellFormed(op: Operation, ops: seq<Operation>, left: Node, right: Node)
    requires op in ops
    requires WellFormed(left) && WellFormed(right) && OpsIn(left, ops) && OpsIn(right, ops)
    ensures WellFormed(NodeOf(op, left, right)) && OpsIn(NodeOf(op, left, right), ops)
  {
  }

  /** No path of a subtree holds more operation nodes than DepthBound
      allows, nor therefore more than any h above it. */
  lemma {:induction false} SubtreeDepth(ops: seq<Operation>, number: NumberSource, rnd: nat -> Draw,
    depth: int, nodesCreated: nat, pos: nat, h: int)
    requires |ops| > 0
    requires DepthBound(depth, nodesCreated) <= h
    ensures OpDepthAtMost(GenerateSubtree(ops, number, rnd, depth, nodesCreated, pos).tree, h)
    decreases Measure(depth, nodesCreated), 1
  {
    if CreatesOperation(rnd, depth, nodesCreated, pos) {
      var p := AfterCoin(depth, nodesCreated, pos);
      ChildrenDepth(OperationAt(ops, rnd, p), ops, number, rnd, depth, nodesCreated, p + 1, h);
    }
  }

  lemma {:induction false} ChildrenDepth(op: Operation, ops: seq<Operation>, number: NumberSource, rnd: nat -> Draw,
    depth: int, nodesCreated: nat, q: nat, h: int)
    requires |ops| > 0 && op in ops
    requires nodesCreated < 2 || depth > 0
    requires DepthBound(depth, nodesCreated) <= h
    ensures OpDepthAtMost(GenerateChildren(op, ops, number, rnd, depth, nodesCreated, q).tree, h)
    decreases Measure(depth, nodesCreated), 0
  {
    var left := GenerateSubtree(ops, number, rnd, depth - 1, nodesCreated + 1, q);
    var n := nodesCreated + 1 + CountNodes(left.tree);
    BoundStep(depth, nodesCreated, n, h);
    SubtreeDepth(ops, number, rnd, depth - 1, nodesCreated + 1, q, h - 1);
    SubtreeDepth(ops, number, rnd, depth - 1, n, left.next, h - 1);
    ChildrenShape(op, ops, number, rnd, depth, nodesCreated, q);
    NodeDepth(op, left.tree, GenerateSubtree(ops, number, rnd, depth - 1, n, left.next).tree, h);
  }

  /** Children built after an operation have a bound one lower. */
  lemma BoundStep(depth: int, nodesCreated: nat, n: nat, h: int)
    requires nodesCreated < 2 || depth > 0
    requires DepthBound(depth, nodesCreated) <= h && n >= nodesCreated + 1
    ensures h >= 1
    ensures DepthBound(depth - 1, nodesCreated + 1) <= h - 1 && DepthBound(depth - 1, n) <= h - 1
  {
  }

  lemma NodeDepth(op: Operation, left: Node, right: Node, h: int)
    requires h >= 1 && OpDepthAtMost(left, h - 1) && OpDepthAtMost(right, h - 1)
    ensures OpDepthAtMost(NodeOf(op, left, right), h)
  {
  }

  /** The first two nodes built are operations: Forced(nodesCreated) of
      them head the leftmost path. */
  lemma {:induction false} SubtreeLeftSpine(ops: seq<Operation>, number: NumberSource, rnd: nat -> Draw,
    depth: int, nodesCreated: nat, pos: nat)
    requires |ops| > 0
    ensures LeftSpineOps(GenerateSubtree(ops, number, rnd, depth, nodesCreated, pos).tree, Forced(nodesCreated))
    decreases Measure(depth, nodesCreated)
  {
    if nodesCreated < 2 {
      var p := AfterCoin(depth, nodesCreated, pos);
      ChildrenShape(OperationAt(ops, rnd, p), ops, number, rnd, depth, nodesCreated, p + 1);
      SubtreeLeftSpine(ops, number, rnd, depth - 1, nodesCreated + 1, p + 1);
    }
  }

  /** When every number the source can draw lies in [lo, hi], so does
      every leaf. */
  lemma {:induction false} SubtreeLeaves(ops: seq<Operation>, number: NumberSource, rnd: nat -> Draw,
    depth: int, nodesCreated: nat, pos: nat, lo: real, hi: real)
    requires |ops| > 0
    requires forall base: Draw, power: Draw :: lo <= number(base, power) <= hi
    ensures LeavesWithin(GenerateSubtree(ops, number, rnd, depth, nodesCreated, pos).tree, lo, hi)
    decreases Measure(depth, nodesCreated), 1
  {
    if CreatesOperation(rnd, depth, nodesCreated, pos) {
      var p := AfterCoin(depth, nodesCreated, pos);
      ChildrenLeaves(OperationAt(ops, rnd, p), ops, number, rnd, depth, nodesCreated, p + 1, lo, hi);
    }
  }

  lemma {:induction false} ChildrenLeaves(op: Operation, ops: seq<Operation>, number: NumberSource, rnd: nat -> Draw,
    depth: int, nodesCreated: nat, q: nat, lo: real, hi: real)
    requires |ops| > 0 && op in ops
    requires nodesCreated < 2 || depth > 0
    requires forall base: Draw, power: Draw :: lo <= number(base, power) <= hi
    ensures LeavesWithin(GenerateChildren(op, ops, number, rnd, depth, nodesCreated, q).tree, lo, hi)
    decreases Measure(depth, nodesCreated), 0
  {
    var left := GenerateSubtree(ops, number, rnd, depth - 1, nodesCreated + 1, q);
    var n := nodesCreated + 1 + CountNodes(left.tree);
    SubtreeLeaves(ops, number, rnd, depth - 1, nodesCreated + 1, q, lo, hi);
    SubtreeLeaves(ops, number, rnd, depth - 1, n, left.next, lo, hi);
    ChildrenShape(op, ops, number, rnd, depth, nodesCreated, q);
    NodeLeaves(op, left.tree, GenerateSubtree(ops, number, rnd, depth - 1, n, left.next).tree, lo, hi);
  }

  lemma NodeLeaves(op: Operation, left: Node, right: Node, lo: real, hi: real)
    requires LeavesWithin(left, lo, hi) && LeavesWithin(right, lo, hi)
    ensures LeavesWithin(NodeOf(op, left, right), lo, hi)
  {
  }

  /** A subtree is a number leaf exactly when two nodes already exist and
      either the depth is used up or the coin came out at 0.5 or above. */
  lemma LeafCondition(ops: seq<Operation>, number: NumberSource, rnd: nat -> Draw,
    depth: int, nodesCreated: nat, pos: nat)
    requires |ops| > 0
    ensures GenerateSubtree(ops, number, rnd, depth, nodesCreated, pos).tree.Num? <==>
      nodesCreated >= 2 && (depth <= 0 || rnd(pos) >= 0.5)
  {
    if CreatesOperation(rnd, depth, nodesCreated, pos) {
      var p := AfterCoin(depth, nodesCreated, pos);
      ChildrenShape(OperationAt(ops, rnd, p), ops, number, rnd, depth, nodesCreated, p + 1);
    }
  }

  /** generateEquationTree: the subtree built from depth steps-1 with no
      nodes created yet. The root and its first child are operations, so
      every problem has at least two; no path holds more than
      max(steps-1, 2) operations. */
  function GenerateEquationTree(req: Requirements, rnd: nat -> Draw): (t: Node)
    requires |req.operations| > 0
    ensures WellFormed(t) && OpsIn(t, req.operations)
    ensures t.Op? && t.children[0].Op?
    ensures OperationCount(t) >= 2
    ensures OpDepthAtMost(t, Max(req.steps - 1, 2))
    ensures req.magnitude >= 0 && req.significantFigures >= 1 ==>
      LeavesWithin(t, Pow10(-req.magnitude), Pow10(req.magnitude + 1))
  {
    var number := NumberSourceOf(req);
    var t := GenerateSubtree(req.operations, number, rnd, req.steps - 1, 0, 0).tree;
    SubtreeWellFormed(req.operations, number, rnd, req.steps - 1, 0, 0);
    SubtreeDepth(req.operations, number, rnd, req.steps - 1, 0, 0, Max(req.steps - 1, 2));
    SubtreeLeftSpine(req.operations, number, rnd, req.steps - 1, 0, 0);
    if req.magnitude >= 0 && req.significantFigures >= 1 then
      SubtreeLeaves(req.operations, number, rnd, req.steps - 1, 0, 0, Pow10(-req.magnitude), Pow10(req.magnitude + 1));
      SpineCounted(t, 2);
      t
    else
      SpineCounted(t, 2);
      t
  }

  lemma {:induction false} SpineCounted(t: Node, k: nat)
    requires LeftSpineOps(t, k)
    ensures OperationCount(t) >= k
  {
    if k > 0 {
      SpineCounted(t.children[0], k - 1);
      OperationCountOfForestHead(t.children);
    }
  }

  lemma OperationCountOfForestHead(ts: seq<Node>)
    requires |ts| > 0
    ensures OperationCountOfForest(ts) >= OperationCount(ts[0])
  {
  }

  /** A forced operation node (fewer than two nodes so far) draws no coin:
      its operation is the one drawn at pos, its children follow. */
  lemma ForcedShape(ops: seq<Operation>, number: NumberSource, rnd: nat -> Draw,
    depth: int, nodesCreated: nat, pos: nat)
    requires |ops| > 0 && nodesCreated < 2
    ensures var left := GenerateSubtree(ops, number, rnd, depth - 1, nodesCreated + 1, pos + 1);
      var right := GenerateSubtree(ops, number, rnd, depth - 1, nodesCreated + 1 + CountNodes(left.tree), left.next);
      GenerateSubtree(ops, number, rnd, depth, nodesCreated, pos).tree
        == NodeOf(OperationAt(ops, rnd, pos), left.tree, right.tree)
  {
    ChildrenShape(OperationAt(ops, rnd, pos), ops, number, rnd, depth, nodesCreated, pos + 1);
  }

  /** With Multiplication as the only operation and one or two steps the
      problem is always the product of a product and a number: the root
      and its first child are forced, everything below them is a leaf. */
  lemma ProductOfProduct(req: Requirements, rnd: nat -> Draw)
    requires req.operations == [Multiplication] && 1 <= req.steps <= 2
    ensures exists a: real, b: real, c: real ::
      GenerateEquationTree(req, rnd) == Op(Multiplication, [Op(Multiplication, [Num(a), Num(b)]), Num(c)])
  {
    var root := GenerateSubtree(req.operations, NumberSourceOf(req), rnd, req.steps - 1, 0, 0).tree;
    assert GenerateEquationTree(req, rnd) == root;
    ProductOfProductSubtree(req.operations, NumberSourceOf(req), rnd, req.steps - 1);
    var left := root.children[0];
    PairOfNodes(left.children);
    PairOfNodes(root.children);
    assert root == Op(Multiplication, [Op(Multiplication, [Num(left.children[0].value), Num(left.children[1].value)]),
      Num(root.children[1].value)]);
  }

  lemma PairOfNodes(ts: seq<Node>)
    requires |ts| == 2
    ensures ts == [ts[0], ts[1]]
  {
  }

  lemma ProductOfProductSubtree(ops: seq<Operation>, number: NumberSource, rnd: nat -> Draw, d: int)
    requires ops == [Multiplication] && d <= 1
    ensures var root := GenerateSubtree(ops, number, rnd, d, 0, 0).tree;
      root.Op? && root.op == Multiplication && |root.children| == 2 && root.children[1].Num? &&
      var left := root.children[0];
      left.Op? && left.op == Multiplication && |left.children| == 2 &&
      left.children[0].Num? && left.children[1].Num?
  {
    var l := GenerateSubtree(ops, number, rnd, d - 1, 1, 1);
    ForcedShape(ops, number, rnd, d, 0, 0);
    var ll := GenerateSubtree(ops, number, rnd, d - 2, 2, 2);
    ForcedShape(ops, number, rnd, d - 1, 1, 1);
    LeafCondition(ops, number, rnd, d - 2, 2, 2);
    LeafCondition(ops, number, rnd, d - 2, 2 + CountNodes(ll.tree), ll.next);
    LeafCondition(ops, number, rnd, d - 1, 1 + CountNodes(l.tree), l.next);
    assert OperationAt(ops, rnd, 0) == Multiplication && OperationAt(ops, rnd, 1) == Multiplication;
  }
}
