/** The polynomials with which getCmpExprP7 starts, node by node: their values, and how deep they become once
    the program is prepared. */
module PolynomialNodes {
  import opened Graphs
  import opened Dags
  import opened Semantics
  import opened Labels
  import opened CircuitDepth
  import opened Exprs

  // ----- growing graphs -----

  /** g with k more nodes */
  predicate Grown(g: Graph, r: Graph, k: nat)
  {
    g.op <= r.op && g.operands <= r.operands && |g.op| == |g.operands| && |r.op| == |r.operands| == |g.op| + k
  }

  lemma GrownTwice(g: Graph, r: Graph, s: Graph, j: nat, k: nat)
    requires Grown(g, r, j) && Grown(r, s, k)
    ensures Grown(g, s, j + k) && |r.op| == |g.op| + j && |s.op| == |g.op| + j + k
  {
  }

  lemma OneNode(g: Graph, op: Op, operands: seq<NodeId>)
    requires |g.op| == |g.operands|
    ensures |AddNode(g, op, operands).op| == |g.op| + 1
    ensures Grown(g, AddNode(g, op, operands), 1) && NodeIs(AddNode(g, op, operands), |g.op|, op, operands)
  {
  }

  /** A number and a node over it. */
  lemma NumberNode(g: Graph, x: real, op: Op, operands: seq<NodeId>)
    requires |g.op| == |g.operands|
    ensures var r := AddNode(AddNode(g, C(x), []), op, operands);
      |r.op| == |g.op| + 2 && Grown(g, r, 2) && NodeIs(r, |g.op|, C(x), []) && NodeIs(r, |g.op| + 1, op, operands)
  {
    OneNode(g, C(x), []);
    OneNode(AddNode(g, C(x), []), op, operands);
  }

  lemma NodeStays(g: Graph, r: Graph, k: nat, n: NodeId, op: Op, operands: seq<NodeId>)
    requires Grown(g, r, k) && NodeIs(g, n, op, operands)
    ensures NodeIs(r, n, op, operands)
  {
  }

  lemma FactorStays(g: Graph, r: Graph, k: nat, b: NodeId, a: NodeId, z: NodeId, op: Op, x: real)
    requires Grown(g, r, k) && FactorNodes(g, b, a, z, op, x)
    ensures FactorNodes(r, b, a, z, op, x)
  {
  }

  // ----- factors -----

  /** a * (z - x) */
  method TimesDifference(e: ExprDag, a: Expr, z: Expr, x: real) returns (r: Expr)
    requires e.Valid() && e.IsExpr(a) && e.IsExpr(z)
    modifies e`info, e.dag
    ensures e.Valid() && e.Keeps() && e.IsExpr(r) && e.info.frozen == old(e.info.frozen)
    ensures e.Val(r) == Times(e.size, e.Val(a), Minus(e.size, e.Val(z), Filled(e.size, x)))
    ensures Grown(old(e.dag.G()), e.dag.G(), 3) && |e.dag.op| == r + 1 && r == |old(e.dag.G()).op| + 2
    ensures FactorNodes(e.dag.G(), r - 2, a, z, Op.Sub, x) && e.IsExpr(r - 1)
    ensures e.Depth(r - 1) == old(e.Depth(z)) && e.Factors(r) == old(e.Factors(a)) + 1
    ensures e.Depth(r) == Higher(old(e.Depth(a)), old(e.Depth(z))) + LogUp(e.Factors(r))
  {
    hide Plus, Minus, Times, Filled, ExprDag.IsExpr, ExprDag.Val, ExprDag.Valid, ExprDag.Unused, ExprDag.NoOutputs,
         ExprDag.Depth, ExprDag.Factors, AddNode, LogUp, Grown, NodeIs;
    ghost var g0 := e.dag.G();
    e.Counted();
    var f := e.SubNumber(z, x);
    ghost var g1 := e.dag.G();
    NumberNode(g0, x, Op.Sub, [z, f - 1]);
    r := e.Mul(a, f);
    OneNode(g1, Op.Mul, [a, f]);
    GrownTwice(g0, g1, e.dag.G(), 2, 1);
    NodeStays(g1, e.dag.G(), 1, f - 1, C(x), []);
    NodeStays(g1, e.dag.G(), 1, f, Op.Sub, [z, f - 1]);
  }

  /** a * (z + x) */
  method TimesSum(e: ExprDag, a: Expr, z: Expr, x: real) returns (r: Expr)
    requires e.Valid() && e.IsExpr(a) && e.IsExpr(z)
    modifies e`info, e.dag
    ensures e.Valid() && e.Keeps() && e.IsExpr(r) && e.info.frozen == old(e.info.frozen)
    ensures e.Val(r) == Times(e.size, e.Val(a), Plus(e.size, e.Val(z), Filled(e.size, x)))
    ensures Grown(old(e.dag.G()), e.dag.G(), 3) && |e.dag.op| == r + 1 && r == |old(e.dag.G()).op| + 2
    ensures FactorNodes(e.dag.G(), r - 2, a, z, Op.Add, x) && e.IsExpr(r - 1)
    ensures e.Depth(r - 1) == old(e.Depth(z)) && e.Factors(r) == old(e.Factors(a)) + 1
    ensures e.Depth(r) == Higher(old(e.Depth(a)), old(e.Depth(z))) + LogUp(e.Factors(r))
  {
    hide Plus, Minus, Times, Filled, ExprDag.IsExpr, ExprDag.Val, ExprDag.Valid, ExprDag.Unused, ExprDag.NoOutputs,
         ExprDag.Depth, ExprDag.Factors, AddNode, LogUp, Grown, NodeIs;
    ghost var g0 := e.dag.G();
    e.Counted();
    var f := e.AddNumber(z, x);
    ghost var g1 := e.dag.G();
    NumberNode(g0, x, Op.Add, [z, f - 1]);
    r := e.Mul(a, f);
    OneNode(g1, Op.Mul, [a, f]);
    GrownTwice(g0, g1, e.dag.G(), 2, 1);
    NodeStays(g1, e.dag.G(), 1, f - 1, C(x), []);
    NodeStays(g1, e.dag.G(), 1, f, Op.Add, [z, f - 1]);
  }

  /** a times the factors z - 1, z - 2 and z - 3. */
  method ThreeFactors(e: ExprDag, a: Expr, z: Expr) returns (r: Expr)
    requires e.Valid() && e.IsExpr(a) && e.IsExpr(z)
    modifies e`info, e.dag
    ensures e.Valid() && e.Keeps() && e.IsExpr(r) && e.info.frozen == old(e.info.frozen)
    ensures e.Val(r) == FactorSlots(e.size, e.Val(a), e.Val(z))
    ensures Grown(old(e.dag.G()), e.dag.G(), 9) && r == |old(e.dag.G()).op| + 8
    ensures ThreeNodes(e.dag.G(), r - 8, a, z) && e.Depth(r) >= old(e.Depth(a))
    ensures e.Depth(r - 7) == e.Depth(r - 4) == e.Depth(r - 1) == old(e.Depth(z)) && |e.dag.op| == r + 1
  {
    hide Plus, Minus, Times, Filled, ExprDag.IsExpr, ExprDag.Val, ExprDag.Valid, ExprDag.Unused, ExprDag.NoOutputs,
         ExprDag.Depth, ExprDag.Factors, AddNode, LogUp, Grown, FactorNodes;
    ghost var g0 := e.dag.G();
    r := TimesDifference(e, a, z, 1.0);
    ghost var g1, b := e.dag.G(), r - 2;
    r := TimesDifference(e, r, z, 2.0);
    ghost var g2 := e.dag.G();
    r := TimesDifference(e, r, z, 3.0);
    ghost var g3 := e.dag.G();
    GrownTwice(g1, g2, g3, 3, 3);
    GrownTwice(g0, g1, g3, 3, 6);
    FactorStays(g1, g3, 6, b, a, z, Op.Sub, 1.0);
    FactorStays(g2, g3, 3, b + 3, b + 2, z, Op.Sub, 2.0);
  }

  // ----- the two polynomials -----

  lemma BuiltIsOrdered(g: Graph, size: nat)
    requires Built(g, size)
    ensures Ordered(g)
  {
  }

  /** What is known of the graph of an expression. */
  lemma GraphFacts(e: ExprDag)
    requires e.Valid()
    ensures Built(e.dag.G(), e.size) && Ordered(e.dag.G()) && |e.info.labels| == |e.dag.G().op|
  {
    e.Counted();
    BuiltIsOrdered(e.dag.G(), e.size);
  }

  /** The label of x * z * z once it is one product of three factors. */
  ghost method LowerSquare(e: ExprDag, b: Expr, x: real, z: Expr)
    requires e.Valid() && e.IsExpr(b + 2) && SquareNodes(e.dag.G(), b, x, z) && |e.dag.op| == b + 3
    requires z < b && !e.dag.op[z].Mul? && e.Depth(b + 2) >= e.Depth(z) + 2 && e.Depth(b) == 0
    modifies e`info
    ensures e.Valid() && e.info.frozen == old(e.info.frozen) + {b + 1}
    ensures e.IsExpr(b + 2) && e.Val(b + 2) == old(e.Val(b + 2)) && e.Depth(b + 2) == e.Depth(z) + 2
    ensures forall m: Expr :: old(e.IsExpr(m)) && m < b ==>
      && e.IsExpr(m) && e.Val(m) == old(e.Val(m)) && e.Depth(m) == old(e.Depth(m))
      && e.Factors(m) == old(e.Factors(m))
  {
    hide ExprDag.Valid, Labelled, Ordered, SquareNodes;
    GraphFacts(e);
    var tag := Label(e.Depth(z) + 2, 3);
    SquareLabelled(e.dag.G(), e.info.frozen + {b + 1}, e.info.labels[b + 2 := tag], b, x, z);
    e.LowerLabel(b + 2, {b + 1}, tag);
  }

  /** a + x * z */
  method PlusProduct(e: ExprDag, a: Expr, z: Expr, x: real) returns (r: Expr)
    requires e.Valid() && e.IsExpr(a) && e.IsExpr(z) && !e.dag.op[z].Mul?
    modifies e`info, e.dag
    ensures e.Valid() && e.Keeps() && e.IsExpr(r) && e.info.frozen == old(e.info.frozen)
    ensures e.Val(r) == Plus(e.size, e.Val(a), Times(e.size, Filled(e.size, x), e.Val(z)))
    ensures Grown(old(e.dag.G()), e.dag.G(), 3) && |e.dag.op| == r + 1 && r == |old(e.dag.G()).op| + 2
    ensures ProductNodes(e.dag.G(), r - 2, a, z, x)
    ensures e.Depth(r) == Higher(old(e.Depth(a)), old(e.Depth(z)) + 1)
  {
    hide Plus, Minus, Times, Filled, ExprDag.IsExpr, ExprDag.Val, ExprDag.Valid, ExprDag.Unused, ExprDag.NoOutputs,
         ExprDag.Depth, ExprDag.Factors, AddNode, LogUp, Grown, NodeIs, SquareNodes, SumNodes;
    SmallHeights();
    e.OneFactor(z);
    e.Counted();
    ghost var g0 := e.dag.G();
    var s := e.NumberMul(x, z);
    ghost var g1 := e.dag.G();
    NumberNode(g0, x, Op.Mul, [s - 1, z]);
    r := e.Add(a, s);
    OneNode(g1, Op.Add, [a, s]);
    GrownTwice(g0, g1, e.dag.G(), 2, 1);
    NodeStays(g1, e.dag.G(), 1, s - 1, C(x), []);
    NodeStays(g1, e.dag.G(), 1, s, Op.Mul, [s - 1, z]);
  }

  predicate ProductNodes(g: Graph, b: NodeId, a: NodeId, z: NodeId, x: real)
  {
    NodeIs(g, b, C(x), []) && NodeIs(g, b + 1, Mul, [b, z]) && NodeIs(g, b + 2, Add, [a, b + 1])
  }

  /** 1/72 * z * z + 3/40 * z + 37/360 */
  method SumStart(e: ExprDag, z: Expr) returns (r: Expr)
    requires e.Valid() && e.IsExpr(z) && !e.dag.op[z].Mul?
    modifies e`info, e.dag
    ensures e.Valid() && e.Keeps() && e.IsExpr(r) && e.Val(r) == SumSlots(e.size, e.Val(z))
    ensures Grown(old(e.dag.G()), e.dag.G(), 8) && |e.dag.op| == r + 1 && r == |old(e.dag.G()).op| + 7
    ensures SumNodes(e.dag.G(), r - 7, z) && e.Depth(r) == old(e.Depth(z)) + 2 && e.Factors(r) == 1
  {
    hide Plus, Minus, Times, Filled, ExprDag.IsExpr, ExprDag.Val, ExprDag.Valid, ExprDag.Unused, ExprDag.NoOutputs,
         ExprDag.Depth, ExprDag.Factors, AddNode, LogUp, Grown, NodeIs, SquareNodes, SumNodes, ProductNodes;
    e.Counted();
    ghost var g0 := e.dag.G();
    r := SquareStart(e, z, 1.0 / 72.0);
    ghost var g1, b := e.dag.G(), r - 2;
    StillNoProduct(g0, g1, 3, z);
    r := PlusProduct(e, r, z, 3.0 / 40.0);
    ghost var g2, a := e.dag.G(), r;
    e.Counted();
    r := e.AddNumber(r, 37.0 / 360.0);
    NumberNode(g2, 37.0 / 360.0, Op.Add, [a, r - 1]);
    SumStays(g0, g1, g2, e.dag.G(), b, z);
  }

  lemma StillNoProduct(g: Graph, r: Graph, k: nat, z: NodeId)
    requires Grown(g, r, k) && z < |g.op|
    ensures z < |r.op| && r.op[z] == g.op[z]
  {
  }

  lemma SumStays(g0: Graph, g1: Graph, g2: Graph, g3: Graph, b: NodeId, z: NodeId)
    requires Grown(g0, g1, 3) && Grown(g1, g2, 3) && Grown(g2, g3, 2)
    requires SquareNodes(g1, b, 1.0 / 72.0, z) && ProductNodes(g2, b + 3, b + 2, z, 3.0 / 40.0)
    requires NodeIs(g3, b + 6, C(37.0 / 360.0), []) && NodeIs(g3, b + 7, Add, [b + 5, b + 6])
    ensures Grown(g0, g3, 8) && SumNodes(g3, b, z)
  {
  }

  /** x * z * z */
  method SquareStart(e: ExprDag, z: Expr, x: real) returns (r: Expr)
    requires e.Valid() && e.IsExpr(z) && !e.dag.op[z].Mul?
    modifies e`info, e.dag
    ensures e.Valid() && e.Keeps() && e.IsExpr(r)
    ensures e.Val(r) == Times(e.size, Times(e.size, Filled(e.size, x), e.Val(z)), e.Val(z))
    ensures Grown(old(e.dag.G()), e.dag.G(), 3) && |e.dag.op| == r + 1 && r == |old(e.dag.G()).op| + 2
    ensures SquareNodes(e.dag.G(), r - 2, x, z) && e.Depth(r) == old(e.Depth(z)) + 2
  {
    hide Plus, Minus, Times, Filled, ExprDag.IsExpr, ExprDag.Val, ExprDag.Valid, ExprDag.Unused, ExprDag.NoOutputs,
         ExprDag.Depth, ExprDag.Factors, AddNode, LogUp, Grown, NodeIs;
    ghost var g0 := e.dag.G();
    e.Counted();
    e.OneFactor(z);
    var s := e.NumberMul(x, z);
    ghost var g1 := e.dag.G();
    NumberNode(g0, x, Op.Mul, [s - 1, z]);
    r := e.Mul(s, z);
    OneNode(g1, Op.Mul, [s, z]);
    GrownTwice(g0, g1, e.dag.G(), 2, 1);
    NodeStays(g1, e.dag.G(), 1, s - 1, C(x), []);
    NodeStays(g1, e.dag.G(), 1, s, Op.Mul, [s - 1, z]);
    SmallHeights();
    LowerSquare(e, s - 1, x, z);
  }

  lemma SmallHeights()
    ensures LogUp(2) == 1 && LogUp(3) == 2
  {
  }

  /** The first entry of lt_list. */
  method LessStart(e: ExprDag, z: Expr) returns (lt: Expr)
    requires e.Valid() && e.IsExpr(z) && !e.dag.op[z].Mul?
    modifies e`info, e.dag
    ensures e.Valid() && e.Keeps() && e.IsExpr(lt) && e.Val(lt) == LessSlots(e.size, e.Val(z))
    ensures Grown(old(e.dag.G()), e.dag.G(), 18) && e.Depth(lt) == old(e.Depth(z)) + 3
  {
    hide Plus, Minus, Times, Filled, ExprDag.IsExpr, ExprDag.Val, ExprDag.Valid, ExprDag.Unused, ExprDag.NoOutputs,
         ExprDag.Depth, ExprDag.Factors, AddNode, LogUp, Grown, NodeIs, SumNodes, ThreeNodes,
         LessNodes, FirstNodes, EqualNodes, SumSlots, FirstSlots, FactorSlots;
    e.Counted();
    ghost var g0 := e.dag.G();
    var sum := SumStart(e, z);
    ghost var g1, b := e.dag.G(), sum - 7;
    StillNoProduct(g0, g1, 8, z);
    e.OneFactor(z);
    SmallHeights();
    e.Counted();
    var a := e.Mul(sum, z);
    ghost var g2 := e.dag.G();
    OneNode(g1, Op.Mul, [sum, z]);
    lt := ThreeFactors(e, a, z);
    LessStays(g0, g1, g2, e.dag.G(), b, z);
    StillNoProduct(g0, e.dag.G(), 18, z);
    LowerLess(e, b, z);
  }

  lemma LessStays(g0: Graph, g1: Graph, g2: Graph, g3: Graph, b: NodeId, z: NodeId)
    requires Grown(g0, g1, 8) && Grown(g1, g2, 1) && Grown(g2, g3, 9)
    requires SumNodes(g1, b, z) && NodeIs(g2, b + 8, Mul, [b + 7, z]) && ThreeNodes(g3, b + 9, b + 8, z)
    ensures Grown(g0, g3, 18) && LessNodes(g3, b, z)
  {
  }

  /** The label of the first entry of lt_list. */
  ghost method LowerLess(e: ExprDag, b: Expr, z: Expr)
    requires e.Valid() && e.IsExpr(b + 17) && LessNodes(e.dag.G(), b, z) && |e.dag.op| == b + 18
    requires z < b && !e.dag.op[z].Mul? && e.Depth(b + 17) >= e.Depth(z) + 3 && e.Depth(b + 7) == e.Depth(z) + 2
    requires e.Depth(b + 10) == e.Depth(b + 13) == e.Depth(b + 16) == e.Depth(z)
    modifies e`info
    ensures e.Valid()
    ensures e.IsExpr(b + 17) && e.Val(b + 17) == old(e.Val(b + 17)) && e.Depth(b + 17) == e.Depth(z) + 3
    ensures forall m: Expr :: old(e.IsExpr(m)) && m < b ==>
      && e.IsExpr(m) && e.Val(m) == old(e.Val(m)) && e.Depth(m) == old(e.Depth(m))
      && e.Factors(m) == old(e.Factors(m))
  {
    hide ExprDag.Valid, Labelled, Ordered, LessNodes, LessAt;
    GraphFacts(e);
    var tag, more := Label(e.Depth(z) + 3, 5), {b + 8, b + 11, b + 14};
    LessDepths(e.info.labels, tag, b, z);
    LessLabelled(e.dag.G(), e.info.frozen + more, e.info.labels[b + 17 := tag], b, z);
    e.LowerLabel(b + 17, more, tag);
  }

  lemma LessDepths(labels: Labelling, tag: Label, b: NodeId, z: NodeId)
    requires |labels| == b + 18 && z < b && tag == Label(BoundOf(labels)(z) + 3, 5)
    requires BoundOf(labels)(b + 7) == BoundOf(labels)(z) + 2
    requires BoundOf(labels)(b + 10) == BoundOf(labels)(b + 13) == BoundOf(labels)(b + 16) == BoundOf(labels)(z)
    ensures LessAt(b, z, labels[b + 17 := tag])
  {
  }

  /** The first entry of eq_list. */
  method EqualStart(e: ExprDag, z: Expr) returns (eq: Expr)
    requires e.Valid() && e.IsExpr(z)
    modifies e`info, e.dag
    ensures e.Valid() && e.Keeps() && e.IsExpr(eq) && e.Val(eq) == EqualSlots(e.size, e.Val(z))
    ensures Grown(old(e.dag.G()), e.dag.G(), 19) && e.Depth(eq) == old(e.Depth(z)) + 3
  {
    hide Plus, Minus, Times, Filled, ExprDag.IsExpr, ExprDag.Val, ExprDag.Valid, ExprDag.Unused, ExprDag.NoOutputs,
         ExprDag.Depth, ExprDag.Factors, AddNode, LogUp, Grown, NodeIs, SumNodes, ThreeNodes,
         LessNodes, FirstNodes, EqualNodes, SumSlots, FirstSlots, FactorSlots;
    e.Counted();
    ghost var g0 := e.dag.G();
    var a := FirstFactors(e, z);
    ghost var g1, b := e.dag.G(), a - 9;
    eq := ThreeFactors(e, a, z);
    EqualStays(g0, g1, e.dag.G(), b, z);
    LowerEqual(e, b, z);
  }

  lemma EqualStays(g0: Graph, g1: Graph, g2: Graph, b: NodeId, z: NodeId)
    requires Grown(g0, g1, 10) && Grown(g1, g2, 9) && FirstNodes(g1, b, z) && ThreeNodes(g2, b + 10, b + 9, z)
    ensures Grown(g0, g2, 19) && EqualNodes(g2, b, z)
  {
  }

  /** The label of the first entry of eq_list. */
  ghost method LowerEqual(e: ExprDag, b: Expr, z: Expr)
    requires e.Valid() && e.IsExpr(b + 18) && EqualNodes(e.dag.G(), b, z) && |e.dag.op| == b + 19 && z < b
    requires e.Depth(b + 18) >= e.Depth(z) + 3 && e.Depth(b + 2) == 0
    requires e.Depth(b + 1) == e.Depth(b + 5) == e.Depth(b + 8) == e.Depth(z)
    requires e.Depth(b + 11) == e.Depth(b + 14) == e.Depth(b + 17) == e.Depth(z)
    modifies e`info
    ensures e.Valid()
    ensures e.IsExpr(b + 18) && e.Val(b + 18) == old(e.Val(b + 18)) && e.Depth(b + 18) == e.Depth(z) + 3
    ensures forall m: Expr :: old(e.IsExpr(m)) && m < b ==>
      && e.IsExpr(m) && e.Val(m) == old(e.Val(m)) && e.Depth(m) == old(e.Depth(m))
      && e.Factors(m) == old(e.Factors(m))
  {
    hide ExprDag.Valid, Labelled, Ordered, EqualNodes, EqualAt;
    GraphFacts(e);
    var tag, more := Label(e.Depth(z) + 3, 7), {b + 3, b + 6, b + 9, b + 12, b + 15};
    EqualDepths(e.info.labels, tag, b, z);
    EqualLabelled(e.dag.G(), e.info.frozen + more, e.info.labels[b + 18 := tag], b, z);
    e.LowerLabel(b + 18, more, tag);
  }

  lemma EqualDepths(labels: Labelling, tag: Label, b: NodeId, z: NodeId)
    requires |labels| == b + 19 && z < b && tag == Label(BoundOf(labels)(z) + 3, 7) && BoundOf(labels)(b + 2) == 0
    requires BoundOf(labels)(b + 1) == BoundOf(labels)(b + 5) == BoundOf(labels)(b + 8) == BoundOf(labels)(z)
    requires BoundOf(labels)(b + 11) == BoundOf(labels)(b + 14) == BoundOf(labels)(b + 17) == BoundOf(labels)(z)
    ensures EqualAt(b, labels[b + 18 := tag], labels[z].depth)
  {
  }

  /** -1/36 * (z + 3) * (z + 2) * (z + 1) */
  method FirstFactors(e: ExprDag, z: Expr) returns (r: Expr)
    requires e.Valid() && e.IsExpr(z)
    modifies e`info, e.dag
    ensures e.Valid() && e.Keeps() && e.IsExpr(r) && e.Val(r) == FirstSlots(e.size, e.Val(z))
    ensures Grown(old(e.dag.G()), e.dag.G(), 10) && |e.dag.op| == r + 1 && r == |old(e.dag.G()).op| + 9
    ensures FirstNodes(e.dag.G(), r - 9, z) && e.Depth(r) >= old(e.Depth(z)) + 3
    ensures e.IsExpr(r - 8) && e.IsExpr(r - 7) && e.IsExpr(r - 4) && e.IsExpr(r - 1) && e.Depth(r - 7) == 0
    ensures e.Depth(r - 8) == e.Depth(r - 4) == e.Depth(r - 1) == old(e.Depth(z))
  {
    hide Plus, Minus, Times, Filled, ExprDag.IsExpr, ExprDag.Val, ExprDag.Valid, ExprDag.Unused, ExprDag.NoOutputs,
         ExprDag.Depth, ExprDag.Factors, AddNode, LogUp, Grown, NodeIs, FactorNodes,
         FirstNodes;
    SmallHeights();
    e.Counted();
    ghost var g0 := e.dag.G();
    var f := e.AddNumber(z, 3.0);
    ghost var g1 := e.dag.G();
    NumberNode(g0, 3.0, Op.Add, [z, f - 1]);
    r := e.NumberMul((-1.0) / 36.0, f);
    ghost var g2 := e.dag.G();
    e.Counted();
    NumberNode(g1, (-1.0) / 36.0, Op.Mul, [r - 1, f]);
    r := TimesSum(e, r, z, 2.0);
    ghost var g3 := e.dag.G();
    r := TimesSum(e, r, z, 1.0);
    FirstStays(g0, g1, g2, g3, e.dag.G(), f - 1, z);
  }

  lemma FirstStays(g0: Graph, g1: Graph, g2: Graph, g3: Graph, g4: Graph, b: NodeId, z: NodeId)
    requires Grown(g0, g1, 2) && Grown(g1, g2, 2) && Grown(g2, g3, 3) && Grown(g3, g4, 3)
    requires NodeIs(g1, b, C(3.0), []) && NodeIs(g1, b + 1, Add, [z, b])
    requires NodeIs(g2, b + 2, C((-1.0) / 36.0), []) && NodeIs(g2, b + 3, Mul, [b + 2, b + 1])
    requires FactorNodes(g3, b + 4, b + 3, z, Add, 2.0) && FactorNodes(g4, b + 7, b + 6, z, Add, 1.0)
    ensures Grown(g0, g4, 10) && FirstNodes(g4, b, z)
  {
  }

  function FactorSlots(size: nat, a: Slots, z: Slots): Slots
  {
    Times(size, Times(size, Times(size, a, Minus(size, z, Filled(size, 1.0))), Minus(size, z, Filled(size, 2.0))),
          Minus(size, z, Filled(size, 3.0)))
  }

  function SumSlots(size: nat, z: Slots): Slots
  {
    var square := Times(size, Times(size, Filled(size, 1.0 / 72.0), z), z);
    Plus(size, Plus(size, square, Times(size, Filled(size, 3.0 / 40.0), z)), Filled(size, 37.0 / 360.0))
  }

  function LessSlots(size: nat, z: Slots): Slots
  {
    FactorSlots(size, Times(size, SumSlots(size, z), z), z)
  }

  function FirstSlots(size: nat, z: Slots): Slots
  {
    var a := Times(size, Filled(size, (-1.0) / 36.0), Plus(size, z, Filled(size, 3.0)));
    Times(size, Times(size, a, Plus(size, z, Filled(size, 2.0))), Plus(size, z, Filled(size, 1.0)))
  }

  function EqualSlots(size: nat, z: Slots): Slots
  {
    FactorSlots(size, FirstSlots(size, z), z)
  }
}
