/** Expressions, iyfc/dag/expr.cpp: each operator makes a node of the graph that the expressions share, and
    an expression is that node. Along with the graph goes the value that plain evaluation gives every node. */
module Exprs {
  import opened Graphs
  import opened Usage
  import opened Dags
  import opened Semantics
  import opened ConstantFolding
  import opened Labels

  type Expr = NodeId

  const DEFAULT_SCALE: nat := 60

  /** Opcodes a frontend produces. */
  predicate IsUserOp(op: Op)
  {
    !op.Rescale? && !op.Relinearize? && !op.ModSwitch? && !op.Encode?
  }

  /** What a program looks like while it is built: operands are made before their users, and outputs are
      used no further. */
  ghost predicate Built(g: Graph, size: nat)
  {
    && WellFormed(g) && Arity(g) && SourceArity(g) && ConstantsFit(g, size) && size > 0
    && (forall n: NodeId :: n < |g.op| ==> Live(g, n) && IsUserOp(g.op[n]))
    && forall n: NodeId, i: nat :: n < |g.operands| && i < |g.operands[n]| ==>
      g.operands[n][i] < n && !g.op[g.operands[n][i]].Output?
  }

  lemma BuiltIsAcyclic(g: Graph, size: nat)
    requires Built(g, size)
    ensures Acyclic(g)
  {
    var rank: seq<nat> := seq(|g.operands|, n requires 0 <= n < |g.operands| => n);
    assert Ranked(g, rank);
  }

  /** A node over expressions that are no outputs. */
  ghost predicate CanMake(g: Graph, size: nat, op: Op, operands: seq<NodeId>)
  {
    && IsUserOp(op) && |operands| == (if IsSourceOp(op) then 0 else if IsBinaryOp(op) then 2 else 1)
    && (op.Constant? ==> op.values != [] && size > 0 && size % |op.values| == 0)
    && forall i: nat :: i < |operands| ==> operands[i] < |g.op| && !g.op[operands[i]].Output?
  }

  lemma CanMakeBinary(g: Graph, size: nat, op: Op, a: NodeId, b: NodeId)
    requires IsBinaryOp(op) && a < |g.op| && b < |g.op| && !g.op[a].Output? && !g.op[b].Output?
    ensures CanMake(g, size, op, [a, b])
  {
  }

  lemma CanMakeUnary(g: Graph, size: nat, op: Op, a: NodeId)
    requires (op.RotateLeft? || op.RotateRight? || op.Negate?) && a < |g.op| && !g.op[a].Output?
    ensures CanMake(g, size, op, [a])
  {
  }

  lemma NewUnary(g: Graph, labels: Labelling, op: Op, a: NodeId, n: NodeId)
    requires n == |g.op| && |labels| == n && a < n && !op.Mul?
    ensures var r, labels' := AddNode(g, op, [a]), labels + [NewLabel(g, labels, op, [a])];
      FactorsOf(r, labels', n) == 1 && BoundOf(labels')(n) == BoundOf(labels)(a)
  {
    DepthOfOne(labels, a);
  }

  lemma CanMakeBounds(g: Graph, size: nat, op: Op, operands: seq<NodeId>)
    requires CanMake(g, size, op, operands)
    ensures (op.Mul? ==> |operands| == 2) && forall i: nat :: i < |operands| ==> operands[i] < |g.op|
  {
  }

  lemma LabelsKept(g: Graph, labels: Labelling, op: Op, operands: seq<NodeId>, tag: Label)
    requires |labels| == |g.op|
    ensures forall m: NodeId :: m < |g.op| ==>
      && BoundOf(labels + [tag])(m) == BoundOf(labels)(m)
      && FactorsOf(AddNode(g, op, operands), labels + [tag], m) == FactorsOf(g, labels, m)
  {
  }

  lemma NewFactors(g: Graph, labels: Labelling, op: Op, a: NodeId, b: NodeId, n: NodeId)
    requires n == |g.op| && |labels| == n && a < n && b < n && IsBinaryOp(op)
    ensures var r, labels' := AddNode(g, op, [a, b]), labels + [NewLabel(g, labels, op, [a, b])];
      && FactorsOf(r, labels', n) == (if op.Mul? then FactorsOf(g, labels, a) + FactorsOf(g, labels, b) else 1)
      && BoundOf(labels')(n) == Higher(BoundOf(labels)(a), BoundOf(labels)(b))
           + (if op.Mul? then LogUp(FactorsOf(g, labels, a) + FactorsOf(g, labels, b)) else 0)
  {
    DepthOfTwo(labels, a, b);
  }

  lemma BuiltNext(g: Graph, size: nat, op: Op, operands: seq<NodeId>)
    requires Built(g, size) && CanMake(g, size, op, operands)
    ensures Built(AddNode(g, op, operands), size)
    ensures forall i: nat :: i < |operands| ==> Live(g, operands[i])
  {
    AddNodeWellFormed(g, op, operands);
  }

  /** The last node is not used. */
  lemma LastUnused(g: Graph, size: nat)
    requires Built(g, size) && g.op != []
    ensures !IsUsed(g, |g.op| - 1)
  {
    var n: NodeId := |g.op| - 1;
    forall u: NodeId | u < |g.operands|
      ensures n !in g.operands[u]
    {
      assert forall i: nat :: i < |g.operands[u]| ==> g.operands[u][i] < u;
    }
  }

  /** What was not used before a node is used after it only as an operand of it. */
  lemma StillUnused(g: Graph, op: Op, operands: seq<NodeId>, m: NodeId)
    requires !IsUsed(g, m) && m !in operands
    ensures !IsUsed(AddNode(g, op, operands), m)
  {
    var r := AddNode(g, op, operands);
    forall u: NodeId | u < |r.operands|
      ensures m !in r.operands[u]
    {
      assert u < |g.operands| ==> m !in g.operands[u];
    }
  }

  /** The values with that of the new node. */
  lemma MadeValues(g: Graph, size: nat, env: NodeId -> Slots, vals: seq<Slots>, op: Op, operands: seq<NodeId>)
    requires Interprets(g, SlotSem(size, env), vals)
    requires forall i: nat :: i < |operands| ==> Live(g, operands[i]) && operands[i] < |vals|
    ensures Interprets(AddNode(g, op, operands), SlotSem(size, env),
      vals + [Meaning(size, env, |vals|, op, Values(vals, operands))])
  {
    var r, w := AddNode(g, op, operands), vals + [Meaning(size, env, |vals|, op, Values(vals, operands))];
    AddNodeWellFormed(g, op, operands);
    hide Meaning;
    forall n: NodeId | Live(r, n)
      ensures w[n] == Meaning(size, env, n, r.op[n], Args(r, w, n))
    {
      if n < |vals| {
        assert vals[n] == Meaning(size, env, n, g.op[n], Args(g, vals, n));
        assert Args(r, w, n) == Args(g, vals, n);
      } else {
        assert Args(r, w, n) == Values(vals, operands);
      }
    }
  }

  /** Inputs are vectors that fill the slots. */
  ghost predicate InputsGiven(g: Graph, size: nat, env: NodeId -> Slots)
  {
    forall n: NodeId :: n < |g.op| && g.op[n].Input? ==> |env(n)| == size
  }

  /** All that holds once a node is made. */
  lemma Made(g: Graph, size: nat, env: NodeId -> Slots, vals: seq<Slots>, op: Op, operands: seq<NodeId>)
    requires Built(g, size) && CanMake(g, size, op, operands) && |vals| == |g.op|
    requires Interprets(g, SlotSem(size, env), vals) && InputsGiven(g, size, env)
    requires op.Input? ==> |env(|g.op|)| == size
    ensures var r := AddNode(g, op, operands);
      && Built(r, size) && InputsGiven(r, size, env) && !IsUsed(r, |g.op|)
      && Interprets(r, SlotSem(size, env), vals + [Meaning(size, env, |vals|, op, Values(vals, operands))])
    ensures forall m: NodeId :: !IsUsed(g, m) && m !in operands ==> !IsUsed(AddNode(g, op, operands), m)
    ensures WellFormed(g) && forall i: nat :: i < |operands| ==> Live(g, operands[i])
    ensures AddNode(g, op, operands).op == g.op + [op]
  {
    var r := AddNode(g, op, operands);
    BuiltNext(g, size, op, operands);
    LastUnused(r, size);
    assert WellFormed(g) && IsUserOp(op) && forall i: nat :: i < |operands| ==> operands[i] < |vals|;
    hide Built, CanMake, Interprets, Meaning, IsUsed;
    MadeValues(g, size, env, vals, op, operands);
    forall m: NodeId | !IsUsed(g, m) && m !in operands
      ensures !IsUsed(r, m)
    {
      StillUnused(g, op, operands, m);
    }
  }

  /** What is known of a graph under construction: the value of each node, a bound for the depth it can have
      once the program is prepared, and which nodes get no more uses. */
  datatype Info = Info(vals: seq<Slots>, labels: Labelling, frozen: set<NodeId>)

  /** What is known is right. */
  ghost predicate Known(g: Graph, size: nat, env: NodeId -> Slots, info: Info)
  {
    && Built(g, size) && |info.vals| == |g.op| && Interprets(g, SlotSem(size, env), info.vals)
    && InputsGiven(g, size, env) && AllLabelled(g, info.frozen, info.labels)
    && forall n: NodeId :: n in info.frozen ==> n < |g.op|
  }

  function WithNode(g: Graph, size: nat, env: NodeId -> Slots, info: Info, op: Op, operands: seq<NodeId>): Info
  {
    Info(info.vals + [Meaning(size, env, |info.vals|, op, Values(info.vals, operands))],
      info.labels + [NewLabel(g, info.labels, op, operands)], info.frozen)
  }

  lemma NodeKnown(g: Graph, size: nat, env: NodeId -> Slots, info: Info, op: Op, operands: seq<NodeId>)
    requires Known(g, size, env, info) && CanMake(g, size, op, operands) && (op.Input? ==> |env(|g.op|)| == size)
    requires forall i: nat :: i < |operands| ==> operands[i] !in info.frozen
    ensures Known(AddNode(g, op, operands), size, env, WithNode(g, size, env, info, op, operands))
    ensures |info.vals| == |info.labels| == |g.op| && |g.op| !in info.frozen
    ensures |Meaning(size, env, |info.vals|, op, Values(info.vals, operands))| == size
  {
    assert |Meaning(size, env, |info.vals|, op, Values(info.vals, operands))| == size;
    hide Interprets, Meaning, IsUsed, WellFormed, Values, InputsGiven, AllLabelled, NewLabel;
    CanMakeBounds(g, size, op, operands);
    Made(g, size, env, info.vals, op, operands);
    NodeLabelled(g, info.frozen, info.labels, op, operands);
    assert AllLabelled(g, info.frozen, info.labels);
    LabelCount(g, info.frozen, info.labels);
  }

  lemma NodeFacts(g: Graph, size: nat, env: NodeId -> Slots, info: Info, op: Op, operands: seq<NodeId>)
    requires Known(g, size, env, info) && CanMake(g, size, op, operands) && (op.Input? ==> |env(|g.op|)| == size)
    ensures var r := AddNode(g, op, operands);
      && r.op == g.op + [op] && !IsUsed(r, |g.op|)
      && forall m: NodeId :: !IsUsed(g, m) && m !in operands ==> !IsUsed(r, m)
    ensures |g.op| == |g.operands| && forall i: nat :: i < |operands| ==> Live(g, operands[i])
  {
    Made(g, size, env, info.vals, op, operands);
  }

  lemma LabelCount(g: Graph, frozen: set<NodeId>, labels: Labelling)
    requires AllLabelled(g, frozen, labels)
    ensures |labels| == |g.op|
  {
  }

  class ExprDag {
    const dag: Dag
    const size: nat
    /** m_scale and m_try_reduce_scale_cnt, which && and || change. */
    var scale: nat
    var tries: int
    ghost const env: NodeId -> Slots
    ghost var info: Info

    ghost predicate Valid()
      reads this`info, dag
    {
      dag.Valid() && Known(dag.G(), size, env, info)
    }

    ghost predicate IsExpr(n: Expr)
      reads this`info, dag
    {
      n < |info.vals| && n < |dag.op| && !dag.op[n].Output? && |info.vals[n]| == size && n !in info.frozen
    }

    ghost function Val(n: Expr): Slots
      reads this`info
    {
      if n < |info.vals| then info.vals[n] else []
    }

    /** How deep the node is at most once the program is prepared. */
    ghost function Depth(n: Expr): nat
      reads this`info
    {
      BoundOf(info.labels)(n)
    }

    /** How many factors it hands on to a product, at most. */
    ghost function Factors(n: Expr): nat
      reads this`info, dag
    {
      FactorsOf(dag.G(), info.labels, n)
    }

    ghost predicate Unused(n: Expr)
      reads dag
    {
      !IsUsed(dag.G(), n)
    }

    ghost predicate NoOutputs()
      reads dag
    {
      forall n: NodeId :: n < |dag.op| ==> !dag.op[n].Output?
    }

    /** Expressions stay what they are while others are made. */
    twostate predicate Keeps()
      reads this`info, dag
    {
      KeepsValues() && (old(NoOutputs()) ==> NoOutputs())
    }

    twostate predicate KeepsValues()
      reads this`info, dag
    {
      forall m: Expr :: old(IsExpr(m)) ==>
        IsExpr(m) && Val(m) == old(Val(m)) && Depth(m) == old(Depth(m)) && Factors(m) == old(Factors(m))
    }

    /** env gives the inputs of the evaluation that the values belong to. */
    constructor (size0: nat, ghost env0: NodeId -> Slots)
      requires size0 > 0
      ensures Valid() && fresh(dag) && size == size0 && env == env0 && NoOutputs() && dag.op == []
      ensures scale == DEFAULT_SCALE && tries == 1
    {
      dag := new Dag();
      size, env, info := size0, env0, Info([], [], {});
      scale, tries := DEFAULT_SCALE, 1;
      new;
      NothingLabelled(dag.G());
    }

    method MakeNode(op: Op, operands: seq<NodeId>) returns (n: NodeId)
      requires Valid() && CanMake(dag.G(), size, op, operands) && (op.Input? ==> |env(|dag.op|)| == size)
      requires forall i: nat :: i < |operands| ==> operands[i] !in info.frozen
      modifies this`info, dag
      ensures Valid() && n == old(|dag.op|) && dag.G() == AddNode(old(dag.G()), op, operands)
      ensures KeepsValues() && Unused(n) && old(info.vals) <= info.vals && (!op.Output? ==> Keeps() && IsExpr(n))
      ensures forall m: Expr :: old(Unused(m)) && m !in operands ==> Unused(m)
      ensures Val(n) == Meaning(size, env, n, op, Values(old(info.vals), operands))
      ensures info.labels == old(info.labels) + [NewLabel(old(dag.G()), old(info.labels), op, operands)]
        && info.frozen == old(info.frozen)
    {
      hide CanMake, UsesInverse, SinksMatch, Erased, Meaning, IsUsed, Dag.Valid, WellFormed, Values, AddNode, NewLabel,
           Known, BoundOf, FactorsOf;
      ghost var g := dag.G();
      NodeFacts(g, size, env, info, op, operands);
      NodeKnown(g, size, env, info, op, operands);
      LabelsKept(g, info.labels, op, operands, NewLabel(g, info.labels, op, operands));
      info := WithNode(g, size, env, info, op, operands);
      n := dag.MakeNode(op, operands);
    }

    /** Other labels that are right for the nodes from b on, of which some get no more uses. */
    ghost method LowerLabels(b: nat, more: set<NodeId>, labels: Labelling)
      requires Valid() && AllLabelled(dag.G(), info.frozen + more, labels)
      requires forall m: NodeId :: m in more ==> b <= m < |dag.op|
      requires forall m: NodeId :: m < b && m < |labels| && m < |info.labels| ==> labels[m] == info.labels[m]
      modifies this`info
      ensures Valid() && info == old(info).(labels := labels, frozen := old(info).frozen + more)
      ensures forall m: Expr :: old(IsExpr(m)) && m !in more ==> IsExpr(m) && Val(m) == old(Val(m))
      ensures forall m: Expr :: old(IsExpr(m)) && m < b ==> Depth(m) == old(Depth(m)) && Factors(m) == old(Factors(m))
    {
      hide Built, Interprets, InputsGiven, Labelled;
      info := info.(labels := labels, frozen := info.frozen + more);
    }

    /** A lower label for one node, once some others get no more uses. */
    ghost method LowerLabel(n: Expr, more: set<NodeId>, tag: Label)
      requires Valid() && IsExpr(n) && tag.depth <= Depth(n) && tag.width >= 1 && n !in more
      requires Labelled(dag.G(), info.frozen + more, info.labels[n := tag], n)
      requires forall m: NodeId :: m in more ==> m < |dag.op|
      modifies this`info
      ensures Valid() && info == old(info).(labels := old(info).labels[n := tag], frozen := old(info).frozen + more)
      ensures forall m: Expr :: old(IsExpr(m)) && m !in more ==> IsExpr(m) && Val(m) == old(Val(m))
      ensures forall m: Expr :: old(IsExpr(m)) && m != n ==> Depth(m) == old(Depth(m)) && Factors(m) == old(Factors(m))
      ensures Depth(n) == tag.depth && Factors(n) <= tag.width
    {
      hide Built, Interprets, InputsGiven, Labelled;
      Counted();
      Improved(dag.G(), info.frozen, info.labels, n, more, tag);
      info := info.(labels := info.labels[n := tag], frozen := info.frozen + more);
    }

    lemma Counted()
      requires Valid()
      ensures |info.labels| == |dag.op| == |dag.G().op| == |dag.G().operands| == |info.vals|
      ensures AllLabelled(dag.G(), info.frozen, info.labels) && forall m: Expr :: IsExpr(m) ==> m < |dag.op|
    {
    }

    method Input(encrypted: bool) returns (n: Expr)
      requires Valid() && |env(|dag.op|)| == size
      modifies this`info, dag
      ensures Valid() && Keeps() && IsExpr(n) && n == old(|dag.op|) && Val(n) == env(n)
      ensures Depth(n) == 0 && Factors(n) == 1
      ensures dag.G() == AddNode(old(dag.G()), Op.Input(encrypted), [])
    {
      n := MakeNode(Op.Input(encrypted), []);
    }

    /** An expression for a vector; its constructor throws when the size is no multiple. */
    method Constant(values: seq<real>) returns (n: Expr)
      requires Valid() && values != [] && size % |values| == 0
      modifies this`info, dag
      ensures Valid() && Keeps() && IsExpr(n) && Unused(n) && Val(n) == Expand(size, values)
      ensures Depth(n) == 0 && Factors(n) == 1 && info.frozen == old(info.frozen)
      ensures n == |old(dag.G()).op| && dag.G() == AddNode(old(dag.G()), Op.Constant(values), [])
      ensures forall m: Expr :: old(Unused(m)) ==> Unused(m)
    {
      n := MakeNode(Op.Constant(values), []);
    }

    /** operator+ */
    method Add(a: Expr, b: Expr) returns (n: Expr)
      requires Valid() && IsExpr(a) && IsExpr(b)
      modifies this`info, dag
      ensures Valid() && Keeps() && IsExpr(n) && !old(IsExpr(n)) && Unused(n)
      ensures Val(n) == Plus(size, old(Val(a)), old(Val(b)))
      ensures Depth(n) == Higher(old(Depth(a)), old(Depth(b))) && Factors(n) == 1
      ensures n == |old(dag.G()).op| && dag.G() == AddNode(old(dag.G()), Op.Add, [a, b])
      ensures info.frozen == old(info.frozen)
      ensures forall m: Expr :: old(Unused(m)) && m != a && m != b ==> Unused(m)
    {
      n := Binary(Op.Add, a, b);
      BinaryMeans(size, env, n, old(Val(a)), old(Val(b)));
    }

    /** operator- */
    method Sub(a: Expr, b: Expr) returns (n: Expr)
      requires Valid() && IsExpr(a) && IsExpr(b)
      modifies this`info, dag
      ensures Valid() && Keeps() && IsExpr(n) && !old(IsExpr(n)) && Unused(n)
      ensures Val(n) == Minus(size, old(Val(a)), old(Val(b)))
      ensures Depth(n) == Higher(old(Depth(a)), old(Depth(b))) && Factors(n) == 1
      ensures n == |old(dag.G()).op| && dag.G() == AddNode(old(dag.G()), Op.Sub, [a, b])
      ensures info.frozen == old(info.frozen)
      ensures forall m: Expr :: old(Unused(m)) && m != a && m != b ==> Unused(m)
    {
      n := Binary(Op.Sub, a, b);
      BinaryMeans(size, env, n, old(Val(a)), old(Val(b)));
    }

    /** operator* */
    method Mul(a: Expr, b: Expr) returns (n: Expr)
      requires Valid() && IsExpr(a) && IsExpr(b)
      modifies this`info, dag
      ensures Valid() && Keeps() && IsExpr(n) && !old(IsExpr(n)) && Unused(n)
      ensures Val(n) == Times(size, old(Val(a)), old(Val(b)))
      ensures Factors(n) == old(Factors(a)) + old(Factors(b))
      ensures Depth(n) == Higher(old(Depth(a)), old(Depth(b))) + LogUp(Factors(n))
      ensures n == |old(dag.G()).op| && dag.G() == AddNode(old(dag.G()), Op.Mul, [a, b])
      ensures info.frozen == old(info.frozen)
      ensures forall m: Expr :: old(Unused(m)) && m != a && m != b ==> Unused(m)
    {
      n := Binary(Op.Mul, a, b);
      BinaryMeans(size, env, n, old(Val(a)), old(Val(b)));
    }

    method Binary(op: Op, a: Expr, b: Expr) returns (n: Expr)
      requires Valid() && IsExpr(a) && IsExpr(b) && IsBinaryOp(op)
      modifies this`info, dag
      ensures Valid() && Keeps() && IsExpr(n) && !old(IsExpr(n)) && Unused(n)
      ensures n == |old(dag.G()).op| && dag.G() == AddNode(old(dag.G()), op, [a, b]) && info.frozen == old(info.frozen)
      ensures forall m: Expr :: old(Unused(m)) && m != a && m != b ==> Unused(m)
      ensures Val(n) == Meaning(size, env, n, op, [old(Val(a)), old(Val(b))])
      ensures Factors(n) == if op.Mul? then old(Factors(a)) + old(Factors(b)) else 1
      ensures Depth(n) == Higher(old(Depth(a)), old(Depth(b))) + if op.Mul? then LogUp(Factors(n)) else 0
    {
      hide ExprDag.Valid, CanMake, IsUsed, Meaning, AddNode, LogUp, FactorsOf, DepthOfAll;
      TwoValues(info.vals, a, b);
      CanMakeBinary(dag.G(), size, op, a, b);
      ghost var g, labels := dag.G(), info.labels;
      Counted();
      n := MakeNode(op, [a, b]);
      NewFactors(g, labels, op, a, b, n);
    }

    /** What is no product is one factor. */
    lemma OneFactor(n: Expr)
      requires Valid() && IsExpr(n) && !dag.op[n].Mul?
      ensures Factors(n) == 1
    {
    }

    lemma SomeFactors(n: Expr)
      requires Valid() && IsExpr(n)
      ensures Factors(n) >= 1
    {
    }

    method Unary(op: Op, a: Expr) returns (n: Expr)
      requires Valid() && IsExpr(a) && (op.RotateLeft? || op.RotateRight? || op.Negate?)
      modifies this`info, dag
      ensures Valid() && Keeps() && IsExpr(n) && !old(IsExpr(n)) && Unused(n)
      ensures n == |old(dag.G()).op| && dag.G() == AddNode(old(dag.G()), op, [a]) && info.frozen == old(info.frozen)
      ensures forall m: Expr :: old(Unused(m)) && m != a ==> Unused(m)
      ensures Val(n) == Meaning(size, env, n, op, [old(Val(a))])
      ensures Depth(n) == old(Depth(a)) && Factors(n) == 1
    {
      hide ExprDag.Valid, CanMake, IsUsed, Meaning, AddNode, LogUp, FactorsOf, DepthOfAll, NewLabel;
      OneValue(info.vals, a);
      CanMakeUnary(dag.G(), size, op, a);
      ghost var g, labels := dag.G(), info.labels;
      Counted();
      n := MakeNode(op, [a]);
      NewUnary(g, labels, op, a, n);
    }

    /** operator<< */
    method ShiftLeft(a: Expr, k: nat) returns (n: Expr)
      requires Valid() && IsExpr(a)
      modifies this`info, dag
      ensures Valid() && Keeps() && IsExpr(n) && !old(IsExpr(n)) && Unused(n)
      ensures Val(n) == RotatedLeft(size, old(Val(a)), k) && Depth(n) == old(Depth(a)) && Factors(n) == 1
      ensures n == |old(dag.G()).op| && dag.G() == AddNode(old(dag.G()), Op.RotateLeft(k), [a])
      ensures info.frozen == old(info.frozen)
    {
      n := Unary(Op.RotateLeft(k), a);
      RotationMeans(size, env, n, old(Val(a)), k);
    }

    /** operator>> */
    method ShiftRight(a: Expr, k: nat) returns (n: Expr)
      requires Valid() && IsExpr(a)
      modifies this`info, dag
      ensures Valid() && Keeps() && IsExpr(n) && Unused(n)
      ensures Val(n) == RotatedLeft(size, old(Val(a)), 0 - k) && Depth(n) == old(Depth(a)) && Factors(n) == 1
    {
      n := Unary(Op.RotateRight(k), a);
      RotationMeans(size, env, n, old(Val(a)), k);
    }

    /** operator!, declared as logical negation; the expression itself becomes the new node. */
    method Not(a: Expr) returns (n: Expr)
      requires Valid() && IsExpr(a)
      modifies this`info, dag
      ensures Valid() && Keeps() && IsExpr(n) && Unused(n) && Val(n) == Negated(size, old(Val(a)))
    {
      n := Unary(Op.Negate, a);
    }

    /** An expression for a number. */
    method Number(x: real) returns (n: Expr)
      requires Valid()
      modifies this`info, dag
      ensures Valid() && Keeps() && IsExpr(n) && Val(n) == Filled(size, x) && Depth(n) == 0 && Factors(n) == 1
      ensures n == |old(dag.G()).op| && dag.G() == AddNode(old(dag.G()), Op.Constant([x]), [])
      ensures info.frozen == old(info.frozen)
    {
      n := Constant([x]);
      FilledIs(size, x);
    }

    /** operator+ of an expression and a number */
    method AddNumber(a: Expr, x: real) returns (n: Expr)
      requires Valid() && IsExpr(a)
      modifies this`info, dag
      ensures Valid() && Keeps() && IsExpr(n) && Unused(n) && Val(n) == Plus(size, old(Val(a)), Filled(size, x))
      ensures Depth(n) == old(Depth(a)) && Factors(n) == 1
      ensures n == |old(dag.G()).op| + 1
      ensures dag.G() == AddNode(AddNode(old(dag.G()), Op.Constant([x]), []), Op.Add, [a, n - 1])
      ensures info.frozen == old(info.frozen)
    {
      hide ExprDag.Valid, ExprDag.NoOutputs, LogUp, Plus;
      var c := Number(x);
      n := Add(a, c);
    }

    /** operator+ of a number and an expression */
    method NumberAdd(x: real, a: Expr) returns (n: Expr)
      requires Valid() && IsExpr(a)
      modifies this`info, dag
      ensures Valid() && Keeps() && IsExpr(n) && Unused(n) && Val(n) == Plus(size, Filled(size, x), old(Val(a)))
      ensures Depth(n) == old(Depth(a)) && Factors(n) == 1
      ensures n == |old(dag.G()).op| + 1
      ensures dag.G() == AddNode(AddNode(old(dag.G()), Op.Constant([x]), []), Op.Add, [n - 1, a])
      ensures info.frozen == old(info.frozen)
    {
      hide ExprDag.Valid, ExprDag.NoOutputs, LogUp, Plus;
      var c := Number(x);
      n := Add(c, a);
    }

    /** operator- of an expression and a number */
    method SubNumber(a: Expr, x: real) returns (n: Expr)
      requires Valid() && IsExpr(a)
      modifies this`info, dag
      ensures Valid() && Keeps() && IsExpr(n) && Unused(n) && Val(n) == Minus(size, old(Val(a)), Filled(size, x))
      ensures Depth(n) == old(Depth(a)) && Factors(n) == 1
      ensures n == |old(dag.G()).op| + 1
      ensures dag.G() == AddNode(AddNode(old(dag.G()), Op.Constant([x]), []), Op.Sub, [a, n - 1])
      ensures info.frozen == old(info.frozen)
    {
      hide ExprDag.Valid, ExprDag.NoOutputs, LogUp, Minus;
      var c := Number(x);
      n := Sub(a, c);
    }

    /** operator- of a number and an expression */
    method NumberSub(x: real, a: Expr) returns (n: Expr)
      requires Valid() && IsExpr(a)
      modifies this`info, dag
      ensures Valid() && Keeps() && IsExpr(n) && Unused(n) && Val(n) == Minus(size, Filled(size, x), old(Val(a)))
      ensures Depth(n) == old(Depth(a)) && Factors(n) == 1
      ensures n == |old(dag.G()).op| + 1
      ensures dag.G() == AddNode(AddNode(old(dag.G()), Op.Constant([x]), []), Op.Sub, [n - 1, a])
      ensures info.frozen == old(info.frozen)
    {
      hide ExprDag.Valid, ExprDag.NoOutputs, LogUp, Minus;
      var c := Number(x);
      n := Sub(c, a);
    }

    /** operator* of an expression and a number */
    method MulNumber(a: Expr, x: real) returns (n: Expr)
      requires Valid() && IsExpr(a)
      modifies this`info, dag
      ensures Valid() && Keeps() && IsExpr(n) && Unused(n) && Val(n) == Times(size, old(Val(a)), Filled(size, x))
      ensures Depth(n) == old(Depth(a)) + LogUp(Factors(n)) && Factors(n) == old(Factors(a)) + 1
      ensures n == |old(dag.G()).op| + 1
      ensures dag.G() == AddNode(AddNode(old(dag.G()), Op.Constant([x]), []), Op.Mul, [a, n - 1])
      ensures info.frozen == old(info.frozen)
    {
      hide ExprDag.Valid, ExprDag.NoOutputs, LogUp, Times;
      var c := Number(x);
      n := Mul(a, c);
    }

    /** operator* of a number and an expression */
    method NumberMul(x: real, a: Expr) returns (n: Expr)
      requires Valid() && IsExpr(a)
      modifies this`info, dag
      ensures Valid() && Keeps() && IsExpr(n) && Unused(n) && Val(n) == Times(size, Filled(size, x), old(Val(a)))
      ensures Depth(n) == old(Depth(a)) + LogUp(Factors(n)) && Factors(n) == old(Factors(a)) + 1
      ensures n == |old(dag.G()).op| + 1 && IsExpr(n - 1) && Depth(n - 1) == 0
      ensures dag.G() == AddNode(AddNode(old(dag.G()), Op.Constant([x]), []), Op.Mul, [n - 1, a])
      ensures info.frozen == old(info.frozen)
    {
      hide ExprDag.Valid, ExprDag.NoOutputs, LogUp, Times;
      var c := Number(x);
      n := Mul(c, a);
    }

    /** operator* of a vector that fills the slots and an expression */
    method VectorMul(values: seq<real>, a: Expr) returns (n: Expr)
      requires Valid() && IsExpr(a) && |values| == size > 0
      modifies this`info, dag
      ensures Valid() && Keeps() && IsExpr(n) && Unused(n) && Val(n) == Times(size, values, old(Val(a)))
      ensures Depth(n) == old(Depth(a)) + LogUp(Factors(n)) && Factors(n) == old(Factors(a)) + 1
    {
      hide ExprDag.Valid, ExprDag.NoOutputs, LogUp, Times;
      FullVector(values);
      var c := Constant(values);
      n := Mul(c, a);
    }

    /** operator* of an expression and a vector that fills the slots */
    method MulVector(a: Expr, values: seq<real>) returns (n: Expr)
      requires Valid() && IsExpr(a) && |values| == size > 0
      modifies this`info, dag
      ensures Valid() && Keeps() && IsExpr(n) && Unused(n) && Val(n) == Times(size, old(Val(a)), values)
      ensures Depth(n) == old(Depth(a)) + LogUp(Factors(n)) && Factors(n) == old(Factors(a)) + 1
    {
      hide ExprDag.Valid, ExprDag.NoOutputs, LogUp, Times;
      FullVector(values);
      var c := Constant(values);
      n := Mul(a, c);
    }

    /** setOutput */
    method SetOutput(a: Expr) returns (n: NodeId)
      requires Valid() && IsExpr(a)
      modifies this`info, dag
      ensures Valid() && n == old(|dag.op|) && dag.G() == AddNode(old(dag.G()), Op.Output, [a])
      ensures n < |info.vals| && info.vals[n] == old(Val(a)) && old(info.vals) <= info.vals
      ensures KeepsValues() && info.frozen == old(info.frozen)
      ensures info.labels == old(info.labels) + [Label(old(Depth(a)), 1)]
    {
      OneValue(info.vals, a);
      DepthOfOne(info.labels, a);
      n := MakeNode(Op.Output, [a]);
    }
  }

  /** The values of the operands. */
  function Values(vals: seq<Slots>, operands: seq<NodeId>): (r: seq<Slots>)
    ensures |r| == |operands|
  {
    seq(|operands|, i requires 0 <= i < |operands| => if operands[i] < |vals| then vals[operands[i]] else [])
  }

  lemma OneValue(vals: seq<Slots>, a: NodeId)
    requires a < |vals|
    ensures Values(vals, [a]) == [vals[a]]
  {
  }

  lemma TwoValues(vals: seq<Slots>, a: NodeId, b: NodeId)
    requires a < |vals| && b < |vals|
    ensures Values(vals, [a, b]) == [vals[a], vals[b]]
  {
  }

  function Filled(size: nat, c: real): (r: Slots)
    ensures |r| == size
  {
    seq(size, i => c)
  }

  lemma FilledIs(size: nat, x: real)
    ensures Expand(size, [x]) == Filled(size, x)
  {
    assert forall i: nat :: i < size ==> i % 1 == 0;
  }

  lemma FullVector(values: seq<real>)
    requires values != []
    ensures |values| % |values| == 0 && Expand(|values|, values) == values
  {
    var m := |values|;
    assert forall i: nat :: i < m ==> i % m == i;
    assert m % m == 0;
  }

  lemma BinaryMeans(size: nat, env: NodeId -> Slots, n: NodeId, x: Slots, y: Slots)
    requires |x| == |y| == size
    ensures Meaning(size, env, n, Add, [x, y]) == Plus(size, x, y)
    ensures Meaning(size, env, n, Sub, [x, y]) == Minus(size, x, y)
    ensures Meaning(size, env, n, Mul, [x, y]) == Times(size, x, y)
  {
    SumIsPlus(size, x, y);
    ProductIsTimes(size, x, y);
  }

  lemma RotationMeans(size: nat, env: NodeId -> Slots, n: NodeId, x: Slots, k: nat)
    ensures Meaning(size, env, n, RotateLeft(k), [x]) == RotatedLeft(size, x, k)
    ensures Meaning(size, env, n, RotateRight(k), [x]) == RotatedLeft(size, x, 0 - k)
  {
  }

  lemma SumIsPlus(size: nat, x: Slots, y: Slots)
    requires |x| == |y| == size
    ensures Sum(size, [x, y]) == Plus(size, x, y)
  {
    SumOfTwo(x, y);
    assert forall k: nat :: k < size ==> Sum(size, [x, y])[k] == Plus(size, x, y)[k];
  }

  lemma ProductIsTimes(size: nat, x: Slots, y: Slots)
    requires |x| == |y| == size
    ensures Product(size, [x, y]) == Times(size, x, y)
  {
    ProductOfTwo(x, y);
    assert forall k: nat :: k < size ==> Product(size, [x, y])[k] == Times(size, x, y)[k];
  }
}
