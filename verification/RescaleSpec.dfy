/** Scales, and what a visit of the waterline rescaler does to the graph, as values. */
module RescaleSpec {
  import opened Graphs
  import opened Usage
  import opened Dags
  import opened Traversals
  import opened ForwardPass
  import opened Semantics
  import opened Types
  import opened ModSwitchers

  /** The rescale divisor and the waterline, the greatest scale of a source. */
  datatype Bits = Bits(fixed: nat, waterline: nat)
  {
    function Limit(): nat { fixed + waterline }
  }

  function SumScale(operands: seq<NodeId>, scale: ScaleMap): nat
  {
    if operands == [] then 0 else ScaleAt(scale, operands[0]) + SumScale(operands[1..], scale)
  }

  /** The scale of p fits its operands; raw nodes are not constrained. */
  ghost predicate ScaleRule(g: Graph, types: TypeMap, scale: ScaleMap, b: Bits, p: NodeId)
    requires p < |g.operands| && p < |g.op|
  {
    (TypeAt(types, p) == Raw && !g.op[p].Rescale?) || g.operands[p] == [] ||
    match g.op[p]
    case Mul => ScaleAt(scale, p) == SumScale(g.operands[p], scale)
    case Rescale(divisor) =>
      divisor == b.fixed && ScaleAt(scale, g.operands[p][0]) == ScaleAt(scale, p) + divisor
      && ScaleAt(scale, p) >= b.waterline
    case Add => OperandsMeet(g, types, scale, p)
    case Sub => OperandsMeet(g, types, scale, p)
    case _ => ScaleAt(scale, p) == ScaleAt(scale, g.operands[p][0])
  }

  /** Operands that are not raw have the scale of p, raw ones at most that. */
  ghost predicate OperandsMeet(g: Graph, types: TypeMap, scale: ScaleMap, p: NodeId)
    requires p < |g.operands|
  {
    forall i: nat :: i < |g.operands[p]| ==>
      ScaleAt(scale, g.operands[p][i]) <= ScaleAt(scale, p)
      && (TypeAt(types, g.operands[p][i]) != Raw ==> ScaleAt(scale, g.operands[p][i]) == ScaleAt(scale, p))
  }

  /** Nodes whose scale is final: visited ones, sources, and the nodes the pass has added. */
  predicate IsScaled(old': nat, g: Graph, processed: set<NodeId>, p: NodeId)
  {
    p in processed || p in g.sources || p >= old'
  }

  /** All final scales are positive and obey the rule, and what is consumed by anything but a
      rescale stays below the limit. */
  ghost predicate ScaleInv(old': nat, g: Graph, types: TypeMap, scale: ScaleMap, b: Bits, processed: set<NodeId>)
  {
    && |g.op| == |g.operands|
    && (forall p: NodeId :: p < |g.operands| && IsScaled(old', g, processed, p) ==>
          ScaleAt(scale, p) > 0 && ScaleRule(g, types, scale, b, p))
    && (forall u: NodeId, i: nat ::
          u < |g.operands| && i < |g.operands[u]| && IsScaled(old', g, processed, g.operands[u][i]) ==>
          g.op[u].Rescale? || ScaleAt(scale, g.operands[u][i]) < b.Limit())
  }

  /** Final nodes have final operands. */
  ghost predicate ScaledClosed(old': nat, g: Graph, processed: set<NodeId>)
  {
    forall u: NodeId, i: nat :: u < |g.operands| && i < |g.operands[u]| && IsScaled(old', g, processed, u) ==>
      IsScaled(old', g, processed, g.operands[u][i])
  }

  // ----- a chain of rescales behind a node -----

  function ChainEnd(g: Graph, n: NodeId, k: nat): NodeId
  {
    if k == 0 then n else |g.operands| + k - 1
  }

  function RescaleChain(g: Graph, n: NodeId, amount: nat, k: nat): Graph
  {
    if k == 0 then g else InsertAfter(RescaleChain(g, n, amount, k - 1), ChainEnd(g, n, k - 1), Rescale(amount))
  }

  /** r is g with k rescales behind n, the last of which has taken over the uses of n. */
  ghost predicate Rescaled(r: Graph, g: Graph, n: NodeId, amount: nat, k: nat)
  {
    && |r.operands| == |g.operands| + k && |r.op| == |r.operands| && g.op <= r.op && r.sources == g.sources
    && (forall u: NodeId :: u < |g.operands| ==> r.operands[u] == Subst(g.operands[u], n, ChainEnd(g, n, k)))
    && (forall x: NodeId :: |g.operands| <= x < |r.operands| ==>
          r.op[x] == Rescale(amount) && r.operands[x] == [ChainEnd(g, n, x - |g.operands|)])
  }

  lemma {:induction false} RescaleChainShape(g: Graph, n: NodeId, amount: nat, k: nat)
    requires |g.op| == |g.operands| && n < |g.operands|
    requires InRange(g)
    ensures Rescaled(RescaleChain(g, n, amount, k), g, n, amount, k)
  {
    if k == 0 {
      assert forall u: NodeId :: u < |g.operands| ==> g.operands[u] == Subst(g.operands[u], n, n);
    } else {
      RescaleChainShape(g, n, amount, k - 1);
      var r := RescaleChain(g, n, amount, k - 1);
      RescaledNext(g, r, n, amount, k);
    }
  }

  /** One more rescale at the end of the chain. */
  lemma RescaledNext(g: Graph, r: Graph, n: NodeId, amount: nat, k: nat)
    requires k > 0 && |g.op| == |g.operands| && n < |g.operands| && Rescaled(r, g, n, amount, k - 1)
    requires InRange(g)
    ensures Rescaled(InsertAfter(r, ChainEnd(g, n, k - 1), Rescale(amount)), g, n, amount, k)
  {
    var end := ChainEnd(g, n, k - 1);
    var r', x := InsertAfter(r, end, Rescale(amount)), |r.operands|;
    InsertAfterShape(r, end, Rescale(amount));
    SubstChain(g, n, k);
    hide InsertAfter;
    forall m: NodeId | |g.operands| <= m < x
      ensures r'.operands[m] == [ChainEnd(g, n, m - |g.operands|)]
    {
      assert r'.operands[m] == Subst(r.operands[m], end, x);
      assert r.operands[m][0] != end;
    }
  }

  lemma SubstChain(g: Graph, n: NodeId, k: nat)
    requires k > 0 && n < |g.operands|
    requires InRange(g)
    ensures forall u: NodeId :: u < |g.operands| ==>
      Subst(Subst(g.operands[u], n, ChainEnd(g, n, k - 1)), ChainEnd(g, n, k - 1), ChainEnd(g, n, k))
        == Subst(g.operands[u], n, ChainEnd(g, n, k))
  {
  }

  lemma LiveNode(g: Graph, n: NodeId)
    requires Live(g, n)
    ensures n < |g.operands|
  {
  }

  lemma {:induction false} RescaleChainKeeps(size: nat, g: Graph, n: NodeId, amount: nat, k: nat)
    requires WellFormed(g) && Live(g, n) && Acyclic(g)
    ensures WellFormed(RescaleChain(g, n, amount, k)) && Acyclic(RescaleChain(g, n, amount, k))
    ensures Live(RescaleChain(g, n, amount, k), ChainEnd(g, n, k))
  {
    hide WellFormed, Live, Acyclic, InsertAfter, Refines;
    if k > 0 {
      RescaleChainKeeps(size, g, n, amount, k - 1);
      LiveNode(g, n);
      RescaleChainLength(g, n, amount, k - 1);
      InsertAfterKeeps(size, RescaleChain(g, n, amount, k - 1), ChainEnd(g, n, k - 1), Rescale(amount));
    }
  }

  lemma {:induction false} RescaleChainRefines(size: nat, g: Graph, n: NodeId, amount: nat, k: nat)
    requires WellFormed(g) && Live(g, n) && Acyclic(g)
    ensures Refines(size, g, RescaleChain(g, n, amount, k))
  {
    hide Refines, InsertAfter, Acyclic, WellFormed, Live;
    if k == 0 {
      RefinesReflexive(size, g);
    } else {
      RescaleChainRefines(size, g, n, amount, k - 1);
      var r, a := RescaleChain(g, n, amount, k - 1), ChainEnd(g, n, k - 1);
      RescaleChainKeeps(size, g, n, amount, k - 1);
      InsertAfterKeeps(size, r, a, Rescale(amount));
      RefinesTransitive(size, g, r, InsertAfter(r, a, Rescale(amount)));
    }
  }

  lemma RescaleChainLength(g: Graph, n: NodeId, amount: nat, k: nat)
    requires WellFormed(g) && n < |g.operands|
    ensures |RescaleChain(g, n, amount, k).operands| == |g.operands| + k
  {
    WellFormedRange(g);
    RescaleChainShape(g, n, amount, k);
  }

  lemma RescaledRange(g: Graph, r: Graph, n: NodeId, amount: nat, k: nat)
    requires InRange(g) && n < |g.operands| && Rescaled(r, g, n, amount, k)
    ensures InRange(r)
  {
  }

  lemma {:induction false} RescaleChainUsed(g: Graph, n: NodeId, amount: nat, k: nat)
    requires WellFormed(g) && n < |g.operands| && IsUsed(g, n)
    ensures UsedKept(g, RescaleChain(g, n, amount, k))
  {
    hide UsedKept, IsUsed, InsertAfter, Rescaled, WellFormed;
    if k == 0 {
      UsedReflexive(g);
    } else {
      RescaleChainUsed(g, n, amount, k - 1);
      var r, a := RescaleChain(g, n, amount, k - 1), ChainEnd(g, n, k - 1);
      WellFormedRange(g);
      RescaleChainShape(g, n, amount, k - 1);
      ChainEndUsed(g, r, n, amount, k - 1);
      RescaledRange(g, r, n, amount, k - 1);
      InsertAfterUsed(r, a, Rescale(amount));
      UsedTransitive(g, r, InsertAfter(r, a, Rescale(amount)));
    }
  }

  lemma ChainEndUsed(g: Graph, r: Graph, n: NodeId, amount: nat, k: nat)
    requires n < |g.operands| && IsUsed(g, n) && UsedKept(g, r) && Rescaled(r, g, n, amount, k)
    ensures ChainEnd(g, n, k) < |r.operands| && |r.op| == |r.operands| && IsUsed(r, ChainEnd(g, n, k))
  {
  }

  // ----- scaling an operand up -----

  /** Operand o of n is multiplied by a constant 1. */
  function ScaledUp(g: Graph, n: NodeId, o: NodeId): Graph
    requires n < |g.operands|
  {
    var c := |g.operands|;
    ReplaceIn(AddNode(AddNode(g, Constant([1.0]), []), Mul, [o, c]), n, o, c + 1)
  }

  /** The scales of the constant c and of the product c + 1. */
  function ScaledUpScales(scale: ScaleMap, c: NodeId, o: NodeId, max: nat): (r: ScaleMap)
    requires ScaleAt(scale, o) <= max
    ensures ScaleAt(r, c) == max - ScaleAt(scale, o) && ScaleAt(r, c + 1) == max
    ensures forall p: NodeId :: p != c && p != c + 1 ==> ScaleAt(r, p) == ScaleAt(scale, p)
  {
    var gap: nat := max - ScaleAt(scale, o);
    scale[c := gap][c + 1 := max]
  }

  lemma ScaledUpShape(g: Graph, n: NodeId, o: NodeId)
    requires |g.op| == |g.operands| && n < |g.operands|
    ensures var r, c := ScaledUp(g, n, o), |g.operands|;
      && |r.operands| == c + 2 && r.op == g.op + [Constant([1.0]), Mul] && r.sources == g.sources + {c}
      && r.operands[c] == [] && r.operands[c + 1] == [o, c]
      && forall u: NodeId :: u < c ==> r.operands[u] == if u == n then Subst(g.operands[n], o, c + 1) else g.operands[u]
  {
  }

  lemma ScaledUpAlone(g: Graph, n: NodeId, i: nat)
    requires InRange(g) && n < |g.operands| && i < |g.operands[n]|
    ensures OutputsAlone(g) ==> OutputsAlone(ScaledUp(g, n, g.operands[n][i]))
  {
    hide OutputsAlone;
    var o, x := g.operands[n][i], |g.operands| + 1;
    ScaledUpShape(g, n, o);
    ReroutedAlone(g, ScaledUp(g, n, o), n, o, x);
  }

  lemma ScaledUpUsed(g: Graph, n: NodeId, i: nat)
    requires InRange(g) && n < |g.operands| && i < |g.operands[n]|
    ensures UsedKept(g, ScaledUp(g, n, g.operands[n][i]))
  {
    hide OutputsAlone;
    var o, c := g.operands[n][i], |g.operands|;
    var r := ScaledUp(g, n, o);
    ScaledUpShape(g, n, o);
    ScaledUpAlone(g, n, i);
    UsedBy(r, c + 1, 0);
    UsedBy(r, c + 1, 1);
    UsedBy(r, n, i);
    forall m: NodeId | m < c && IsUsed(g, m) && m != o
      ensures IsUsed(r, m)
    {
      var u, j := UserOf(g, m);
      UsedBy(r, u, j);
    }
    ScaledUpUsedBefore(g, n, i, r);
    hide IsUsed;
  }

  lemma ScaledUpUsedBefore(g: Graph, n: NodeId, i: nat, r: Graph)
    requires |g.op| == |g.operands| && n < |g.operands| && i < |g.operands[n]| && r == ScaledUp(g, n, g.operands[n][i])
    ensures forall m: NodeId :: m < |g.operands| && IsUsed(r, m) ==> IsUsed(g, m)
  {
    ScaledUpShape(g, n, g.operands[n][i]);
    UsedBy(g, n, i);
    forall m: NodeId | m < |g.operands| && IsUsed(r, m)
      ensures IsUsed(g, m)
    {
      var u, j := UserOf(r, m);
      if u < |g.operands| {
        UsedBy(g, u, j);
      }
    }
  }

  lemma TimesOne(size: nat, x: Slots)
    requires |x| == size
    ensures Product(size, [x, Expand(size, [1.0])]) == x
  {
    var one := Expand(size, [1.0]);
    var tail := [one];
    assert [x, one][1..] == tail;
    var p := Product(size, tail);
    var rest := tail[1..];
    assert rest == [];
    forall i: nat | i < size
      ensures p[i] == 1.0
    {
      assert one[i] == 1.0;
      assert Product(size, rest)[i] == 1.0;
      assert p[i] == At(one, i) * At(Product(size, rest), i);
    }
  }

  lemma ScaledUpWellFormed(g: Graph, n: NodeId, o: NodeId)
    requires WellFormed(g) && Live(g, o) && n < |g.operands|
    ensures var g1, c := AddNode(g, Constant([1.0]), []), |g.operands|;
      var g2 := AddNode(g1, Mul, [o, c]);
      && WellFormed(g1) && Live(g1, o) && Live(g1, c) && WellFormed(g2) && Live(g2, o) && Live(g2, c + 1)
      && WellFormed(ScaledUp(g, n, o)) && ScaledUp(g, n, o) == ReplaceIn(g2, n, o, c + 1)
      && |g1.operands| == c + 1 && |g2.operands| == c + 2
  {
    var g1, c := AddNode(g, Constant([1.0]), []), |g.operands|;
    AddNodeWellFormed(g, Constant([1.0]), []);
    AddNodeWellFormed(g1, Mul, [o, c]);
    ReplaceWellFormed(AddNode(g1, Mul, [o, c]), n, o, c + 1);
  }

  lemma ScaledUpRefines(size: nat, g: Graph, n: NodeId, o: NodeId)
    requires WellFormed(g) && Live(g, o) && n < |g.operands|
    ensures Refines(size, g, ScaledUp(g, n, o))
  {
    hide Refines;
    var c := |g.operands|;
    var g1 := AddNode(g, Constant([1.0]), []);
    var g2 := AddNode(g1, Mul, [o, c]);
    ScaledUpWellFormed(g, n, o);
    AddNodeRefines(size, g, Constant([1.0]), []);
    RefinesReplaced(size, g, g1, g2, n, o, c, ScaledUp(g, n, o));
  }

  lemma RefinesReplaced(size: nat, g: Graph, g1: Graph, g2: Graph, n: NodeId, o: NodeId, c: NodeId, r: Graph)
    requires WellFormed(g) && WellFormed(g1) && WellFormed(g2) && n < |g.operands| && n < |g2.operands|
    requires c == |g.operands| && o < c && Live(g1, o) && Live(g1, c) && Live(g2, o) && Live(g2, c + 1)
    requires g1 == AddNode(g, Constant([1.0]), []) && g2 == AddNode(g1, Mul, [o, c])
    requires r == ReplaceIn(g2, n, o, c + 1)
    requires Refines(size, g, g1)
    ensures Refines(size, g, r)
  {
    hide Refines, Interchangeable, WellFormed, Live;
    AddNodeRefines(size, g1, Mul, [o, c]);
    ScaledUpInterchangeable(size, g, g2, o);
    ReplaceRefines(size, g2, n, o, c + 1);
    RefinesTransitive(size, g, g1, g2);
    RefinesTransitive(size, g, g2, r);
  }

  lemma ScaledUpInterchangeable(size: nat, g: Graph, g2: Graph, o: NodeId)
    requires WellFormed(g) && WellFormed(g2) && Live(g2, o) && o < |g.operands|
    requires g2 == AddNode(AddNode(g, Constant([1.0]), []), Mul, [o, |g.operands|])
    ensures Interchangeable(size, g2, o, |g.operands| + 1)
  {
    forall env
      ensures SameUnder(g2, SlotSem(size, env), o, |g.operands| + 1)
    {
      ScaledUpSlots(size, g, g2, o, env);
    }
    ScaledUpCipher(g, g2, o);
  }

  lemma ScaledUpSlots(size: nat, g: Graph, g2: Graph, o: NodeId, env: NodeId -> Slots)
    requires |g.op| == |g.operands| && WellFormed(g2) && Live(g2, o) && o < |g.operands|
    requires g2 == AddNode(AddNode(g, Constant([1.0]), []), Mul, [o, |g.operands|])
    ensures SameUnder(g2, SlotSem(size, env), o, |g.operands| + 1)
  {
    hide Interprets, AddNode, WellFormed;
    forall v | Interprets(g2, SlotSem(size, env), v)
      ensures o < |v| && |g.operands| + 1 < |v| && v[o] == v[|g.operands| + 1]
    {
      ScaledUpValue(size, g, g2, o, env, v);
    }
  }

  lemma ScaledUpValue(size: nat, g: Graph, g2: Graph, o: NodeId, env: NodeId -> Slots, v: seq<Slots>)
    requires |g.op| == |g.operands| && Live(g2, o) && o < |g.operands| && Interprets(g2, SlotSem(size, env), v)
    requires g2 == AddNode(AddNode(g, Constant([1.0]), []), Mul, [o, |g.operands|])
    ensures |v| == |g2.operands| == |g.operands| + 2 && v[o] == v[|g.operands| + 1]
  {
    var c := |g.operands|;
    assert Live(g2, c) && Live(g2, c + 1);
    assert g2.op[c] == Constant([1.0]) && g2.op[c + 1] == Mul;
    hide Meaning, Product;
    assert v[c] == Meaning(size, env, c, g2.op[c], Args(g2, v, c));
    assert v[o] == Meaning(size, env, o, g2.op[o], Args(g2, v, o));
    assert v[c + 1] == Meaning(size, env, c + 1, g2.op[c + 1], Args(g2, v, c + 1));
    assert Args(g2, v, c + 1) == [v[o], v[c]];
    hide Interprets;
    MulMeaning(size, env, c + 1, v[o], v[c]);
    ConstantMeaning(size, env, c, Args(g2, v, c));
    TimesOne(size, v[o]);
  }

  lemma MulMeaning(size: nat, env: NodeId -> Slots, n: NodeId, x: Slots, y: Slots)
    ensures Meaning(size, env, n, Mul, [x, y]) == Product(size, [x, y])
  {
  }

  lemma ConstantMeaning(size: nat, env: NodeId -> Slots, n: NodeId, args: seq<Slots>)
    ensures Meaning(size, env, n, Constant([1.0]), args) == Expand(size, [1.0])
  {
  }

  lemma ScaledUpCipher(g: Graph, g2: Graph, o: NodeId)
    requires |g.op| == |g.operands| && WellFormed(g2) && Live(g2, o) && o < |g.operands|
    requires g2 == AddNode(AddNode(g, Constant([1.0]), []), Mul, [o, |g.operands|])
    ensures SameUnder(g2, CipherSem(), o, |g.operands| + 1)
  {
    var c := |g.operands|;
    assert Live(g2, c) && Live(g2, c + 1);
    forall v | Interprets(g2, CipherSem(), v)
      ensures v[o] == v[c + 1]
    {
      assert Args(g2, v, c + 1) == [v[o], v[c]];
      assert !v[c];
      assert true in [v[o], v[c]] <==> v[o];
    }
  }

  lemma ScaledUpAcyclic(g: Graph, n: NodeId, o: NodeId)
    requires Acyclic(g) && |g.op| == |g.operands| && n < |g.operands| && o in g.operands[n]
    ensures Acyclic(ScaledUp(g, n, o))
  {
    var rank :| Ranked(g, rank);
    var i :| 0 <= i < |g.operands[n]| && g.operands[n][i] == o;
    var c := |g.operands|;
    RankAddNode(g, rank, Constant([1.0]), [], 0);
    var r1 := NewRank(rank, 0);
    var below := if r1[o] < r1[c] then r1[c] else r1[o];
    var g1 := AddNode(g, Constant([1.0]), []);
    RankAddNode(g1, r1, Mul, [o, c], below);
    RankReplace(AddNode(g1, Mul, [o, c]), NewRank(r1, below), n, o, c + 1);
  }
}
