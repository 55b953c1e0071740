/** The whole folding pass: afterwards no node that could be folded is used. */
module FoldingPass {
  import opened Graphs
  import opened Usage
  import opened Dags
  import opened Traversals
  import opened ForwardPass
  import opened Semantics
  import opened Types
  import opened ModSwitchers
  import opened ConstantFolding
  import opened Chains
  import Rescaling = RescalePass

  function FoldScale(g: Graph, scale: ScaleMap, n: NodeId): nat
    requires n < |g.operands| && n < |g.op| && |g.operands[n]| == if IsBinaryOp(g.op[n]) then 2 else 1
  {
    if IsBinaryOp(g.op[n])
      && ScaleAt(scale, g.operands[n][1]) > ScaleAt(scale, g.operands[n][0]) then ScaleAt(scale, g.operands[n][1])
    else ScaleAt(scale, g.operands[n][0])
  }

  predicate ArityAt(g: Graph, n: NodeId)
  {
    n < |g.operands| && n < |g.op| && (g.operands[n] != [] ==> |g.operands[n]| == if IsBinaryOp(g.op[n]) then 2 else 1)
  }

  ghost predicate FoldEffect(g: Graph, scale: ScaleMap, n: NodeId, size: nat, r: Graph, scale': ScaleMap)
    requires ArityAt(g, n)
  {
    if Foldable(g, n) then
      && r == Folded(g, n, FoldedValue(g, n, size))
      && scale' == WithScale(scale, |g.operands|, FoldScale(g, scale, n))
    else r == g && scale' == scale
  }

  class ConstantDoubleHandler {
    var scale: ScaleMap

    constructor (scale0: ScaleMap)
      ensures scale == scale0
    {
      scale := scale0;
    }

    method ReplaceNodeWithConstant(d: Dag, n: NodeId, output: Slots, nodeScale: nat)
      requires d.Valid() && n < |d.operands|
      modifies this, d
      ensures d.Valid() && d.G() == Folded(old(d.G()), n, output)
      ensures scale == WithScale(old(scale), old(|d.operands|), nodeScale)
    {
      ghost var g := d.G();
      assert |g.op| == |g.operands|;
      var c := d.MakeNode(Constant(output), []);
      scale := WithScale(scale, c, nodeScale);
      hide WellFormed, UsesInverse, SinksMatch, Erased, RedirectAll;
      d.ReplaceAllUsesWith(n, c);
    }

    method Visit(d: Dag, n: NodeId, vecSize: nat)
      requires d.Valid() && vecSize > 0 && ArityAt(d.G(), n) && ConstantsFit(d.G(), vecSize)
      modifies this, d
      ensures d.Valid() && FoldEffect(old(d.G()), old(scale), n, vecSize, d.G(), scale)
    {
      if |d.operands[n]| == 0 { return; }
      for i := 0 to |d.operands[n]|
        invariant forall j: nat :: j < i ==> d.operands[n][j] < |d.op| && d.op[d.operands[n][j]].Constant?
      {
        assert Live(d.G(), d.operands[n][i]);
        if !d.op[d.operands[n][i]].Constant? { return; }
      }
      if IsFoldableOp(d.op[n]) {
        assert |d.operands[n]| == if IsBinaryOp(d.op[n]) then 2 else 1;
        var output := ComputeConstant(d, n, vecSize);
        var nodeScale := ScaleAt(scale, d.operands[n][0]);
        if IsBinaryOp(d.op[n]) && ScaleAt(scale, d.operands[n][1]) > nodeScale {
          nodeScale := ScaleAt(scale, d.operands[n][1]);
        }
        ReplaceNodeWithConstant(d, n, output, nodeScale);
      }
    }
  }

  method ComputeConstant(d: Dag, n: NodeId, vecSize: nat) returns (output: Slots)
    requires vecSize > 0 && ArityAt(d.G(), n) && ConstantsFit(d.G(), vecSize) && Foldable(d.G(), n)
    ensures output == FoldedValue(d.G(), n, vecSize)
  {
    ghost var args := ConstantArgs(d.G(), n, vecSize);
    var input1 := ExpandConstant(d.op[d.operands[n][0]].values, vecSize);
    assert args[0] == input1;
    if IsBinaryOp(d.op[n]) {
      var input2 := ExpandConstant(d.op[d.operands[n][1]].values, vecSize);
      assert args == [input1, input2];
      if d.op[n].Add? {
        output := AddValues(input1, input2);
      } else if d.op[n].Sub? {
        output := SubValues(input1, input2);
      } else {
        output := MulValues(input1, input2);
      }
    } else if d.op[n].RotateLeft? {
      output := RotateLeftValues(input1, d.op[n].shift);
    } else if d.op[n].RotateRight? {
      output := RotateRightValues(input1, d.op[n].shift);
    } else {
      output := NegateValues(input1);
    }
  }

  // ----- the pass -----

  ghost predicate Grown(g0: Graph, g: Graph)
  {
    && |g0.op| == |g0.operands| && |g.op| == |g.operands| && g0.op <= g.op && g0.sources <= g.sources
    && (forall s: NodeId :: s in g.sources ==> s in g0.sources || s >= |g0.operands|)
    && (forall u: NodeId :: u < |g0.operands| ==> |g.operands[u]| == |g0.operands[u]|)
    && (forall x: NodeId :: |g0.operands| <= x < |g.op| ==> g.op[x].Constant? && g.operands[x] == [])
  }

  ghost predicate FoldShape(size: nat, g0: Graph, g: Graph)
  {
    && WellFormed(g) && Acyclic(g) && Refines(size, g0, g) && Grown(g0, g) && DepthsKept(g0, g) && AloneKept(g0, g)
    && Arity(g) && SourceArity(g) && ConstantsFit(g, size)
  }

  /** types, continued with Raw for the new constants, types the graph. */
  ghost predicate FoldTypes(g0: Graph, types: TypeMap, g: Graph, t: TypeMap)
  {
    && Typed(g, t)
    && (forall n: NodeId :: n < |g0.operands| ==> TypeAt(t, n) == TypeAt(types, n))
    && (forall m: NodeId :: IsUsed(g0, m) && TypeAt(t, m) == Cipher ==> IsUsed(g, m))
    && (forall m: NodeId :: m < |g0.operands| && IsUsed(g, m) ==> IsUsed(g0, m))
  }

  ghost predicate FoldScales(g: Graph, scale: ScaleMap)
  {
    forall s: NodeId :: s in g.sources ==> ScaleAt(scale, s) > 0
  }

  /** Old nodes keep their scale, and every source has the scale of a source of the program. */
  ghost predicate ScalesFrom(g0: Graph, scale0: ScaleMap, g: Graph, scale: ScaleMap)
  {
    && (forall s: NodeId :: s in g.sources ==> FromSource(g0, scale0, ScaleAt(scale, s)))
    && (forall n: NodeId :: n < |g0.operands| ==> ScaleAt(scale, n) == ScaleAt(scale0, n))
  }

  ghost predicate FromSource(g0: Graph, scale0: ScaleMap, value: nat)
  {
    exists s: NodeId :: s in g0.sources && ScaleAt(scale0, s) == value
  }

  ghost predicate FoldDone(g: Graph, processed: set<NodeId>)
  {
    && (forall p: NodeId, i: nat :: p in processed && p < |g.operands| && i < |g.operands[p]| ==>
          g.operands[p][i] in processed)
    && (forall p: NodeId :: p in processed && Foldable(g, p) ==> !IsUsed(g, p))
  }

  ghost predicate FoldInv(size: nat, g0: Graph, scale0: ScaleMap, types: TypeMap, g: Graph, t: TypeMap,
                          scale: ScaleMap, processed: set<NodeId>)
  {
    FoldShape(size, g0, g) && FoldTypes(g0, types, g, t) && ScalesFrom(g0, scale0, g, scale) && FoldDone(g, processed)
  }

  lemma FoldStart(size: nat, g: Graph, types: TypeMap, scale: ScaleMap)
    requires WellFormed(g) && Acyclic(g) && Arity(g) && SourceArity(g) && ConstantsFit(g, size) && Typed(g, types)
    ensures FoldInv(size, g, scale, types, g, types, scale, {})
  {
    RefinesReflexive(size, g);
    DepthsReflexive(g);
  }

  lemma FoldedArity(g: Graph, n: NodeId, values: Slots)
    requires WellFormed(g) && Arity(g) && SourceArity(g) && n < |g.operands|
    ensures Arity(Folded(g, n, values)) && SourceArity(Folded(g, n, values))
  {
    FoldedShape(g, n, values);
    var r := Folded(g, n, values);
    assert |r.op| == |r.operands|;
    forall u: NodeId | Live(r, u)
      ensures |r.operands[u]| == if IsSourceOp(r.op[u]) then 0 else if IsBinaryOp(r.op[u]) then 2 else 1
      ensures IsSourceOp(r.op[u]) <==> r.operands[u] == []
    {
      if u < |g.operands| {
        assert |r.operands[u]| == |g.operands[u]|;
        assert Live(g, u);
      }
    }
  }

  lemma ShapeStep(size: nat, g0: Graph, g: Graph, n: NodeId, r: Graph)
    requires FoldShape(size, g0, g) && Foldable(g, n) && size > 0 && r == Folded(g, n, FoldedValue(g, n, size))
    ensures FoldShape(size, g0, r)
  {
    FoldedDepths(g, n, FoldedValue(g, n, size));
    FoldedAlone(g, n, FoldedValue(g, n, size));
    hide OutputsAlone;
    hide Refines, Acyclic, WellFormed, Arity, SourceArity, Foldable, FoldedValue, Folded, Grown, ConstantsFit,
         DepthsKept;
    FoldableNode(g, n);
    DepthsTransitive(g0, g, r);
    ShapeCount(g0, g);
    FoldedKeeps(size, g, n, FoldedValue(g, n, size));
    FoldedAcyclic(g, n, FoldedValue(g, n, size));
    FoldedArity(g, n, FoldedValue(g, n, size));
    RefinesTransitive(size, g0, g, r);
    GrownStep(size, g0, g, n, FoldedValue(g, n, size));
  }

  ghost predicate ConstantsBare(g: Graph)
  {
    forall p: NodeId :: Live(g, p) && p < |g.op| && g.op[p].Constant? ==> g.operands[p] == []
  }

  /** A constant has multiplication depth zero, and so has what is computed from constants. */
  lemma FoldedDepths(g: Graph, n: NodeId, values: Slots)
    requires WellFormed(g) && SourceArity(g) && Foldable(g, n)
    ensures DepthsKept(g, Folded(g, n, values))
  {
    var r, c := AddNode(g, Constant(values), []), |g.operands|;
    AddNodeWellFormed(g, Constant(values), []);
    AddNodeExtends<Depth>(g, DepthSem(), Constant(values), []);
    FoldableStill(g, n, values, 0);
    assert ConstantsBare(r);
    ConstantDepth(r, n, c);
    hide SameUnder, Extends, Foldable;
    RedirectAllExtends<Depth>(r, DepthSem(), n, c);
    ExtendsTransitive<Depth>(g, r, Folded(g, n, values), DepthSem());
  }

  lemma FoldedAlone(g: Graph, n: NodeId, values: Slots)
    requires WellFormed(g) && Foldable(g, n)
    ensures AloneKept(g, Folded(g, n, values))
  {
    hide AloneKept;
    WellFormedRange(g);
    FoldedShape(g, n, values);
    TakenOverAlone(g, Folded(g, n, values), n, |g.operands|);
  }

  lemma ConstantHasNone(r: Graph, v: seq<Depth>, p: NodeId)
    requires Interprets<Depth>(r, DepthSem(), v) && ConstantsBare(r) && Live(r, p) && r.op[p].Constant?
    ensures v[p] == Depth(false, 0)
  {
    assert Args<Depth>(r, v, p) == [];
    assert v[p] == DepthOf(r.op[p], []);
    assert Counts([]) == [];
  }

  lemma ConstantDepth(r: Graph, n: NodeId, c: NodeId)
    requires WellFormed(r) && ConstantsBare(r) && Foldable(r, n) && Live(r, c) && r.op[c].Constant?
    ensures SameUnder<Depth>(r, DepthSem(), n, c)
  {
    forall v | Interprets<Depth>(r, DepthSem(), v)
      ensures v[n] == v[c]
    {
      var args := Args<Depth>(r, v, n);
      forall i: nat | i < |r.operands[n]|
        ensures args[i] == Depth(false, 0)
      {
        assert Live(r, r.operands[n][i]);
        ConstantHasNone(r, v, r.operands[n][i]);
      }
      assert Live(r, n) && v[n] == DepthOf(r.op[n], args);
      assert true !in Flagged(args);
      MaxIs(Counts(args), 0);
      ConstantHasNone(r, v, c);
    }
  }

  lemma FoldableNode(g: Graph, n: NodeId)
    requires Foldable(g, n)
    ensures n < |g.operands| && n < |g.op| && g.operands[n] != []
  {
  }

  lemma ShapeCount(g0: Graph, g: Graph)
    requires Grown(g0, g)
    ensures |g.op| == |g.operands|
  {
  }

  lemma GrownStep(size: nat, g0: Graph, g: Graph, n: NodeId, values: Slots)
    requires Grown(g0, g) && n < |g.operands| && ConstantsFit(g, size) && |values| == size > 0
    ensures Grown(g0, Folded(g, n, values)) && ConstantsFit(Folded(g, n, values), size)
  {
    FoldedShape(g, n, values);
  }

  /** Only raw nodes are folded. */
  lemma FoldableIsRaw(g: Graph, t: TypeMap, n: NodeId)
    requires WellFormed(g) && SourceArity(g) && Typed(g, t) && Foldable(g, n)
    ensures Live(g, n) && TypeAt(t, n) == Raw
  {
    forall i: nat | i < |g.operands[n]|
      ensures TypeAt(t, g.operands[n][i]) != Cipher
    {
      assert Live(g, g.operands[n][i]);
    }
    assert !HasCipherOperand(g, t, n);
  }

  lemma TypesStep(g0: Graph, types: TypeMap, g: Graph, t: TypeMap, n: NodeId, values: Slots, r: Graph, t': TypeMap)
    requires WellFormed(g) && SourceArity(g) && FoldTypes(g0, types, g, t) && Foldable(g, n)
      && |g0.operands| <= |g.operands|
    requires r == Folded(g, n, values) && t' == WithType(t, |g.operands|, Raw)
    ensures FoldTypes(g0, types, r, t')
  {
    FoldableIsRaw(g, t, n);
    FoldedShape(g, n, values);
    TypedStep(g, t, n, values, r, t');
    forall m: NodeId | IsUsed(g0, m) && TypeAt(t', m) == Cipher
      ensures IsUsed(r, m)
    {
      var u, i := UserOf(g, m);
      UsedBy(r, u, i);
    }
    forall m: NodeId | m < |g0.operands| && IsUsed(r, m)
      ensures IsUsed(g0, m)
    {
      var u, i := UserOf(r, m);
      UsedBy(g, u, i);
    }
  }

  lemma TypedStep(g: Graph, t: TypeMap, n: NodeId, values: Slots, r: Graph, t': TypeMap)
    requires WellFormed(g) && SourceArity(g) && Typed(g, t) && n < |g.operands| && TypeAt(t, n) == Raw
    requires r == Folded(g, n, values) && t' == WithType(t, |g.operands|, Raw)
    ensures Typed(r, t')
  {
    FoldedShape(g, n, values);
    forall u: NodeId | Live(r, u)
      ensures TypeAt(t', u) == Inferred(r, t', u)
    {
      if u < |g.operands| {
        assert |r.operands[u]| == |g.operands[u]|;
        assert Live(g, u);
        forall i: nat | i < |g.operands[u]|
          ensures TypeAt(t', r.operands[u][i]) == TypeAt(t, g.operands[u][i])
        {
          assert Live(g, g.operands[u][i]);
        }
        assert HasCipherOperand(r, t', u) <==> HasCipherOperand(g, t, u);
      }
    }
  }

  lemma ScalesStep(g0: Graph, scale0: ScaleMap, g: Graph, scale: ScaleMap, n: NodeId, values: Slots, r: Graph,
                   scale': ScaleMap)
    requires WellFormed(g) && SourceArity(g) && ArityAt(g, n) && ScalesFrom(g0, scale0, g, scale) && Foldable(g, n)
    requires |g0.operands| <= |g.operands|
    requires r == Folded(g, n, values) && scale' == WithScale(scale, |g.operands|, FoldScale(g, scale, n))
    ensures ScalesFrom(g0, scale0, r, scale')
  {
    FoldedShape(g, n, values);
    hide FromSource;
    forall i: nat | i < |g.operands[n]|
      ensures g.operands[n][i] in g.sources
    {
      assert Live(g, g.operands[n][i]);
    }
    forall s: NodeId | s in g.sources
      ensures s < |g.operands|
    {
    }
  }

  lemma NotUsedByVisited(g: Graph, processed: set<NodeId>, n: NodeId, p: NodeId)
    requires FoldDone(g, processed) && n !in processed && p in processed && p < |g.operands|
    ensures n !in g.operands[p]
  {
  }

  lemma DoneStep(g: Graph, processed: set<NodeId>, n: NodeId, values: Slots, r: Graph)
    requires WellFormed(g) && Acyclic(g) && FoldDone(g, processed) && Foldable(g, n) && n !in processed
    requires Unblocked(g.operands, processed, n) && r == Folded(g, n, values)
    requires forall p: NodeId :: p in processed ==> p < |g.operands|
    ensures FoldDone(r, processed + {n})
  {
    FoldedShape(g, n, values);
    var rank :| Ranked(g, rank);
    assert n !in g.operands[n];
    forall p: NodeId | p in processed + {n}
      ensures r.operands[p] == g.operands[p]
    {
      if p != n {
        NotUsedByVisited(g, processed, n, p);
      }
      assert Subst(g.operands[p], n, |g.operands|) == g.operands[p];
    }
    forall p: NodeId | p in processed + {n} && Foldable(r, p)
      ensures !IsUsed(r, p)
    {
      FoldableBack(g, n, values, r, p);
      UnusedStep(g, n, values, r, p);
    }
  }

  lemma FoldableBack(g: Graph, n: NodeId, values: Slots, r: Graph, p: NodeId)
    requires WellFormed(g) && r == Folded(g, n, values) && p < |g.operands| && r.operands[p] == g.operands[p]
      && Foldable(r, p)
    ensures Foldable(g, p)
  {
    FoldedShape(g, n, values);
    forall i: nat | i < |g.operands[p]|
      ensures g.operands[p][i] < |g.op| && g.op[g.operands[p][i]].Constant?
    {
      assert Live(g, g.operands[p][i]);
    }
  }

  lemma UnusedStep(g: Graph, n: NodeId, values: Slots, r: Graph, p: NodeId)
    requires |g.op| == |g.operands| && r == Folded(g, n, values) && p < |g.operands| && (p == n || !IsUsed(g, p))
    ensures !IsUsed(r, p)
  {
    FoldedShape(g, n, values);
    if IsUsed(r, p) {
      var u, i := UserOf(r, p);
      UsedBy(g, u, i);
    }
  }

  lemma FoldLocal(g: Graph, processed: set<NodeId>, n: NodeId, values: Slots, r: Graph)
    requires |g.op| == |g.operands| && n < |g.operands| && r == Folded(g, n, values)
    ensures LocalRewrite(g, r, processed, n, {})
  {
    FoldedShape(g, n, values);
    forall m: NodeId | m < |g.operands| && n !in g.operands[m]
      ensures r.operands[m] == g.operands[m]
    {
      assert Subst(g.operands[m], n, |g.operands|) == g.operands[m];
    }
  }

  lemma SkipDone(g: Graph, processed: set<NodeId>, n: NodeId)
    requires FoldDone(g, processed) && n < |g.operands| && Unblocked(g.operands, processed, n) && !Foldable(g, n)
    ensures FoldDone(g, processed + {n})
  {
  }

  lemma EffectKeeps(size: nat, g0: Graph, scale0: ScaleMap, types: TypeMap, g: Graph, t: TypeMap, scale: ScaleMap,
                    processed: set<NodeId>, n: NodeId, r: Graph, scale': ScaleMap)
    returns (t': TypeMap)
    requires FoldInv(size, g0, scale0, types, g, t, scale, processed) && size > 0 && n < |g.operands| && n !in processed
    requires Unblocked(g.operands, processed, n) && forall p: NodeId :: p in processed ==> p < |g.operands|
    requires ArityAt(g, n) && FoldEffect(g, scale, n, size, r, scale')
    ensures FoldInv(size, g0, scale0, types, r, t', scale', processed + {n})
    ensures LocalRewrite(g, r, processed, n, {})
  {
    if Foldable(g, n) {
      t' := WithType(t, |g.operands|, Raw);
      var values := FoldedValue(g, n, size);
      ShapeParts(size, g0, g);
      hide FoldShape, FoldTypes, ScalesFrom, FoldDone, LocalRewrite, WellFormed, Acyclic, Folded, FoldedValue,
           Foldable, Unblocked;
      ShapeStep(size, g0, g, n, r);
      TypesStep(g0, types, g, t, n, values, r, t');
      ScalesStep(g0, scale0, g, scale, n, values, r, scale');
      DoneStep(g, processed, n, values, r);
      FoldLocal(g, processed, n, values, r);
    } else {
      t' := t;
      SkipDone(g, processed, n);
    }
  }

  lemma ShapeParts(size: nat, g0: Graph, g: Graph)
    requires FoldShape(size, g0, g)
    ensures WellFormed(g) && Acyclic(g) && SourceArity(g) && Arity(g) && ConstantsFit(g, size)
    ensures |g.op| == |g.operands| && |g0.operands| <= |g.operands|
  {
  }

  lemma InvShape(size: nat, g0: Graph, scale0: ScaleMap, types: TypeMap, g: Graph, t: TypeMap, scale: ScaleMap,
                 processed: set<NodeId>)
    requires FoldInv(size, g0, scale0, types, g, t, scale, processed)
    ensures FoldShape(size, g0, g)
  {
  }

  lemma ArityHere(g: Graph, n: NodeId)
    requires Arity(g) && SourceArity(g) && Live(g, n)
    ensures ArityAt(g, n)
  {
  }

  lemma EffectGrowth(g: Graph, scale: ScaleMap, n: NodeId, size: nat, r: Graph, scale': ScaleMap)
    requires |g.op| == |g.operands| && ArityAt(g, n) && FoldEffect(g, scale, n, size, r, scale')
    ensures |r.operands| >= |g.operands| && (g.operands[n] == [] ==> r == g)
  {
    if Foldable(g, n) {
      FoldedShape(g, n, FoldedValue(g, n, size));
    }
  }

  lemma NewIsSource(size: nat, g0: Graph, g: Graph, n: NodeId)
    requires FoldShape(size, g0, g) && n < |g.operands|
    ensures n >= |g0.operands| ==> g.operands[n] == []
  {
  }

  method FoldStep(d: Dag, h: ConstantDoubleHandler, t: DagTraversal, ghost types: TypeMap, ghost typing: TypeMap,
                  ghost g0: Graph, ghost scale0: ScaleMap, vecSize: nat)
    returns (n: NodeId, ghost typing': TypeMap)
    requires d.Valid() && t.Consistent({}) && t.work != [] && vecSize > 0
    requires FoldInv(vecSize, g0, scale0, types, d.G(), typing, h.scale, t.processed)
    requires FwdInv(d.G(), t.ready, t.processed, Elems(t.work), {})
    modifies d, h, t
    ensures d.Valid() && t.Consistent({})
    ensures FoldInv(vecSize, g0, scale0, types, d.G(), typing', h.scale, t.processed)
    ensures FwdInv(d.G(), t.ready, t.processed, Elems(t.work), {})
    ensures n < old(|d.operands|) && n !in old(t.processed) && t.processed == old(t.processed) + {n}
    ensures n >= |g0.operands| ==> |d.operands| == old(|d.operands|)
  {
    hide FoldInv, FoldShape, FwdInv, Frontier, WellFormed, UsesInverse, SinksMatch, LocalRewrite, Unblocked, Live,
         Erased, FoldEffect, Acyclic, Arity, SourceArity, ConstantsFit, ArityAt;
    ghost var g, processed, scale := d.G(), t.processed, h.scale;
    FwdPop(g, t.ready, t.processed, t.work, {});
    ProcessedBound(g, t.ready, processed, t.work);
    n := t.Pop({});
    InvShape(vecSize, g0, scale0, types, g, typing, scale, processed);
    ShapeParts(vecSize, g0, g);
    NewIsSource(vecSize, g0, g, n);
    ArityHere(g, n);
    Rescaling.UsersOf(g, d.uses, n);
    var cands := d.uses[n];
    h.Visit(d, n, vecSize);
    typing' := EffectKeeps(vecSize, g0, scale0, types, g, typing, scale, processed, n, d.G(), h.scale);
    EffectGrowth(g, scale, n, vecSize, d.G(), h.scale);
    FwdFinish(d, t, n, cands, g, processed, {}, {});
  }

  lemma ProcessedBound(g: Graph, ready: set<NodeId>, processed: set<NodeId>, work: seq<NodeId>)
    requires FwdInv(g, ready, processed, Elems(work), {})
    ensures forall p: NodeId :: p in processed ==> p < |g.operands|
  {
  }

  lemma FoldEnd(size: nat, g0: Graph, scale0: ScaleMap, types: TypeMap, g: Graph, t: TypeMap, scale: ScaleMap,
                processed: set<NodeId>)
    requires FoldInv(size, g0, scale0, types, g, t, scale, processed) && FwdInv(g, processed, processed, {}, {})
    ensures Acyclic(g) && Refines(size, g0, g) && Grown(g0, g) && Arity(g) && SourceArity(g) && ConstantsFit(g, size)
    ensures FoldTypes(g0, types, g, t) && ScalesFrom(g0, scale0, g, scale) && DepthsKept(g0, g) && AloneKept(g0, g)
    ensures forall n: NodeId :: Foldable(g, n) ==> !IsUsed(g, n)
  {
    var rank :| Ranked(g, rank);
    forall n: NodeId | Foldable(g, n)
      ensures !IsUsed(g, n)
    {
      assert Live(g, n);
      FwdEnd(g, rank, processed, {}, n);
    }
  }

  /** The forward pass, iyfc/seal/alo/seal_ckks_handler.cpp:37. typing is a typing of the result
      that continues types. */
  method FoldConstants(d: Dag, scale: ScaleMap, vecSize: nat, ghost types: TypeMap) returns (h: ConstantDoubleHandler,
      ghost typing: TypeMap)
    requires d.Valid() && Acyclic(d.G()) && Arity(d.G()) && SourceArity(d.G()) && ConstantsFit(d.G(), vecSize)
      && vecSize > 0
    requires Typed(d.G(), types)
    modifies d
    ensures fresh(h) && d.Valid() && Acyclic(d.G()) && Refines(vecSize, old(d.G()), d.G()) && Grown(old(d.G()), d.G())
    ensures Arity(d.G()) && SourceArity(d.G()) && ConstantsFit(d.G(), vecSize)
    ensures FoldTypes(old(d.G()), types, d.G(), typing) && ScalesFrom(old(d.G()), scale, d.G(), h.scale)
    ensures DepthsKept(old(d.G()), d.G()) && AloneKept(old(d.G()), d.G())
    ensures forall n: NodeId :: Foldable(d.G(), n) ==> !IsUsed(d.G(), n)
  {
    hide FoldInv, FwdInv, Arity, SourceArity, Typed, ScalesFrom, FoldTypes, DepthsKept, Grown, Refines, Acyclic,
         ConstantsFit, Foldable, IsUsed, AloneKept;
    ghost var g0 := d.G();
    typing := types;
    FoldStart(vecSize, g0, types, scale);
    FwdStart(g0, d.sources);
    h := new ConstantDoubleHandler(scale);
    var t := new DagTraversal();
    t.Begin(d.sources);
    while t.work != []
      invariant d.Valid() && t.Consistent({})
      invariant FoldInv(vecSize, g0, scale, types, d.G(), typing, h.scale, t.processed)
      invariant FwdInv(d.G(), t.ready, t.processed, Elems(t.work), {})
      decreases AllNodes(g0) - t.processed, AllNodes(d.G()) - t.processed
    {
      hide *;
      ghost var before := d.G();
      var n;
      n, typing := FoldStep(d, h, t, types, typing, g0, scale, vecSize);
      Rescaling.NodesShrink(g0, before, d.G(), n);
    }
    assert Elems(t.work) == {} && t.ready == t.processed;
    FoldEnd(vecSize, g0, scale, types, d.G(), typing, h.scale, t.processed);
  }
}
