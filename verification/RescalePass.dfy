/** The whole rescaling pass: the scale of every node, for any positive source scales. */
module RescalePass {
  import opened Graphs
  import opened Usage
  import opened Chains
  import opened Dags
  import opened Traversals
  import opened ForwardPass
  import opened Semantics
  import opened Types
  import opened ModSwitchers
  import opened RescaleSpec
  import opened Rescalers

  predicate IsAddedOp(op: Op) { op.Rescale? || op == Constant([1.0]) || op.Mul? }

  ghost predicate Grown(g0: Graph, g: Graph)
  {
    && |g0.op| == |g0.operands| && |g.op| == |g.operands| && g0.op <= g.op && g0.sources <= g.sources
    && (forall x: NodeId :: |g0.operands| <= x < |g.op| ==> IsAddedOp(g.op[x]))
    && (forall x: NodeId :: |g0.operands| <= x < |g.op| ==>
          |g.operands[x]| == if g.op[x].Constant? then 0 else if g.op[x].Mul? then 2 else 1)
    && (forall s: NodeId :: s in g.sources ==> s in g0.sources || s >= |g0.operands|)
    && (forall u: NodeId :: u < |g0.operands| ==> |g.operands[u]| == |g0.operands[u]|)
  }

  /** Multiplications added by the pass are never rescaled. */
  ghost predicate AddedMulsSmall(g0: Graph, g: Graph, scale: ScaleMap, b: Bits)
    requires |g.op| == |g.operands|
  {
    forall x: NodeId :: |g0.operands| <= x < |g.operands| && g.op[x].Mul? ==> ScaleAt(scale, x) < b.Limit()
  }

  ghost predicate ScaleState(g0: Graph, g: Graph, types: TypeMap, scale: ScaleMap, b: Bits, processed: set<NodeId>)
  {
    && b.fixed > 0 && b.waterline > 0
    && WellFormed(g) && Grown(g0, g)
    && ScaleInv(|g0.operands|, g, types, scale, b, processed)
    && ScaledClosed(|g0.operands|, g, processed)
    && AddedMulsSmall(g0, g, scale, b)
    && RescaleSources(g0, g, types) && UniformIf(g0, g, types, scale, b, processed)
  }

  /** A rescale stands behind a product of the program, or behind another rescale. */
  ghost predicate RescaleSources(g0: Graph, g: Graph, types: TypeMap)
  {
    forall x: NodeId, i: nat ::
      |g0.operands| <= x < |g.operands| && x < |g.op| && g.op[x].Rescale? && i < |g.operands[x]| ==>
      IsRescaledNode(g0, g, types, g.operands[x][i])
  }

  predicate IsRescaledNode(g0: Graph, g: Graph, types: TypeMap, p: NodeId)
  {
    p < |g.op| && (if p < |g0.operands| then g.op[p].Mul? && TypeAt(types, p) != Raw else g.op[p].Rescale?)
  }

  /** All sources at the rescale divisor's scale. */
  ghost predicate UniformStart(g0: Graph, scale: ScaleMap, b: Bits)
  {
    Arity(g0) && b.fixed == b.waterline && forall s: NodeId :: s in g0.sources ==> ScaleAt(scale, s) == b.waterline
  }

  /** Every node is at that scale, and a product that has not been rescaled yet at twice that. */
  predicate AtUniform(g: Graph, types: TypeMap, scale: ScaleMap, b: Bits, p: NodeId)
  {
    || ScaleAt(scale, p) == b.waterline
    || (p < |g.op| && g.op[p].Mul? && TypeAt(types, p) != Raw && ScaleAt(scale, p) == b.Limit())
  }

  ghost predicate UniformState(g0: Graph, g: Graph, types: TypeMap, scale: ScaleMap, b: Bits, processed: set<NodeId>)
  {
    && (forall p: NodeId :: p < |g.operands| && IsScaled(|g0.operands|, g, processed, p) ==>
          AtUniform(g, types, scale, b, p))
    && (forall x: NodeId :: |g0.operands| <= x < |g.op| ==> g.op[x].Rescale?)
    && DepthsKept(g0, g)
  }

  ghost predicate UniformIf(g0: Graph, g: Graph, types: TypeMap, scale: ScaleMap, b: Bits, processed: set<NodeId>)
  {
    UniformStart(g0, scale, b) ==> UniformState(g0, g, types, scale, b, processed)
  }

  /** The scales of old sources do not change. */
  lemma UniformStartBack(g0: Graph, scale: ScaleMap, scale': ScaleMap, b: Bits)
    requires forall s: NodeId :: s in g0.sources ==> ScaleAt(scale', s) == ScaleAt(scale, s)
    ensures UniformStart(g0, scale', b) <==> UniformStart(g0, scale, b)
  {
  }

  lemma OldSourcesScaled(g0: Graph, g: Graph, processed: set<NodeId>, n: NodeId)
    requires Grown(g0, g) && !IsScaled(|g0.operands|, g, processed, n)
    ensures n !in g0.sources
  {
  }

  lemma SumFrame(operands: seq<NodeId>, scale: ScaleMap, scale': ScaleMap)
    requires forall i: nat :: i < |operands| ==> ScaleAt(scale, operands[i]) == ScaleAt(scale', operands[i])
    ensures SumScale(operands, scale) == SumScale(operands, scale')
  {
  }

  /** A rule only looks at the node and its operands. */
  lemma RuleFrame(g: Graph, types: TypeMap, scale: ScaleMap, r: Graph, types': TypeMap, scale': ScaleMap, b: Bits,
                  p: NodeId)
    requires p < |g.operands| && p < |g.op| && p < |r.operands| && p < |r.op|
    requires g.op[p] == r.op[p] && g.operands[p] == r.operands[p]
    requires TypeAt(types, p) == TypeAt(types', p) && ScaleAt(scale, p) == ScaleAt(scale', p)
    requires forall i: nat :: i < |g.operands[p]| ==>
      ScaleAt(scale, g.operands[p][i]) == ScaleAt(scale', g.operands[p][i])
      && TypeAt(types, g.operands[p][i]) == TypeAt(types', g.operands[p][i])
    requires ScaleRule(g, types, scale, b, p)
    ensures ScaleRule(r, types', scale', b, p)
  {
    SumFrame(g.operands[p], scale, scale');
    if g.operands[p] != [] {
      assert g.operands[p][0] == r.operands[p][0];
      assert ScaleAt(scale, g.operands[p][0]) == ScaleAt(scale', r.operands[p][0]);
    }
  }

  // ----- multiplications -----

  /** What the visit of a multiplication finds and does. */
  ghost predicate MulVisit(g0: Graph, g: Graph, types: TypeMap, scale: ScaleMap, b: Bits, processed: set<NodeId>,
                           n: NodeId, k: nat, r: Graph, types': TypeMap, scale': ScaleMap)
  {
    && ScaleState(g0, g, types, scale, b, processed)
    && n < |g.operands| && n !in processed && g.operands[n] != [] && g.op[n].Mul? && n !in g.operands[n]
    && Unblocked(g.operands, processed, n)
    && var sum := SumScale(g.operands[n], scale);
    && RescaleState(r, types', scale', g, types, WithScale(scale, n, sum), n, sum, b.fixed, k)
    && Drop(sum, b.fixed, k) < b.Limit()
    && (forall j: nat :: j < k ==> Drop(sum, b.fixed, j) >= b.Limit())
    && Rescaled(r, g, n, b.fixed, k)
  }

  lemma SumPositive(operands: seq<NodeId>, scale: ScaleMap)
    requires operands != [] && forall i: nat :: i < |operands| ==> ScaleAt(scale, operands[i]) > 0
    ensures SumScale(operands, scale) > 0
  {
    assert operands[0] == operands[0] && ScaleAt(scale, operands[0]) > 0;
  }

  lemma MulFacts(g0: Graph, g: Graph, types: TypeMap, scale: ScaleMap, b: Bits, processed: set<NodeId>, n: NodeId,
                 k: nat, r: Graph, types': TypeMap, scale': ScaleMap)
    requires MulVisit(g0, g, types, scale, b, processed, n, k, r, types', scale')
    ensures SumScale(g.operands[n], scale) > 0
    ensures n >= |g0.operands| && TypeAt(types, n) != Raw ==>
      k == 0 && SumScale(g.operands[n], scale) == ScaleAt(scale, n)
    ensures n < |g0.operands| ==> !IsScaled(|g0.operands|, g, processed, n)
    ensures r.operands[n] == g.operands[n]
  {
    forall i: nat | i < |g.operands[n]|
      ensures ScaleAt(scale, g.operands[n][i]) > 0
    {
      assert Live(g, g.operands[n][i]);
      assert IsScaled(|g0.operands|, g, processed, g.operands[n][i]);
    }
    SumPositive(g.operands[n], scale);
    if n >= |g0.operands| && TypeAt(types, n) != Raw {
      assert ScaleRule(g, types, scale, b, n);
      assert Drop(SumScale(g.operands[n], scale), b.fixed, 0) == ScaleAt(scale, n);
    }
    assert Subst(g.operands[n], n, ChainEnd(g, n, k)) == g.operands[n];
  }

  /** Scaled nodes do not use n when n is rescaled, so their operands stay. */
  lemma MulOperandsKept(g0: Graph, g: Graph, types: TypeMap, scale: ScaleMap, b: Bits, processed: set<NodeId>,
                        n: NodeId, k: nat, r: Graph, types': TypeMap, scale': ScaleMap, p: NodeId)
    requires MulVisit(g0, g, types, scale, b, processed, n, k, r, types', scale') && TypeAt(types, n) != Raw
    requires p < |g.operands| && p != n && IsScaled(|g0.operands|, g, processed, p)
    ensures r.operands[p] == g.operands[p]
    ensures forall i: nat :: i < |g.operands[p]| ==> g.operands[p][i] != n || ScaleAt(scale', n) == ScaleAt(scale, n)
  {
    MulFacts(g0, g, types, scale, b, processed, n, k, r, types', scale');
    assert ChainEnd(g, n, 0) == n;
    assert ScaleAt(scale', ChainEnd(g, n, 0)) == Drop(SumScale(g.operands[n], scale), b.fixed, 0);
  }

  /** The visited product itself. */
  lemma MulVisitedKeeps(g0: Graph, g: Graph, types: TypeMap, scale: ScaleMap, b: Bits, processed: set<NodeId>,
                        n: NodeId, k: nat, r: Graph, types': TypeMap, scale': ScaleMap)
    requires MulVisit(g0, g, types, scale, b, processed, n, k, r, types', scale')
    ensures n < |r.op| && n < |r.operands| && ScaleAt(scale', n) > 0 && ScaleRule(r, types', scale', b, n)
  {
    MulFacts(g0, g, types, scale, b, processed, n, k, r, types', scale');
    var sum := SumScale(g.operands[n], scale);
    assert ChainEnd(g, n, 0) == n;
    assert ScaleAt(scale', n) == Drop(sum, b.fixed, 0);
    forall i: nat | i < |g.operands[n]|
      ensures ScaleAt(scale', g.operands[n][i]) == ScaleAt(scale, g.operands[n][i])
    {
      assert Live(g, g.operands[n][i]);
    }
    SumFrame(g.operands[n], scale, scale');
  }

  lemma MulOldKeeps(g0: Graph, g: Graph, types: TypeMap, scale: ScaleMap, b: Bits, processed: set<NodeId>, n: NodeId,
                     k: nat, r: Graph, types': TypeMap, scale': ScaleMap, p: NodeId)
    requires MulVisit(g0, g, types, scale, b, processed, n, k, r, types', scale') && TypeAt(types, n) != Raw
    requires p < |g.operands| && p != n && IsScaled(|g0.operands|, g, processed, p)
    ensures p < |r.op| && p < |r.operands| && ScaleAt(scale', p) > 0 && ScaleRule(r, types', scale', b, p)
  {
    MulOperandsKept(g0, g, types, scale, b, processed, n, k, r, types', scale', p);
    hide ScaleRule, RescaleChain, Drop;
    forall i: nat | i < |g.operands[p]|
      ensures ScaleAt(scale, g.operands[p][i]) == ScaleAt(scale', g.operands[p][i])
      ensures TypeAt(types, g.operands[p][i]) == TypeAt(types', g.operands[p][i])
    {
      assert Live(g, g.operands[p][i]);
    }
    RuleFrame(g, types, scale, r, types', scale', b, p);
  }

  /** The rescales behind it. */
  lemma MulNewKeeps(g0: Graph, g: Graph, types: TypeMap, scale: ScaleMap, b: Bits, processed: set<NodeId>, n: NodeId,
                     k: nat, r: Graph, types': TypeMap, scale': ScaleMap, p: NodeId)
    requires MulVisit(g0, g, types, scale, b, processed, n, k, r, types', scale')
    requires |g.operands| <= p < |r.operands|
    ensures p < |r.op| && ScaleAt(scale', p) > 0 && ScaleRule(r, types', scale', b, p)
  {
    hide WellFormed, Grown, UniformIf, RescaleSources, ScaledClosed, AddedMulsSmall, ScaleInv, Unblocked;
    var sum := SumScale(g.operands[n], scale);
    var j: nat := p - |g.operands|;
    assert p == ChainEnd(g, n, j + 1);
    assert ScaleAt(scale', ChainEnd(g, n, j)) == Drop(sum, b.fixed, j);
    assert ScaleAt(scale', p) == Drop(sum, b.fixed, j + 1);
  }

  lemma MulNodeKeeps(g0: Graph, g: Graph, types: TypeMap, scale: ScaleMap, b: Bits, processed: set<NodeId>, n: NodeId,
                     k: nat, r: Graph, types': TypeMap, scale': ScaleMap, p: NodeId)
    requires MulVisit(g0, g, types, scale, b, processed, n, k, r, types', scale') && TypeAt(types, n) != Raw
    requires p < |r.operands| && IsScaled(|g0.operands|, r, processed + {n}, p)
    ensures |r.op| == |r.operands| && ScaleAt(scale', p) > 0 && ScaleRule(r, types', scale', b, p)
  {
    MulCount(g0, g, types, scale, b, processed, n, k, r, types', scale');
    hide MulVisit, ScaleRule;
    if p == n {
      MulVisitedKeeps(g0, g, types, scale, b, processed, n, k, r, types', scale');
    } else if p < |g.operands| {
      MulOldKeeps(g0, g, types, scale, b, processed, n, k, r, types', scale', p);
    } else {
      MulNewKeeps(g0, g, types, scale, b, processed, n, k, r, types', scale', p);
    }
  }

  lemma MulCount(g0: Graph, g: Graph, types: TypeMap, scale: ScaleMap, b: Bits, processed: set<NodeId>, n: NodeId,
                     k: nat, r: Graph, types': TypeMap, scale': ScaleMap)
    requires MulVisit(g0, g, types, scale, b, processed, n, k, r, types', scale')
    ensures |r.op| == |r.operands| && r.sources == g.sources
  {
  }

  lemma MulEdgeKeeps(g0: Graph, g: Graph, types: TypeMap, scale: ScaleMap, b: Bits, processed: set<NodeId>, n: NodeId,
                     k: nat, r: Graph, types': TypeMap, scale': ScaleMap, u: NodeId, i: nat)
    requires MulVisit(g0, g, types, scale, b, processed, n, k, r, types', scale') && TypeAt(types, n) != Raw
    requires |r.op| == |r.operands| && u < |r.operands| && i < |r.operands[u]|
    requires IsScaled(|g0.operands|, r, processed + {n}, r.operands[u][i])
    ensures r.op[u].Rescale? || ScaleAt(scale', r.operands[u][i]) < b.Limit()
  {
    MulFacts(g0, g, types, scale, b, processed, n, k, r, types', scale');
    if u < |g.operands| {
      var q := g.operands[u][i];
      assert Live(g, q);
      if q == n {
        assert r.operands[u][i] == ChainEnd(g, n, k);
        assert ScaleAt(scale', ChainEnd(g, n, k)) == Drop(SumScale(g.operands[n], scale), b.fixed, k);
      } else {
        assert r.operands[u][i] == q && IsScaled(|g0.operands|, g, processed, q);
        assert r.op[u] == g.op[u];
      }
    }
  }

  lemma MulInv(g0: Graph, g: Graph, types: TypeMap, scale: ScaleMap, b: Bits, processed: set<NodeId>, n: NodeId,
               k: nat, r: Graph, types': TypeMap, scale': ScaleMap)
    requires MulVisit(g0, g, types, scale, b, processed, n, k, r, types', scale') && TypeAt(types, n) != Raw
    ensures ScaleInv(|g0.operands|, r, types', scale', b, processed + {n})
  {
    MulCount(g0, g, types, scale, b, processed, n, k, r, types', scale');
    hide MulVisit, ScaleRule;
    forall p: NodeId | p < |r.operands| && IsScaled(|g0.operands|, r, processed + {n}, p)
      ensures ScaleAt(scale', p) > 0 && ScaleRule(r, types', scale', b, p)
    {
      MulNodeKeeps(g0, g, types, scale, b, processed, n, k, r, types', scale', p);
    }
    forall u: NodeId, i: nat | u < |r.operands| && i < |r.operands[u]|
      && IsScaled(|g0.operands|, r, processed + {n}, r.operands[u][i])
      ensures r.op[u].Rescale? || ScaleAt(scale', r.operands[u][i]) < b.Limit()
    {
      MulEdgeKeeps(g0, g, types, scale, b, processed, n, k, r, types', scale', u, i);
    }
  }

  lemma MulSources(g0: Graph, g: Graph, types: TypeMap, scale: ScaleMap, b: Bits, processed: set<NodeId>, n: NodeId,
                   k: nat, r: Graph, types': TypeMap, scale': ScaleMap)
    requires MulVisit(g0, g, types, scale, b, processed, n, k, r, types', scale') && TypeAt(types, n) != Raw
    ensures RescaleSources(g0, r, types')
  {
    hide MulVisit;
    forall x: NodeId, i: nat | |g0.operands| <= x < |r.operands| && x < |r.op| && r.op[x].Rescale?
      && i < |r.operands[x]|
      ensures IsRescaledNode(g0, r, types', r.operands[x][i])
    {
      if x < |g.operands| {
        MulOldSource(g0, g, types, scale, b, processed, n, k, r, types', scale', x, i);
      } else {
        MulNewSource(g0, g, types, scale, b, processed, n, k, r, types', scale', x, i);
      }
    }
  }

  lemma MulOldSource(g0: Graph, g: Graph, types: TypeMap, scale: ScaleMap, b: Bits, processed: set<NodeId>, n: NodeId,
                     k: nat, r: Graph, types': TypeMap, scale': ScaleMap, x: NodeId, i: nat)
    requires MulVisit(g0, g, types, scale, b, processed, n, k, r, types', scale') && TypeAt(types, n) != Raw
    requires |g0.operands| <= x < |g.operands| && x < |r.operands| && x < |r.op| && r.op[x].Rescale?
      && i < |r.operands[x]|
    ensures IsRescaledNode(g0, r, types', r.operands[x][i])
  {
    MulFacts(g0, g, types, scale, b, processed, n, k, r, types', scale');
    MulOperandsKept(g0, g, types, scale, b, processed, n, k, r, types', scale', x);
    hide ScaleRule, ScaleInv, RescaleChain, Drop, SumScale, ScaledClosed, AddedMulsSmall, UniformIf;
    assert r.op[x] == g.op[x];
    assert Live(g, g.operands[x][i]) && IsRescaledNode(g0, g, types, g.operands[x][i]);
  }

  lemma MulNewSource(g0: Graph, g: Graph, types: TypeMap, scale: ScaleMap, b: Bits, processed: set<NodeId>, n: NodeId,
                     k: nat, r: Graph, types': TypeMap, scale': ScaleMap, x: NodeId, i: nat)
    requires MulVisit(g0, g, types, scale, b, processed, n, k, r, types', scale') && TypeAt(types, n) != Raw
    requires |g.operands| <= x < |r.operands| && x < |r.op| && i < |r.operands[x]|
    ensures IsRescaledNode(g0, r, types', r.operands[x][i])
  {
    MulFacts(g0, g, types, scale, b, processed, n, k, r, types', scale');
    hide ScaleRule, ScaleInv, RescaleChain, Drop, SumScale, ScaledClosed, AddedMulsSmall, UniformIf, RescaleSources;
    var p := r.operands[x][i];
    assert p == ChainEnd(g, n, x - |g.operands|);
    assert p < |g.operands| ==> r.op[p] == g.op[p];
  }

  /** With uniform scales a product needs exactly one rescale. */
  lemma UniformProduct(g0: Graph, g: Graph, types: TypeMap, scale: ScaleMap, b: Bits, processed: set<NodeId>, n: NodeId,
                       k: nat, r: Graph, types': TypeMap, scale': ScaleMap)
    requires MulVisit(g0, g, types, scale, b, processed, n, k, r, types', scale') && TypeAt(types, n) != Raw
    requires UniformStart(g0, scale, b)
    ensures SumScale(g.operands[n], scale) == b.Limit()
    ensures n < |g0.operands| && k == 1 && ScaleAt(scale', n) == b.Limit()
      && ScaleAt(scale', |g.operands|) == b.waterline
  {
    MulFacts(g0, g, types, scale, b, processed, n, k, r, types', scale');
    assert n < |g0.operands| && g.op[n] == g0.op[n];
    UniformOperands(g0, g, types, scale, b, processed, n, k, r, types', scale');
    var sum := SumScale(g.operands[n], scale);
    TwoOperands(g.operands[n], scale, b.waterline);
    assert Drop(sum, b.fixed, 0) == sum;
    assert Drop(sum, b.fixed, 1) == b.waterline;
    assert ChainEnd(g, n, 0) == n && ChainEnd(g, n, 1) == |g.operands|;
    assert ScaleAt(scale', ChainEnd(g, n, 0)) == Drop(sum, b.fixed, 0);
    assert k > 0;
    assert ScaleAt(scale', ChainEnd(g, n, 1)) == Drop(sum, b.fixed, 1);
  }

  lemma TwoOperands(operands: seq<NodeId>, scale: ScaleMap, s: nat)
    requires |operands| == 2 && ScaleAt(scale, operands[0]) == s && ScaleAt(scale, operands[1]) == s
    ensures SumScale(operands, scale) == s + s
  {
    assert operands == [operands[0], operands[1]];
    TwoScales(operands[0], operands[1], scale);
  }

  lemma UniformOperands(g0: Graph, g: Graph, types: TypeMap, scale: ScaleMap, b: Bits, processed: set<NodeId>,
                        n: NodeId, k: nat, r: Graph, types': TypeMap, scale': ScaleMap)
    requires MulVisit(g0, g, types, scale, b, processed, n, k, r, types', scale')
    requires UniformStart(g0, scale, b) && n < |g0.operands|
    ensures |g.operands[n]| == 2 && forall i: nat :: i < |g.operands[n]| ==>
      ScaleAt(scale, g.operands[n][i]) == b.waterline
  {
    hide ScaleRule, RescaleChain, Drop, SumScale;
    assert g.op[n] == g0.op[n] && |g0.operands[n]| == |g.operands[n]| && Live(g0, n);
    forall i: nat | i < |g.operands[n]|
      ensures ScaleAt(scale, g.operands[n][i]) == b.waterline
    {
      assert IsScaled(|g0.operands|, g, processed, g.operands[n][i]);
      UniformOperand(g0, g, types, scale, b, processed, n, i);
    }
  }

  /** What is consumed by anything but a rescale is at the uniform scale. */
  lemma UniformOperand(g0: Graph, g: Graph, types: TypeMap, scale: ScaleMap, b: Bits, processed: set<NodeId>,
                       n: NodeId, i: nat)
    requires ScaleState(g0, g, types, scale, b, processed) && UniformStart(g0, scale, b)
    requires n < |g.operands| && i < |g.operands[n]| && !g.op[n].Rescale?
    requires IsScaled(|g0.operands|, g, processed, g.operands[n][i])
    ensures ScaleAt(scale, g.operands[n][i]) == b.waterline
  {
    assert Live(g, g.operands[n][i]);
    assert AtUniform(g, types, scale, b, g.operands[n][i]);
  }

  lemma MulUniform(g0: Graph, g: Graph, types: TypeMap, scale: ScaleMap, b: Bits, processed: set<NodeId>, n: NodeId,
                   k: nat, r: Graph, types': TypeMap, scale': ScaleMap)
    requires MulVisit(g0, g, types, scale, b, processed, n, k, r, types', scale') && TypeAt(types, n) != Raw
    ensures UniformIf(g0, r, types', scale', b, processed + {n})
  {
    if UniformStart(g0, scale', b) {
      MulSourceScales(g0, g, types, scale, b, processed, n, k, r, types', scale');
      UniformStartBack(g0, scale, scale', b);
      UniformProduct(g0, g, types, scale, b, processed, n, k, r, types', scale');
      MulUniformNodes(g0, g, types, scale, b, processed, n, k, r, types', scale');
      MulDepths(g0, g, types, scale, b, processed, n, k, r, types', scale');
    }
  }

  lemma MulSourceScales(g0: Graph, g: Graph, types: TypeMap, scale: ScaleMap, b: Bits, processed: set<NodeId>,
                        n: NodeId, k: nat, r: Graph, types': TypeMap, scale': ScaleMap)
    requires MulVisit(g0, g, types, scale, b, processed, n, k, r, types', scale') && TypeAt(types, n) != Raw
    ensures forall s: NodeId :: s in g0.sources ==> ScaleAt(scale', s) == ScaleAt(scale, s)
  {
    hide ScaleRule, RescaleChain, Drop, SumScale;
    forall s: NodeId | s in g0.sources
      ensures ScaleAt(scale', s) == ScaleAt(scale, s)
    {
      assert s in g.sources && s != n;
    }
  }

  lemma MulUniformNodes(g0: Graph, g: Graph, types: TypeMap, scale: ScaleMap, b: Bits, processed: set<NodeId>,
                        n: NodeId, k: nat, r: Graph, types': TypeMap, scale': ScaleMap)
    requires MulVisit(g0, g, types, scale, b, processed, n, k, r, types', scale') && TypeAt(types, n) != Raw
    requires UniformStart(g0, scale, b) && k == 1
    requires ScaleAt(scale', n) == b.Limit() && ScaleAt(scale', |g.operands|) == b.waterline
    ensures |r.op| == |r.operands|
    ensures forall p: NodeId :: p < |r.operands| && IsScaled(|g0.operands|, r, processed + {n}, p) ==>
      AtUniform(r, types', scale', b, p)
    ensures forall x: NodeId :: |g0.operands| <= x < |r.op| ==> r.op[x].Rescale?
  {
    hide ScaleRule, RescaleChain, Drop, SumScale;
    forall p: NodeId | p < |r.operands| && IsScaled(|g0.operands|, r, processed + {n}, p)
      ensures AtUniform(r, types', scale', b, p)
    {
      if p < |g.operands| {
        assert r.op[p] == g.op[p];
        if p != n {
          assert AtUniform(g, types, scale, b, p);
        }
      }
    }
    forall x: NodeId | |g0.operands| <= x < |r.op|
      ensures r.op[x].Rescale?
    {
      if x < |g.op| {
        assert r.op[x] == g.op[x];
      }
    }
  }

  lemma MulDepths(g0: Graph, g: Graph, types: TypeMap, scale: ScaleMap, b: Bits, processed: set<NodeId>, n: NodeId,
                  k: nat, r: Graph, types': TypeMap, scale': ScaleMap)
    requires MulVisit(g0, g, types, scale, b, processed, n, k, r, types', scale') && UniformStart(g0, scale, b)
      && k == 1
    ensures DepthsKept(g0, r)
  {
    assert RescaleChain(g, n, b.fixed, 0) == g && ChainEnd(g, n, 0) == n;
    assert r == InsertAfter(g, n, Rescale(b.fixed)) && Live(g, n) && DepthsKept(g0, g);
    hide DepthsKept, MulVisit, InsertAfter;
    InsertAfterDepths(g, n, Rescale(b.fixed));
    DepthsTransitive(g0, g, r);
  }

  lemma MulKeepsState(g0: Graph, g: Graph, types: TypeMap, scale: ScaleMap, b: Bits, processed: set<NodeId>, n: NodeId,
                      k: nat, r: Graph, types': TypeMap, scale': ScaleMap)
    requires MulVisit(g0, g, types, scale, b, processed, n, k, r, types', scale') && TypeAt(types, n) != Raw
      && WellFormed(r)
    ensures ScaleState(g0, r, types', scale', b, processed + {n})
  {
    assert b.fixed > 0 && b.waterline > 0;
    assert WellFormed(g);
    hide MulVisit, ScaleInv, ScaledClosed, WellFormed, Grown, RescaleSources, UniformIf;
    MulSources(g0, g, types, scale, b, processed, n, k, r, types', scale');
    MulUniform(g0, g, types, scale, b, processed, n, k, r, types', scale');
    MulCount(g0, g, types, scale, b, processed, n, k, r, types', scale');
    MulInv(g0, g, types, scale, b, processed, n, k, r, types', scale');
    MulClosed(g0, g, types, scale, b, processed, n, k, r, types', scale');
    MulAdded(g0, g, types, scale, b, processed, n, k, r, types', scale');
  }

  lemma MulAdded(g0: Graph, g: Graph, types: TypeMap, scale: ScaleMap, b: Bits, processed: set<NodeId>, n: NodeId,
                 k: nat, r: Graph, types': TypeMap, scale': ScaleMap)
    requires MulVisit(g0, g, types, scale, b, processed, n, k, r, types', scale') && TypeAt(types, n) != Raw
    ensures Grown(g0, r) && AddedMulsSmall(g0, r, scale', b)
  {
    MulGrown(g0, g, types, scale, b, processed, n, k, r, types', scale');
    hide MulVisit, Grown;
    forall x: NodeId | |g0.operands| <= x < |r.operands| && x < |r.op| && r.op[x].Mul?
      ensures ScaleAt(scale', x) < b.Limit()
    {
      AddedMulSmall(g0, g, types, scale, b, processed, n, k, r, types', scale', x);
    }
    GrownCounts(g0, r);
  }

  lemma GrownCounts(g0: Graph, g: Graph)
    requires Grown(g0, g)
    ensures |g.op| == |g.operands|
  {
  }

  lemma MulGrown(g0: Graph, g: Graph, types: TypeMap, scale: ScaleMap, b: Bits, processed: set<NodeId>, n: NodeId,
                 k: nat, r: Graph, types': TypeMap, scale': ScaleMap)
    requires MulVisit(g0, g, types, scale, b, processed, n, k, r, types', scale')
    ensures Grown(g0, r)
  {
    hide ScaleInv, ScaledClosed, AddedMulsSmall, RescaleSources, UniformIf, Drop, SumScale, RescaleState;
    forall u: NodeId | u < |g.operands|
      ensures |r.operands[u]| == |g.operands[u]|
    {
    }
  }

  /** A product that is rescaled was there before, and those that were added keep their scale. */
  lemma AddedMulSmall(g0: Graph, g: Graph, types: TypeMap, scale: ScaleMap, b: Bits, processed: set<NodeId>, n: NodeId,
                      k: nat, r: Graph, types': TypeMap, scale': ScaleMap, x: NodeId)
    requires MulVisit(g0, g, types, scale, b, processed, n, k, r, types', scale') && TypeAt(types, n) != Raw
    requires |g0.operands| <= x < |r.operands| && x < |r.op| && r.op[x].Mul?
    ensures ScaleAt(scale', x) < b.Limit()
  {
    MulFacts(g0, g, types, scale, b, processed, n, k, r, types', scale');
    hide ScaleInv, ScaledClosed, RescaleSources, UniformIf, SumScale, Grown;
    assert x < |g.operands| && r.op[x] == g.op[x];
    if x == n {
      assert ChainEnd(g, n, 0) == n;
      assert ScaleAt(scale', ChainEnd(g, n, 0)) == Drop(SumScale(g.operands[n], scale), b.fixed, 0);
    }
  }

  lemma MulClosed(g0: Graph, g: Graph, types: TypeMap, scale: ScaleMap, b: Bits, processed: set<NodeId>, n: NodeId,
                  k: nat, r: Graph, types': TypeMap, scale': ScaleMap)
    requires MulVisit(g0, g, types, scale, b, processed, n, k, r, types', scale') && TypeAt(types, n) != Raw
    ensures ScaledClosed(|g0.operands|, r, processed + {n})
  {
    MulFacts(g0, g, types, scale, b, processed, n, k, r, types', scale');
    forall u: NodeId, i: nat | u < |r.operands| && i < |r.operands[u]| && IsScaled(|g0.operands|, r, processed + {n}, u)
      ensures IsScaled(|g0.operands|, r, processed + {n}, r.operands[u][i])
    {
      if u < |g.operands| && u != n {
        MulOperandsKept(g0, g, types, scale, b, processed, n, k, r, types', scale', u);
      }
    }
  }

  // ----- visits that only set a scale -----

  lemma UniformSet(g0: Graph, g: Graph, types: TypeMap, scale: ScaleMap, b: Bits, processed: set<NodeId>, n: NodeId,
                   s: nat)
    requires ScaleState(g0, g, types, scale, b, processed)
    requires n < |g0.operands| && !IsScaled(|g0.operands|, g, processed, n)
    requires UniformStart(g0, scale, b) ==> s == b.waterline
    ensures UniformIf(g0, g, types, scale[n := s], b, processed + {n})
  {
    hide ScaleInv, ScaledClosed, AddedMulsSmall, RescaleSources, DepthsKept;
    OldSourcesScaled(g0, g, processed, n);
    UniformStartBack(g0, scale, scale[n := s], b);
    if UniformStart(g0, scale, b) {
      forall p: NodeId | p < |g.operands| && IsScaled(|g0.operands|, g, processed + {n}, p)
        ensures AtUniform(g, types, scale[n := s], b, p)
      {
        assert p == n || AtUniform(g, types, scale, b, p);
      }
    }
  }

  lemma SetScaleKeeps(g0: Graph, g: Graph, types: TypeMap, scale: ScaleMap, b: Bits, processed: set<NodeId>,
                      n: NodeId, s: nat)
    requires ScaleState(g0, g, types, scale, b, processed)
    requires n < |g0.operands| && !IsScaled(|g0.operands|, g, processed, n) && n !in g.operands[n]
    requires Unblocked(g.operands, processed, n) || ScaledOperands(g0, g, processed, n)
    requires 0 < s < b.Limit() && ScaleRule(g, types, scale[n := s], b, n)
    requires UniformStart(g0, scale, b) ==> s == b.waterline
    ensures ScaleState(g0, g, types, scale[n := s], b, processed + {n})
  {
    var scale' := scale[n := s];
    UniformSet(g0, g, types, scale, b, processed, n, s);
    hide UniformIf;
    forall p: NodeId | p < |g.operands| && IsScaled(|g0.operands|, g, processed + {n}, p)
      ensures ScaleAt(scale', p) > 0 && ScaleRule(g, types, scale', b, p)
    {
      if p != n {
        assert IsScaled(|g0.operands|, g, processed, p);
        RuleFrame(g, types, scale, g, types, scale', b, p);
      }
    }
    forall u: NodeId, i: nat | u < |g.operands| && i < |g.operands[u]|
      && IsScaled(|g0.operands|, g, processed + {n}, g.operands[u][i])
      ensures g.op[u].Rescale? || ScaleAt(scale', g.operands[u][i]) < b.Limit()
    {
      if g.operands[u][i] != n {
        assert IsScaled(|g0.operands|, g, processed, g.operands[u][i]);
      }
    }
  }

  ghost predicate ScaledOperands(g0: Graph, g: Graph, processed: set<NodeId>, n: NodeId)
    requires n < |g.operands|
  {
    forall i: nat :: i < |g.operands[n]| ==> IsScaled(|g0.operands|, g, processed, g.operands[n][i])
  }

  /** A node whose scale was final before its visit. */
  lemma SkipKeeps(g0: Graph, g: Graph, types: TypeMap, scale: ScaleMap, b: Bits, processed: set<NodeId>, n: NodeId)
    requires ScaleState(g0, g, types, scale, b, processed) && IsScaled(|g0.operands|, g, processed, n)
    ensures ScaleState(g0, g, types, scale, b, processed + {n})
  {
    forall p: NodeId
      ensures IsScaled(|g0.operands|, g, processed + {n}, p) <==> IsScaled(|g0.operands|, g, processed, p)
    {
    }
  }

  // ----- additions -----

  lemma ScaleUpKeepsState(g0: Graph, g: Graph, types: TypeMap, scale: ScaleMap, b: Bits, processed: set<NodeId>,
                          n: NodeId, o: NodeId, max: nat, r: Graph, scale': ScaleMap)
    requires ScaleState(g0, g, types, scale, b, processed)
    requires n < |g0.operands| && !IsScaled(|g0.operands|, g, processed, n) && o in g.operands[n]
    requires IsScaled(|g0.operands|, g, processed, o) && 0 < ScaleAt(scale, o) < max < b.Limit() && o < |g.operands|
    requires forall p: NodeId :: p in processed ==> p < |g.operands|
    requires r == ScaledUp(g, n, o) && WellFormed(r)
    requires scale' == ScaledUpScales(scale, |g.operands|, o, max)
    requires UniformStart(g0, scale, b) ==> max == b.waterline
    ensures ScaleState(g0, r, types, scale', b, processed)
  {
    hide ScaleInv, ScaleRule;
    NeverScaledUp(g0, g, types, scale, b, processed, o, max, |g.operands|, scale');
    assert ScaleUpStep(g0, g, types, scale, b, processed, n, o, max, r, scale') by {
      ScaledUpShape(g, n, o);
      hide ScaleState;
    }
    assert b.fixed > 0 && b.waterline > 0;
    hide ScaleUpStep, ScaledUp, Live, UniformStart, RescaleSources, ScaledClosed, AddedMulsSmall, IsScaled,
         ScaledUpScales;
    ScaleUpSources(g0, g, types, scale, b, processed, n, o, max, r, scale');
    ScaleUpRules(g0, g, types, scale, b, processed, n, o, max, r, scale');
    ScaleUpClosed(g0, g, types, scale, b, processed, n, o, max, r, scale');
  }

  lemma ScaleUpRules(g0: Graph, g: Graph, types: TypeMap, scale: ScaleMap, b: Bits, processed: set<NodeId>,
                     n: NodeId, o: NodeId, max: nat, r: Graph, scale': ScaleMap)
    requires ScaleUpStep(g0, g, types, scale, b, processed, n, o, max, r, scale')
    ensures ScaleInv(|g0.operands|, r, types, scale', b, processed) && AddedMulsSmall(g0, r, scale', b)
  {
    ScaleUpNodes(g0, g, types, scale, b, processed, n, o, max, r, scale');
    ScaleUpEdges(g0, g, types, scale, b, processed, n, o, max, r, scale');
    hide IsScaled, ScaleRule, ScaledUpScales, ScaleState, AddedMulsSmall;
  }

  /** With uniform scales no operand is scaled up. */
  lemma NeverScaledUp(g0: Graph, g: Graph, types: TypeMap, scale: ScaleMap, b: Bits, processed: set<NodeId>,
                      o: NodeId, max: nat, c: NodeId, scale': ScaleMap)
    requires ScaleState(g0, g, types, scale, b, processed) && IsScaled(|g0.operands|, g, processed, o)
      && o < |g.operands|
    requires 0 < ScaleAt(scale, o) < max && c == |g.operands| && scale' == ScaledUpScales(scale, c, o, max)
    requires UniformStart(g0, scale, b) ==> max == b.waterline
    ensures !UniformStart(g0, scale', b)
  {
    forall s: NodeId | s in g0.sources
      ensures s < c
    {
      assert s in g.sources;
    }
    UniformStartBack(g0, scale, scale', b);
    assert !UniformStart(g0, scale, b) || AtUniform(g, types, scale, b, o);
  }

  lemma ScaleUpSources(g0: Graph, g: Graph, types: TypeMap, scale: ScaleMap, b: Bits, processed: set<NodeId>,
                       n: NodeId, o: NodeId, max: nat, r: Graph, scale': ScaleMap)
    requires ScaleUpStep(g0, g, types, scale, b, processed, n, o, max, r, scale')
    ensures RescaleSources(g0, r, types)
  {
    hide ScaleInv, UniformIf, ScaledClosed, AddedMulsSmall;
    forall x: NodeId, i: nat | |g0.operands| <= x < |r.operands| && x < |r.op| && r.op[x].Rescale?
      && i < |r.operands[x]|
      ensures IsRescaledNode(g0, r, types, r.operands[x][i])
    {
      assert x < |g.operands| && r.op[x] == g.op[x];
      assert IsRescaledNode(g0, g, types, g.operands[x][i]);
      assert r.op[g.operands[x][i]] == g.op[g.operands[x][i]];
    }
  }

  ghost predicate ScaleUpStep(g0: Graph, g: Graph, types: TypeMap, scale: ScaleMap, b: Bits, processed: set<NodeId>,
                              n: NodeId, o: NodeId, max: nat, r: Graph, scale': ScaleMap)
  {
    && ScaleState(g0, g, types, scale, b, processed)
    && n < |g0.operands| && !IsScaled(|g0.operands|, g, processed, n)
    && IsScaled(|g0.operands|, g, processed, o) && 0 < ScaleAt(scale, o) < max < b.Limit() && o < |g.operands|
    && (forall p: NodeId :: p in processed ==> p < |g.operands|)
    && scale' == ScaledUpScales(scale, |g.operands|, o, max)
    && var c := |g.operands|;
    && |r.operands| == c + 2 && |r.op| == c + 2 && r.op == g.op + [Constant([1.0]), Mul] && r.sources == g.sources + {c}
    && r.operands[c] == [] && r.operands[c + 1] == [o, c]
    && forall u: NodeId :: u < c ==> r.operands[u] == if u == n then Subst(g.operands[n], o, c + 1) else g.operands[u]
  }

  lemma ScaleUpNodes(g0: Graph, g: Graph, types: TypeMap, scale: ScaleMap, b: Bits, processed: set<NodeId>,
                     n: NodeId, o: NodeId, max: nat, r: Graph, scale': ScaleMap)
    requires ScaleUpStep(g0, g, types, scale, b, processed, n, o, max, r, scale')
    ensures forall p: NodeId :: p < |r.operands| && IsScaled(|g0.operands|, r, processed, p) ==>
      ScaleAt(scale', p) > 0 && ScaleRule(r, types, scale', b, p)
    ensures AddedMulsSmall(g0, r, scale', b)
  {
    forall p: NodeId | p < |r.operands| && IsScaled(|g0.operands|, r, processed, p)
      ensures ScaleAt(scale', p) > 0 && ScaleRule(r, types, scale', b, p)
    {
      if p < |g.operands| {
        ScaleUpOldNode(g0, g, types, scale, b, processed, n, o, max, r, scale', p);
      } else if p == |g.operands| + 1 {
        TwoScales(o, |g.operands|, scale');
      }
    }
    forall x: NodeId | |g0.operands| <= x < |r.operands| && r.op[x].Mul?
      ensures ScaleAt(scale', x) < b.Limit()
    {
      if x < |g.operands| {
        assert r.op[x] == g.op[x];
      }
    }
  }

  lemma ScaleUpOldNode(g0: Graph, g: Graph, types: TypeMap, scale: ScaleMap, b: Bits, processed: set<NodeId>,
                       n: NodeId, o: NodeId, max: nat, r: Graph, scale': ScaleMap, p: NodeId)
    requires ScaleUpStep(g0, g, types, scale, b, processed, n, o, max, r, scale')
    requires p < |g.operands| && IsScaled(|g0.operands|, r, processed, p)
    ensures ScaleAt(scale', p) > 0 && ScaleRule(r, types, scale', b, p)
  {
    assert IsScaled(|g0.operands|, g, processed, p);
    forall i: nat | i < |g.operands[p]|
      ensures ScaleAt(scale, g.operands[p][i]) == ScaleAt(scale', g.operands[p][i])
    {
      assert Live(g, g.operands[p][i]);
    }
    RuleFrame(g, types, scale, r, types, scale', b, p);
  }

  lemma TwoScales(a: NodeId, b: NodeId, scale: ScaleMap)
    ensures SumScale([a, b], scale) == ScaleAt(scale, a) + ScaleAt(scale, b)
  {
    assert [a, b][1..] == [b];
    assert SumScale([b], scale) == ScaleAt(scale, b) + SumScale([b][1..], scale);
  }

  lemma ScaleUpEdges(g0: Graph, g: Graph, types: TypeMap, scale: ScaleMap, b: Bits, processed: set<NodeId>,
                     n: NodeId, o: NodeId, max: nat, r: Graph, scale': ScaleMap)
    requires ScaleUpStep(g0, g, types, scale, b, processed, n, o, max, r, scale')
    ensures forall u: NodeId, i: nat ::
      u < |r.operands| && i < |r.operands[u]| && IsScaled(|g0.operands|, r, processed, r.operands[u][i]) ==>
      r.op[u].Rescale? || ScaleAt(scale', r.operands[u][i]) < b.Limit()
  {
    hide ScaleState, ScaledUpScales, IsScaled;
    forall u: NodeId, i: nat | u < |r.operands| && i < |r.operands[u]|
      && IsScaled(|g0.operands|, r, processed, r.operands[u][i])
      ensures r.op[u].Rescale? || ScaleAt(scale', r.operands[u][i]) < b.Limit()
    {
      if u < |g.operands| {
        ScaleUpOldEdge(g0, g, types, scale, b, processed, n, o, max, r, scale', u, i);
      } else {
        ScaleUpNewEdge(g0, g, types, scale, b, processed, n, o, max, r, scale', u, i);
      }
    }
  }

  lemma ScaleUpNewEdge(g0: Graph, g: Graph, types: TypeMap, scale: ScaleMap, b: Bits, processed: set<NodeId>,
                       n: NodeId, o: NodeId, max: nat, r: Graph, scale': ScaleMap, u: NodeId, i: nat)
    requires ScaleUpStep(g0, g, types, scale, b, processed, n, o, max, r, scale')
    requires |g.operands| <= u < |r.operands| && i < |r.operands[u]|
    ensures ScaleAt(scale', r.operands[u][i]) < b.Limit()
  {
    hide ScaleState, IsScaled;
    assert u == |g.operands| + 1 && (i == 0 || i == 1);
  }

  lemma ScaleUpOldEdge(g0: Graph, g: Graph, types: TypeMap, scale: ScaleMap, b: Bits, processed: set<NodeId>,
                       n: NodeId, o: NodeId, max: nat, r: Graph, scale': ScaleMap, u: NodeId, i: nat)
    requires ScaleUpStep(g0, g, types, scale, b, processed, n, o, max, r, scale')
    requires u < |g.operands| && i < |r.operands[u]| && IsScaled(|g0.operands|, r, processed, r.operands[u][i])
    ensures r.op[u].Rescale? || ScaleAt(scale', r.operands[u][i]) < b.Limit()
  {
    hide ScaleRule, ScaledClosed, AddedMulsSmall, Grown;
    assert Live(g, g.operands[u][i]);
    assert r.op[u] == g.op[u];
  }

  lemma ScaleUpGrown(g0: Graph, g: Graph, types: TypeMap, scale: ScaleMap, b: Bits, processed: set<NodeId>,
                     n: NodeId, o: NodeId, max: nat, r: Graph, scale': ScaleMap)
    requires ScaleUpStep(g0, g, types, scale, b, processed, n, o, max, r, scale')
    ensures Grown(g0, r)
  {
    hide WellFormed, ScaleInv, ScaledClosed, AddedMulsSmall, RescaleSources, UniformIf, ScaledUpScales;
  }

  lemma ScaleUpClosed(g0: Graph, g: Graph, types: TypeMap, scale: ScaleMap, b: Bits, processed: set<NodeId>,
                      n: NodeId, o: NodeId, max: nat, r: Graph, scale': ScaleMap)
    requires ScaleUpStep(g0, g, types, scale, b, processed, n, o, max, r, scale')
    ensures ScaledClosed(|g0.operands|, r, processed) && Grown(g0, r)
  {
    hide WellFormed, ScaleInv, AddedMulsSmall, RescaleSources, UniformIf, ScaledUpScales, Grown;
    ScaleUpGrown(g0, g, types, scale, b, processed, n, o, max, r, scale');
    forall u: NodeId, i: nat | u < |r.operands| && i < |r.operands[u]| && IsScaled(|g0.operands|, r, processed, u)
      ensures IsScaled(|g0.operands|, r, processed, r.operands[u][i])
    {
      if u < |g.operands| {
        assert IsScaled(|g0.operands|, g, processed, u);
        assert IsScaled(|g0.operands|, g, processed, g.operands[u][i]);
      }
    }
  }

  /** While an addition's operands are being brought to the greatest scale: those before i have it. */
  ghost predicate AddLoop(size: nat, g0: Graph, before: Graph, g: Graph, types: TypeMap, scale: ScaleMap, b: Bits,
                          processed: set<NodeId>, n: NodeId, max: nat, i: nat)
  {
    && ScaleState(g0, g, types, scale, b, processed) && Acyclic(g) && Refines(size, before, g)
    && AddShape(before, g, n)
    && n < |g0.operands| && n < |before.operands| && !IsScaled(|g0.operands|, g, processed, n)
    && (forall p: NodeId :: p in processed ==> p < |before.operands|)
    && ScaledOperands(g0, g, processed, n) && 0 < max < b.Limit()
    && (UniformStart(g0, scale, b) ==> max == b.waterline)
    && n < |g.operands| && ScaledBefore(g.operands[n], types, scale, max, i)
  }

  /** No operand is above the greatest scale, and those before i have it, unless they are raw. */
  ghost predicate ScaledBefore(operands: seq<NodeId>, types: TypeMap, scale: ScaleMap, max: nat, i: nat)
  {
    && (forall j: nat :: j < |operands| ==> ScaleAt(scale, operands[j]) <= max)
    && (forall j: nat :: j < i && j < |operands| ==>
          TypeAt(types, operands[j]) == Raw || ScaleAt(scale, operands[j]) == max)
  }

  /** Only n changed; each new node is a source or uses a new source. */
  ghost predicate AddShape(before: Graph, g: Graph, n: NodeId)
  {
    && |before.operands| <= |g.operands| && |before.op| == |before.operands| && before.op <= g.op
    && before.sources <= g.sources
    && (forall u: NodeId :: u < |before.operands| && u != n ==> g.operands[u] == before.operands[u])
    && (n < |before.operands| ==> |g.operands[n]| == |before.operands[n]|)
    && (forall x: NodeId :: |before.operands| <= x < |g.operands| ==>
          x in g.sources || (|g.operands[x]| == 2 && g.operands[x][1] >= |before.operands|))
  }

  lemma AddShapeLocal(before: Graph, g: Graph, processed: set<NodeId>, n: NodeId)
    requires AddShape(before, g, n) && n < |before.operands|
    requires forall p: NodeId :: p in processed ==> p < |before.operands|
    ensures LocalRewrite(before, g, processed, n, {})
  {
    forall x: NodeId | |before.operands| <= x < |g.operands| && x !in g.sources
      ensures !Unblocked(g.operands, processed + {n}, x)
    {
      assert g.operands[x][1] !in processed + {n};
    }
  }

  lemma AddLoopParts(size: nat, g0: Graph, before: Graph, g: Graph, types: TypeMap, scale: ScaleMap, b: Bits,
                     processed: set<NodeId>, n: NodeId, max: nat, i: nat)
    requires AddLoop(size, g0, before, g, types, scale, b, processed, n, max, i)
    ensures WellFormed(g) && |g.op| == |g.operands| && |g0.operands| <= |g.operands| && n < |g.operands|
    ensures forall p: NodeId :: p in processed ==> p < |g.operands|
    ensures ScaledBefore(g.operands[n], types, scale, max, i)
  {
  }

  lemma ScaledBeforeStep(operands: seq<NodeId>, types: TypeMap, scale: ScaleMap, max: nat, i: nat,
                         operands': seq<NodeId>, scale': ScaleMap)
    requires ScaledBefore(operands, types, scale, max, i) && i < |operands| == |operands'|
    requires forall j: nat :: j < |operands| && operands[j] == operands[i] ==> ScaleAt(scale', operands'[j]) == max
    requires forall j: nat :: j < |operands| && operands[j] != operands[i] ==>
      operands'[j] == operands[j] && ScaleAt(scale', operands'[j]) == ScaleAt(scale, operands[j])
    ensures ScaledBefore(operands', types, scale', max, i + 1)
  {
  }

  lemma AddStep(size: nat, g0: Graph, before: Graph, g: Graph, types: TypeMap, scale: ScaleMap, b: Bits,
                processed: set<NodeId>, n: NodeId, max: nat, i: nat, r: Graph, scale': ScaleMap)
    requires AddLoop(size, g0, before, g, types, scale, b, processed, n, max, i) && i < |g.operands[n]|
    requires ScaleAt(scale, g.operands[n][i]) < max && TypeAt(types, g.operands[n][i]) != Raw
    requires r == ScaledUp(g, n, g.operands[n][i]) && WellFormed(r)
    requires scale' == ScaledUpScales(scale, |g.operands|, g.operands[n][i], max)
    ensures AddLoop(size, g0, before, r, types, scale', b, processed, n, max, i + 1)
  {
    var o := g.operands[n][i];
    hide ScaledUp, ScaleState, Refines, Acyclic, AddShape, WellFormed, ScaledOperands, UniformStart, IsScaled,
         ScaledBefore;
    AddLoopParts(size, g0, before, g, types, scale, b, processed, n, max, i);
    AddStepState(size, g0, before, g, types, scale, b, processed, n, max, o, r, scale');
    AddStepShape(before, g, n, o, r);
    AddStepOperands(g0, g, types, scale, processed, n, o, max, r, scale');
    ScaledBeforeStep(g.operands[n], types, scale, max, i, r.operands[n], scale');
  }

  lemma AddStepState(size: nat, g0: Graph, before: Graph, g: Graph, types: TypeMap, scale: ScaleMap, b: Bits,
                     processed: set<NodeId>, n: NodeId, max: nat, o: NodeId, r: Graph, scale': ScaleMap)
    requires ScaleState(g0, g, types, scale, b, processed) && Acyclic(g) && Refines(size, before, g)
    requires n < |g0.operands| && !IsScaled(|g0.operands|, g, processed, n) && o in g.operands[n]
    requires forall p: NodeId :: p in processed ==> p < |g.operands|
    requires ScaledOperands(g0, g, processed, n) && ScaleAt(scale, o) < max < b.Limit()
    requires UniformStart(g0, scale, b) ==> max == b.waterline
    requires r == ScaledUp(g, n, o) && WellFormed(r)
    requires scale' == ScaledUpScales(scale, |g.operands|, o, max)
    ensures ScaleState(g0, r, types, scale', b, processed) && Acyclic(r) && Refines(size, before, r)
    ensures !IsScaled(|g0.operands|, r, processed, n)
    ensures UniformStart(g0, scale', b) ==> max == b.waterline
  {
    var i :| 0 <= i < |g.operands[n]| && g.operands[n][i] == o;
    assert Live(g, g.operands[n][i]) && IsScaled(|g0.operands|, g, processed, g.operands[n][i]);
    assert WellFormed(g) && 0 < ScaleAt(scale, o);
    NeverScaledUp(g0, g, types, scale, b, processed, o, max, |g.operands|, scale');
    hide ScaleState, Refines, Acyclic, WellFormed, ScaledUp, UniformStart;
    ScaleUpKeepsState(g0, g, types, scale, b, processed, n, o, max, r, scale');
    ScaledUpShape(g, n, o);
    ScaledUpAcyclic(g, n, o);
    ScaledUpRefines(size, g, n, o);
    RefinesTransitive(size, before, g, r);
  }

  lemma AddStepShape(before: Graph, g: Graph, n: NodeId, o: NodeId, r: Graph)
    requires AddShape(before, g, n) && |g.op| == |g.operands| && n < |before.operands|
    requires r == ScaledUp(g, n, o)
    ensures AddShape(before, r, n)
  {
    ScaledUpShape(g, n, o);
  }

  lemma AddStepOperands(g0: Graph, g: Graph, types: TypeMap, scale: ScaleMap, processed: set<NodeId>, n: NodeId,
                        o: NodeId, max: nat, r: Graph, scale': ScaleMap)
    requires WellFormed(g) && n < |g.operands| && ScaledOperands(g0, g, processed, n) && |g0.operands| <= |g.operands|
    requires ScaleAt(scale, o) <= max
    requires scale' == ScaledUpScales(scale, |g.operands|, o, max)
    requires r == ScaledUp(g, n, o)
    ensures |r.operands[n]| == |g.operands[n]| && ScaledOperands(g0, r, processed, n)
    ensures forall j: nat :: j < |g.operands[n]| && g.operands[n][j] == o ==> ScaleAt(scale', r.operands[n][j]) == max
    ensures forall j: nat :: j < |g.operands[n]| && g.operands[n][j] != o ==>
      r.operands[n][j] == g.operands[n][j] && ScaleAt(scale', r.operands[n][j]) == ScaleAt(scale, g.operands[n][j])
  {
    ScaledUpShape(g, n, o);
    forall j: nat | j < |g.operands[n]|
      ensures IsScaled(|g0.operands|, r, processed, r.operands[n][j])
      ensures g.operands[n][j] != o ==> ScaleAt(scale', r.operands[n][j]) == ScaleAt(scale, g.operands[n][j])
    {
      assert Live(g, g.operands[n][j]);
    }
  }

  lemma UniformUnscaled(g0: Graph, g: Graph, types: TypeMap, scale: ScaleMap, b: Bits, processed: set<NodeId>,
                        n: NodeId, s: nat)
    requires ScaleState(g0, g, types, scale, b, processed)
    requires n < |g0.operands| && !IsScaled(|g0.operands|, g, processed, n)
    ensures UniformIf(g0, g, types, scale[n := s], b, processed)
  {
    hide ScaleInv, ScaledClosed, AddedMulsSmall, RescaleSources, DepthsKept;
    OldSourcesScaled(g0, g, processed, n);
    UniformStartBack(g0, scale, scale[n := s], b);
    forall p: NodeId | p < |g.operands| && p != n && AtUniform(g, types, scale, b, p)
      ensures AtUniform(g, types, scale[n := s], b, p)
    {
    }
  }

  /** The scale of a node not visited yet does not matter. */
  lemma UnscaledFree(g0: Graph, g: Graph, types: TypeMap, scale: ScaleMap, b: Bits, processed: set<NodeId>, n: NodeId,
                     s: nat)
    requires ScaleState(g0, g, types, scale, b, processed) && n < |g0.operands|
      && !IsScaled(|g0.operands|, g, processed, n)
    ensures ScaleState(g0, g, types, scale[n := s], b, processed)
  {
    var scale' := scale[n := s];
    UniformUnscaled(g0, g, types, scale, b, processed, n, s);
    hide UniformIf;
    forall p: NodeId | p < |g.operands| && IsScaled(|g0.operands|, g, processed, p)
      ensures ScaleAt(scale', p) > 0 && ScaleRule(g, types, scale', b, p)
    {
      RuleFrame(g, types, scale, g, types, scale', b, p);
    }
  }

  /** State in which node n of the input is about to be visited. */
  ghost predicate ReadyToVisit(g0: Graph, g: Graph, types: TypeMap, scale: ScaleMap, b: Bits, processed: set<NodeId>,
                               n: NodeId)
  {
    && ScaleState(g0, g, types, scale, b, processed) && Acyclic(g)
    && n < |g.operands| && n !in processed && g.operands[n] != [] && Unblocked(g.operands, processed, n)
    && (forall p: NodeId :: p in processed ==> p < |g.operands|)
    && (forall m: NodeId :: m < |g0.op| ==> !g0.op[m].Rescale?)
  }

  lemma ReadyFacts(g0: Graph, g: Graph, types: TypeMap, scale: ScaleMap, b: Bits, processed: set<NodeId>, n: NodeId)
    requires ReadyToVisit(g0, g, types, scale, b, processed, n)
    ensures n < |g.operands| == |g.op| && g.operands[n] != [] && n !in g.operands[n]
      && ScaledOperands(g0, g, processed, n)
    ensures forall i: nat :: i < |g.operands[n]| ==> Live(g, g.operands[n][i]) && ScaleAt(scale, g.operands[n][i]) > 0
    ensures !g.op[n].Rescale? ==> forall i: nat :: i < |g.operands[n]| ==> ScaleAt(scale, g.operands[n][i]) < b.Limit()
    ensures n < |g0.operands| ==> !IsScaled(|g0.operands|, g, processed, n) && !g.op[n].Rescale?
  {
    var rank :| Ranked(g, rank);
    forall i: nat | i < |g.operands[n]|
      ensures Live(g, g.operands[n][i]) && ScaleAt(scale, g.operands[n][i]) > 0
    {
      assert Live(g, g.operands[n][i]);
      assert IsScaled(|g0.operands|, g, processed, g.operands[n][i]);
    }
    if n < |g0.operands| {
      assert g.op[n] == g0.op[n];
    }
  }

  lemma AddLoopStart(size: nat, g0: Graph, g: Graph, types: TypeMap, scale: ScaleMap, b: Bits, processed: set<NodeId>,
                     n: NodeId, first: nat, max: nat)
    requires ReadyToVisit(g0, g, types, scale, b, processed, n) && n < |g0.operands|
    requires IsMaxScale(g.operands[n], scale, max)
    ensures AddLoop(size, g0, g, g, types, scale[n := first], b, processed, n, max, 0)
    ensures 0 < max < b.Limit()
  {
    ReadyFacts(g0, g, types, scale, b, processed, n);
    UnscaledFree(g0, g, types, scale, b, processed, n, first);
    RefinesReflexive(size, g);
    assert ScaleAt(scale, g.operands[n][0]) > 0;
    var i: nat :| i < |g.operands[n]| && ScaleAt(scale, g.operands[n][i]) == max;
    OperandIsUniform(g0, g, types, scale, b, processed, n, i);
    OldSourcesScaled(g0, g, processed, n);
    UniformStartBack(g0, scale, scale[n := first], b);
  }

  lemma OperandIsUniform(g0: Graph, g: Graph, types: TypeMap, scale: ScaleMap, b: Bits, processed: set<NodeId>,
                         n: NodeId, i: nat)
    requires ScaleState(g0, g, types, scale, b, processed) && n < |g.operands| && i < |g.operands[n]|
      && !g.op[n].Rescale?
    requires ScaledOperands(g0, g, processed, n)
    ensures UniformStart(g0, scale, b) ==> ScaleAt(scale, g.operands[n][i]) == b.waterline
  {
    hide ScaleState;
    if UniformStart(g0, scale, b) {
      UniformOperand(g0, g, types, scale, b, processed, n, i);
    }
  }

  lemma AddLoopEnd(size: nat, g0: Graph, before: Graph, g: Graph, types: TypeMap, scale: ScaleMap, b: Bits,
                   processed: set<NodeId>, n: NodeId, max: nat)
    requires n < |g.operands| && n < |g.op|
      && AddLoop(size, g0, before, g, types, scale, b, processed, n, max, |g.operands[n]|)
    requires g.op[n].Add? || g.op[n].Sub?
    ensures ScaleState(g0, g, types, scale[n := max], b, processed + {n}) && Acyclic(g) && Refines(size, before, g)
    ensures LocalRewrite(before, g, processed, n, {})
    ensures forall i: nat :: i < |g.operands[n]| ==>
      max == ScaleAt(scale, g.operands[n][i]) || TypeAt(types, g.operands[n][i]) == Raw
  {
    var rank :| Ranked(g, rank);
    AddShapeLocal(before, g, processed, n);
    assert n !in g.operands[n];
    SetScaleKeeps(g0, g, types, scale, b, processed, n, max);
  }

  method GreatestOperandScale(s: EagerWaterlineRescaler, d: Dag, n: NodeId) returns (max: nat)
    requires n < |d.operands| && d.operands[n] != [] && n !in d.operands[n]
    requires ScaleAt(s.scale, n) == ScaleAt(s.scale, d.operands[n][0])
    ensures IsMaxScale(d.operands[n], s.scale, max)
  {
    max := ScaleAt(s.scale, n);
    for i := 0 to |d.operands[n]|
      invariant forall j: nat :: j < i ==> ScaleAt(s.scale, d.operands[n][j]) <= max
      invariant exists j: nat :: j < |d.operands[n]| && ScaleAt(s.scale, d.operands[n][j]) == max
    {
      if ScaleAt(s.scale, d.operands[n][i]) > max {
        max := ScaleAt(s.scale, d.operands[n][i]);
      }
    }
  }

  /** A visit sets the scale of the visited node and of new nodes only. */
  ghost predicate OldScalesKept(count: nat, n: NodeId, scale: ScaleMap, scale': ScaleMap)
  {
    forall p: NodeId :: p < count && p != n ==> ScaleAt(scale', p) == ScaleAt(scale, p)
  }

  lemma ScalesUnchanged(count: nat, n: NodeId, scale: ScaleMap)
    ensures OldScalesKept(count, n, scale, scale)
  {
  }

  /** The visit of an addition or subtraction that is not raw. */
  method VisitAddition(s: EagerWaterlineRescaler, d: Dag, n: NodeId, ghost g0: Graph, ghost processed: set<NodeId>,
                       ghost size: nat)
    requires d.Valid() && ReadyToVisit(g0, d.G(), s.types, s.scale, s.B(), processed, n)
    requires n < |g0.operands| && (d.op[n].Add? || d.op[n].Sub?)
    modifies s`scale, d
    ensures d.Valid() && Acyclic(d.G()) && Refines(size, old(d.G()), d.G())
    ensures ScaleState(g0, d.G(), s.types, s.scale, s.B(), processed + {n})
    ensures LocalRewrite(old(d.G()), d.G(), processed, n, {}) && UsedKept(old(d.G()), d.G())
    ensures OldScalesKept(old(|d.operands|), n, old(s.scale), s.scale)
  {
    hide ReadyToVisit, ScaleState, Acyclic, Refines, WellFormed, UsesInverse, SinksMatch, LocalRewrite, AddLoop,
         UsedKept, Erased;
    ghost var before, b := d.G(), s.B();
    ReadyFacts(g0, before, s.types, s.scale, b, processed, n);
    var count := |d.operands[n]|;
    var max := StartAddition(s, d, n, b, g0, processed, size);
    UsedReflexive(before);
    for i := 0 to count
      invariant UsedKept(before, d.G()) && |before.operands| <= |d.operands|
      invariant forall p: NodeId :: p < |before.operands| && p != n ==> ScaleAt(s.scale, p) == ScaleAt(old(s.scale), p)
      invariant d.Valid() && n < |d.operands| && |d.operands[n]| == count && n < |d.op| && d.op[n] == before.op[n]
      invariant AddLoop(size, g0, before, d.G(), s.types, s.scale, b, processed, n, max, i)
    {
      ghost var g := d.G();
      AddOperand(s, d, n, i, max, b, g0, before, processed, size);
      UsedTransitive(before, g, d.G());
    }
    AddLoopEnd(size, g0, before, d.G(), s.types, s.scale, b, processed, n, max);
    assert forall i: nat :: i < count ==>
      max == ScaleAt(s.scale, d.operands[n][i]) || TypeAt(s.types, d.operands[n][i]) == Raw;
    s.scale := s.scale[n := max];
  }

  /** The greatest scale among the operands of an addition. */
  method StartAddition(s: EagerWaterlineRescaler, d: Dag, n: NodeId, ghost b: Bits, ghost g0: Graph,
                       ghost processed: set<NodeId>, ghost size: nat)
    returns (max: nat)
    requires d.Valid() && n < |g0.operands|
    requires ReadyToVisit(g0, d.G(), s.types, s.scale, b, processed, n)
    modifies s`scale
    ensures AddLoop(size, g0, d.G(), d.G(), s.types, s.scale, b, processed, n, max, 0)
    ensures forall p: NodeId :: p != n ==> ScaleAt(s.scale, p) == ScaleAt(old(s.scale), p)
  {
    ghost var scale0 := s.scale;
    ReadyFacts(g0, d.G(), s.types, s.scale, b, processed, n);
    hide ReadyToVisit, AddLoop, WellFormed, UsesInverse, SinksMatch, Unblocked, ScaledOperands;
    s.scale := s.scale[n := ScaleAt(s.scale, d.operands[n][0])];
    max := GreatestOperandScale(s, d, n);
    MaxFrame(d.operands[n], scale0, s.scale, max, n);
    AddLoopStart(size, g0, d.G(), s.types, scale0, b, processed, n, ScaleAt(scale0, d.operands[n][0]), max);
  }

  lemma MaxFrame(operands: seq<NodeId>, scale: ScaleMap, scale': ScaleMap, max: nat, n: NodeId)
    requires IsMaxScale(operands, scale', max) && n !in operands
    requires forall p: NodeId :: p != n ==> ScaleAt(scale, p) == ScaleAt(scale', p)
    ensures IsMaxScale(operands, scale, max)
  {
    forall i: nat | i < |operands|
      ensures ScaleAt(scale, operands[i]) == ScaleAt(scale', operands[i])
    {
      assert operands[i] in operands;
    }
  }

  lemma AddLoopFacts(size: nat, g0: Graph, before: Graph, g: Graph, types: TypeMap, scale: ScaleMap, b: Bits,
                     processed: set<NodeId>, n: NodeId, max: nat, i: nat)
    requires AddLoop(size, g0, before, g, types, scale, b, processed, n, max, i) && i < |g.operands[n]|
    ensures WellFormed(g) && Live(g, g.operands[n][i]) && ScaleAt(scale, g.operands[n][i]) <= max
    ensures |g.op| == |g.operands| && |before.op| <= |g.op| && before.op <= g.op && n < |before.op|
      && |g.operands[n]| == |before.operands[n]|
  {
  }

  /** One operand of an addition. */
  method AddOperand(s: EagerWaterlineRescaler, d: Dag, n: NodeId, i: nat, max: nat, ghost b: Bits, ghost g0: Graph,
                    ghost before: Graph, ghost processed: set<NodeId>, ghost size: nat)
    requires d.Valid() && n < |d.operands| && i < |d.operands[n]|
    requires AddLoop(size, g0, before, d.G(), s.types, s.scale, b, processed, n, max, i)
    modifies s`scale, d
    ensures d.Valid() && |d.operands| >= old(|d.operands|) && |d.operands[n]| == old(|d.operands[n]|)
      && old(d.op) <= d.op
    ensures AddLoop(size, g0, before, d.G(), s.types, s.scale, b, processed, n, max, i + 1)
      && UsedKept(old(d.G()), d.G())
    ensures forall p: NodeId :: p < old(|d.operands|) ==> ScaleAt(s.scale, p) == ScaleAt(old(s.scale), p)
  {
    hide AddLoop, WellFormed, UsesInverse, SinksMatch, ScaledUp, Erased, Live, UsedKept, InRange;
    UsedReflexive(d.G());
    AddLoopFacts(size, g0, before, d.G(), s.types, s.scale, b, processed, n, max, i);
    var o := d.operands[n][i];
    ghost var g, scale0, types := d.G(), s.scale, s.types;
    if ScaleAt(s.scale, o) < max && TypeAt(s.types, o) != Raw {
      ScaledUpShape(g, n, o);
      WellFormedRange(g);
      ScaledUpUsed(g, n, i);
      s.ScaleUp(d, n, o, max);
      AddStep(size, g0, before, g, types, scale0, b, processed, n, max, i, d.G(), s.scale);
    } else {
      AddNoStep(size, g0, before, g, types, s.scale, b, processed, n, max, i);
    }
  }

  lemma AddNoStep(size: nat, g0: Graph, before: Graph, g: Graph, types: TypeMap, scale: ScaleMap, b: Bits,
                  processed: set<NodeId>, n: NodeId, max: nat, i: nat)
    requires AddLoop(size, g0, before, g, types, scale, b, processed, n, max, i) && i < |g.operands[n]|
    requires ScaleAt(scale, g.operands[n][i]) == max || TypeAt(types, g.operands[n][i]) == Raw
    ensures AddLoop(size, g0, before, g, types, scale, b, processed, n, max, i + 1)
  {
  }

  // ----- the remaining visits -----

  lemma ChainLocal(g: Graph, processed: set<NodeId>, n: NodeId, amount: nat, k: nat, r: Graph)
    requires Rescaled(r, g, n, amount, k) && n < |g.operands|
    requires forall p: NodeId :: p in processed ==> p < |g.operands|
    ensures LocalRewrite(g, r, processed, n, {})
  {
    forall m: NodeId | m < |g.operands| && n !in g.operands[m]
      ensures r.operands[m] == g.operands[m]
    {
      assert Subst(g.operands[m], n, ChainEnd(g, n, k)) == g.operands[m];
    }
    forall x: NodeId | |g.operands| <= x < |r.operands|
      ensures n in r.operands[x] || !Unblocked(r.operands, processed + {n}, x)
    {
      var j := x - |g.operands|;
      assert r.operands[x] == [ChainEnd(g, n, j)];
      if j > 0 {
        assert r.operands[x][0] !in processed + {n};
      }
    }
  }

  /** The visit of a multiplication that is not raw. */
  method VisitMultiplication(s: EagerWaterlineRescaler, d: Dag, n: NodeId, ghost b: Bits, ghost g0: Graph,
                             ghost processed: set<NodeId>, ghost size: nat)
    requires d.Valid() && b == s.B() && ReadyToVisit(g0, d.G(), s.types, s.scale, b, processed, n)
    requires d.op[n].Mul? && TypeAt(s.types, n) != Raw
    modifies s`scale, s`types, d
    ensures d.Valid() && Acyclic(d.G()) && Refines(size, old(d.G()), d.G())
    ensures ScaleState(g0, d.G(), s.types, s.scale, b, processed + {n})
    ensures LocalRewrite(old(d.G()), d.G(), processed, n, {}) && (IsUsed(old(d.G()), n) ==> UsedKept(old(d.G()), d.G()))
    ensures OldScalesKept(old(|d.operands|), n, old(s.scale), s.scale)
    ensures n >= |g0.operands| ==> |d.operands| == old(|d.operands|)
    ensures forall x: NodeId :: x >= |d.operands| ==> TypeAt(s.types, x) == TypeAt(old(s.types), x)
    ensures forall x: NodeId :: old(|d.operands|) <= x < |d.operands| ==> TypeAt(s.types, x) == TypeAt(old(s.types), n)
    ensures forall x: NodeId :: x < old(|d.operands|) ==> TypeAt(s.types, x) == TypeAt(old(s.types), x)
  {
    hide UsesInverse, SinksMatch, Erased, LocalRewrite, ScaleState, UsedKept, Refines, Drop, Acyclic, WellFormed,
         IsUsed;
    ghost var g, types0, scale0 := d.G(), s.types, s.scale;
    ReadyFacts(g0, g, types0, scale0, b, processed, n);
    NonSourceLive(g, n);
    ReadyFixed(g0, g, types0, scale0, b, processed, n);
    assert s.fixedRescale > 0;
    var sum := s.SumOperands(d, n);
    FirstCounts(d.operands[n], s.scale);
    assert sum != 0;
    s.scale := WithScale(s.scale, n, sum);
    ghost var k := s.RescaleDown(d, n, sum, size);
    MulDone(size, g0, g, types0, scale0, b, processed, n, sum, k, d.G(), s.types, s.scale);
  }

  lemma ReadyFixed(g0: Graph, g: Graph, types: TypeMap, scale: ScaleMap, b: Bits, processed: set<NodeId>, n: NodeId)
    requires ReadyToVisit(g0, g, types, scale, b, processed, n)
    ensures b.fixed > 0 && Acyclic(g)
  {
  }

  lemma FirstCounts(operands: seq<NodeId>, scale: ScaleMap)
    requires operands != [] && ScaleAt(scale, operands[0]) > 0
    ensures SumScale(operands, scale) > 0
  {
  }

  lemma NonSourceLive(g: Graph, n: NodeId)
    requires n < |g.operands| && g.operands[n] != []
    ensures Live(g, n)
  {
  }

  lemma MulDone(size: nat, g0: Graph, g: Graph, types: TypeMap, scale: ScaleMap, b: Bits, processed: set<NodeId>,
                n: NodeId, sum: nat, k: nat, r: Graph, types': TypeMap, scale': ScaleMap)
    requires ReadyToVisit(g0, g, types, scale, b, processed, n) && g.op[n].Mul? && TypeAt(types, n) != Raw
    requires sum == SumScale(g.operands[n], scale)
    requires RescaleState(r, types', scale', g, types, WithScale(scale, n, sum), n, sum, b.fixed, k)
    requires Drop(sum, b.fixed, k) < b.Limit()
    requires forall j: nat :: j < k ==> Drop(sum, b.fixed, j) >= b.Limit()
    ensures Acyclic(r) && Refines(size, g, r) && ScaleState(g0, r, types', scale', b, processed + {n})
    ensures LocalRewrite(g, r, processed, n, {}) && (IsUsed(g, n) ==> UsedKept(g, r))
    ensures |r.operands| == |g.operands| + k && (n >= |g0.operands| ==> k == 0)
    ensures forall x: NodeId :: |g.operands| <= x < |r.operands| ==> TypeAt(types', x) == TypeAt(types, n)
  {
    ReadyFacts(g0, g, types, scale, b, processed, n);
    WellFormedRange(g);
    RescaleChainShape(g, n, b.fixed, k);
    RescaleChainKeeps(size, g, n, b.fixed, k);
    RescaleChainRefines(size, g, n, b.fixed, k);
    if IsUsed(g, n) {
      RescaleChainUsed(g, n, b.fixed, k);
    }
    MulFacts(g0, g, types, scale, b, processed, n, k, r, types', scale');
    MulKeepsState(g0, g, types, scale, b, processed, n, k, r, types', scale');
    ChainLocal(g, processed, n, b.fixed, k, r);
    forall x: NodeId | |g.operands| <= x < |r.operands|
      ensures TypeAt(types', x) == TypeAt(types, n)
    {
      assert x == ChainEnd(g, n, x - |g.operands| + 1);
    }
  }

  ghost predicate NewNotRaw(g0: Graph, types: TypeMap)
  {
    forall x: NodeId :: x >= |g0.operands| ==> TypeAt(types, x) != Raw
  }

  /** The visit of a raw node. */
  method VisitRaw(s: EagerWaterlineRescaler, d: Dag, n: NodeId, ghost b: Bits, ghost g0: Graph,
                  ghost processed: set<NodeId>)
    requires d.Valid() && ReadyToVisit(g0, d.G(), s.types, s.scale, b, processed, n)
    requires n < |g0.operands| && TypeAt(s.types, n) == Raw
    modifies s`scale
    ensures OldScalesKept(|d.operands|, n, old(s.scale), s.scale)
    ensures ScaleState(g0, d.G(), s.types, s.scale, b, processed + {n})
  {
    ghost var scale0 := s.scale;
    ReadyFacts(g0, d.G(), s.types, s.scale, b, processed, n);
    s.HandleRawScale(d, n);
    ghost var max: nat :| IsMaxScale(d.operands[n], scale0, max) && s.scale == scale0[n := max];
    assert ScaleAt(scale0, d.operands[n][0]) > 0;
    ghost var i: nat :| i < |d.operands[n]| && ScaleAt(scale0, d.operands[n][i]) == max;
    OperandIsUniform(g0, d.G(), s.types, scale0, b, processed, n, i);
    SetScaleKeeps(g0, d.G(), s.types, scale0, b, processed, n, max);
  }

  /** The visit of any other node: its scale is that of its operand. */
  method VisitUnary(s: EagerWaterlineRescaler, d: Dag, n: NodeId, ghost b: Bits, ghost g0: Graph,
                    ghost processed: set<NodeId>)
    requires d.Valid() && ReadyToVisit(g0, d.G(), s.types, s.scale, b, processed, n)
    requires n < |g0.operands| && !d.op[n].Mul? && !d.op[n].Add? && !d.op[n].Sub?
    modifies s`scale
    ensures OldScalesKept(|d.operands|, n, old(s.scale), s.scale)
    ensures ScaleState(g0, d.G(), s.types, s.scale, b, processed + {n})
  {
    ghost var scale0 := s.scale;
    ReadyFacts(g0, d.G(), s.types, s.scale, b, processed, n);
    s.scale := s.scale[n := ScaleAt(s.scale, d.operands[n][0])];
    assert d.operands[n][0] != n;
    OperandIsUniform(g0, d.G(), s.types, scale0, b, processed, n, 0);
    SetScaleKeeps(g0, d.G(), s.types, scale0, b, processed, n, ScaleAt(scale0, d.operands[n][0]));
  }

  lemma UnchangedLocal(g: Graph, processed: set<NodeId>, n: NodeId)
    ensures LocalRewrite(g, g, processed, n, {})
  {
  }

  /** The rewriter, eager_waterline_rescaler.cpp:39-100. */
  method Visit(s: EagerWaterlineRescaler, d: Dag, n: NodeId, ghost b: Bits, ghost g0: Graph,
               ghost processed: set<NodeId>, ghost size: nat)
    requires d.Valid() && b == s.B() && NewNotRaw(g0, s.types)
    requires n < |d.operands|
      && (d.operands[n] == [] ==>
      n in d.sources && ScaleState(g0, d.G(), s.types, s.scale, b, processed) && Acyclic(d.G()))
    requires d.operands[n] != [] ==> ReadyToVisit(g0, d.G(), s.types, s.scale, b, processed, n)
    modifies s`scale, s`types, d
    ensures d.Valid() && Acyclic(d.G()) && Refines(size, old(d.G()), d.G())
    ensures ScaleState(g0, d.G(), s.types, s.scale, b, processed + {n}) && NewNotRaw(g0, s.types)
    ensures LocalRewrite(old(d.G()), d.G(), processed, n, {})
    ensures (d.op[n].Mul? && TypeAt(old(s.types), n) != Raw ==> IsUsed(old(d.G()), n)) ==> UsedKept(old(d.G()), d.G())
    ensures OldScalesKept(old(|d.operands|), n, old(s.scale), s.scale)
      && (old(d.operands[n]) == [] ==> s.scale == old(s.scale))
    ensures n >= |g0.operands| ==> |d.operands| == old(|d.operands|)
    ensures forall x: NodeId :: x < old(|d.operands|) ==> TypeAt(s.types, x) == TypeAt(old(s.types), x)
  {
    ghost var g := d.G();
    RefinesReflexive(size, g);
    UsedReflexive(g);
    UnchangedLocal(g, processed, n);
    ScalesUnchanged(|d.operands|, n, s.scale);
    if |d.operands[n]| == 0 {
      SkipKeeps(g0, g, s.types, s.scale, b, processed, n);
      return;
    }
    ReadyOps(g0, g, s.types, s.scale, b, processed, n);
    hide ReadyToVisit, ScaleState, Acyclic, Refines, WellFormed, UsesInverse, SinksMatch, LocalRewrite, UsedKept,
         OldScalesKept;
    if TypeAt(s.types, n) == Raw {
      VisitRaw(s, d, n, b, g0, processed);
    } else if d.op[n].Rescale? {
      SkipKeeps(g0, g, s.types, s.scale, b, processed, n);
    } else if d.op[n].Add? || d.op[n].Sub? {
      VisitAddition(s, d, n, g0, processed, size);
    } else if !d.op[n].Mul? {
      VisitUnary(s, d, n, b, g0, processed);
    } else {
      VisitMultiplication(s, d, n, b, g0, processed, size);
    }
  }

  lemma ReadyOps(g0: Graph, g: Graph, types: TypeMap, scale: ScaleMap, b: Bits, processed: set<NodeId>, n: NodeId)
    requires ReadyToVisit(g0, g, types, scale, b, processed, n)
    ensures ScaleState(g0, g, types, scale, b, processed) && Acyclic(g) && |g.op| == |g.operands| && n < |g.op|
    ensures g.op[n].Rescale? ==> IsScaled(|g0.operands|, g, processed, n)
    ensures !g.op[n].Rescale? && !g.op[n].Mul? ==> n < |g0.operands|
  {
    if n < |g0.operands| {
      assert g.op[n] == g0.op[n];
    }
  }

  // ----- the pass -----

  /** Products that may be rescaled are used. */
  ghost predicate ProductsUsed(g: Graph, types: TypeMap)
  {
    forall n: NodeId :: n < |g.op| && Live(g, n) && g.op[n].Mul? && TypeAt(types, n) != Raw ==> IsUsed(g, n)
  }

  lemma VisitedUsed(g0: Graph, g: Graph, types: TypeMap, n: NodeId)
    requires Grown(g0, g) && UsedKept(g0, g) && ProductsUsed(g0, types) && n < |g.operands| && g.operands[n] != []
    ensures g.op[n].Mul? && TypeAt(types, n) != Raw ==> IsUsed(g, n)
  {
    if n < |g0.operands| {
      assert |g0.operands[n]| == |g.operands[n]|;
      assert Live(g0, n);
    }
  }

  ghost predicate PassInv(size: nat, g0: Graph, g: Graph, types: TypeMap, scale: ScaleMap, b: Bits,
                          processed: set<NodeId>)
  {
    && ScaleState(g0, g, types, scale, b, processed) && Acyclic(g) && Refines(size, g0, g) && NewNotRaw(g0, types)
    && (forall m: NodeId :: m < |g0.op| ==> !g0.op[m].Rescale?)
    && UsedKept(g0, g) && ProductsUsed(g0, types)
  }

  lemma PassVisit(size: nat, g0: Graph, g: Graph, types: TypeMap, scale: ScaleMap, b: Bits, ready: set<NodeId>,
                  processed: set<NodeId>, work: set<NodeId>, n: NodeId)
    requires PassInv(size, g0, g, types, scale, b, processed) && FwdInv(g, ready, processed, work, {})
    requires n < |g.operands| && n in ready && n !in processed && Unblocked(g.operands, processed, n)
    requires g.operands[n] == [] ==> n in g.sources
    ensures NewNotRaw(g0, types) && |g.op| == |g.operands|
    ensures g.operands[n] == [] ==> ScaleState(g0, g, types, scale, b, processed) && Acyclic(g)
    ensures g.operands[n] != [] ==> ReadyToVisit(g0, g, types, scale, b, processed, n)
    ensures Refines(size, g0, g) && forall m: NodeId :: m < |g0.op| ==> !g0.op[m].Rescale?
    ensures UsedKept(g0, g) && ProductsUsed(g0, types) && |g0.op| <= |g.op|
    ensures g.operands[n] != [] && g.op[n].Mul? && TypeAt(types, n) != Raw ==> IsUsed(g, n)
  {
    hide ScaleInv, ScaledClosed, AddedMulsSmall, Acyclic, Refines;
    if g.operands[n] != [] {
      VisitedUsed(g0, g, types, n);
    }
  }

  lemma UsersOf(g: Graph, uses: seq<seq<NodeId>>, n: NodeId)
    requires UsesInverse(g.operands, uses) && n < |g.operands|
    ensures |uses| == |g.operands|
    ensures forall m: NodeId :: m < |g.operands| && n in g.operands[m] ==> m in uses[n]
    ensures forall i: nat :: i < |uses[n]| ==>
      uses[n][i] < |g.operands| && n in g.operands[uses[n][i]] && g.operands[uses[n][i]] != []
  {
    forall m: NodeId
      ensures m in uses[n] <==> m < |g.operands| && n in g.operands[m]
    {
      UsersAreUses(g.operands, uses, n, m);
    }
    forall i: nat | i < |uses[n]|
      ensures uses[n][i] < |g.operands| && n in g.operands[uses[n][i]]
    {
      assert uses[n][i] in uses[n];
    }
  }

  /** What holds of the node that comes next. */
  lemma VisitReady(size: nat, g0: Graph, g: Graph, types: TypeMap, scale: ScaleMap, b: Bits, ready: set<NodeId>,
                   processed: set<NodeId>, work: seq<NodeId>, uses: seq<seq<NodeId>>)
    requires PassInv(size, g0, g, types, scale, b, processed) && FwdInv(g, ready, processed, Elems(work), {})
    requires Frontier(ready, processed, work, {}) && work != [] && UsesInverse(g.operands, uses)
    ensures var n := work[|work|-1];
      && n < |g.operands| == |g.op| == |uses| && n in ready && n !in processed && n !in Elems(work[..|work|-1])
      && Unblocked(g.operands, processed, n) && FwdInv(g, ready, processed, Elems(work[..|work|-1]), {})
      && NewNotRaw(g0, types)
      && (if g.operands[n] == [] then n in g.sources && ScaleState(g0, g, types, scale, b, processed) && Acyclic(g)
          else ReadyToVisit(g0, g, types, scale, b, processed, n))
      && (g.operands[n] != [] && g.op[n].Mul? && TypeAt(types, n) != Raw ==> IsUsed(g, n))
      && (forall m: NodeId :: m < |g.operands| && n in g.operands[m] ==> m in uses[n])
      && forall i: nat :: i < |uses[n]| ==> uses[n][i] < |g.operands| && n in g.operands[uses[n][i]]
  {
    hide PassInv, FwdInv, Frontier, UsesInverse, Unblocked, ReadyToVisit, ScaleState, Acyclic, NewNotRaw,
         ProductsUsed, IsUsed, Elems;
    var n := work[|work|-1];
    FwdPop(g, ready, processed, work, {});
    LastWaits(work);
    FwdReadyNode(g, ready, processed, Elems(work), n);
    PassVisit(size, g0, g, types, scale, b, ready, processed, Elems(work[..|work|-1]), n);
    UsersOf(g, uses, n);
  }

  lemma LastWaits(work: seq<NodeId>)
    requires work != []
    ensures work[|work|-1] in Elems(work)
  {
  }

  /** What a visit did, added to what held before it. */
  lemma VisitDone(size: nat, g0: Graph, g: Graph, types: TypeMap, scale: ScaleMap, b: Bits, processed: set<NodeId>,
                  n: NodeId, r: Graph, types': TypeMap, scale': ScaleMap)
    requires PassInv(size, g0, g, types, scale, b, processed) && n < |g.operands|
    requires Acyclic(r) && Refines(size, g, r) && UsedKept(g, r)
    requires ScaleState(g0, r, types', scale', b, processed + {n}) && NewNotRaw(g0, types')
    requires OldScalesKept(|g.operands|, n, scale, scale') && (g.operands[n] == [] ==> scale' == scale)
    requires forall x: NodeId :: x < |g.operands| ==> TypeAt(types', x) == TypeAt(types, x)
    ensures PassInv(size, g0, r, types', scale', b, processed + {n}) && SourcesKept(g0, scale, scale')
  {
    hide ScaleState, Acyclic, Refines, UsedKept, OldScalesKept, SourcesKept, ProductsUsed;
    SourceScales(size, g0, g, types, scale, b, processed, n, scale');
    PassCounts(size, g0, g, types, scale, b, processed);
    RefinesTransitive(size, g0, g, r);
    UsedTransitive(g0, g, r);
    ProductsStill(g0, types, types', |g.op|);
  }

  lemma PassCounts(size: nat, g0: Graph, g: Graph, types: TypeMap, scale: ScaleMap, b: Bits, processed: set<NodeId>)
    requires PassInv(size, g0, g, types, scale, b, processed)
    ensures |g0.op| <= |g.op| == |g.operands|
  {
  }

  method RescaleStep(d: Dag, s: EagerWaterlineRescaler, t: DagTraversal, ghost b: Bits, ghost g0: Graph,
                     ghost size: nat)
    returns (n: NodeId)
    requires d.Valid() && t.Consistent({}) && t.work != [] && b == s.B()
    requires PassInv(size, g0, d.G(), s.types, s.scale, b, t.processed)
    requires FwdInv(d.G(), t.ready, t.processed, Elems(t.work), {})
    modifies d, s`scale, s`types, t
    ensures d.Valid() && t.Consistent({})
    ensures PassInv(size, g0, d.G(), s.types, s.scale, b, t.processed)
    ensures FwdInv(d.G(), t.ready, t.processed, Elems(t.work), {})
    ensures n < old(|d.operands|) && n !in old(t.processed) && t.processed == old(t.processed) + {n}
    ensures n >= |g0.operands| ==> |d.operands| == old(|d.operands|)
    ensures forall x: NodeId :: x < old(|d.operands|) ==> TypeAt(s.types, x) == TypeAt(old(s.types), x)
    ensures SourcesKept(g0, old(s.scale), s.scale)
  {
    ghost var g, processed, types, scale := d.G(), t.processed, s.types, s.scale;
    VisitReady(size, g0, g, types, scale, b, t.ready, processed, t.work, d.uses);
    n := t.Pop({});
    var cands := d.uses[n];
    Visit(s, d, n, b, g0, processed, size);
    VisitDone(size, g0, g, types, scale, b, processed, n, d.G(), s.types, s.scale);
    FwdFinish(d, t, n, cands, g, processed, {}, {});
  }

  ghost predicate SourcesKept(g0: Graph, scale: ScaleMap, scale': ScaleMap)
  {
    forall s: NodeId :: s in g0.sources ==> ScaleAt(scale', s) == ScaleAt(scale, s)
  }

  lemma SourceScales(size: nat, g0: Graph, g: Graph, types: TypeMap, scale: ScaleMap, b: Bits, processed: set<NodeId>,
                     n: NodeId, scale': ScaleMap)
    requires PassInv(size, g0, g, types, scale, b, processed) && n < |g.operands|
    requires OldScalesKept(|g.operands|, n, scale, scale') && (g.operands[n] == [] ==> scale' == scale)
    ensures SourcesKept(g0, scale, scale')
  {
    forall s: NodeId | s in g0.sources
      ensures ScaleAt(scale', s) == ScaleAt(scale, s)
    {
      assert s in g.sources;
    }
  }

  lemma ProductsStill(g: Graph, types: TypeMap, types': TypeMap, bound: nat)
    requires ProductsUsed(g, types) && |g.op| <= bound
    requires forall n: NodeId :: n < bound ==> TypeAt(types', n) == TypeAt(types, n)
    ensures ProductsUsed(g, types')
  {
  }

  lemma FwdReadyNode(g: Graph, ready: set<NodeId>, processed: set<NodeId>, work: set<NodeId>, n: NodeId)
    requires FwdInv(g, ready, processed, work, {}) && n in work && n < |g.operands|
    ensures g.operands[n] == [] ==> n in g.sources
  {
  }

  // ----- the result -----

  /** Every scale is positive and fits its operands, every inserted rescale stays at or above the
      waterline, and only rescales consume a scale of the limit or more. */
  ghost predicate ScalesFit(g: Graph, types: TypeMap, scale: ScaleMap, b: Bits)
  {
    && |g.op| == |g.operands|
    && (forall p: NodeId :: Live(g, p) ==> ScaleAt(scale, p) > 0 && ScaleRule(g, types, scale, b, p))
    && (forall u: NodeId, i: nat :: u < |g.operands| && i < |g.operands[u]| ==>
          g.op[u].Rescale? || ScaleAt(scale, g.operands[u][i]) < b.Limit())
  }

  lemma PassStart(size: nat, g: Graph, types: TypeMap, scale: ScaleMap, b: Bits)
    requires WellFormed(g) && Acyclic(g) && NewNotRaw(g, types) && b.fixed > 0 && b.waterline > 0
    requires forall s: NodeId :: s in g.sources ==> 0 < ScaleAt(scale, s) <= b.waterline
    requires forall n: NodeId :: n < |g.op| ==> !g.op[n].Rescale?
    requires ProductsUsed(g, types)
    ensures PassInv(size, g, g, types, scale, b, {})
  {
    RefinesReflexive(size, g);
  }

  lemma PassEnd(size: nat, g0: Graph, g: Graph, types: TypeMap, scale: ScaleMap, b: Bits, processed: set<NodeId>)
    requires PassInv(size, g0, g, types, scale, b, processed) && FwdInv(g, processed, processed, {}, {})
    ensures ScalesFit(g, types, scale, b)
  {
    var rank :| Ranked(g, rank);
    forall m: NodeId | Live(g, m)
      ensures IsScaled(|g0.operands|, g, processed, m)
    {
      FwdEnd(g, rank, processed, {}, m);
    }
    forall u: NodeId, i: nat | u < |g.operands| && i < |g.operands[u]|
      ensures g.op[u].Rescale? || ScaleAt(scale, g.operands[u][i]) < b.Limit()
    {
      assert Live(g, g.operands[u][i]);
    }
  }

  lemma PassResult(size: nat, g0: Graph, g: Graph, types: TypeMap, scale: ScaleMap, b: Bits, processed: set<NodeId>)
    requires PassInv(size, g0, g, types, scale, b, processed)
    ensures Refines(size, g0, g) && Acyclic(g) && Grown(g0, g) && NewNotRaw(g0, types) && UsedKept(g0, g)
    ensures RescaleSources(g0, g, types)
  {
  }

  /** The forward pass, iyfc/seal/alo/seal_ckks_handler.cpp:39. */
  method RescaleEagerly(d: Dag, types: TypeMap, scale: ScaleMap, fixed: nat,
                        ghost size: nat) returns (s: EagerWaterlineRescaler)
    requires d.Valid() && Acyclic(d.G()) && NewNotRaw(d.G(), types) && fixed > 0
    requires d.sources != {} && forall s: NodeId :: s in d.sources ==> ScaleAt(scale, s) > 0
    requires ProductsUsed(d.G(), types) && forall n: NodeId :: n < |d.op| ==> !d.op[n].Rescale?
    modifies d
    ensures UsedKept(old(d.G()), d.G())
    ensures fresh(s) && d.Valid() && Acyclic(d.G()) && Refines(size, old(d.G()), d.G()) && Grown(old(d.G()), d.G())
    ensures ScalesFit(d.G(), s.types, s.scale, s.B()) && s.fixedRescale == fixed
    ensures exists n: NodeId :: n in old(d.sources) && ScaleAt(scale, n) == s.minScale
    ensures forall n: NodeId :: n in old(d.sources) ==> ScaleAt(scale, n) <= s.minScale
    ensures SourcesKept(old(d.G()), scale, s.scale)
    ensures NewNotRaw(old(d.G()), s.types) && RescaleSources(old(d.G()), d.G(), s.types)
    ensures UniformStart(old(d.G()), scale, s.B()) ==> UniformResult(old(d.G()), d.G(), s.types, s.scale, s.B())
    ensures forall n: NodeId :: n < old(|d.operands|) ==> TypeAt(s.types, n) == TypeAt(types, n)
  {
    hide PassInv, FwdInv, WellFormed, UsesInverse, SinksMatch, Erased, SourcesKept, UniformStart, UniformResult,
         RescaleSources, Grown, Refines, Acyclic, UsedKept, ProductsUsed, ScalesFit, NewNotRaw;
    ghost var g0 := d.G();
    s := new EagerWaterlineRescaler(d.sources, types, scale, fixed);
    assert s.minScale != 0;
    ghost var b := s.B();
    ghost var minScale := s.minScale;
    SourcesSame(g0, scale);
    PassStart(size, g0, types, scale, b);
    FwdStart(g0, d.sources);
    var t := new DagTraversal();
    t.Begin(d.sources);
    while t.work != []
      invariant d.Valid() && t.Consistent({}) && b == s.B()
      invariant PassInv(size, g0, d.G(), s.types, s.scale, b, t.processed)
      invariant FwdInv(d.G(), t.ready, t.processed, Elems(t.work), {})
      invariant forall n: NodeId :: n < |g0.operands| ==> TypeAt(s.types, n) == TypeAt(types, n)
      invariant SourcesKept(g0, scale, s.scale)
      decreases AllNodes(g0) - t.processed, AllNodes(d.G()) - t.processed
    {
      hide *;
      ghost var before := d.G();
      ghost var scale1 := s.scale;
      PassCount(size, g0, before, s.types, scale1, b, t.processed);
      var n := RescaleStep(d, s, t, b, g0, size);
      SourcesStill(g0, scale, scale1, s.scale);
      NodesShrink(g0, before, d.G(), n);
    }
    assert Elems(t.work) == {} && t.ready == t.processed;
    PassEnd(size, g0, d.G(), s.types, s.scale, b, t.processed);
    if UniformStart(g0, scale, b) {
      UniformEnd(size, g0, d.G(), s.types, scale, s.scale, b, t.processed);
    }
    PassResult(size, g0, d.G(), s.types, s.scale, b, t.processed);
  }

  lemma PassCount(size: nat, g0: Graph, g: Graph, types: TypeMap, scale: ScaleMap, b: Bits, processed: set<NodeId>)
    requires PassInv(size, g0, g, types, scale, b, processed)
    ensures |g0.operands| <= |g.operands|
  {
  }

  lemma SourcesSame(g0: Graph, scale: ScaleMap)
    ensures SourcesKept(g0, scale, scale)
  {
  }

  lemma SourcesStill(g0: Graph, scale: ScaleMap, scale': ScaleMap, scale'': ScaleMap)
    requires SourcesKept(g0, scale, scale') && SourcesKept(g0, scale', scale'')
    ensures SourcesKept(g0, scale, scale'')
  {
  }

  /** With uniform scales only rescales are added, every node is at the uniform scale, and the
      multiplication depth of every node is as before. */
  ghost predicate UniformResult(g0: Graph, g: Graph, types: TypeMap, scale: ScaleMap, b: Bits)
  {
    && (forall p: NodeId :: Live(g, p) ==> AtUniform(g, types, scale, b, p))
    && (forall x: NodeId :: |g0.operands| <= x < |g.op| ==> g.op[x].Rescale?)
    && DepthsKept(g0, g)
  }

  lemma UniformEnd(size: nat, g0: Graph, g: Graph, types: TypeMap, scale0: ScaleMap, scale: ScaleMap, b: Bits,
                   processed: set<NodeId>)
    requires PassInv(size, g0, g, types, scale, b, processed) && FwdInv(g, processed, processed, {}, {})
    requires SourcesKept(g0, scale0, scale) && UniformStart(g0, scale0, b)
    ensures UniformResult(g0, g, types, scale, b)
  {
    UniformStartBack(g0, scale0, scale, b);
    var rank :| Ranked(g, rank);
    hide DepthsKept;
    forall p: NodeId | Live(g, p)
      ensures AtUniform(g, types, scale, b, p)
    {
      FwdEnd(g, rank, processed, {}, p);
      assert IsScaled(|g0.operands|, g, processed, p);
    }
  }

  lemma NodesShrink(g0: Graph, g: Graph, r: Graph, n: NodeId)
    ensures n < |g0.operands| <==> n in AllNodes(g0)
    ensures n < |g.operands| <==> n in AllNodes(g)
    ensures |r.operands| == |g.operands| ==> AllNodes(r) == AllNodes(g)
  {
  }
}
