/** From the labels of a program under construction to the depth that InitDagForDecision finds. */
module ProgramDepths {
  import opened Graphs
  import opened Usage
  import opened Semantics
  import opened Types
  import opened ModSwitchers
  import opened Chains
  import opened CleanNodes
  import opened Reassociation
  import opened Reductions
  import opened OperandScales
  import opened ExpandPass
  import opened DepthBounds
  import opened Labels
  import opened Exprs
  import opened Uniform
  import opened InitDags

  /** What dead-node removal leaves. */
  lemma CleanedIsCleaning(g0: Graph, frozen: set<NodeId>, size: nat, stored: ScaleMap, s: nat, g1: Graph, keys: Keys)
    returns (w: seq<multiset<NodeId>>)
    requires Built(g0, size) && CleanResult(g0, g1) && WellFormed(g1) && Acyclic(g1) && KeysOf(g1, stored, keys)
    requires SourcesAt(g0, stored, s) && s > 0
    ensures Cleaning(g0, frozen, g1, w, keys)
  {
    w := InterpretationExists<multiset<NodeId>>(g1, FlatSem(g1));
    assert UniformKeys(g1, keys) by {
      assert StoredAt(g1, stored, s);
    }
    forall n: NodeId | n < |g1.operands| && g1.operands[n] != [] && !g1.op[n].Output?
      ensures IsUsed(g1, n)
    {
      CleanedIsUsed(g0, g1, n);
    }
    forall n: NodeId | n < |g0.operands|
      ensures g1.operands[n] == g0.operands[n] || g1.operands[n] == []
    {
      assert Live(g0, n);
      if g1.operands[n] != [] {
        assert Live(g1, n);
      }
    }
    hide Interprets, KeysOf, IsUsed, ReachesOutput;
    assert SourceArity(g1);
    forall n: NodeId | n in frozen
      ensures NoNewUse(g0, g1, n)
    {
      forall u: NodeId | u < |g1.operands| && n in g1.operands[u]
        ensures u < |g0.operands| && n in g0.operands[u]
      {
        assert Live(g1, u);
      }
    }
  }

  lemma LabelsFit(g0: Graph, frozen: set<NodeId>, labels: Labelling, g1: Graph, w: seq<multiset<NodeId>>, keys: Keys)
    requires AllLabelled(g0, frozen, labels) && Cleaning(g0, frozen, g1, w, keys) && g1.op == g0.op
    ensures Fits(g1, w, keys, BoundOf(labels))
  {
    hide Cleaning, NeedsBound, NodeFits;
    forall n: NodeId | Live(g1, n) && n < |g1.op| && n < |keys.encrypted| && NeedsBound(g1, keys, n)
      ensures NodeFits(g1.op[n], FlatOf(w, g1.operands[n]), keys, BoundOf(labels), n)
    {
      assert Labelled(g0, frozen, labels, n);
      assert NodeOk(g1, w, keys, labels, n);
    }
  }

  /** The operands that merging leaves are within the labels. */
  lemma MergedProgramFits(g0: Graph, info: Info, size: nat, env: NodeId -> Slots, stored: ScaleMap, s: nat, g1: Graph,
                          g2: Graph, keys: Keys)
    requires Known(g0, size, env, info) && SourcesAt(g0, stored, s) && s > 0
    requires CleanResult(g0, g1) && WellFormed(g1) && Acyclic(g1) && KeysOf(g1, stored, keys)
    requires Reduced(g1, g2) && MergedAll(g1, g2) && WideArity(g2)
    ensures FitsMerged(keys, g2, BoundOf(info.labels))
  {
    hide KeysOf, MergedAll, Interprets;
    var w := CleanedIsCleaning(g0, info.frozen, size, stored, s, g1, keys);
    LabelsFit(g0, info.frozen, info.labels, g1, w, keys);
    CleaningFacts(g0, info.frozen, g1, w, keys);
    forall n: NodeId | Live(g2, n) && g2.operands[n] != []
      ensures g1.operands[n] != []
    {
      assert WideAt(g2, n) && Live(g1, n);
    }
    hide Cleaning, Known, CleanResult, Reduced, WideArity, Fits, FitsMerged;
    MergedFits(g1, g2, w, keys, BoundOf(info.labels));
  }

  /** The depth found is no larger than the labels of the outputs. */
  lemma DepthOfProgram(g0: Graph, info: Info, size: nat, env: NodeId -> Slots, stored: ScaleMap, s: nat, g: Graph,
                       depth: nat, most: nat)
    requires Known(g0, size, env, info) && SourcesAt(g0, stored, s) && s > 0
    requires Prepared(g0, stored, g) && LargestDepth(g, depth)
    requires forall o: NodeId :: o < |g0.op| && o < |info.labels| && g0.op[o].Output? ==> info.labels[o].depth <= most
    ensures depth <= most
  {
    var g1, g2, keys :| PreparedBy(g0, stored, g1, g2, keys, g);
    var v := InterpretationExists<Depth>(g, DepthSem());
    assert DepthsReach(g, v, depth);
    if depth > 0 {
      var o: NodeId :| Live(g, o) && o < |g.op| && g.op[o].Output? && v[o].count == depth;
      OutputDepth(g0, info, size, env, stored, s, g1, g2, keys, g, v, o);
    }
  }

  lemma OutputDepth(g0: Graph, info: Info, size: nat, env: NodeId -> Slots, stored: ScaleMap, s: nat, g1: Graph,
                    g2: Graph, keys: Keys, g: Graph, v: seq<Depth>, o: NodeId)
    requires Known(g0, size, env, info) && SourcesAt(g0, stored, s) && s > 0
    requires PreparedBy(g0, stored, g1, g2, keys, g) && Interprets<Depth>(g, DepthSem(), v)
    requires Live(g, o) && o < |g.op| && g.op[o].Output?
    ensures o < |g0.op| && o < |info.labels| && g0.op[o].Output? && v[o].count <= info.labels[o].depth
  {
    assert g2.op == g0.op && |g2.op| == |g2.operands| && |g.op| == |g.operands|;
    assert o < |g0.op| && Live(g2, o);
    forall n: NodeId | n < |g2.op|
      ensures !g2.op[n].Encode?
    {
      assert IsUserOp(g0.op[n]);
    }
    assert |info.labels| == |g0.op|;
    assert WellFormed(g1) && WellFormed(g2);
    hide Known, CleanResult, Reduced, MergedAll, KeysOf, Interprets, WideArity, AllBalanced, WellFormed, FitsMerged,
         BoundOf;
    MergedProgramFits(g0, info, size, env, stored, s, g1, g2, keys);
    var rank :| Ranked(g2, rank);
    DepthOfMerged(keys, g2, rank, g, stored, v, BoundOf(info.labels), o);
    BoundIs(info.labels, o);
  }

  lemma BoundIs(labels: Labelling, n: NodeId)
    requires n < |labels|
    ensures BoundOf(labels)(n) == labels[n].depth
  {
  }
}
