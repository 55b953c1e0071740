/** The uniform-scale setting: when every source starts at the rescale divisor, the rescaler puts
    exactly one rescale behind every encrypted product, so the longest rescale chain is the
    multiplication depth of the program. */
module Uniform {
  import opened Graphs
  import opened Semantics
  import opened Types
  import opened ModSwitchers
  import opened RescaleSpec
  import opened Chains
  import opened ChainLevels
  import Rescaling = RescalePass
  import Relinearizing = RelinPass

  /** Every source has scale s. */
  ghost predicate SourcesAt(g: Graph, scale: ScaleMap, s: nat)
  {
    forall n: NodeId :: n in g.sources ==> ScaleAt(scale, n) == s
  }

  /** Every node is at scale s, except encrypted products, which may be at twice that. */
  ghost predicate UniformGraph(g: Graph, types: TypeMap, scale: ScaleMap, s: nat)
  {
    forall p: NodeId :: Live(g, p) && p < |g.op| ==>
      ScaleAt(scale, p) == s || (g.op[p].Mul? && TypeAt(types, p) == Cipher && ScaleAt(scale, p) == 2 * s)
  }

  /** What the rescaler leaves behind, as far as chains and depths are concerned. */
  ghost predicate UniformlyRescaled(g: Graph, types: TypeMap, scale: ScaleMap, s: nat)
  {
    && s > 0 && WellFormed(g) && Typed(g, types) && SourceArity(g) && Arity(g)
    && UniformGraph(g, types, scale, s) && Rescaling.ScalesFit(g, types, scale, Bits(s, s))
    && RescalesCipher(g, types) && forall n: NodeId :: n < |g.op| ==> !g.op[n].Encode?
  }

  /** The multiplication depth of a node from its rescale chain: a product not yet rescaled is one ahead. */
  function Ahead(scale: ScaleMap, s: nat, n: NodeId): nat
  {
    if ScaleAt(scale, n) == s then 0 else 1
  }

  predicate ChainMatches(types: TypeMap, scale: ScaleMap, s: nat, chain: nat, depth: Depth, n: NodeId)
  {
    depth.cipher == (TypeAt(types, n) == Cipher) && depth.count == chain + Ahead(scale, s, n)
  }

  predicate OperandMatches(g: Graph, types: TypeMap, scale: ScaleMap, s: nat, c: seq<nat>, v: seq<Depth>, n: NodeId,
                           i: nat)
    requires n < |g.operands| && i < |g.operands[n]|
  {
    var p := g.operands[n][i];
    p < |c| && p < |v| && ChainMatches(types, scale, s, c[p], v[p], p)
  }

  /** The chain of every node is its multiplication depth. */
  lemma {:induction false} ChainIsDepth(g: Graph, rank: seq<nat>, types: TypeMap, scale: ScaleMap, s: nat,
                                        c: seq<nat>, v: seq<Depth>, n: NodeId)
    requires UniformlyRescaled(g, types, scale, s) && Ranked(g, rank) && Live(g, n)
    requires Interprets<nat>(g, ChainSem(), c) && Interprets<Depth>(g, DepthSem(), v)
    ensures n < |c| && n < |v| && ChainMatches(types, scale, s, c[n], v[n], n)
    decreases rank[n]
  {
    hide UniformlyRescaled, ChainMatches, Interprets;
    NodeShape(g, types, scale, s, c, v, n);
    forall i: nat | i < |g.operands[n]|
      ensures OperandMatches(g, types, scale, s, c, v, n, i)
    {
      OperandLive(g, types, scale, s, n, i);
      ChainIsDepth(g, rank, types, scale, s, c, v, g.operands[n][i]);
    }
    NodeMatches(g, types, scale, s, c, v, n);
  }

  lemma NodeShape(g: Graph, types: TypeMap, scale: ScaleMap, s: nat, c: seq<nat>, v: seq<Depth>, n: NodeId)
    requires UniformlyRescaled(g, types, scale, s) && Live(g, n)
    requires Interprets<nat>(g, ChainSem(), c) && Interprets<Depth>(g, DepthSem(), v)
    ensures n < |g.operands| == |c| == |v| && |g.op| == |g.operands|
  {
  }

  lemma OperandLive(g: Graph, types: TypeMap, scale: ScaleMap, s: nat, n: NodeId, i: nat)
    requires UniformlyRescaled(g, types, scale, s) && n < |g.operands| && i < |g.operands[n]|
    ensures Live(g, g.operands[n][i])
  {
  }

  lemma NodeMatches(g: Graph, types: TypeMap, scale: ScaleMap, s: nat, c: seq<nat>, v: seq<Depth>, n: NodeId)
    requires UniformlyRescaled(g, types, scale, s) && Live(g, n)
    requires Interprets<nat>(g, ChainSem(), c) && Interprets<Depth>(g, DepthSem(), v)
    requires forall i: nat :: i < |g.operands[n]| ==> OperandMatches(g, types, scale, s, c, v, n, i)
    ensures n < |c| && n < |v| && ChainMatches(types, scale, s, c[n], v[n], n)
  {
    NodeShape(g, types, scale, s, c, v, n);
    OperandBounds(g, types, scale, s, c, v, n);
    var cs, ds := Args<nat>(g, c, n), Args<Depth>(g, v, n);
    assert c[n] == ChainOf(g.op[n], cs) && v[n] == DepthOf(g.op[n], ds);
    hide UniformlyRescaled, Interprets, ChainOf, DepthOf;
    FlagsAgree(g, types, scale, s, v, n, ds);
    CountsAgree(g, types, scale, s, c, v, n, cs, ds);
  }

  lemma OperandBounds(g: Graph, types: TypeMap, scale: ScaleMap, s: nat, c: seq<nat>, v: seq<Depth>, n: NodeId)
    requires n < |g.operands|
    requires forall i: nat :: i < |g.operands[n]| ==> OperandMatches(g, types, scale, s, c, v, n, i)
    ensures forall i: nat :: i < |g.operands[n]| ==> g.operands[n][i] < |c| && g.operands[n][i] < |v|
    ensures forall i: nat :: i < |g.operands[n]| ==>
      v[g.operands[n][i]].cipher == (TypeAt(types, g.operands[n][i]) == Cipher)
  {
    forall i: nat | i < |g.operands[n]|
      ensures g.operands[n][i] < |c| && g.operands[n][i] < |v|
      ensures v[g.operands[n][i]].cipher == (TypeAt(types, g.operands[n][i]) == Cipher)
    {
      assert OperandMatches(g, types, scale, s, c, v, n, i);
    }
  }

  lemma FlagsAgree(g: Graph, types: TypeMap, scale: ScaleMap, s: nat, v: seq<Depth>, n: NodeId, ds: seq<Depth>)
    requires UniformlyRescaled(g, types, scale, s) && Live(g, n) && |v| == |g.operands| && |ds| == |g.operands[n]|
    requires forall i: nat :: i < |ds| ==> g.operands[n][i] < |v| && ds[i] == v[g.operands[n][i]]
    requires forall i: nat :: i < |ds| ==> ds[i].cipher == (TypeAt(types, g.operands[n][i]) == Cipher)
    ensures DepthOf(g.op[n], ds).cipher == (TypeAt(types, n) == Cipher)
    ensures true in Flagged(ds) <==> HasCipherOperand(g, types, n)
  {
    assert TypeAt(types, n) == Inferred(g, types, n);
    if HasCipherOperand(g, types, n) {
      var i: nat :| i < |g.operands[n]| && TypeAt(types, g.operands[n][i]) == Cipher;
      assert Flagged(ds)[i];
    }
  }

  /** The operands of a product are at scale s, that of a rescale at twice that, and all others at
      the scale of the node unless they are raw. */
  lemma OperandScale(g: Graph, types: TypeMap, scale: ScaleMap, s: nat, n: NodeId, i: nat)
    requires UniformlyRescaled(g, types, scale, s) && Live(g, n) && i < |g.operands[n]|
    ensures ScaleAt(scale, g.operands[n][i]) == if g.op[n].Rescale? then 2 * s else s
    ensures ScaleAt(scale, n) == if g.op[n].Mul? && TypeAt(types, n) == Cipher then 2 * s else s
  {
    NodeScale(g, types, scale, s, n);
    if g.op[n].Mul? {
      ProductScale(g, types, scale, s, n);
    } else if g.op[n].Rescale? {
      RescaledScale(g, types, scale, s, n, i);
    } else {
      RawOrSame(g, types, scale, s, n, i);
    }
  }

  lemma NodeScale(g: Graph, types: TypeMap, scale: ScaleMap, s: nat, n: NodeId)
    requires UniformlyRescaled(g, types, scale, s) && Live(g, n)
    ensures ScaleAt(scale, n) == s || (g.op[n].Mul? && TypeAt(types, n) == Cipher && ScaleAt(scale, n) == 2 * s)
  {
  }

  lemma RescaledScale(g: Graph, types: TypeMap, scale: ScaleMap, s: nat, n: NodeId, i: nat)
    requires UniformlyRescaled(g, types, scale, s) && Live(g, n) && i < |g.operands[n]| && g.op[n].Rescale?
    ensures ScaleAt(scale, g.operands[n][i]) == ScaleAt(scale, n) + s
  {
    hide Typed, UniformGraph, RescalesCipher, OperandsMeet, SumScale, WellFormed;
    assert |g.operands[n]| == 1;
    assert ScaleRule(g, types, scale, Bits(s, s), n);
  }

  lemma ProductScale(g: Graph, types: TypeMap, scale: ScaleMap, s: nat, n: NodeId)
    requires UniformlyRescaled(g, types, scale, s) && Live(g, n) && g.op[n].Mul? && g.operands[n] != []
    ensures forall i: nat :: i < |g.operands[n]| ==> ScaleAt(scale, g.operands[n][i]) == s
    ensures ScaleAt(scale, n) == if TypeAt(types, n) == Cipher then 2 * s else s
  {
    var a, b := g.operands[n][0], g.operands[n][1];
    ProductOperands(g, types, scale, s, n);
    if TypeAt(types, n) == Cipher {
      hide UniformlyRescaled, Live;
      SumOfTwo(a, b, scale);
    }
  }

  lemma ProductOperands(g: Graph, types: TypeMap, scale: ScaleMap, s: nat, n: NodeId)
    requires UniformlyRescaled(g, types, scale, s) && Live(g, n) && g.op[n].Mul? && g.operands[n] != []
    ensures |g.operands[n]| == 2 && forall i: nat :: i < |g.operands[n]| ==> ScaleAt(scale, g.operands[n][i]) == s
    ensures if TypeAt(types, n) == Cipher then ScaleAt(scale, n) == SumScale(g.operands[n], scale)
      else ScaleAt(scale, n) == s
  {
    hide SumScale;
    assert ScaleRule(g, types, scale, Bits(s, s), n);
    assert TypeAt(types, n) == Inferred(g, types, n);
    assert Live(g, g.operands[n][0]) && Live(g, g.operands[n][1]);
    if TypeAt(types, n) != Cipher {
      assert TypeAt(types, g.operands[n][0]) != Cipher && TypeAt(types, g.operands[n][1]) != Cipher;
    }
  }

  lemma SumOfTwo(a: NodeId, b: NodeId, scale: ScaleMap)
    ensures SumScale([a, b], scale) == ScaleAt(scale, a) + ScaleAt(scale, b)
  {
    assert [a, b][1..] == [b] && [b][1..] == [];
    assert SumScale([], scale) == 0 && SumScale([b], scale) == ScaleAt(scale, b);
  }

  lemma RawOrSame(g: Graph, types: TypeMap, scale: ScaleMap, s: nat, n: NodeId, i: nat)
    requires UniformlyRescaled(g, types, scale, s) && Live(g, n) && i < |g.operands[n]| && !g.op[n].Mul?
      && !g.op[n].Rescale?
    ensures ScaleAt(scale, g.operands[n][i]) == s
  {
    assert ScaleRule(g, types, scale, Bits(s, s), n);
    assert TypeAt(types, n) == Inferred(g, types, n);
    assert Live(g, g.operands[n][i]);
    if TypeAt(types, n) == Raw {
      assert TypeAt(types, g.operands[n][i]) != Cipher;
    } else if IsBinaryOp(g.op[n]) {
      assert OperandsMeet(g, types, scale, n);
    } else {
      assert |g.operands[n]| == 1;
    }
  }

  lemma CountsAgree(g: Graph, types: TypeMap, scale: ScaleMap, s: nat, c: seq<nat>, v: seq<Depth>, n: NodeId,
                    cs: seq<nat>, ds: seq<Depth>)
    requires UniformlyRescaled(g, types, scale, s) && Live(g, n) && |c| == |v| == |g.operands|
    requires forall i: nat :: i < |g.operands[n]| ==> g.operands[n][i] < |c|
    requires cs == Args<nat>(g, c, n) && ds == Args<Depth>(g, v, n)
    requires forall i: nat :: i < |cs| ==> OperandMatches(g, types, scale, s, c, v, n, i)
    requires true in Flagged(ds) <==> HasCipherOperand(g, types, n)
    ensures DepthOf(g.op[n], ds).count == ChainOf(g.op[n], cs) + Ahead(scale, s, n)
  {
    hide UniformlyRescaled, Interprets;
    if g.operands[n] == [] {
      SourceScale(g, types, scale, s, n);
      assert Counts(ds) == [];
    } else {
      CipherOperands(g, types, scale, s, n);
      OperandScale(g, types, scale, s, n, 0);
      forall i: nat | i < |cs|
        ensures ds[i].count == cs[i] + if g.op[n].Rescale? then 1 else 0
      {
        OperandScale(g, types, scale, s, n, i);
        assert OperandMatches(g, types, scale, s, c, v, n, i);
      }
      if g.op[n].Rescale? {
        MaxIs(cs, cs[0]);
        assert Counts(ds)[0] == ds[0].count && Counts(ds) == [ds[0].count];
        MaxIs(Counts(ds), ds[0].count);
      } else {
        assert Counts(ds) == cs;
      }
    }
  }

  lemma CipherOperands(g: Graph, types: TypeMap, scale: ScaleMap, s: nat, n: NodeId)
    requires UniformlyRescaled(g, types, scale, s) && Live(g, n) && g.operands[n] != []
    ensures HasCipherOperand(g, types, n) <==> TypeAt(types, n) == Cipher
    ensures g.op[n].Rescale? ==> |g.operands[n]| == 1
    ensures |g.op| == |g.operands| && s > 0
  {
    assert TypeAt(types, n) == Inferred(g, types, n);
  }

  lemma SourceScale(g: Graph, types: TypeMap, scale: ScaleMap, s: nat, n: NodeId)
    requires UniformlyRescaled(g, types, scale, s) && Live(g, n) && g.operands[n] == []
    ensures ScaleAt(scale, n) == s && !g.op[n].Mul? && !g.op[n].Rescale?
  {
  }

  // ----- the largest depth -----

  /** depth is the largest multiplication depth of an output. */
  ghost predicate LargestDepth(g: Graph, depth: nat)
  {
    forall v: seq<Depth> :: Interprets<Depth>(g, DepthSem(), v) ==> DepthsReach(g, v, depth)
  }

  ghost predicate DepthsReach(g: Graph, v: seq<Depth>, depth: nat)
    requires |v| == |g.operands|
  {
    && (forall o: NodeId :: Live(g, o) && o < |g.op| && g.op[o].Output? ==> v[o].count <= depth)
    && (depth == 0 || exists o: NodeId :: Live(g, o) && o < |g.op| && g.op[o].Output? && v[o].count == depth)
  }

  lemma LargestDepthUnique(g: Graph, a: nat, b: nat)
    requires WellFormed(g) && Acyclic(g) && LargestDepth(g, a) && LargestDepth(g, b)
    ensures a == b
  {
    var v: seq<Depth> := InterpretationExists<Depth>(g, DepthSem());
    assert DepthsReach(g, v, a) && DepthsReach(g, v, b);
  }

  /** The longest chain of the compiled graph r is the multiplication depth of the program g, when
      the graph m after the rescaler is uniform. */
  lemma ChainsReachDepth(g: Graph, m: Graph, r: Graph, types: TypeMap, scale: ScaleMap, s: nat, max: nat)
    requires UniformlyRescaled(m, types, scale, s) && Acyclic(m)
    requires DepthsKept(g, m) && ChainsKept(m, r) && LongestChain(r, max)
    requires SameEnds(g, m) && SameEnds(m, r)
    ensures LargestDepth(g, max)
  {
    hide UniformlyRescaled, SameEnds, ChainsReach, DepthsReach;
    RescaledShape(m, types, scale, s);
    var c: seq<nat> := InterpretationExists<nat>(m, ChainSem());
    var c' :| Interprets<nat>(r, ChainSem(), c') && c <= c';
    assert ChainsReach(r, c', max);
    forall v: seq<Depth> | Interprets<Depth>(g, DepthSem(), v)
      ensures DepthsReach(g, v, max)
    {
      var v' :| Interprets<Depth>(m, DepthSem(), v') && v <= v';
      OutputChains(m, types, scale, s, c, v');
      SameReach(g, m, r, c, c', v, v', max);
    }
  }

  lemma RescaledShape(g: Graph, types: TypeMap, scale: ScaleMap, s: nat)
    requires UniformlyRescaled(g, types, scale, s)
    ensures WellFormed(g) && |g.op| == |g.operands|
  {
  }

  lemma OutputChains(g: Graph, types: TypeMap, scale: ScaleMap, s: nat, c: seq<nat>, v: seq<Depth>)
    requires UniformlyRescaled(g, types, scale, s) && Acyclic(g) && |g.op| == |g.operands|
    requires Interprets<nat>(g, ChainSem(), c) && Interprets<Depth>(g, DepthSem(), v)
    ensures forall o: NodeId :: Live(g, o) && g.op[o].Output? ==> v[o].count == c[o]
  {
    var rank :| Ranked(g, rank);
    forall o: NodeId | Live(g, o) && g.op[o].Output?
      ensures v[o].count == c[o]
    {
      ChainIsDepth(g, rank, types, scale, s, c, v, o);
      OutputScale(g, types, scale, s, o);
    }
  }

  lemma OutputScale(g: Graph, types: TypeMap, scale: ScaleMap, s: nat, o: NodeId)
    requires UniformlyRescaled(g, types, scale, s) && Live(g, o) && g.op[o].Output?
    ensures ScaleAt(scale, o) == s
  {
  }

  lemma SameReach(g: Graph, m: Graph, r: Graph, c: seq<nat>, c': seq<nat>, v: seq<Depth>, v': seq<Depth>, max: nat)
    requires SameEnds(g, m) && SameEnds(m, r) && |c| == |v'| == |m.operands| && |c'| == |r.operands|
      && |v| == |g.operands|
    requires c <= c' && v <= v' && ChainsReach(r, c', max)
    requires forall o: NodeId :: Live(m, o) && o < |m.op| && m.op[o].Output? ==> v'[o].count == c[o]
    ensures DepthsReach(g, v, max)
  {
    forall o: NodeId | Live(g, o) && o < |g.op| && g.op[o].Output?
      ensures v[o].count <= max
    {
      assert Live(m, o) && m.op[o].Output? && Live(r, o) && r.op[o].Output?;
      assert c'[o] == c[o] && v'[o] == v[o];
    }
    if max != 0 {
      var o: NodeId :| Live(r, o) && o < |r.op| && r.op[o].Output? && c'[o] == max;
      assert Live(m, o) && Live(g, o);
      assert c'[o] == c[o] && v'[o] == v[o];
    }
  }
}
