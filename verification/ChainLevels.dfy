/** The longest rescale chain of an output is the maximum level: the prime chain chosen from the
    first is exactly as long as the levels given out by the mod switcher need. */
module ChainLevels {
  import opened Graphs
  import opened Usage
  import opened Traversals
  import opened Semantics
  import opened Types
  import opened Chains
  import opened Threads
  import opened Stages
  import opened ModSwitchSpec
  import opened ModSwitchers
  import opened ModSwitchPass
  import opened Levels
  import Relinearizing = RelinPass
  import Rescaling = RescalePass

  /** Only ciphertexts are rescaled. */
  ghost predicate RescalesCipher(g: Graph, types: TypeMap)
  {
    forall n: NodeId :: Live(g, n) && n < |g.op| && g.op[n].Rescale? ==> TypeAt(types, n) == Cipher
  }

  /** All rescales divide by the same amount. */
  ghost predicate RescalesBy(g: Graph, fixed: nat)
  {
    forall n: NodeId :: Live(g, n) && n < |g.op| && g.op[n].Rescale? ==> g.op[n].divisor == fixed
  }

  ghost predicate DivisorsPositive(g: Graph)
  {
    forall n: NodeId :: Live(g, n) && n < |g.op| && g.op[n].Rescale? ==> g.op[n].divisor != 0
  }

  lemma PositiveDivisors(g: Graph, fixed: nat)
    requires RescalesBy(g, fixed) && fixed > 0
    ensures DivisorsPositive(g)
  {
  }

  lemma RescalesStayBy(g: Graph, r: Graph, fixed: nat)
    requires RescalesBy(g, fixed) && |g.op| == |g.operands| && g.op <= r.op
    requires forall n: NodeId :: n < |g.operands| && Live(r, n) ==> Live(g, n)
    requires forall x: NodeId :: |g.op| <= x < |r.op| ==> !r.op[x].Rescale?
    ensures RescalesBy(r, fixed)
  {
    forall n: NodeId | Live(r, n) && n < |r.op| && r.op[n].Rescale?
      ensures r.op[n].divisor == fixed
    {
      assert n < |g.op| && g.op[n] == r.op[n];
    }
  }

  lemma RescalesStayCipher(size: nat, g: Graph, types: TypeMap, r: Graph, types': TypeMap)
    requires WellFormed(g) && SourceArity(g) && Typed(g, types) && RescalesCipher(g, types)
    requires WellFormed(r) && SourceArity(r) && Typed(r, types') && Acyclic(r) && Refines(size, g, r) && Grows(g, r)
    requires forall x: NodeId :: |g.op| <= x < |r.op| ==> !r.op[x].Rescale?
    ensures RescalesCipher(r, types')
  {
    forall n: NodeId | Live(r, n) && n < |r.op| && r.op[n].Rescale?
      ensures TypeAt(types', n) == Cipher
    {
      GrowsLive(g, r, n);
      TypesKept(size, g, types, r, types', n);
    }
  }

  /** After the rescaler every rescale stands on a ciphertext. */
  lemma {:induction false} RescaleIsCipher(g: Graph, r: Graph, rank: seq<nat>, left: TypeMap, types: TypeMap, x: NodeId)
    requires WellFormed(r) && Ranked(r, rank) && Typed(r, types) && Arity(r)
    requires |g.op| == |g.operands| <= |r.operands| && g.op <= r.op && Rescaling.RescaleSources(g, r, left)
    requires forall n: NodeId :: n < |g.op| ==> !g.op[n].Rescale?
    requires forall p: NodeId :: p < |g.operands| && Live(r, p) && r.op[p].Mul? && TypeAt(left, p) != Raw ==>
      TypeAt(types, p) == Cipher
    requires Live(r, x) && r.op[x].Rescale?
    ensures TypeAt(types, x) == Cipher
    decreases rank[x]
  {
    assert forall n: NodeId :: n < |g.op| ==> r.op[n] == g.op[n];
    assert |r.operands[x]| == 1;
    var p := r.operands[x][0];
    assert Live(r, r.operands[x][0]) && Rescaling.IsRescaledNode(g, r, left, p);
    if p >= |g.operands| {
      RescaleIsCipher(g, r, rank, left, types, p);
    }
    assert HasCipherOperand(r, types, x);
  }

  // ----- non-ciphertexts have no chain -----

  lemma {:induction false} NoChain(g: Graph, rank: seq<nat>, types: TypeMap, c: seq<nat>, n: NodeId)
    requires WellFormed(g) && Ranked(g, rank) && Typed(g, types) && Interprets<nat>(g, ChainSem(), c)
    requires RescalesCipher(g, types) && Relinearizing.EncodesRaw(g, types)
    requires Live(g, n) && TypeAt(types, n) != Cipher
    ensures c[n] == 0
    decreases rank[n]
  {
    forall i: nat | i < |g.operands[n]|
      ensures Args<nat>(g, c, n)[i] == 0
    {
      assert Live(g, g.operands[n][i]);
      assert TypeAt(types, g.operands[n][i]) != Cipher by {
        assert TypeAt(types, n) == Inferred(g, types, n);
      }
      NoChain(g, rank, types, c, g.operands[n][i]);
    }
    assert c[n] == ChainOf(g.op[n], Args<nat>(g, c, n));
    MaxIs(Args<nat>(g, c, n), 0);
  }

  // ----- no chain is longer than the maximum level -----

  lemma MaxAtMost(xs: seq<nat>, bound: nat)
    requires forall i: nat :: i < |xs| ==> xs[i] <= bound
    ensures MaxOf(xs) <= bound
  {
  }

  lemma {:induction false} ChainWithinLevel(g: Graph, rank: seq<nat>, types: TypeMap, level: LevelMap, max: nat,
                                            c: seq<nat>, n: NodeId)
    requires WellFormed(g) && Ranked(g, rank) && SourceArity(g) && Typed(g, types) && EdgesLevelled(g, types, level)
    requires IsMaxSourceLevel(g.sources, level, max) && Interprets<nat>(g, ChainSem(), c)
    requires RescalesCipher(g, types) && Relinearizing.EncodesRaw(g, types)
    requires Live(g, n) && TypeAt(types, n) == Cipher
    ensures c[n] + LevelAt(level, n) <= max + if g.op[n].Rescale? then 1 else 0
    decreases rank[n]
  {
    CipherLevelBounded(g, rank, types, level, max, n);
    var args := Args<nat>(g, c, n);
    forall i: nat | i < |g.operands[n]|
      ensures args[i] <= max - LevelAt(level, n)
    {
      var p := g.operands[n][i];
      assert Live(g, g.operands[n][i]);
      if TypeAt(types, p) == Cipher {
        ChainWithinLevel(g, rank, types, level, max, c, p);
        assert EdgeLevel(g, level, n, g.operands[n][i]);
      } else {
        NoChain(g, rank, types, c, p);
      }
    }
    MaxAtMost(args, max - LevelAt(level, n));
    assert c[n] == ChainOf(g.op[n], args);
  }

  // ----- some chain is as long -----

  /** The types left behind by the mod switcher lack those of the nodes it has inserted. */
  ghost predicate SameButSwitches(g: Graph, left: TypeMap, types: TypeMap)
  {
    forall n: NodeId :: Live(g, n) && n < |g.op| && !g.op[n].ModSwitch? ==> TypeAt(left, n) == TypeAt(types, n)
  }

  /** A use of p that is not a mod-switch, at p's level. */
  lemma DirectUse(g: Graph, types: TypeMap, left: TypeMap, level: LevelMap, p: NodeId) returns (u: NodeId, i: nat)
    requires WellFormed(g) && DirectlyUsed(g, left, level) && SameButSwitches(g, left, types)
    requires Live(g, p) && TypeAt(types, p) != Raw && !g.op[p].ModSwitch? && IsUsed(g, p)
    ensures u < |g.operands| && i < |g.operands[u]| && g.operands[u][i] == p && !g.op[u].ModSwitch?
      && EdgeLevel(g, level, u, p)
  {
    u, i := UserOf(g, p);
    assert u in Users(g, p);
    u :| u in Users(g, p) && !g.op[u].ModSwitch? && EdgeLevel(g, level, u, p);
    i :| i < |g.operands[u]| && g.operands[u][i] == p;
  }

  lemma ChainGrows(g: Graph, c: seq<nat>, u: NodeId, i: nat)
    requires Interprets<nat>(g, ChainSem(), c) && u < |g.operands| && i < |g.operands[u]|
    ensures Live(g, u) && g.operands[u][i] < |c| && c[u] >= c[g.operands[u][i]] + if g.op[u].Rescale? then 1 else 0
  {
    assert Live(g, u) && Live(g, g.operands[u][i]);
    assert c[u] == ChainOf(g.op[u], Args<nat>(g, c, u));
    assert Args<nat>(g, c, u)[i] == c[g.operands[u][i]];
  }

  /** Following direct uses from p, the chain grows by p's level until an output is reached. */
  lemma {:induction false} ChainReachesOutput(g: Graph, rank: seq<nat>, types: TypeMap, left: TypeMap,
                                              level: LevelMap, c: seq<nat>, p: NodeId)
    returns (o: NodeId)
    requires WellFormed(g) && Ranked(g, rank) && Typed(g, types) && DirectlyUsed(g, left, level)
      && SameButSwitches(g, left, types)
    requires Interprets<nat>(g, ChainSem(), c) && Levelled(g, left, level)
    requires Relinearizing.CiphersUsed(g, types) && Relinearizing.EncodesRaw(g, types)
    requires Live(g, p) && TypeAt(types, p) == Cipher && !g.op[p].ModSwitch? && (g.op[p].Output? || IsUsed(g, p))
    ensures Live(g, o) && g.op[o].Output? && c[o] + (if g.op[p].Rescale? then 1 else 0) >= c[p] + LevelAt(level, p)
    decreases Top(rank) - rank[p]
  {
    if !IsUsed(g, p) {
      assert Users(g, p) == {};
      o := p;
    } else {
      var u, i := DirectUse(g, types, left, level, p);
      ChainGrows(g, c, u, i);
      UserIsCipher(g, types, u, i);
      assert rank[g.operands[u][i]] < rank[u];
      o := ChainReachesOutput(g, rank, types, left, level, c, u);
    }
  }

  lemma UserIsCipher(g: Graph, types: TypeMap, u: NodeId, i: nat)
    requires Typed(g, types) && Live(g, u) && i < |g.operands[u]| && TypeAt(types, g.operands[u][i]) == Cipher
    requires Relinearizing.CiphersUsed(g, types) && Relinearizing.EncodesRaw(g, types)
    ensures TypeAt(types, u) == Cipher && (g.op[u].Output? || IsUsed(g, u))
  {
    assert TypeAt(types, u) == Inferred(g, types, u);
    assert HasCipherOperand(g, types, u);
  }

  /** The longest chain of an output is the maximum level. */
  ghost predicate LongestChain(g: Graph, max: nat)
  {
    forall c: seq<nat> :: Interprets<nat>(g, ChainSem(), c) ==> ChainsReach(g, c, max)
  }

  ghost predicate ChainsReach(g: Graph, c: seq<nat>, max: nat)
    requires |c| == |g.operands|
  {
    && (forall o: NodeId :: Live(g, o) && o < |g.op| && g.op[o].Output? ==> c[o] <= max)
    && (max == 0 || exists o: NodeId :: Live(g, o) && o < |g.op| && g.op[o].Output? && c[o] == max)
  }

  /** Everything the argument needs to know of a graph after mod-switching. */
  ghost predicate AfterSwitches(g: Graph, types: TypeMap, left: TypeMap, level: LevelMap, max: nat)
  {
    && WellFormed(g) && Acyclic(g) && SourceArity(g) && Typed(g, types)
    && EdgesLevelled(g, types, level) && Levelled(g, left, level) && DirectlyUsed(g, left, level)
         && SameButSwitches(g, left, types)
    && IsMaxSourceLevel(g.sources, level, max)
    && RescalesCipher(g, types) && Relinearizing.EncodesRaw(g, types) && Relinearizing.CiphersUsed(g, types)
    && forall n: NodeId :: n < |g.op| && n < |g.operands| && g.op[n].Output? ==> LevelAt(level, n) == 0
  }

  lemma OutputChain(g: Graph, rank: seq<nat>, types: TypeMap, left: TypeMap, level: LevelMap, max: nat, c: seq<nat>,
                    o: NodeId)
    requires AfterSwitches(g, types, left, level, max) && Ranked(g, rank) && Interprets<nat>(g, ChainSem(), c)
    requires Live(g, o) && g.op[o].Output?
    ensures c[o] <= max
  {
    if TypeAt(types, o) == Cipher {
      ChainWithinLevel(g, rank, types, level, max, c, o);
    } else {
      NoChain(g, rank, types, c, o);
    }
  }

  lemma DeepSource(g: Graph, types: TypeMap, left: TypeMap, level: LevelMap, max: nat) returns (s: NodeId)
    requires AfterSwitches(g, types, left, level, max) && max > 0
    ensures Live(g, s) && TypeAt(types, s) == Cipher && !g.op[s].ModSwitch? && !g.op[s].Rescale? && IsUsed(g, s)
      && LevelAt(level, s) == max
  {
    s :| s in g.sources && LevelAt(level, s) == max;
    assert Live(g, s) && Users(g, s) != {} && TypeAt(left, s) != Raw;
    var u :| u in Users(g, s);
    assert TypeAt(types, s) == Inferred(g, types, s);
  }

  lemma LongestChainIsMaxLevel(g: Graph, types: TypeMap, left: TypeMap, level: LevelMap, max: nat)
    requires AfterSwitches(g, types, left, level, max)
    ensures LongestChain(g, max)
  {
    var rank :| Ranked(g, rank);
    hide AfterSwitches, Ranked, Interprets, ChainsReach;
    forall c: seq<nat> | Interprets<nat>(g, ChainSem(), c)
      ensures |c| == |g.operands| && ChainsReach(g, c, max)
    {
      ChainsReachLevel(g, rank, types, left, level, max, c);
    }
  }

  lemma ChainsReachLevel(g: Graph, rank: seq<nat>, types: TypeMap, left: TypeMap, level: LevelMap, max: nat,
                         c: seq<nat>)
    requires AfterSwitches(g, types, left, level, max) && Ranked(g, rank) && Interprets<nat>(g, ChainSem(), c)
    ensures |c| == |g.operands| && ChainsReach(g, c, max)
  {
    assert |c| == |g.operands| == |g.op|;
    hide AfterSwitches, Ranked, Interprets, ChainSem, Live, IsUsed;
    forall o: NodeId | Live(g, o) && o < |g.op| && g.op[o].Output?
      ensures o < |c| && c[o] <= max
    {
      OutputChain(g, rank, types, left, level, max, c, o);
    }
    if max > 0 {
      var o := DeepOutput(g, rank, types, left, level, max, c);
      assert Live(g, o) && g.op[o].Output? && c[o] == max;
    }
  }

  lemma DeepOutput(g: Graph, rank: seq<nat>, types: TypeMap, left: TypeMap, level: LevelMap, max: nat, c: seq<nat>)
    returns (o: NodeId)
    requires AfterSwitches(g, types, left, level, max) && Ranked(g, rank) && Interprets<nat>(g, ChainSem(), c)
      && max > 0
    ensures Live(g, o) && o < |g.op| && g.op[o].Output? && o < |c| && c[o] == max
  {
    assert |c| == |g.operands| == |g.op|;
    hide AfterSwitches, Ranked, Interprets, Live, IsUsed, LevelAt;
    var s := DeepSource(g, types, left, level, max);
    o := ChainReachesOutput(g, rank, types, left, level, c, s);
    OutputChain(g, rank, types, left, level, max, c, o);
  }

  /** Edits that keep chains and outputs keep the longest chain. */
  lemma LongestChainKept(g: Graph, max: nat, r: Graph)
    requires LongestChain(g, max) && ChainsKept(g, r) && WellFormed(g) && Acyclic(g) && WellFormed(r) && Acyclic(r)
    requires |g.op| <= |r.op| && g.op <= r.op
    requires forall o: NodeId :: Live(r, o) && o < |r.op| && r.op[o].Output? ==> o < |g.op| && Live(g, o)
    requires forall o: NodeId :: Live(g, o) && o < |g.op| && g.op[o].Output? ==> Live(r, o)
    ensures LongestChain(r, max)
  {
    var cg: seq<nat> := InterpretationExists<nat>(g, ChainSem());
    assert ChainsReach(g, cg, max);
    var cr :| Interprets<nat>(r, ChainSem(), cr) && cg <= cr;
    var rank :| Ranked(r, rank);
    forall c: seq<nat> | Interprets<nat>(r, ChainSem(), c)
      ensures ChainsReach(r, c, max)
    {
      forall o: NodeId | Live(r, o)
        ensures c[o] == cr[o]
      {
        InterpretationUnique<nat>(r, ChainSem(), c, cr, rank, o);
      }
      SameChains(g, max, r, cg, cr, c);
    }
  }

  lemma SameChains(g: Graph, max: nat, r: Graph, cg: seq<nat>, cr: seq<nat>, c: seq<nat>)
    requires |cg| == |g.operands| == |g.op| && |cr| == |c| == |r.operands| == |r.op| && cg <= cr && g.op <= r.op
    requires ChainsReach(g, cg, max) && forall o: NodeId :: Live(r, o) ==> c[o] == cr[o]
    requires forall o: NodeId :: Live(r, o) && o < |r.op| && r.op[o].Output? ==> o < |g.op| && Live(g, o)
    requires forall o: NodeId :: Live(g, o) && o < |g.op| && g.op[o].Output? ==> Live(r, o)
    ensures ChainsReach(r, c, max)
  {
    if max != 0 {
      var o: NodeId :| Live(g, o) && o < |g.op| && g.op[o].Output? && cg[o] == max;
      assert r.op[o] == g.op[o] && c[o] == cr[o];
    }
  }
}
