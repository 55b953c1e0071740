/** SEAL lowering, iyfc/seal/alo/seal_lowering.cpp: SEAL cannot subtract a ciphertext from a
    plaintext, so p - c becomes p + (-c). */
module Lowering {
  import opened Graphs
  import opened Dags
  import opened Traversals
  import opened Semantics
  import opened Types
  import opened ModSwitchSpec
  import opened ModSwitchers
  import opened ModSwitchPass
  import opened RescaleSpec
  import opened EncodePass
  import opened Chains
  import Threading = ThreadedScales

  predicate IsPlainMinusCipher(g: Graph, types: TypeMap, n: NodeId)
  {
    && n < |g.op| && n < |g.operands| && g.op[n].Sub? && |g.operands[n]| == 2
    && TypeAt(types, g.operands[n][0]) != Cipher && TypeAt(types, g.operands[n][1]) == Cipher
  }

  /** The negation and the sum that take over the uses of n. */
  function Negating(g: Graph, n: NodeId): Graph
    requires n < |g.operands| && |g.operands[n]| == 2
  {
    AddNode(AddNode(g, Negate, [g.operands[n][1]]), Add, [g.operands[n][0], |g.operands|])
  }

  function Lowered(g: Graph, n: NodeId): Graph
    requires n < |g.operands| && |g.operands[n]| == 2
  {
    RedirectAll(Negating(g, n), n, |g.operands| + 1)
  }

  lemma LoweredShape(g: Graph, n: NodeId)
    requires |g.op| == |g.operands| && n < |g.operands| && |g.operands[n]| == 2
    requires n !in g.operands[n]
    ensures var r, x := Lowered(g, n), |g.operands|;
      && |r.operands| == x + 2 && r.op == g.op + [Negate, Add] && r.sources == g.sources
      && r.operands[x] == [g.operands[n][1]] && r.operands[x + 1] == [g.operands[n][0], x]
      && forall u: NodeId :: u < x ==> r.operands[u] == Subst(g.operands[u], n, x + 1)
  {
    assert g.operands[n][0] in g.operands[n] && g.operands[n][1] in g.operands[n];
  }

  // ----- values -----

  lemma MinusIsPlusNegated(size: nat, x: Slots, y: Slots)
    ensures Minus(size, x, y) == Sum(size, [x, Negated(size, y)])
  {
    var n := Negated(size, y);
    assert [x, n][1..] == [n];
    assert [n][1..] == [];
    var rest := Sum(size, []);
    assert Sum(size, [n]) == Plus(size, n, rest);
    assert Sum(size, [x, n]) == Plus(size, x, Sum(size, [n]));
  }

  lemma NegatingWellFormed(g: Graph, n: NodeId)
    requires WellFormed(g) && n < |g.operands| && |g.operands[n]| == 2
    ensures var r, x := Negating(g, n), |g.operands|;
      && WellFormed(AddNode(g, Negate, [g.operands[n][1]]))
           && Live(AddNode(g, Negate, [g.operands[n][1]]), g.operands[n][0])
      && Live(AddNode(g, Negate, [g.operands[n][1]]), x)
      && WellFormed(r) && Live(r, n) && Live(r, x) && Live(r, x + 1) && Live(r, g.operands[n][0])
           && Live(r, g.operands[n][1])
      && |r.operands| == x + 2 && r.op == g.op + [Negate, Add]
      && r.operands[n] == g.operands[n] && r.operands[x] == [g.operands[n][1]]
           && r.operands[x + 1] == [g.operands[n][0], x]
  {
    assert Live(g, g.operands[n][0]) && Live(g, g.operands[n][1]);
    AddNodeWellFormed(g, Negate, [g.operands[n][1]]);
    AddNodeWellFormed(AddNode(g, Negate, [g.operands[n][1]]), Add, [g.operands[n][0], |g.operands|]);
  }

  lemma NegatingSlots(size: nat, r: Graph, env: NodeId -> Slots, n: NodeId, x: NodeId)
    requires WellFormed(r) && Live(r, n) && Live(r, x) && Live(r, x + 1) && |r.operands[n]| == 2
    requires r.op[n].Sub? && r.op[x].Negate? && r.op[x + 1].Add?
    requires r.operands[x] == [r.operands[n][1]] && r.operands[x + 1] == [r.operands[n][0], x]
    ensures SameUnder(r, SlotSem(size, env), n, x + 1)
  {
    assert n < |r.op| && x + 1 < |r.op|;
    hide Interprets, WellFormed;
    forall v | Interprets(r, SlotSem(size, env), v)
      ensures n < |v| && x + 1 < |v| && v[n] == v[x + 1]
    {
      NegatingValue(size, r, env, n, x, v);
    }
  }

  lemma NegatingValue(size: nat, r: Graph, env: NodeId -> Slots, n: NodeId, x: NodeId, v: seq<Slots>)
    requires Live(r, n) && Live(r, x) && Live(r, x + 1) && |r.operands[n]| == 2 && Interprets(r, SlotSem(size, env), v)
    requires n < |r.op| && x + 1 < |r.op| && r.op[n].Sub? && r.op[x].Negate? && r.op[x + 1].Add?
    requires r.operands[x] == [r.operands[n][1]] && r.operands[x + 1] == [r.operands[n][0], x]
    ensures n < |v| && x + 1 < |v| && v[n] == v[x + 1]
  {
    hide Meaning;
    assert Live(r, r.operands[n][0]) && Live(r, r.operands[n][1]);
    var a, c := v[r.operands[n][0]], v[r.operands[n][1]];
    assert v[n] == Meaning(size, env, n, Sub, Args(r, v, n));
    assert v[x] == Meaning(size, env, x, Negate, Args(r, v, x));
    assert v[x + 1] == Meaning(size, env, x + 1, Add, Args(r, v, x + 1));
    assert Args(r, v, n) == [a, c] && Args(r, v, x) == [c] && Args(r, v, x + 1) == [a, v[x]];
    hide Interprets;
    NegatingMeaning(size, env, n, x, a, c);
  }

  lemma NegatingMeaning(size: nat, env: NodeId -> Slots, n: NodeId, x: NodeId, a: Slots, c: Slots)
    ensures Meaning(size, env, n, Sub, [a, c]) == Meaning(size, env, x + 1, Add,
      [a, Meaning(size, env, x, Negate, [c])])
  {
    MinusIsPlusNegated(size, a, c);
  }

  lemma NegatingFlags(r: Graph, n: NodeId, x: NodeId)
    requires WellFormed(r) && Live(r, n) && Live(r, x) && Live(r, x + 1) && |r.operands[n]| == 2
    requires r.op[n].Sub? && r.op[x].Negate? && r.op[x + 1].Add?
    requires r.operands[x] == [r.operands[n][1]] && r.operands[x + 1] == [r.operands[n][0], x]
    ensures SameUnder(r, CipherSem(), n, x + 1)
  {
    forall v | Interprets(r, CipherSem(), v)
      ensures v[n] == v[x + 1]
    {
      assert Live(r, r.operands[n][0]) && Live(r, r.operands[n][1]);
      var a, c := v[r.operands[n][0]], v[r.operands[n][1]];
      assert Args(r, v, n) == [a, c] && Args(r, v, x) == [c] && Args(r, v, x + 1) == [a, v[x]];
      hide WellFormed, Encrypted;
      FlagMeaning(a, c);
    }
  }

  lemma FlagMeaning(a: bool, c: bool)
    ensures Encrypted(Sub, [a, c]) == Encrypted(Add, [a, Encrypted(Negate, [c])])
  {
    assert true in [c] <==> c;
    assert true in [a, c] <==> a || c;
  }

  lemma LoweredRefines(size: nat, g: Graph, n: NodeId)
    requires WellFormed(g) && n < |g.operands| && |g.operands[n]| == 2 && g.op[n].Sub?
    ensures WellFormed(Lowered(g, n)) && Refines(size, g, Lowered(g, n))
  {
    hide Refines, Interchangeable, WellFormed, Live, Lowered;
    var x := |g.operands|;
    var g1 := AddNode(g, Negate, [g.operands[n][1]]);
    var g2 := Negating(g, n);
    SubLive(g, n);
    NegatingWellFormed(g, n);
    AddNodeRefines(size, g, Negate, [g.operands[n][1]]);
    AddNodeRefines(size, g1, Add, [g.operands[n][0], x]);
    NegatingInterchangeable(size, g2, n, x);
    LoweredIs(g, n);
    RedirectAllRefines(size, g2, n, x + 1);
    RefinesTransitive(size, g, g1, g2);
    RefinesTransitive(size, g, g2, Lowered(g, n));
  }

  lemma LoweredIs(g: Graph, n: NodeId)
    requires n < |g.operands| && |g.operands[n]| == 2
    ensures Lowered(g, n) == RedirectAll(Negating(g, n), n, |g.operands| + 1)
  {
  }

  lemma SubLive(g: Graph, n: NodeId)
    requires WellFormed(g) && n < |g.operands| && |g.operands[n]| == 2
    ensures |g.op| == |g.operands| && Live(g, n) && Live(g, g.operands[n][0]) && Live(g, g.operands[n][1])
  {
  }

  lemma NegatingInterchangeable(size: nat, r: Graph, n: NodeId, x: NodeId)
    requires WellFormed(r) && Live(r, n) && Live(r, x) && Live(r, x + 1) && |r.operands[n]| == 2
      && |r.op| == |r.operands|
    requires n < |r.op| && x + 1 < |r.op| && r.op[n].Sub? && r.op[x].Negate? && r.op[x + 1].Add?
    requires r.operands[x] == [r.operands[n][1]] && r.operands[x + 1] == [r.operands[n][0], x]
    ensures Interchangeable(size, r, n, x + 1)
  {
    forall env
      ensures SameUnder(r, SlotSem(size, env), n, x + 1)
    {
      NegatingSlots(size, r, env, n, x);
    }
    NegatingFlags(r, n, x);
  }

  ghost predicate NegatingNodes(r: Graph, n: NodeId, x: NodeId)
  {
    && WellFormed(r) && Live(r, n) && Live(r, x) && Live(r, x + 1) && |r.operands[n]| == 2
    && r.op[n].Sub? && r.op[x].Negate? && r.op[x + 1].Add?
    && r.operands[x] == [r.operands[n][1]] && r.operands[x + 1] == [r.operands[n][0], x]
  }

  lemma NegatingChain(r: Graph, n: NodeId, x: NodeId)
    requires NegatingNodes(r, n, x)
    ensures SameUnder<nat>(r, ChainSem(), n, x + 1)
  {
    hide NegatingNodes, Interprets;
    forall v: seq<nat> | Interprets<nat>(r, ChainSem(), v)
      ensures n < |v| && x + 1 < |v| && v[n] == v[x + 1]
    {
      NegatingChainAt(r, v, n, x);
    }
  }

  lemma NegatingChainAt(r: Graph, v: seq<nat>, n: NodeId, x: NodeId)
    requires NegatingNodes(r, n, x) && Interprets<nat>(r, ChainSem(), v)
    ensures n < |v| && x + 1 < |v| && v[n] == v[x + 1]
  {
    assert Live(r, r.operands[n][0]) && Live(r, r.operands[n][1]);
    var a: nat, c: nat, nx: nat := v[r.operands[n][0]], v[r.operands[n][1]], v[x];
    assert Args<nat>(r, v, n) == [a, c] && Args<nat>(r, v, x) == [c] && Args<nat>(r, v, x + 1) == [a, nx];
    assert v[n] == ChainOf(Sub, [a, c]) && v[x] == ChainOf(Negate, [c]) && v[x + 1] == ChainOf(Add, [a, nx]);
    NegatedChain(a, c);
  }

  lemma NegatedChain(a: nat, c: nat)
    ensures ChainOf(Negate, [c]) == c && ChainOf(Sub, [a, c]) == ChainOf(Add, [a, c])
  {
    MaxIs([c], c);
  }

  lemma NegatingExtends(g: Graph, n: NodeId)
    requires WellFormed(g) && n < |g.operands| && |g.operands[n]| == 2
    ensures ChainsKept(g, Negating(g, n))
  {
    NegatingWellFormed(g, n);
    SubLive(g, n);
    hide Extends, Live, WellFormed;
    AddNodeExtends<nat>(g, ChainSem(), Negate, [g.operands[n][1]]);
    AddNodeExtends<nat>(AddNode(g, Negate, [g.operands[n][1]]), ChainSem(), Add, [g.operands[n][0], |g.operands|]);
    ExtendsTransitive<nat>(g, AddNode(g, Negate, [g.operands[n][1]]), Negating(g, n), ChainSem());
  }

  lemma NegatingReady(g: Graph, n: NodeId)
    requires WellFormed(g) && n < |g.operands| && |g.operands[n]| == 2 && g.op[n].Sub?
    ensures NegatingNodes(Negating(g, n), n, |g.operands|)
  {
    NegatingWellFormed(g, n);
  }

  lemma LoweredChains(g: Graph, n: NodeId)
    requires WellFormed(g) && n < |g.operands| && |g.operands[n]| == 2 && g.op[n].Sub?
    ensures ChainsKept(g, Lowered(g, n))
  {
    hide SameUnder, Live, WellFormed, Negating, RedirectAll, Lowered, Extends, NegatingNodes, ChainsKept;
    NegatingReady(g, n);
    NegatingExtends(g, n);
    NegatingChain(Negating(g, n), n, |g.operands|);
    LoweredIs(g, n);
    RedirectedChains(g, Negating(g, n), n, |g.operands| + 1, Lowered(g, n));
  }

  lemma RedirectedChains(g: Graph, g': Graph, a: NodeId, b: NodeId, r: Graph)
    requires ChainsKept(g, g') && Live(g', b) && SameUnder<nat>(g', ChainSem(), a, b) && r == RedirectAll(g', a, b)
    ensures ChainsKept(g, r)
  {
    hide SameUnder, Live, RedirectAll, Extends;
    RedirectAllExtends<nat>(g', ChainSem(), a, b);
    ChainsTransitive(g, g', r);
  }

  /** Room for two ranks right above `at`. */
  function TwoRanks(rank: seq<nat>, at: nat): (r: seq<nat>)
    ensures |r| == |rank| + 2
    ensures forall i :: 0 <= i < |rank| ==> r[i] == 3 * rank[i]
    ensures r[|rank|] == 3 * at + 1 && r[|rank| + 1] == 3 * at + 2
  {
    seq(|rank|, i requires 0 <= i < |rank| => 3 * rank[i]) + [3 * at + 1, 3 * at + 2]
  }

  lemma LoweredAcyclic(g: Graph, n: NodeId)
    requires Acyclic(g) && |g.op| == |g.operands| && n < |g.operands| && |g.operands[n]| == 2
    ensures Acyclic(Lowered(g, n)) && n !in g.operands[n]
  {
    var rank :| Ranked(g, rank);
    LoweredShape(g, n);
    var r, rank' := Lowered(g, n), TwoRanks(rank, rank[n]);
    forall u: NodeId, i: nat | u < |r.operands| && i < |r.operands[u]|
      ensures r.operands[u][i] < |rank'| && rank'[r.operands[u][i]] < rank'[u]
    {
      if u < |g.operands| {
        assert rank[g.operands[u][i]] < rank[u];
      }
    }
    assert Ranked(r, rank');
  }

  // ----- types, levels and scales -----

  function WithLevel(level: LevelMap, n: NodeId, l: nat): (r: LevelMap)
    ensures forall p: NodeId :: LevelAt(r, p) == if p == n then l else LevelAt(level, p)
  {
    level[n := l]
  }

  /** What is known of every node between two visits. */
  datatype Facts = Facts(types: TypeMap, level: LevelMap, scale: ScaleMap)

  /** The negation and the sum are encrypted, at the level and scale of the subtraction. */
  function Extended(f: Facts, x: NodeId, n: NodeId): (r: Facts)
    ensures forall p: NodeId :: p != x && p != x + 1 ==>
      TypeAt(r.types, p) == TypeAt(f.types, p) && LevelAt(r.level, p) == LevelAt(f.level, p)
        && ScaleAt(r.scale, p) == ScaleAt(f.scale, p)
    ensures TypeAt(r.types, x) == TypeAt(r.types, x + 1) == Cipher
    ensures LevelAt(r.level, x) == LevelAt(r.level, x + 1) == LevelAt(f.level, n)
    ensures ScaleAt(r.scale, x) == ScaleAt(r.scale, x + 1) == ScaleAt(f.scale, n)
  {
    Facts(WithType(WithType(f.types, x, Cipher), x + 1, Cipher),
          WithLevel(WithLevel(f.level, x, LevelAt(f.level, n)), x + 1, LevelAt(f.level, n)),
          WithScale(WithScale(f.scale, x, ScaleAt(f.scale, n)), x + 1, ScaleAt(f.scale, n)))
  }

  /** The situation of a visit that lowers n. */
  ghost predicate LowersAt(g: Graph, f: Facts, n: NodeId, r: Graph, f': Facts)
  {
    && WellFormed(g) && Typed(g, f.types) && IsPlainMinusCipher(g, f.types, n) && n !in g.operands[n]
    && r == Lowered(g, n) && f' == Extended(f, |g.operands|, n)
  }

  lemma LoweredOperands(g: Graph, f: Facts, n: NodeId, r: Graph, f': Facts)
    requires LowersAt(g, f, n, r, f')
    ensures |g.op| == |g.operands| && Live(g, n) && TypeAt(f.types, n) == Cipher
    ensures var x := |g.operands|;
      && |r.operands| == x + 2 && r.op == g.op + [Negate, Add] && r.sources == g.sources
      && r.operands[x] == [g.operands[n][1]] && r.operands[x + 1] == [g.operands[n][0], x]
      && g.operands[n][0] < x && g.operands[n][1] < x && |g.operands[n]| == 2 && g.op[n].Sub?
    ensures forall u: NodeId :: u < |g.operands| ==> |r.operands[u]| == |g.operands[u]|
    ensures forall u: NodeId, i: nat :: u < |g.operands| && i < |g.operands[u]| ==>
      g.operands[u][i] < |g.operands| && r.operands[u][i] == if g.operands[u][i] == n then |g.operands| + 1
        else g.operands[u][i]
  {
    LoweredShape(g, n);
    assert HasCipherOperand(g, f.types, n);
    assert Live(g, g.operands[n][0]) && Live(g, g.operands[n][1]);
    forall u: NodeId, i: nat | u < |g.operands| && i < |g.operands[u]|
      ensures g.operands[u][i] < |g.operands|
    {
      assert Live(g, g.operands[u][i]);
    }
  }

  /** Operands keep their type and scale. */
  lemma OperandsLike(g: Graph, f: Facts, n: NodeId, r: Graph, f': Facts, u: NodeId, i: nat)
    requires LowersAt(g, f, n, r, f') && u < |g.operands| && i < |g.operands[u]|
    ensures u < |r.operands| && i < |r.operands[u]|
    ensures TypeAt(f'.types, r.operands[u][i]) == TypeAt(f.types, g.operands[u][i])
    ensures ScaleAt(f'.scale, r.operands[u][i]) == ScaleAt(f.scale, g.operands[u][i])
    ensures LevelAt(f'.level, r.operands[u][i]) == LevelAt(f.level, g.operands[u][i])
    ensures r.operands[u][i] < |r.op| && g.operands[u][i] < |g.op|
      && Consumes(r.op[r.operands[u][i]]) == Consumes(g.op[g.operands[u][i]])
  {
    LoweredOperands(g, f, n, r, f');
  }

  /** The two new nodes, whose operands are like those of n. */
  lemma NewNodes(g: Graph, f: Facts, n: NodeId, r: Graph, f': Facts)
    requires LowersAt(g, f, n, r, f')
    ensures var x, a, c := |g.operands|, g.operands[n][0], g.operands[n][1];
      && |r.operands| == |r.op| == x + 2 && r.op[x].Negate? && r.op[x + 1].Add?
      && r.operands[x] == [c] && r.operands[x + 1] == [a, x]
      && TypeAt(f'.types, a) == TypeAt(f.types, a) && TypeAt(f'.types, c) == Cipher
      && TypeAt(f'.types, x) == TypeAt(f'.types, x + 1) == Cipher
      && ScaleAt(f'.scale, a) == ScaleAt(f.scale, a) && ScaleAt(f'.scale, c) == ScaleAt(f.scale, c)
      && ScaleAt(f'.scale, x) == ScaleAt(f'.scale, x + 1) == ScaleAt(f.scale, n)
  {
    LoweredOperands(g, f, n, r, f');
  }

  lemma NewTyped(g: Graph, f: Facts, n: NodeId, r: Graph, f': Facts, u: NodeId)
    requires LowersAt(g, f, n, r, f') && (u == |g.operands| || u == |g.operands| + 1)
    ensures u < |r.op| && u < |r.operands| && TypeAt(f'.types, u) == Inferred(r, f'.types, u)
    ensures |r.operands[u]| == if r.op[u].Add? then 2 else 1
    ensures r.op[u].Add? || r.op[u].Negate?
  {
    NewNodes(g, f, n, r, f');
    hide LowersAt;
    assert TypeAt(f'.types, r.operands[u][|r.operands[u]|-1]) == Cipher;
    assert HasCipherOperand(r, f'.types, u);
  }

  lemma LoweredTyped(g: Graph, f: Facts, n: NodeId, r: Graph, f': Facts)
    requires LowersAt(g, f, n, r, f') && SourceArity(g) && Arity(g)
    ensures Typed(r, f'.types) && SourceArity(r) && Arity(r)
  {
    NewNodes(g, f, n, r, f');
    forall u: NodeId | Live(r, u)
      ensures TypeAt(f'.types, u) == Inferred(r, f'.types, u)
      ensures IsSourceOp(r.op[u]) <==> r.operands[u] == []
      ensures |r.operands[u]| == if IsSourceOp(r.op[u]) then 0 else if IsBinaryOp(r.op[u]) then 2 else 1
    {
      if u < |g.operands| {
        OldTyped(g, f, n, r, f', u);
      } else {
        NewTyped(g, f, n, r, f', u);
      }
    }
  }

  lemma OldTyped(g: Graph, f: Facts, n: NodeId, r: Graph, f': Facts, u: NodeId)
    requires LowersAt(g, f, n, r, f') && u < |g.operands| && Live(r, u)
    ensures Live(g, u) && u < |r.op| && r.op[u] == g.op[u] && |r.operands[u]| == |g.operands[u]|
    ensures TypeAt(f'.types, u) == Inferred(r, f'.types, u)
  {
    LoweredOperands(g, f, n, r, f');
    assert Live(g, u) && TypeAt(f.types, u) == Inferred(g, f.types, u);
    hide LowersAt;
    forall i: nat | i < |g.operands[u]|
      ensures TypeAt(f'.types, r.operands[u][i]) == TypeAt(f.types, g.operands[u][i])
    {
      OperandsLike(g, f, n, r, f', u, i);
    }
    assert TypeAt(f'.types, u) == TypeAt(f.types, u) by {
      SameOld(g, f, n, r, f', u);
    }
    assert HasCipherOperand(r, f'.types, u) <==> HasCipherOperand(g, f.types, u);
  }

  lemma SameOld(g: Graph, f: Facts, n: NodeId, r: Graph, f': Facts, u: NodeId)
    requires LowersAt(g, f, n, r, f') && u < |g.operands|
    ensures TypeAt(f'.types, u) == TypeAt(f.types, u) && LevelAt(f'.level, u) == LevelAt(f.level, u)
    ensures ScaleAt(f'.scale, u) == ScaleAt(f.scale, u)
  {
  }

  lemma LoweredLevels(g: Graph, f: Facts, n: NodeId, r: Graph, f': Facts)
    requires LowersAt(g, f, n, r, f') && EdgesLevelled(g, f.types, f.level)
    ensures EdgesLevelled(r, f'.types, f'.level)
  {
    LoweredOperands(g, f, n, r, f');
    var x := |g.operands|;
    forall u: NodeId, i: nat | u < |r.operands| && i < |r.operands[u]|
      ensures r.operands[u][i] < |r.op|
      ensures TypeAt(f'.types, r.operands[u][i]) != Raw ==> EdgeLevel(r, f'.level, u, r.operands[u][i])
    {
      if u < x {
        OperandsLike(g, f, n, r, f', u, i);
        SameOld(g, f, n, r, f', u);
      } else if u == x {
        NewOperandLevel(g, f, n, r, f', 1);
      } else if i == 0 {
        NewOperandLevel(g, f, n, r, f', 0);
      }
    }
  }

  lemma NewOperandLevel(g: Graph, f: Facts, n: NodeId, r: Graph, f': Facts, i: nat)
    requires LowersAt(g, f, n, r, f') && EdgesLevelled(g, f.types, f.level) && i < 2
    ensures var p := g.operands[n][i];
      p < |r.op| && (TypeAt(f'.types, p) != Raw ==> EdgeLevel(r, f'.level, |g.operands| + 1 - i, p))
  {
    LoweredOperands(g, f, n, r, f');
    var p := g.operands[n][i];
    assert TypeAt(f.types, g.operands[n][i]) != Raw ==> EdgeLevel(g, f.level, n, p);
    assert r.op[p] == g.op[p];
  }

  lemma LoweredScales(g: Graph, f: Facts, n: NodeId, r: Graph, f': Facts)
    requires LowersAt(g, f, n, r, f') && ScalesExact(g, f.types, f.scale)
    ensures ScalesExact(r, f'.types, f'.scale)
  {
    LoweredOperands(g, f, n, r, f');
    var x := |g.operands|;
    assert ScaleAt(f.scale, n) > 0 && ScaleExact(g, f.types, f.scale, n);
    forall u: NodeId | Live(r, u)
      ensures ScaleAt(f'.scale, u) > 0 && ScaleExact(r, f'.types, f'.scale, u)
    {
      if u < x {
        OldExact(g, f, n, r, f', u);
      } else {
        assert OperandsAtScale(g, f.scale, n) && MeetsNoRaw(g, f.types, n);
        NewExact(g, f, n, r, f', u);
      }
    }
  }

  lemma NewExact(g: Graph, f: Facts, n: NodeId, r: Graph, f': Facts, u: NodeId)
    requires LowersAt(g, f, n, r, f') && OperandsAtScale(g, f.scale, n) && MeetsNoRaw(g, f.types, n)
    requires u == |g.operands| || u == |g.operands| + 1
    ensures u < |r.op| && u < |r.operands| && ScaleExact(r, f'.types, f'.scale, u)
  {
    LoweredOperands(g, f, n, r, f');
    assert TypeAt(f.types, g.operands[n][0]) != Raw && TypeAt(f.types, g.operands[n][1]) != Raw;
    assert ScaleAt(f.scale, g.operands[n][0]) == ScaleAt(f.scale, n)
      && ScaleAt(f.scale, g.operands[n][1]) == ScaleAt(f.scale, n);
    NewNodes(g, f, n, r, f');
    NewNodeExact(r, f'.types, f'.scale, |g.operands|, g.operands[n][0], g.operands[n][1]);
  }

  lemma NewNodeExact(r: Graph, types: TypeMap, scale: ScaleMap, x: NodeId, a: NodeId, c: NodeId)
    requires |r.operands| == |r.op| == x + 2 && r.op[x].Negate? && r.op[x + 1].Add?
    requires r.operands[x] == [c] && r.operands[x + 1] == [a, x]
    requires TypeAt(types, a) != Raw && TypeAt(types, c) == TypeAt(types, x) == Cipher
    requires ScaleAt(scale, a) == ScaleAt(scale, c) == ScaleAt(scale, x) == ScaleAt(scale, x + 1)
    ensures ScaleExact(r, types, scale, x) && ScaleExact(r, types, scale, x + 1)
  {
  }

  lemma OldExact(g: Graph, f: Facts, n: NodeId, r: Graph, f': Facts, u: NodeId)
    requires LowersAt(g, f, n, r, f') && ScalesExact(g, f.types, f.scale) && u < |g.operands| && Live(r, u)
    ensures u < |r.op| && ScaleAt(f'.scale, u) > 0 && ScaleExact(r, f'.types, f'.scale, u)
  {
    LoweredOperands(g, f, n, r, f');
    SameOld(g, f, n, r, f', u);
    assert Live(g, u) && ScaleExact(g, f.types, f.scale, u) && ScaleAt(f.scale, u) > 0;
    hide LowersAt, ScalesExact;
    forall i: nat | i < |g.operands[u]|
      ensures TypeAt(f'.types, r.operands[u][i]) == TypeAt(f.types, g.operands[u][i])
      ensures ScaleAt(f'.scale, r.operands[u][i]) == ScaleAt(f.scale, g.operands[u][i])
    {
      OperandsLike(g, f, n, r, f', u, i);
    }
    LikeExact(g, f, r, f', u);
  }

  lemma LikeExact(g: Graph, f: Facts, r: Graph, f': Facts, u: NodeId)
    requires u < |g.operands| && u < |g.op| && u < |r.operands| && u < |r.op| && r.op[u] == g.op[u]
    requires |r.operands[u]| == |g.operands[u]| && ScaleExact(g, f.types, f.scale, u)
    requires TypeAt(f'.types, u) == TypeAt(f.types, u) && ScaleAt(f'.scale, u) == ScaleAt(f.scale, u)
    requires forall i: nat :: i < |g.operands[u]| ==>
      TypeAt(f'.types, r.operands[u][i]) == TypeAt(f.types, g.operands[u][i])
      && ScaleAt(f'.scale, r.operands[u][i]) == ScaleAt(f.scale, g.operands[u][i])
    ensures ScaleExact(r, f'.types, f'.scale, u)
  {
    Threading.SumOrigins(g.operands[u], r.operands[u], f.scale, f'.scale);
    if g.operands[u] != [] {
      assert ScaleAt(f'.scale, r.operands[u][0]) == ScaleAt(f.scale, g.operands[u][0]);
    }
    assert MeetsNoRaw(g, f.types, u) ==> MeetsNoRaw(r, f'.types, u);
    assert OperandsAtScale(g, f.scale, u) ==> OperandsAtScale(r, f'.scale, u);
  }
}
