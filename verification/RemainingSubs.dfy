/** SEALLowering is meant to leave no plaintext minus ciphertext behind, iyfc/seal/alo/seal_lowering.cpp:30-40.
    It does so exactly when no used one stands behind another one. */
module RemainingSubs {
  import opened Graphs
  import opened Usage
  import opened Dags
  import opened Traversals
  import opened Semantics
  import opened Types
  import opened ModSwitchSpec
  import opened ModSwitchers
  import opened ModSwitchPass
  import opened EncodePass
  import opened Kinds
  import opened CleanNodes
  import opened Lowering
  import opened LoweringReach

  /** A subtraction the executor is to compute from a plaintext and a ciphertext. */
  ghost predicate UsedSub(g: Graph, types: TypeMap, s: NodeId)
  {
    IsUsed(g, s) && IsPlainMinusCipher(g, types, s)
  }

  ghost predicate SameBelow(types: TypeMap, types': TypeMap, count: nat)
  {
    forall p: NodeId :: p < count ==> TypeAt(types', p) == TypeAt(types, p)
  }

  /** Nothing uses a lowered subtraction. */
  lemma LoweredUnused(g0: Graph, types: TypeMap, lowered: seq<NodeId>, g: Graph, n: NodeId)
    requires WellFormed(g0) && FirstLowered(g0, types, lowered, g) && n in lowered
    ensures !IsUsed(g, n)
  {
    WellFormedRange(g0);
    if IsUsed(g, n) {
      var u, i := UserOf(g, n);
      if u < |g0.operands| {
        NotMoved(g0, lowered, g0.operands[u][i], n);
      } else {
        var p, j := SumOperand(g0, lowered, g, u, i);
        BehindByOperand(g0, types, p);
        assert SubUpTo(g0, types, g0.operands[p][j]);
      }
    }
  }

  /** An old operand of a new node is an operand of a lowered subtraction. */
  lemma SumOperand(g0: Graph, lowered: seq<NodeId>, g: Graph, u: NodeId, i: nat) returns (p: NodeId, j: nat)
    requires WithSums(g0, lowered, g) && |g0.operands| <= u < |g.operands| && i < |g.operands[u]|
    requires g.operands[u][i] < |g0.operands|
    ensures p in lowered && p < |g0.operands| && j < |g0.operands[p]| && g0.operands[p][j] == g.operands[u][i]
  {
    var k := (u - |g0.operands|) / 2;
    assert SumReplaces(g0, lowered, g, k);
    p, j := lowered[k], if u == SumOf(g0, k) then 0 else 1;
  }

  /** A sum is encrypted, as the subtraction it takes over for was. */
  lemma SumsEncrypted(g0: Graph, types: TypeMap, lowered: seq<NodeId>, g: Graph, types': TypeMap, k: nat)
    requires WellFormed(g0) && WithSums(g0, lowered, g) && k < |lowered| && WellFormed(g) && Typed(g, types')
    requires SameBelow(types, types', |g0.operands|) && IsPlainMinusCipher(g0, types, lowered[k])
    ensures TypeAt(types', SumOf(g0, k)) == Cipher
  {
    hide Typed;
    assert SumReplaces(g0, lowered, g, k);
    hide WithSums;
    assert Live(g0, g0.operands[lowered[k]][1]);
    hide WellFormed;
    NegatedSumEncrypted(g, types', SumOf(g0, k), g0.operands[lowered[k]][0], g0.operands[lowered[k]][1]);
  }

  lemma NegatedSumEncrypted(g: Graph, types: TypeMap, x: NodeId, a: NodeId, c: NodeId)
    requires Typed(g, types) && 0 < x < |g.operands| && g.operands[x - 1] == [c] && g.operands[x] == [a, x - 1]
    requires g.op[x - 1] == Negate && g.op[x] == Add && TypeAt(types, c) == Cipher
    ensures TypeAt(types, x) == Cipher
  {
    assert Live(g, x - 1) && Live(g, x);
    assert g.operands[x - 1][0] == c && g.operands[x][1] == x - 1;
    assert HasCipherOperand(g, types, x - 1);
    assert HasCipherOperand(g, types, x);
  }

  lemma MovedType(g0: Graph, types: TypeMap, lowered: seq<NodeId>, g: Graph, types': TypeMap, u: NodeId, i: nat)
    requires WellFormed(g0) && Typed(g0, types) && FirstLowered(g0, types, lowered, g)
    requires WellFormed(g) && Typed(g, types') && SameBelow(types, types', |g0.operands|)
    requires u < |g0.operands| && i < |g0.operands[u]|
    ensures u < |g.operands| && i < |g.operands[u]|
    ensures TypeAt(types', g.operands[u][i]) == TypeAt(types, g0.operands[u][i])
  {
    hide BehindSub;
    var p := g0.operands[u][i];
    assert Live(g0, p) && MovedTo(g0, lowered, p, g.operands[u][i]);
    if p in lowered {
      var k: nat :| k < |lowered| && lowered[k] == p;
      SumsEncrypted(g0, types, lowered, g, types', k);
      assert HasCipherOperand(g0, types, p);
    }
  }

  /** What is left are the used subtractions behind another one. */
  lemma RemainsBehind(g0: Graph, types: TypeMap, lowered: seq<NodeId>, g: Graph, types': TypeMap, s: NodeId)
    requires WellFormed(g0) && Typed(g0, types) && FirstLowered(g0, types, lowered, g)
    requires WellFormed(g) && Typed(g, types') && SameBelow(types, types', |g0.operands|)
    ensures UsedSub(g, types', s) <==> UsedSub(g0, types, s) && BehindSub(g0, types, s)
  {
    WellFormedRange(g0);
    hide BehindSub, IsUsed, WellFormed, Typed, FirstLowered, SameBelow, IsPlainMinusCipher;
    if s < |g0.operands| {
      SameSub(g0, types, lowered, g, types', s);
      InLowered(g0, types, lowered, g, s);
      if s in lowered {
        LoweredUnused(g0, types, lowered, g, s);
      } else if IsPlainMinusCipher(g0, types, s) {
        StillUsed(g0, types, lowered, g, s);
      }
    } else {
      NewNoSub(g0, types, lowered, g, types', s);
    }
  }

  lemma InLowered(g0: Graph, types: TypeMap, lowered: seq<NodeId>, g: Graph, s: NodeId)
    requires FirstLowered(g0, types, lowered, g)
    ensures s in lowered <==> IsPlainMinusCipher(g0, types, s) && !BehindSub(g0, types, s)
  {
    assert IsPlainMinusCipher(g0, types, s) ==> Live(g0, s);
  }

  lemma NewNoSub(g0: Graph, types: TypeMap, lowered: seq<NodeId>, g: Graph, types': TypeMap, s: NodeId)
    requires FirstLowered(g0, types, lowered, g) && s >= |g0.operands|
    ensures !IsPlainMinusCipher(g, types', s) && !IsPlainMinusCipher(g0, types, s)
  {
    hide BehindSub;
    if s < |g.operands| {
      assert SumReplaces(g0, lowered, g, (s - |g0.operands|) / 2);
    }
  }

  lemma SameSub(g0: Graph, types: TypeMap, lowered: seq<NodeId>, g: Graph, types': TypeMap, s: NodeId)
    requires WellFormed(g0) && Typed(g0, types) && FirstLowered(g0, types, lowered, g)
    requires WellFormed(g) && Typed(g, types') && SameBelow(types, types', |g0.operands|) && s < |g0.operands|
    ensures IsPlainMinusCipher(g, types', s) <==> IsPlainMinusCipher(g0, types, s)
  {
    assert g.op[s] == g0.op[s] && |g.operands[s]| == |g0.operands[s]|;
    forall i: nat | i < |g0.operands[s]|
      ensures TypeAt(types', g.operands[s][i]) == TypeAt(types, g0.operands[s][i])
    {
      MovedType(g0, types, lowered, g, types', s, i);
    }
  }

  lemma StillUsed(g0: Graph, types: TypeMap, lowered: seq<NodeId>, g: Graph, s: NodeId)
    requires InRange(g0) && FirstLowered(g0, types, lowered, g) && s < |g0.operands| && s !in lowered
    ensures IsUsed(g, s) <==> IsUsed(g0, s)
  {
    hide BehindSub, IsUsed, IsPlainMinusCipher;
    if IsUsed(g, s) {
      var u, i := UserOf(g, s);
      if u < |g0.operands| {
        NotMoved(g0, lowered, g0.operands[u][i], s);
        UsedBy(g0, u, i);
      } else {
        var p, j := SumOperand(g0, lowered, g, u, i);
        UsedBy(g0, p, j);
      }
    }
    if IsUsed(g0, s) {
      var u, i := UserOf(g0, s);
      assert MovedTo(g0, lowered, g0.operands[u][i], g.operands[u][i]);
      UsedBy(g, u, i);
    }
  }

  /** None is left exactly when no used one stands behind another. */
  lemma NoneRemains(g0: Graph, types: TypeMap, lowered: seq<NodeId>, g: Graph, types': TypeMap)
    requires WellFormed(g0) && Typed(g0, types) && FirstLowered(g0, types, lowered, g)
    requires WellFormed(g) && Typed(g, types') && SameBelow(types, types', |g0.operands|)
    ensures (forall s: NodeId :: !UsedSub(g, types', s)) <==>
      forall s: NodeId :: UsedSub(g0, types, s) ==> !BehindSub(g0, types, s)
  {
    hide UsedSub, BehindSub, FirstLowered, Typed, WellFormed;
    forall s: NodeId
      ensures UsedSub(g, types', s) <==> UsedSub(g0, types, s) && BehindSub(g0, types, s)
    {
      RemainsBehind(g0, types, lowered, g, types', s);
    }
  }

  // ----- a program on which one is left -----

  /** c - (c - x), with the constant encoded. */
  function Nested(): (g: Graph)
    ensures |g.op| == |g.operands| == 6 && g.sources == {0, 1}
    ensures g.op[0] == Input(true) && g.op[1] == Constant([1.0]) && g.op[2] == Encode && g.op[3] == g.op[4] == Sub
      && g.op[5] == Output
    ensures g.operands[0] == g.operands[1] == [] && g.operands[2] == [1] && g.operands[3] == [2, 0]
      && g.operands[4] == [2, 3] && g.operands[5] == [4]
  {
    Graph([Input(true), Constant([1.0]), Encode, Sub, Sub, Output], [[], [], [1], [2, 0], [2, 3], [4]], {0, 1})
  }

  function NestedTypes(): TypeMap
  {
    map[0 := Cipher, 1 := Raw, 2 := Plain, 3 := Cipher, 4 := Cipher, 5 := Cipher]
  }

  function AllOne(): (scale: ScaleMap)
    ensures forall n: NodeId :: n < 6 ==> ScaleAt(scale, n) == 1
  {
    map[0 := 1, 1 := 1, 2 := 1, 3 := 1, 4 := 1, 5 := 1]
  }

  lemma NestedLive()
    ensures forall n: NodeId :: Live(Nested(), n) <==> n < 6
  {
    hide Nested;
    var g := Nested();
    forall n: NodeId
      ensures Live(g, n) <==> n < 6
    {
      assert n < 6 ==> n == 0 || n == 1 || n == 2 || n == 3 || n == 4 || n == 5;
    }
  }

  lemma NestedBefore(n: NodeId, i: nat)
    requires n < 6 && i < |Nested().operands[n]|
    ensures Nested().operands[n][i] < n
  {
    hide Nested;
    assert n == 2 || n == 3 || n == 4 || n == 5;
    assert i == 0 || i == 1;
  }

  lemma NestedArity()
    ensures SourceArity(Nested()) && Arity(Nested())
  {
    NestedLive();
    hide Nested;
    var g := Nested();
    forall n: NodeId | n < 6
      ensures (IsSourceOp(g.op[n]) <==> g.operands[n] == [])
        && |g.operands[n]| == if IsSourceOp(g.op[n]) then 0 else if IsBinaryOp(g.op[n]) then 2 else 1
    {
      assert n == 0 || n == 1 || n == 2 || n == 3 || n == 4 || n == 5;
    }
  }

  lemma NestedShape()
    ensures WellFormed(Nested()) && Acyclic(Nested())
    ensures forall n: NodeId :: Live(Nested(), n) <==> n < 6
  {
    NestedLive();
    hide Nested, Live;
    var g := Nested();
    forall n: NodeId, i: nat | n < 6 && i < |g.operands[n]|
      ensures g.operands[n][i] < n
    {
      NestedBefore(n, i);
    }
    var rank: seq<nat> := seq(6, i requires 0 <= i < 6 => i);
    assert Ranked(g, rank);
  }

  lemma NestedTyped()
    ensures Typed(Nested(), NestedTypes()) && KindsFit(Nested(), NestedTypes())
  {
    NestedShape();
    hide Nested, Acyclic, WellFormed;
    var g, types := Nested(), NestedTypes();
    assert TypeAt(types, g.operands[3][1]) == Cipher && TypeAt(types, g.operands[4][1]) == Cipher
      && TypeAt(types, g.operands[5][0]) == Cipher;
    forall n: NodeId | n < 6
      ensures TypeAt(types, n) == Inferred(g, types, n)
    {
      assert n == 0 || n == 1 || n == 2 || n == 3 || n == 4 || n == 5;
    }
    forall n: NodeId, i: nat | n < 6 && i < |g.operands[n]|
      ensures KindFits(g.op[n], TypeAt(types, n), TypeAt(types, g.operands[n][i]))
    {
      assert n == 2 || n == 3 || n == 4 || n == 5;
      assert i == 0 || i == 1;
    }
  }

  lemma NestedScaled()
    ensures EdgesLevelled(Nested(), NestedTypes(), map[]) && ScalesExact(Nested(), NestedTypes(), AllOne())
  {
    NestedShape();
    hide Nested, AllOne, Acyclic;
    var g, types := Nested(), NestedTypes();
    forall n: NodeId, i: nat | n < 6 && i < |g.operands[n]|
      ensures g.operands[n][i] < 6 && Consumes(g.op[g.operands[n][i]]) == 0
    {
      assert n == 2 || n == 3 || n == 4 || n == 5;
      assert i == 0 || i == 1;
    }
    forall p: NodeId | p < 6
      ensures ScaleExact(g, types, AllOne(), p)
    {
      assert p == 0 || p == 1 || p == 2 || p == 3 || p == 4 || p == 5;
    }
  }

  /** The graph can be given to the pass; it lowers the inner subtraction alone, and the outer one stays. */
  lemma NestedStays(types': TypeMap, lowered: seq<NodeId>, g: Graph)
    requires WellFormed(g) && Typed(g, types') && SameBelow(NestedTypes(), types', 6)
    requires FirstLowered(Nested(), NestedTypes(), lowered, g)
    ensures Acyclic(Nested()) && SourceArity(Nested()) && Arity(Nested()) && KindsFit(Nested(), NestedTypes())
    ensures EdgesLevelled(Nested(), NestedTypes(), map[]) && ScalesExact(Nested(), NestedTypes(), AllOne())
    ensures lowered == [3] && UsedSub(g, types', 4)
  {
    NestedShape();
    NestedArity();
    NestedTyped();
    NestedScaled();
    NestedOrder();
    RemainsBehind(Nested(), NestedTypes(), lowered, g, types', 4);
    hide Nested, BehindSub, WithSums, KindsFit, Typed, EdgesLevelled, ScalesExact, Acyclic, SourceArity, Arity;
    assert 3 in lowered && forall n: NodeId :: n in lowered ==> n == 3;
    OnlyMember(lowered);
  }

  lemma FirstTwoDiffer(s: seq<NodeId>)
    requires NoDuplicates(s) && |s| > 1
    ensures s[0] in s && s[1] in s && s[0] != s[1]
  {
  }

  lemma OnlyMember(s: seq<NodeId>)
    requires NoDuplicates(s) && 3 in s && forall n: NodeId :: n in s ==> n == 3
    ensures s == [3]
  {
    if |s| > 1 {
      FirstTwoDiffer(s);
      assert false;
    }
  }

  lemma NestedSubs()
    ensures forall s: NodeId :: IsPlainMinusCipher(Nested(), NestedTypes(), s) <==> s == 3 || s == 4
  {
    hide Nested;
    var g, types := Nested(), NestedTypes();
    forall s: NodeId
      ensures IsPlainMinusCipher(g, types, s) <==> s == 3 || s == 4
    {
      assert s < 6 ==> s == 0 || s == 1 || s == 2 || s == 3 || s == 4 || s == 5;
    }
  }

  lemma {:induction false} NestedFree(n: NodeId)
    requires n < 4
    ensures !BehindSub(Nested(), NestedTypes(), n)
  {
    NestedShape();
    NestedSubs();
    var g, types := Nested(), NestedTypes();
    WellFormedRange(g);
    hide Nested, Acyclic, WellFormed, IsPlainMinusCipher, BehindSub, NestedTypes, InRange;
    forall i: nat | i < |g.operands[n]|
      ensures !SubUpTo(g, types, g.operands[n][i])
    {
      NestedBefore(n, i);
      NestedFree(g.operands[n][i]);
    }
    BehindByOperand(g, types, n);
  }

  lemma NestedOrder()
    ensures forall s: NodeId :: IsPlainMinusCipher(Nested(), NestedTypes(), s) <==> s == 3 || s == 4
    ensures !BehindSub(Nested(), NestedTypes(), 3) && BehindSub(Nested(), NestedTypes(), 4) && IsUsed(Nested(), 4)
  {
    NestedShape();
    NestedSubs();
    NestedFree(3);
    var g, types := Nested(), NestedTypes();
    WellFormedRange(g);
    hide Nested, Acyclic, WellFormed, IsPlainMinusCipher, BehindSub, NestedTypes, InRange;
    assert SubUpTo(g, types, g.operands[4][1]);
    BehindByOperand(g, types, 4);
    UsedBy(g, 5, 0);
  }
}
