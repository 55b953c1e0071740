/** The whole encode insertion pass: afterwards no ciphertext meets a raw operand, and the scale
    of every node fits its operands exactly. */
module EncodePass {
  import opened Graphs
  import opened Usage
  import opened Threads
  import opened Chains
  import opened Dags
  import opened Traversals
  import opened ForwardPass
  import opened Semantics
  import opened Types
  import opened ModSwitchers
  import opened RescaleSpec
  import opened EncodeInserters
  import Rescaling = RescalePass

  ghost predicate Grown(g0: Graph, g: Graph)
  {
    && |g0.op| == |g0.operands| && |g.op| == |g.operands| && g0.op <= g.op && g.sources == g0.sources
    && (forall u: NodeId :: u < |g0.operands| ==> |g.operands[u]| == |g0.operands[u]|)
    && (forall x: NodeId :: |g0.operands| <= x < |g.op| ==> g.op[x].Encode? && |g.operands[x]| == 1)
  }

  /** The encodings stand in front of visited nodes and behind them. */
  ghost predicate ExemptNodes(g0: Graph, g: Graph, types: TypeMap, processed: set<NodeId>, exempt: set<NodeId>)
    requires |g0.operands| <= |g.operands|
  {
    && (forall x: NodeId :: x in exempt <==> |g0.operands| <= x < |g.operands|)
    && (forall x: NodeId, i: nat :: |g0.operands| <= x < |g.operands| && i < |g.operands[x]| ==>
          g.operands[x][i] in processed && TypeAt(types, g.operands[x][i]) == Raw)
    && (forall m: NodeId, i: nat :: m < |g.operands| && i < |g.operands[m]| && g.operands[m][i] in exempt ==>
          m in processed && |g.operands[m]| == 2 && TypeAt(types, m) == Cipher)
  }

  /** Encodings are used by encrypted sums and products only. */
  ghost predicate EncodesMeetCiphers(g: Graph, types: TypeMap)
  {
    && |g.op| == |g.operands|
    && forall u: NodeId, i: nat ::
         u < |g.operands| && i < |g.operands[u]| && g.operands[u][i] < |g.op| && g.op[g.operands[u][i]].Encode? ==>
         IsBinaryOp(g.op[u]) && TypeAt(types, u) == Cipher
  }

  /** Scales of the nodes that were there before fit; those of encodings are positive. */
  ghost predicate OldScalesFit(g0: Graph, g: Graph, types: TypeMap, scale: ScaleMap, b: Bits)
    requires |g0.operands| <= |g.operands| && |g.op| == |g.operands|
  {
    && (forall p: NodeId :: Live(g, p) ==> ScaleAt(scale, p) > 0)
    && (forall p: NodeId :: p < |g0.operands| && Live(g, p) ==> ScaleRule(g, types, scale, b, p))
  }

  ghost predicate MeetsNoRaw(g: Graph, types: TypeMap, p: NodeId)
    requires p < |g.operands|
  {
    TypeAt(types, p) == Cipher ==> forall i: nat :: i < |g.operands[p]| ==> TypeAt(types, g.operands[p][i]) != Raw
  }

  ghost predicate EncodeShape(size: nat, g0: Graph, g: Graph, types: TypeMap)
  {
    && WellFormed(g) && Acyclic(g) && Refines(size, g0, g) && Grown(g0, g) && Arity(g)
    && Typed(g, types) && SourceArity(g) && UsedKept(g0, g) && EncodesOnce(g) && ChainsKept(g0, g)
    && (forall m: NodeId :: m < |g0.op| ==> !g0.op[m].Encode?)
  }

  ghost predicate EncodeInv(size: nat, g0: Graph, g: Graph, types: TypeMap, scale: ScaleMap, b: Bits,
                            processed: set<NodeId>, exempt: set<NodeId>)
  {
    && EncodeShape(size, g0, g, types)
    && ExemptNodes(g0, g, types, processed, exempt)
    && OldScalesFit(g0, g, types, scale, b)
    && (forall p: NodeId :: p in processed ==> p < |g.operands| && MeetsNoRaw(g, types, p))
  }

  // ----- an encoding changes no value -----

  lemma EncodeInterchangeable(size: nat, g: Graph, types: TypeMap, o: NodeId)
    requires WellFormed(g) && Acyclic(g) && Typed(g, types) && SourceArity(g) && Live(g, o)
      && TypeAt(types, o) != Cipher
    ensures Interchangeable(size, AddNode(g, Encode, [o]), o, |g.operands|)
  {
    var r, x := AddNode(g, Encode, [o]), |g.operands|;
    AddNodeWellFormed(g, Encode, [o]);
    forall env
      ensures SameUnder(r, SlotSem(size, env), o, x)
    {
      EncodeSlots(size, r, env, o, x);
    }
    forall v | Interprets(r, CipherSem(), v)
      ensures v[o] == v[x]
    {
      EncodeFlags(g, types, o, v);
    }
  }

  lemma EncodeSlots(size: nat, r: Graph, env: NodeId -> Slots, o: NodeId, x: NodeId)
    requires WellFormed(r) && Live(r, o) && Live(r, x) && r.op[x].Encode? && r.operands[x] == [o]
    ensures SameUnder(r, SlotSem(size, env), o, x)
  {
    forall v | Interprets(r, SlotSem(size, env), v)
      ensures v[o] == v[x]
    {
      assert Args(r, v, x) == [v[o]];
      assert v[o] == Meaning(size, env, o, r.op[o], Args(r, v, o));
      assert v[x] == Meaning(size, env, x, r.op[x], Args(r, v, x));
      hide Interprets, WellFormed;
      assert Nth([v[o]], 0) == v[o];
    }
  }

  lemma EncodeFlags(g: Graph, types: TypeMap, o: NodeId, v: seq<bool>)
    requires WellFormed(g) && Acyclic(g) && Typed(g, types) && SourceArity(g) && Live(g, o)
      && TypeAt(types, o) != Cipher
    requires Interprets(AddNode(g, Encode, [o]), CipherSem(), v)
    ensures v[o] == v[|g.operands|]
  {
    var r, x := AddNode(g, Encode, [o]), |g.operands|;
    AddNodeWellFormed(g, Encode, [o]);
    InterpretsBelow(g, Encode, [o], v);
    TypedInterprets(g, types);
    var rank :| Ranked(g, rank);
    InterpretationUnique(g, CipherSem(), v[..x], Flags(g, types), rank, o);
    assert Live(r, x) && r.op[x] == Encode;
    assert v[x] == Encrypted(Encode, Args(r, v, x));
  }

  lemma InterpretsBelow(g: Graph, op: Op, operands: seq<NodeId>, v: seq<bool>)
    requires WellFormed(g) && Interprets(AddNode(g, op, operands), CipherSem(), v)
    requires forall i: nat :: i < |operands| ==> Live(g, operands[i])
    ensures Interprets(g, CipherSem(), v[..|g.operands|])
  {
    var r, w := AddNode(g, op, operands), v[..|g.operands|];
    AddNodeWellFormed(g, op, operands);
    forall n: NodeId | Live(g, n)
      ensures w[n] == CipherSem()(n, g.op[n], Args(g, w, n))
    {
      assert Live(r, n);
      assert Args(r, v, n) == Args(g, w, n);
    }
  }

  lemma EncodedRefines(size: nat, g: Graph, types: TypeMap, n: NodeId, o: NodeId)
    requires WellFormed(g) && Acyclic(g) && Typed(g, types) && SourceArity(g) && Live(g, o)
      && TypeAt(types, o) != Cipher
    requires n < |g.operands|
    ensures WellFormed(Encoded(g, n, o)) && Refines(size, g, Encoded(g, n, o))
  {
    hide Refines, Interchangeable, Typed, SourceArity, Acyclic;
    var g1 := AddNode(g, Encode, [o]);
    AddNodeWellFormed(g, Encode, [o]);
    AddNodeRefines(size, g, Encode, [o]);
    EncodeInterchangeable(size, g, types, o);
    ReplaceWellFormed(g1, n, o, |g.operands|);
    ReplaceRefines(size, g1, n, o, |g.operands|);
    RefinesTransitive(size, g, g1, Encoded(g, n, o));
  }

  lemma EncodedChains(g: Graph, n: NodeId, o: NodeId)
    requires WellFormed(g) && Live(g, o) && n < |g.operands|
    ensures ChainsKept(g, Encoded(g, n, o))
  {
    var g1, x := AddNode(g, Encode, [o]), |g.operands|;
    AddNodeWellFormed(g, Encode, [o]);
    AddNodeExtends<nat>(g, ChainSem(), Encode, [o]);
    EncodeChain(g1, o, x);
    hide SameUnder;
    ReplaceExtends<nat>(g1, ChainSem(), n, o, x);
    ChainsTransitive(g, g1, Encoded(g, n, o));
  }

  lemma EncodeChain(r: Graph, o: NodeId, x: NodeId)
    requires WellFormed(r) && Live(r, o) && Live(r, x) && r.op[x].Encode? && r.operands[x] == [o]
    ensures SameUnder<nat>(r, ChainSem(), o, x)
  {
    forall v | Interprets<nat>(r, ChainSem(), v)
      ensures v[o] == v[x]
    {
      var c: nat := v[o];
      assert Args<nat>(r, v, x) == [c];
      assert v[x] == ChainOf(r.op[x], [c]);
      MaxIs([c], c);
    }
  }

  lemma EncodedAcyclic(g: Graph, n: NodeId, i: nat)
    requires Acyclic(g) && |g.op| == |g.operands| && n < |g.operands| && i < |g.operands[n]|
    ensures Acyclic(Encoded(g, n, g.operands[n][i]))
  {
    var rank :| Ranked(g, rank);
    var o := g.operands[n][i];
    RankAddNode(g, rank, Encode, [o], rank[o]);
    RankReplace(AddNode(g, Encode, [o]), NewRank(rank, rank[o]), n, o, |g.operands|);
  }

  lemma EncodedAlone(g: Graph, n: NodeId, i: nat)
    requires InRange(g) && n < |g.operands| && i < |g.operands[n]|
    ensures OutputsAlone(g) ==> OutputsAlone(Encoded(g, n, g.operands[n][i]))
  {
    hide OutputsAlone;
    var o := g.operands[n][i];
    EncodedShape(g, n, o);
    ReroutedAlone(g, Encoded(g, n, o), n, o, |g.operands|);
  }

  lemma EncodedUsed(g: Graph, n: NodeId, i: nat)
    requires InRange(g) && n < |g.operands| && i < |g.operands[n]|
    ensures UsedKept(g, Encoded(g, n, g.operands[n][i]))
  {
    hide OutputsAlone;
    var o, x := g.operands[n][i], |g.operands|;
    var r := Encoded(g, n, o);
    EncodedShape(g, n, o);
    EncodedAlone(g, n, i);
    hide InRange;
    UsedBy(r, x, 0);
    UsedBy(r, n, i);
    forall m: NodeId | m < x && IsUsed(g, m) && m != o
      ensures IsUsed(r, m)
    {
      var u, j := UserOf(g, m);
      UsedBy(r, u, j);
    }
    UsedBy(g, n, i);
    forall m: NodeId | m < x && IsUsed(r, m)
      ensures IsUsed(g, m)
    {
      var u, j := UserOf(r, m);
      if u < x {
        UsedBy(g, u, j);
      }
    }
  }

  lemma EncodedOnce(g: Graph, types: TypeMap, n: NodeId, i: nat)
    requires WellFormed(g) && EncodesOnce(g) && Typed(g, types) && SourceArity(g)
    requires n < |g.operands| && NeedsEncode(g, types, n, i)
    ensures EncodesOnce(Encoded(g, n, g.operands[n][i]))
  {
    var o, x := g.operands[n][i], |g.operands|;
    var r := Encoded(g, n, o);
    EncodedShape(g, n, o);
    assert Live(g, o) && !g.op[o].Encode?;
    forall u: NodeId, k: nat, w: NodeId, j: nat | SharedEncode(r, u, k, w, j)
      ensures u == w
    {
      var e := r.operands[u][k];
      SharedBefore(g, n, o, u, k);
      SharedBefore(g, n, o, w, j);
      if e != x {
        assert SharedEncode(g, u, k, w, j);
      }
    }
  }

  lemma SharedBefore(g: Graph, n: NodeId, o: NodeId, u: NodeId, k: nat)
    requires WellFormed(g) && n < |g.operands| && o < |g.op| && !g.op[o].Encode?
    requires var r := Encoded(g, n, o);
      u < |r.operands| && k < |r.operands[u]| && r.operands[u][k] < |r.op| && r.op[r.operands[u][k]].Encode?
    ensures u < |g.operands| && k < |g.operands[u]|
    ensures var e := Encoded(g, n, o).operands[u][k];
      if e == |g.operands| then u == n else e == g.operands[u][k] && g.op[e].Encode?
  {
    EncodedShape(g, n, o);
    if u < |g.operands| {
      assert Live(g, g.operands[u][k]);
    }
  }

  // ----- one visit -----

  lemma TypesAfterEncode(g: Graph, types: TypeMap, n: NodeId, i: nat, r: Graph, types': TypeMap)
    requires WellFormed(g) && Typed(g, types) && SourceArity(g) && Arity(g)
    requires n < |g.operands| && NeedsEncode(g, types, n, i)
    requires r == Encoded(g, n, g.operands[n][i]) && types' == WithType(types, |g.operands|, Plain)
    ensures Typed(r, types') && SourceArity(r) && Arity(r)
  {
    EncodedCount(g, n, g.operands[n][i]);
    hide Encoded, NeedsEncode, HasCipherOperand, Inferred, WellFormed, Live;
    forall u: NodeId | Live(r, u)
      ensures u < |r.operands| && TypeAt(types', u) == Inferred(r, types', u)
      ensures |r.operands[u]| == if IsSourceOp(r.op[u]) then 0 else if IsBinaryOp(r.op[u]) then 2 else 1
      ensures IsSourceOp(r.op[u]) <==> r.operands[u] == []
    {
      NodeAfterEncode(g, types, n, i, r, types', u);
    }
  }

  lemma EncodedCount(g: Graph, n: NodeId, o: NodeId)
    requires WellFormed(g) && n < |g.operands|
    ensures |Encoded(g, n, o).op| == |Encoded(g, n, o).operands|
  {
    EncodedShape(g, n, o);
  }

  lemma NodeAfterEncode(g: Graph, types: TypeMap, n: NodeId, i: nat, r: Graph, types': TypeMap, u: NodeId)
    requires WellFormed(g) && Typed(g, types) && SourceArity(g) && Arity(g)
    requires n < |g.operands| && NeedsEncode(g, types, n, i)
    requires r == Encoded(g, n, g.operands[n][i]) && types' == WithType(types, |g.operands|, Plain)
    requires Live(r, u)
    ensures u < |r.operands| && u < |r.op| && TypeAt(types', u) == Inferred(r, types', u)
    ensures |r.operands[u]| == if IsSourceOp(r.op[u]) then 0 else if IsBinaryOp(r.op[u]) then 2 else 1
    ensures IsSourceOp(r.op[u]) <==> r.operands[u] == []
  {
    EncodedShape(g, n, g.operands[n][i]);
    hide Encoded, HasCipherOperand;
    if u < |g.operands| {
      assert |r.operands[u]| == |g.operands[u]| && r.op[u] == g.op[u] && Live(g, u);
      hide NeedsEncode;
      CipherOperandKept(g, types, n, i, r, types', u);
    }
  }

  lemma CipherOperandKept(g: Graph, types: TypeMap, n: NodeId, i: nat, r: Graph, types': TypeMap, u: NodeId)
    requires WellFormed(g) && n < |g.operands| && NeedsEncode(g, types, n, i)
    requires r == Encoded(g, n, g.operands[n][i]) && types' == WithType(types, |g.operands|, Plain)
    requires u < |g.operands|
    ensures HasCipherOperand(r, types', u) <==> HasCipherOperand(g, types, u)
  {
    EncodedShape(g, n, g.operands[n][i]);
    forall j: nat | j < |g.operands[u]|
      ensures TypeAt(types', r.operands[u][j]) == Cipher <==> TypeAt(types, g.operands[u][j]) == Cipher
    {
      assert Live(g, g.operands[u][j]);
    }
  }

  lemma GrownKept(g0: Graph, g: Graph, n: NodeId, i: nat)
    requires Grown(g0, g) && n < |g0.operands| && i < |g.operands[n]|
    ensures Grown(g0, Encoded(g, n, g.operands[n][i]))
  {
    EncodedShape(g, n, g.operands[n][i]);
  }

  lemma OperandLive(g: Graph, n: NodeId, i: nat)
    requires WellFormed(g) && n < |g.operands| && i < |g.operands[n]|
    ensures Live(g, g.operands[n][i]) && |g.op| == |g.operands|
  {
  }

  lemma VisitShape(size: nat, g0: Graph, g: Graph, types: TypeMap, scale: ScaleMap, n: NodeId, i: nat,
                   r: Graph, types': TypeMap, scale': ScaleMap)
    requires EncodeShape(size, g0, g, types) && n < |g0.operands| && n < |g.operands| && n < |g.op|
    requires EncodedOperand(g, types, scale, n, i, r, types', scale')
    ensures EncodeShape(size, g0, r, types')
  {
    hide Refines, Acyclic, UsedKept, Typed, WellFormed, Encoded, Grown, Arity, SourceArity, Live, EncodesOnce,
         ChainsKept;
    OperandLive(g, n, i);
    EncodedChains(g, n, g.operands[n][i]);
    ChainsTransitive(g0, g, r);
    EncodedOnce(g, types, n, i);
    EncodedAcyclic(g, n, i);
    WellFormedRange(g);
    EncodedUsed(g, n, i);
    EncodedRefines(size, g, types, n, g.operands[n][i]);
    TypesAfterEncode(g, types, n, i, r, types');
    GrownKept(g0, g, n, i);
    RefinesTransitive(size, g0, g, r);
    UsedTransitive(g0, g, r);
  }

  lemma SumKept(a: seq<NodeId>, scale: ScaleMap, b: seq<NodeId>, scale': ScaleMap)
    requires |a| == |b| == 2
    requires ScaleAt(scale, a[0]) == ScaleAt(scale', b[0]) && ScaleAt(scale, a[1]) == ScaleAt(scale', b[1])
    ensures SumScale(a, scale) == SumScale(b, scale')
  {
    assert a == [a[0], a[1]] && b == [b[0], b[1]];
    Rescaling.TwoScales(a[0], a[1], scale);
    Rescaling.TwoScales(b[0], b[1], scale');
  }

  /** The visited node itself. */
  lemma VisitedRule(g: Graph, types: TypeMap, scale: ScaleMap, b: Bits, n: NodeId, i: nat, r: Graph, types': TypeMap,
                    scale': ScaleMap)
    requires WellFormed(g) && Arity(g) && Typed(g, types) && Live(g, n)
    requires ScaleRule(g, types, scale, b, n) && EncodedOperand(g, types, scale, n, i, r, types', scale')
    ensures n < |r.op| && r.op[n] == g.op[n] && n < |r.operands| && ScaleRule(r, types', scale', b, n)
      && MeetsNoRaw(r, types', n)
  {
    VisitedOperands(g, types, scale, n, i, r, types', scale');
    VisitedIsCipher(g, types, n, i);
    hide Encoded, WellFormed, Arity, Typed, EncodedOperand, NeedsEncode;
    if g.op[n].Mul? {
      SumKept(g.operands[n], scale, r.operands[n], scale');
    } else {
      assert OperandsMeet(g, types, scale, n);
      MeetKept(g, types, scale, n, i, r, types', scale');
    }
  }

  lemma VisitedIsCipher(g: Graph, types: TypeMap, n: NodeId, i: nat)
    requires Arity(g) && Typed(g, types) && Live(g, n) && NeedsEncode(g, types, n, i)
    ensures IsBinaryOp(g.op[n]) && TypeAt(types, n) == Cipher
  {
    assert HasCipherOperand(g, types, n);
    assert TypeAt(types, n) == Inferred(g, types, n);
  }

  lemma VisitedOperands(g: Graph, types: TypeMap, scale: ScaleMap, n: NodeId, i: nat, r: Graph, types': TypeMap,
                        scale': ScaleMap)
    requires WellFormed(g) && n < |g.operands| && EncodedOperand(g, types, scale, n, i, r, types', scale')
    ensures n < |r.op| && r.op[n] == g.op[n] && n < |r.operands| && |r.operands[n]| == |g.operands[n]| == 2 && i < 2
    ensures r.operands[n][1 - i] == g.operands[n][1 - i] && TypeAt(types', r.operands[n][i]) == Plain
    ensures TypeAt(types', g.operands[n][1 - i]) == TypeAt(types, g.operands[n][1 - i]) == Cipher
    ensures ScaleAt(scale', g.operands[n][1 - i]) == ScaleAt(scale, g.operands[n][1 - i])
    ensures ScaleAt(scale', n) == ScaleAt(scale, n) && TypeAt(types', n) == TypeAt(types, n)
    ensures ScaleAt(scale', r.operands[n][i]) == EncodeScale(g, scale, n, i)
  {
    var o, other := g.operands[n][i], g.operands[n][1 - i];
    EncodedShape(g, n, o);
    assert Live(g, g.operands[n][0]) && Live(g, g.operands[n][1]);
    assert r.operands[n][i] == |g.operands|;
  }

  lemma MeetKept(g: Graph, types: TypeMap, scale: ScaleMap, n: NodeId, i: nat, r: Graph, types': TypeMap,
                 scale': ScaleMap)
    requires n < |g.operands| && n < |r.operands| && |g.operands[n]| == |r.operands[n]| == 2 && i < 2
    requires OperandsMeet(g, types, scale, n) && TypeAt(types, g.operands[n][1 - i]) == Cipher
    requires r.operands[n][1 - i] == g.operands[n][1 - i] && ScaleAt(scale', n) == ScaleAt(scale, n)
    requires ScaleAt(scale', r.operands[n][i]) == ScaleAt(scale, g.operands[n][1 - i])
    requires ScaleAt(scale', g.operands[n][1 - i]) == ScaleAt(scale, g.operands[n][1 - i])
    ensures OperandsMeet(r, types', scale', n)
  {
    forall j: nat | j < |r.operands[n]|
      ensures ScaleAt(scale', r.operands[n][j]) == ScaleAt(scale', n)
    {
      assert j == i || j == 1 - i;
    }
  }

  lemma VisitScales(size: nat, g0: Graph, g: Graph, types: TypeMap, scale: ScaleMap, b: Bits, n: NodeId, i: nat,
                    r: Graph, types': TypeMap, scale': ScaleMap)
    requires EncodeShape(size, g0, g, types) && OldScalesFit(g0, g, types, scale, b) && n < |g0.operands|
      && n < |g.operands| && n < |g.op|
    requires EncodedOperand(g, types, scale, n, i, r, types', scale') && |r.op| == |r.operands|
    ensures |g0.operands| <= |r.operands| && OldScalesFit(g0, r, types', scale', b) && MeetsNoRaw(r, types', n)
  {
    VisitedLive(g, types, n, i);
    VisitedRule(g, types, scale, b, n, i, r, types', scale');
    assert WellFormed(g) && |g0.operands| <= |g.operands|;
    hide EncodeShape, OldScalesFit, ScaleRule, WellFormed;
    OthersFit(g0, g, types, scale, b, n, i, r, types', scale');
  }

  lemma VisitedLive(g: Graph, types: TypeMap, n: NodeId, i: nat)
    requires WellFormed(g) && n < |g.operands| && NeedsEncode(g, types, n, i)
    ensures Live(g, n) && Live(g, g.operands[n][i]) && Live(g, g.operands[n][1 - i])
  {
  }

  lemma OthersFit(g0: Graph, g: Graph, types: TypeMap, scale: ScaleMap, b: Bits, n: NodeId, i: nat,
                  r: Graph, types': TypeMap, scale': ScaleMap)
    requires WellFormed(g) && |g0.operands| <= |g.operands| && OldScalesFit(g0, g, types, scale, b)
    requires n < |g.operands| && EncodedOperand(g, types, scale, n, i, r, types', scale')
    requires n < |r.operands| && |r.op| == |r.operands| && ScaleRule(r, types', scale', b, n)
    requires Live(g, n) && Live(g, g.operands[n][i]) && Live(g, g.operands[n][1 - i])
    ensures |g0.operands| <= |r.operands| && OldScalesFit(g0, r, types', scale', b)
  {
    EncodedShape(g, n, g.operands[n][i]);
    hide ScaleRule, NeedsEncode, Encoded;
    forall p: NodeId | Live(r, p)
      ensures ScaleAt(scale', p) > 0
    {
      assert p < |g.operands| ==> Live(g, p);
    }
    forall p: NodeId | p < |g0.operands| && Live(r, p) && p != n
      ensures ScaleRule(r, types', scale', b, p)
    {
      assert Live(g, p);
      OtherFits(g, types, scale, b, n, i, r, types', scale', p);
    }
  }

  lemma OtherFits(g: Graph, types: TypeMap, scale: ScaleMap, b: Bits, n: NodeId, i: nat,
                  r: Graph, types': TypeMap, scale': ScaleMap, p: NodeId)
    requires WellFormed(g) && n < |g.operands| && EncodedOperand(g, types, scale, n, i, r, types', scale')
    requires p < |g.operands| && p < |r.operands| && |r.op| == |r.operands| && p != n
      && ScaleRule(g, types, scale, b, p)
    ensures ScaleRule(r, types', scale', b, p)
  {
    EncodedShape(g, n, g.operands[n][i]);
    hide ScaleRule, NeedsEncode, Encoded;
    forall j: nat | j < |g.operands[p]|
      ensures g.operands[p][j] < |g.operands|
    {
      assert Live(g, g.operands[p][j]);
    }
    Rescaling.RuleFrame(g, types, scale, r, types', scale', b, p);
  }

  /** r is g with an encoding of o put between o and n. */
  ghost predicate EncodedAt(g: Graph, types: TypeMap, n: NodeId, o: NodeId, r: Graph, types': TypeMap)
  {
    && n < |g.operands| && |r.operands| == |g.operands| + 1 && r.sources == g.sources
    && |g.operands[n]| == 2 && TypeAt(types, n) == Cipher && o in g.operands[n] && o < |g.operands|
         && TypeAt(types, o) == Raw && r.operands[|g.operands|] == [o]
    && r.operands[n] == Subst(g.operands[n], o, |g.operands|)
    && (forall u: NodeId :: u < |g.operands| && u != n ==> r.operands[u] == g.operands[u])
    && (forall u: NodeId, j: nat :: u < |g.operands| && j < |g.operands[u]| ==> g.operands[u][j] < |g.operands|)
    && (forall p: NodeId :: p < |g.operands| ==> TypeAt(types', p) == TypeAt(types, p))
  }

  lemma MeetsCipher(g: Graph, types: TypeMap, n: NodeId, i: nat)
    requires Typed(g, types) && SourceArity(g) && Arity(g) && n < |g.operands| && NeedsEncode(g, types, n, i)
    ensures TypeAt(types, n) == Cipher
  {
    assert Live(g, n) && HasCipherOperand(g, types, n);
  }

  lemma EncodedHere(g: Graph, types: TypeMap, scale: ScaleMap, n: NodeId, i: nat, r: Graph, types': TypeMap,
                    scale': ScaleMap)
    requires WellFormed(g) && Typed(g, types) && SourceArity(g) && Arity(g) && n < |g.operands|
    requires EncodedOperand(g, types, scale, n, i, r, types', scale')
    ensures i < |g.operands[n]| && EncodedAt(g, types, n, g.operands[n][i], r, types')
  {
    hide Encoded, Arity, SourceArity, Typed, HasCipherOperand;
    EncodedShape(g, n, g.operands[n][i]);
    MeetsCipher(g, types, n, i);
    forall m: NodeId, j: nat | m < |g.operands| && j < |g.operands[m]|
      ensures g.operands[m][j] < |g.operands|
    {
      assert Live(g, g.operands[m][j]);
    }
  }

  lemma VisitExempt(g0: Graph, g: Graph, types: TypeMap, processed: set<NodeId>, exempt: set<NodeId>,
                    n: NodeId, o: NodeId, r: Graph, types': TypeMap, processed': set<NodeId>, exempt': set<NodeId>)
    requires |g0.operands| <= |g.operands| && ExemptNodes(g0, g, types, processed, exempt)
    requires n < |g0.operands| && n !in processed && Unblocked(g.operands, processed, n)
      && EncodedAt(g, types, n, o, r, types')
    requires processed' == processed + {n} && exempt' == exempt + {|g.operands|}
    ensures |g0.operands| <= |r.operands| && ExemptNodes(g0, r, types', processed', exempt')
  {
    var x := |g.operands|;
    var k: nat :| k < |g.operands[n]| && g.operands[n][k] == o;
    assert o in processed && g.operands[n][k] !in exempt;
    forall y: NodeId, j: nat | |g0.operands| <= y < |r.operands| && j < |r.operands[y]|
      ensures r.operands[y][j] in processed' && TypeAt(types', r.operands[y][j]) == Raw
    {
      if y < x {
        assert g.operands[y][j] in processed && g.operands[y][j] < x;
      }
    }
    forall m: NodeId, j: nat | m < |r.operands| && j < |r.operands[m]| && r.operands[m][j] in exempt'
      ensures m in processed' && |r.operands[m]| == 2 && TypeAt(types', m) == Cipher
    {
      if m < x && m != n {
        assert g.operands[m][j] < x;
      }
    }
  }

  lemma VisitLocal(g: Graph, types: TypeMap, processed: set<NodeId>, n: NodeId, o: NodeId, r: Graph, types': TypeMap)
    requires EncodedAt(g, types, n, o, r, types') && n !in processed
    requires forall p: NodeId :: p in processed ==> p < |g.operands| && MeetsNoRaw(g, types, p)
    ensures forall p: NodeId :: p in processed ==> p < |r.operands| && MeetsNoRaw(r, types', p)
  {
    forall p: NodeId | p in processed
      ensures p < |r.operands| && MeetsNoRaw(r, types', p)
    {
      assert p < |g.operands| && MeetsNoRaw(g, types, p) && p != n && r.operands[p] == g.operands[p];
    }
  }

  lemma VisitRewrites(g0: Graph, g: Graph, types: TypeMap, processed: set<NodeId>, processed': set<NodeId>,
                      exempt': set<NodeId>, n: NodeId, o: NodeId, r: Graph, types': TypeMap)
    requires EncodedAt(g, types, n, o, r, types') && processed' == processed + {n} && |g.operands| in exempt'
    requires |g0.operands| <= |r.operands| && ExemptNodes(g0, r, types', processed', exempt')
    ensures LocalRewrite(g, r, processed, n, exempt')
  {
    assert |r.operands[n]| == |g.operands[n]|;
    forall m: NodeId | m < |g.operands| && g.operands[m] != []
      ensures r.operands[m] != []
    {
    }
  }

  lemma VisitNothing(g0: Graph, g: Graph, types: TypeMap, processed: set<NodeId>, exempt: set<NodeId>, n: NodeId)
    requires WellFormed(g) && |g0.operands| <= |g.operands| && ExemptNodes(g0, g, types, processed, exempt)
    requires Typed(g, types) && Arity(g) && Live(g, n)
    requires !NeedsEncode(g, types, n, 0) && !NeedsEncode(g, types, n, 1)
    ensures ExemptNodes(g0, g, types, processed + {n}, exempt) && MeetsNoRaw(g, types, n)
    ensures LocalRewrite(g, g, processed, n, exempt)
  {
    if TypeAt(types, n) == Cipher && g.operands[n] != [] {
      assert HasCipherOperand(g, types, n);
      if |g.operands[n]| == 2 {
        assert TypeAt(types, g.operands[n][0]) == Cipher || TypeAt(types, g.operands[n][1]) == Cipher;
      }
    }
  }

  lemma VisitKeeps(size: nat, g0: Graph, g: Graph, types: TypeMap, scale: ScaleMap, b: Bits, processed: set<NodeId>,
                   exempt: set<NodeId>, n: NodeId, i: nat, r: Graph, types': TypeMap, scale': ScaleMap,
                   processed': set<NodeId>, exempt': set<NodeId>)
    requires EncodeInv(size, g0, g, types, scale, b, processed, exempt) && WellFormed(r)
    requires n < |g0.operands| && n < |g.operands| && n !in processed && Unblocked(g.operands, processed, n)
    requires n < |g.op| && EncodedOperand(g, types, scale, n, i, r, types', scale')
    requires processed' == processed + {n} && exempt' == exempt + {|g.operands|}
    ensures EncodeInv(size, g0, r, types', scale', b, processed', exempt')
    ensures LocalRewrite(g, r, processed, n, exempt')
  {
    hide EncodeInv, EncodeShape, ExemptNodes, OldScalesFit, MeetsNoRaw, WellFormed, LocalRewrite, Encoded, Unblocked,
         EncodedOperand, EncodedAt, Live;
    InvParts(size, g0, g, types, scale, b, processed, exempt);
    ShapeTyped(size, g0, g, types);
    VisitShape(size, g0, g, types, scale, n, i, r, types', scale');
    RewrittenCount(r);
    VisitScales(size, g0, g, types, scale, b, n, i, r, types', scale');
    EncodedHere(g, types, scale, n, i, r, types', scale');
    var o := g.operands[n][i];
    VisitExempt(g0, g, types, processed, exempt, n, o, r, types', processed', exempt');
    VisitLocal(g, types, processed, n, o, r, types');
    VisitRewrites(g0, g, types, processed, processed', exempt', n, o, r, types');
    InvMade(size, g0, r, types', scale', b, processed', exempt');
  }

  lemma ShapeTyped(size: nat, g0: Graph, g: Graph, types: TypeMap)
    requires EncodeShape(size, g0, g, types)
    ensures Typed(g, types) && SourceArity(g) && Arity(g)
  {
  }

  lemma RewrittenCount(r: Graph)
    requires WellFormed(r)
    ensures |r.op| == |r.operands|
  {
  }

  lemma InvParts(size: nat, g0: Graph, g: Graph, types: TypeMap, scale: ScaleMap, b: Bits, processed: set<NodeId>,
                 exempt: set<NodeId>)
    requires EncodeInv(size, g0, g, types, scale, b, processed, exempt)
    ensures EncodeShape(size, g0, g, types) && |g0.operands| <= |g.operands| && |g.op| == |g.operands| && WellFormed(g)
    ensures ExemptNodes(g0, g, types, processed, exempt) && OldScalesFit(g0, g, types, scale, b)
    ensures forall p: NodeId :: p in processed ==> p < |g.operands| && MeetsNoRaw(g, types, p)
  {
  }

  lemma InvMade(size: nat, g0: Graph, g: Graph, types: TypeMap, scale: ScaleMap, b: Bits, processed: set<NodeId>,
                exempt: set<NodeId>)
    requires EncodeShape(size, g0, g, types) && |g0.operands| <= |g.operands| && |g.op| == |g.operands|
    requires ExemptNodes(g0, g, types, processed, exempt) && OldScalesFit(g0, g, types, scale, b)
    requires forall p: NodeId :: p in processed ==> p < |g.operands| && MeetsNoRaw(g, types, p)
    ensures EncodeInv(size, g0, g, types, scale, b, processed, exempt)
  {
  }

  lemma VisitSkips(size: nat, g0: Graph, g: Graph, types: TypeMap, scale: ScaleMap, b: Bits, processed: set<NodeId>,
                   exempt: set<NodeId>, n: NodeId)
    requires EncodeInv(size, g0, g, types, scale, b, processed, exempt) && Live(g, n)
    requires !NeedsEncode(g, types, n, 0) && !NeedsEncode(g, types, n, 1)
    ensures EncodeInv(size, g0, g, types, scale, b, processed + {n}, exempt)
    ensures LocalRewrite(g, g, processed, n, exempt)
  {
    VisitNothing(g0, g, types, processed, exempt, n);
  }

  // ----- the pass -----

  lemma EncodeStart(size: nat, g: Graph, types: TypeMap, scale: ScaleMap, b: Bits)
    requires WellFormed(g) && Acyclic(g) && Typed(g, types) && SourceArity(g) && Arity(g)
    requires Rescaling.ScalesFit(g, types, scale, b)
    requires forall m: NodeId :: m < |g.op| ==> !g.op[m].Encode?
    ensures EncodeInv(size, g, g, types, scale, b, {}, {})
  {
    UsedReflexive(g);
    RefinesReflexive(size, g);
    ChainsReflexive(g);
  }

  lemma VisitFacts(size: nat, g0: Graph, g: Graph, types: TypeMap, scale: ScaleMap, b: Bits, processed: set<NodeId>,
                   exempt: set<NodeId>, n: NodeId, uses: seq<seq<NodeId>>)
    requires EncodeInv(size, g0, g, types, scale, b, processed, exempt)
    requires n !in processed && n !in exempt && Live(g, n) && UsesInverse(g.operands, uses)
    ensures n < |g0.operands| && n < |g.op| && |g.op| == |g.operands| && |g.operands[n]| <= 2 && |uses| == |g.operands|
    ensures forall m: NodeId :: m < |g.operands| && n in g.operands[m] ==> m in uses[n]
    ensures forall i: nat :: i < |uses[n]| ==>
      uses[n][i] < |g.operands| && n in g.operands[uses[n][i]] && uses[n][i] !in exempt
    ensures forall i: nat :: i < |uses[n]| ==> uses[n][i] != |g.operands|
    ensures n !in g.operands[n]
  {
    Rescaling.UsersOf(g, uses, n);
    var rank :| Ranked(g, rank);
    forall i: nat | i < |uses[n]|
      ensures uses[n][i] !in exempt
    {
      var j: nat :| j < |g.operands[uses[n][i]]| && g.operands[uses[n][i]][j] == n;
    }
  }

  lemma UsersNotExempt(size: nat, g0: Graph, r: Graph, types: TypeMap, scale: ScaleMap, b: Bits, processed: set<NodeId>,
                       exempt: set<NodeId>, n: NodeId)
    requires EncodeInv(size, g0, r, types, scale, b, processed, exempt) && n < |r.operands| && n !in r.operands[n]
    requires forall x: NodeId, i: nat :: x in exempt && x < |r.operands| && i < |r.operands[x]| ==>
      r.operands[x][i] != n
    ensures forall m: NodeId :: m < |r.operands| && n in r.operands[m] ==> m !in exempt
    ensures r.sources !! exempt
  {
  }

  /** New nodes of r do not use n. */
  lemma NewDoNotUse(g0: Graph, g: Graph, types: TypeMap, scale: ScaleMap, processed: set<NodeId>, exempt: set<NodeId>,
                    n: NodeId, i: nat, r: Graph, types': TypeMap, scale': ScaleMap)
    requires WellFormed(g) && |g0.operands| <= |g.operands| && ExemptNodes(g0, g, types, processed, exempt)
    requires n < |g0.operands| && n !in processed && n !in g.operands[n]
    requires EncodedOperand(g, types, scale, n, i, r, types', scale')
    ensures n !in r.operands[n]
    ensures forall x: NodeId, j: nat :: x in exempt + {|g.operands|} && x < |r.operands| && j < |r.operands[x]| ==>
      r.operands[x][j] != n
  {
    EncodedShape(g, n, g.operands[n][i]);
    SubstMembers(g.operands[n], g.operands[n][i], |g.operands|, n);
  }

  lemma OldDoNotUse(size: nat, g0: Graph, g: Graph, types: TypeMap, scale: ScaleMap, b: Bits, processed: set<NodeId>,
                    exempt: set<NodeId>, n: NodeId)
    requires EncodeInv(size, g0, g, types, scale, b, processed, exempt) && n !in processed
    ensures forall x: NodeId, j: nat :: x in exempt && x < |g.operands| && j < |g.operands[x]| ==> g.operands[x][j] != n
  {
  }

  ghost predicate VisitDone(size: nat, g0: Graph, g: Graph, r: Graph, types: TypeMap, scale: ScaleMap, b: Bits,
                            processed: set<NodeId>, exempt: set<NodeId>, n: NodeId, exempt': set<NodeId>)
  {
    && EncodeInv(size, g0, r, types, scale, b, processed + {n}, exempt')
    && LocalRewrite(g, r, processed, n, exempt')
    && exempt <= exempt' && n !in exempt' && r.sources !! exempt'
    && (forall m: NodeId :: m in exempt' - exempt ==> |g.operands| <= m < |r.operands|)
    && (forall m: NodeId :: m in exempt' ==> m in exempt || m == |g.operands|)
    && (forall m: NodeId :: m < |r.operands| && n in r.operands[m] ==> m !in exempt')
  }

  lemma VisitEffect(size: nat, g0: Graph, g: Graph, types: TypeMap, scale: ScaleMap, b: Bits, processed: set<NodeId>,
                    exempt: set<NodeId>, n: NodeId, i: nat, r: Graph, types': TypeMap, scale': ScaleMap,
                      exempt': set<NodeId>)
    requires EncodeInv(size, g0, g, types, scale, b, processed, exempt) && WellFormed(r)
    requires n < |g0.operands| && n < |g.operands| && n !in processed && Unblocked(g.operands, processed, n)
      && n !in g.operands[n]
    requires n < |g.op| && EncodedOperand(g, types, scale, n, i, r, types', scale')
    requires exempt' == exempt + {|g.operands|}
    ensures VisitDone(size, g0, g, r, types', scale', b, processed, exempt, n, exempt')
  {
    ghost var processed' := processed + {n};
    hide EncodeInv, EncodeShape, ExemptNodes, OldScalesFit, MeetsNoRaw, WellFormed, LocalRewrite, Encoded, Unblocked,
         EncodedOperand, Live;
    InvParts(size, g0, g, types, scale, b, processed, exempt);
    EncodedGrows(g, types, scale, n, i, r, types', scale');
    ExemptBound(g0, g, types, processed, exempt, n);
    NewDoNotUse(g0, g, types, scale, processed, exempt, n, i, r, types', scale');
    VisitKeeps(size, g0, g, types, scale, b, processed, exempt, n, i, r, types', scale', processed', exempt');
    UsersNotExempt(size, g0, r, types', scale', b, processed', exempt', n);
  }

  lemma EncodedGrows(g: Graph, types: TypeMap, scale: ScaleMap, n: NodeId, i: nat, r: Graph, types': TypeMap,
                     scale': ScaleMap)
    requires |g.op| == |g.operands| && n < |g.operands| && EncodedOperand(g, types, scale, n, i, r, types', scale')
    ensures |r.operands| == |g.operands| + 1
  {
    EncodedShape(g, n, g.operands[n][i]);
  }

  lemma ExemptBound(g0: Graph, g: Graph, types: TypeMap, processed: set<NodeId>, exempt: set<NodeId>, n: NodeId)
    requires |g0.operands| <= |g.operands| && ExemptNodes(g0, g, types, processed, exempt) && n < |g0.operands|
    ensures n !in exempt && |g.operands| !in exempt
  {
  }

  lemma SkipEffect(size: nat, g0: Graph, g: Graph, types: TypeMap, scale: ScaleMap, b: Bits, processed: set<NodeId>,
                   exempt: set<NodeId>, n: NodeId)
    requires EncodeInv(size, g0, g, types, scale, b, processed, exempt) && Live(g, n) && n < |g0.operands|
      && n !in processed
    requires !NeedsEncode(g, types, n, 0) && !NeedsEncode(g, types, n, 1) && n !in g.operands[n]
    ensures VisitDone(size, g0, g, g, types, scale, b, processed, exempt, n, exempt)
  {
    InvParts(size, g0, g, types, scale, b, processed, exempt);
    ExemptBound(g0, g, types, processed, exempt, n);
    OldDoNotUse(size, g0, g, types, scale, b, processed, exempt, n);
    assert processed <= processed + {n};
    hide EncodeShape, ExemptNodes, OldScalesFit, MeetsNoRaw, WellFormed, LocalRewrite, NeedsEncode;
    VisitSkips(size, g0, g, types, scale, b, processed, exempt, n);
    hide EncodeInv;
    UsersNotExempt(size, g0, g, types, scale, b, processed + {n}, exempt, n);
  }

  method EncodeStep(d: Dag, e: EncodeInserter, t: DagTraversal, ghost b: Bits, ghost g0: Graph,
                    ghost exempt: set<NodeId>, ghost size: nat)
    returns (n: NodeId, ghost exempt': set<NodeId>)
    requires d.Valid() && t.Consistent({}) && t.work != []
    requires EncodeInv(size, g0, d.G(), e.types, e.scale, b, t.processed, exempt)
    requires FwdInv(d.G(), t.ready, t.processed, Elems(t.work), exempt)
    modifies d, e, t
    ensures d.Valid() && t.Consistent({})
    ensures EncodeInv(size, g0, d.G(), e.types, e.scale, b, t.processed, exempt')
    ensures FwdInv(d.G(), t.ready, t.processed, Elems(t.work), exempt')
    ensures n < |g0.operands| && n !in old(t.processed) && t.processed == old(t.processed) + {n}
    ensures |d.operands| >= old(|d.operands|)
    ensures forall x: NodeId :: x >= |d.operands| ==> TypeAt(e.types, x) == TypeAt(old(e.types), x)
    ensures forall x: NodeId :: x < old(|d.operands|) ==> ScaleAt(e.scale, x) == ScaleAt(old(e.scale), x)
  {
    hide EncodeInv, FwdInv, Frontier, WellFormed, UsesInverse, SinksMatch, LocalRewrite, Unblocked, Live, Erased,
         NeedsEncode, Encoded, EncodedOperand, VisitDone;
    ghost var g, processed, types, scale := d.G(), t.processed, e.types, e.scale;
    FwdPop(g, t.ready, t.processed, t.work, exempt);
    n := t.Pop({});
    VisitFacts(size, g0, g, types, scale, b, processed, exempt, n, d.uses);
    var cands := d.uses[n];
    e.Visit(d, n);
    exempt' := if d.G() == g then exempt else exempt + {|g.operands|};
    EncodeVisited(size, g0, g, types, scale, b, processed, exempt, n, d.G(), e.types, e.scale, exempt');
    TypesBeyond(g, types, scale, n, d.G(), e.types, e.scale);
    VisitDoneFacts(size, g0, g, d.G(), e.types, e.scale, b, processed, exempt, n, exempt');
    FwdFinish(d, t, n, cands, g, processed, exempt, exempt');
  }

  lemma TypesBeyond(g: Graph, types: TypeMap, scale: ScaleMap, n: NodeId, r: Graph, types': TypeMap, scale': ScaleMap)
    requires |g.op| == |g.operands| && n < |g.operands|
    requires || Untouched(g, types, scale, n, r, types', scale')
             || EncodedOperand(g, types, scale, n, 0, r, types', scale')
             || EncodedOperand(g, types, scale, n, 1, r, types', scale')
    ensures |r.operands| >= |g.operands| && forall x: NodeId :: x >= |r.operands| ==>
      TypeAt(types', x) == TypeAt(types, x)
    ensures forall x: NodeId :: x < |g.operands| ==> ScaleAt(scale', x) == ScaleAt(scale, x)
  {
    if !Untouched(g, types, scale, n, r, types', scale') {
      var i := if EncodedOperand(g, types, scale, n, 0, r, types', scale') then 0 else 1;
      EncodedShape(g, n, g.operands[n][i]);
    }
  }

  lemma VisitDoneFacts(size: nat, g0: Graph, g: Graph, r: Graph, types: TypeMap, scale: ScaleMap, b: Bits,
                       processed: set<NodeId>, exempt: set<NodeId>, n: NodeId, exempt': set<NodeId>)
    requires VisitDone(size, g0, g, r, types, scale, b, processed, exempt, n, exempt')
    ensures EncodeInv(size, g0, r, types, scale, b, processed + {n}, exempt')
    ensures LocalRewrite(g, r, processed, n, exempt')
    ensures exempt <= exempt' && n !in exempt' && r.sources !! exempt'
    ensures forall m: NodeId :: m in exempt' - exempt ==> |g.operands| <= m < |r.operands|
    ensures forall m: NodeId :: m in exempt' ==> m in exempt || m == |g.operands|
    ensures forall m: NodeId :: m < |r.operands| && n in r.operands[m] ==> m !in exempt'
  {
  }

  lemma EncodeVisited(size: nat, g0: Graph, g: Graph, types: TypeMap, scale: ScaleMap, b: Bits, processed: set<NodeId>,
                      exempt: set<NodeId>, n: NodeId, r: Graph, types': TypeMap, scale': ScaleMap, exempt': set<NodeId>)
    requires EncodeInv(size, g0, g, types, scale, b, processed, exempt) && WellFormed(r) && Live(g, n)
    requires n < |g0.operands| && n < |g.operands| && n !in processed && Unblocked(g.operands, processed, n)
      && n !in g.operands[n]
    requires n < |g.op|
    requires || Untouched(g, types, scale, n, r, types', scale')
             || EncodedOperand(g, types, scale, n, 0, r, types', scale')
             || EncodedOperand(g, types, scale, n, 1, r, types', scale')
    requires exempt' == if r == g then exempt else exempt + {|g.operands|}
    ensures VisitDone(size, g0, g, r, types', scale', b, processed, exempt, n, exempt')
  {
    if Untouched(g, types, scale, n, r, types', scale') {
      hide EncodeInv, WellFormed, VisitDone, NeedsEncode;
      SkipEffect(size, g0, g, types, scale, b, processed, exempt, n);
    } else {
      var i := if EncodedOperand(g, types, scale, n, 0, r, types', scale') then 0 else 1;
      EncodedDiffers(g, types, scale, n, i, r, types', scale');
      hide EncodeInv, WellFormed, VisitDone, NeedsEncode, EncodedOperand;
      VisitEffect(size, g0, g, types, scale, b, processed, exempt, n, i, r, types', scale', exempt');
    }
  }

  lemma EncodedDiffers(g: Graph, types: TypeMap, scale: ScaleMap, n: NodeId, i: nat, r: Graph, types': TypeMap,
                       scale': ScaleMap)
    requires |g.op| == |g.operands| && n < |g.operands| && EncodedOperand(g, types, scale, n, i, r, types', scale')
    ensures r != g
  {
    EncodedShape(g, n, g.operands[n][i]);
  }

  /** Every scale is positive, products and rescales compute theirs, and all other operations on
      data that is not raw have operands of their own scale. */
  ghost predicate ScalesExact(g: Graph, types: TypeMap, scale: ScaleMap)
  {
    && |g.op| == |g.operands|
    && forall p: NodeId :: Live(g, p) ==> ScaleAt(scale, p) > 0 && ScaleExact(g, types, scale, p)
  }

  ghost predicate ScaleExact(g: Graph, types: TypeMap, scale: ScaleMap, p: NodeId)
    requires p < |g.operands| && p < |g.op|
  {
    TypeAt(types, p) == Raw || g.operands[p] == [] || g.op[p].Encode? ||
    (MeetsNoRaw(g, types, p) &&
     if g.op[p].Mul? then ScaleAt(scale, p) == SumScale(g.operands[p], scale)
     else if g.op[p].Rescale? then ScaleAt(scale, g.operands[p][0]) == ScaleAt(scale, p) + g.op[p].divisor
     else OperandsAtScale(g, scale, p))
  }

  ghost predicate OperandsAtScale(g: Graph, scale: ScaleMap, p: NodeId)
    requires p < |g.operands|
  {
    forall i: nat :: i < |g.operands[p]| ==> ScaleAt(scale, g.operands[p][i]) == ScaleAt(scale, p)
  }

  lemma EncodeEnd(size: nat, g0: Graph, g: Graph, types: TypeMap, scale: ScaleMap, b: Bits, processed: set<NodeId>,
                  exempt: set<NodeId>)
    requires EncodeInv(size, g0, g, types, scale, b, processed, exempt) && FwdInv(g, processed, processed, {}, exempt)
    ensures ScalesExact(g, types, scale)
    ensures forall p: NodeId :: Live(g, p) ==> MeetsNoRaw(g, types, p)
  {
    var rank :| Ranked(g, rank);
    forall p: NodeId | Live(g, p)
      ensures MeetsNoRaw(g, types, p) && ScaleAt(scale, p) > 0 && ScaleExact(g, types, scale, p)
    {
      if p !in exempt {
        FwdEnd(g, rank, processed, exempt, p);
        NodeExact(size, g0, g, types, scale, b, processed, exempt, p);
      }
    }
  }

  lemma NodeExact(size: nat, g0: Graph, g: Graph, types: TypeMap, scale: ScaleMap, b: Bits, processed: set<NodeId>,
                  exempt: set<NodeId>, p: NodeId)
    requires EncodeInv(size, g0, g, types, scale, b, processed, exempt) && Live(g, p) && p in processed && p !in exempt
    ensures ScaleAt(scale, p) > 0 && ScaleExact(g, types, scale, p)
  {
    NodeFits(size, g0, g, types, scale, b, processed, exempt, p);
    hide EncodeInv;
    if TypeAt(types, p) != Raw && g.operands[p] != [] && !g.op[p].Encode? {
      ExactFromRule(g, types, scale, b, p);
    }
  }

  lemma NodeFits(size: nat, g0: Graph, g: Graph, types: TypeMap, scale: ScaleMap, b: Bits, processed: set<NodeId>,
                 exempt: set<NodeId>, p: NodeId)
    requires EncodeInv(size, g0, g, types, scale, b, processed, exempt) && Live(g, p) && p in processed && p !in exempt
    ensures p < |g.op| && ScaleRule(g, types, scale, b, p) && MeetsNoRaw(g, types, p) && ScaleAt(scale, p) > 0
    ensures TypeAt(types, p) == Inferred(g, types, p) && Arity(g)
  {
    hide ScaleRule, MeetsNoRaw, Inferred;
    InvParts(size, g0, g, types, scale, b, processed, exempt);
  }

  lemma ExactFromRule(g: Graph, types: TypeMap, scale: ScaleMap, b: Bits, p: NodeId)
    requires Arity(g) && Live(g, p) && ScaleRule(g, types, scale, b, p) && MeetsNoRaw(g, types, p)
    requires TypeAt(types, p) == Inferred(g, types, p) && TypeAt(types, p) != Raw && g.operands[p] != []
      && !g.op[p].Encode?
    ensures ScaleExact(g, types, scale, p)
  {
    assert TypeAt(types, p) == Cipher;
    if !g.op[p].Mul? && !g.op[p].Rescale? {
      if IsBinaryOp(g.op[p]) {
        assert OperandsMeet(g, types, scale, p);
      } else {
        assert |g.operands[p]| == 1;
      }
    }
  }

  lemma EncodeResult(size: nat, g0: Graph, g: Graph, types: TypeMap, scale: ScaleMap, b: Bits, processed: set<NodeId>,
                     exempt: set<NodeId>)
    requires EncodeInv(size, g0, g, types, scale, b, processed, exempt)
    ensures Acyclic(g) && Refines(size, g0, g) && Grown(g0, g) && UsedKept(g0, g)
    ensures Typed(g, types) && SourceArity(g) && Arity(g) && EncodesOnce(g) && ChainsKept(g0, g)
    ensures forall x: NodeId, i: nat :: |g0.operands| <= x < |g.operands| && i < |g.operands[x]| ==>
      TypeAt(types, g.operands[x][i]) == Raw
    ensures EncodesMeetCiphers(g, types)
  {
    forall m: NodeId | m < |g0.op|
      ensures !g.op[m].Encode?
    {
      assert g.op[m] == g0.op[m];
    }
    forall u: NodeId, i: nat | u < |g.operands| && i < |g.operands[u]| && g.operands[u][i] < |g.op|
      && g.op[g.operands[u][i]].Encode?
      ensures IsBinaryOp(g.op[u]) && TypeAt(types, u) == Cipher
    {
      assert g.operands[u][i] in exempt;
      assert Live(g, u);
    }
  }

  /** The forward pass, iyfc/seal/alo/seal_ckks_handler.cpp:46. */
  method InsertEncodes(d: Dag, types: TypeMap, scale: ScaleMap, ghost b: Bits,
                       ghost size: nat) returns (e: EncodeInserter)
    requires d.Valid() && Acyclic(d.G()) && Typed(d.G(), types) && SourceArity(d.G()) && Arity(d.G())
    requires Rescaling.ScalesFit(d.G(), types, scale, b)
    requires forall m: NodeId :: m < |d.op| ==> !d.op[m].Encode?
    modifies d
    ensures fresh(e) && d.Valid() && Acyclic(d.G()) && Refines(size, old(d.G()), d.G()) && Grown(old(d.G()), d.G())
    ensures UsedKept(old(d.G()), d.G()) && Typed(d.G(), e.types) && SourceArity(d.G()) && Arity(d.G())
    ensures ScalesExact(d.G(), e.types, e.scale) && EncodesOnce(d.G()) && ChainsKept(old(d.G()), d.G())
    ensures forall p: NodeId :: Live(d.G(), p) ==> MeetsNoRaw(d.G(), e.types, p)
    ensures forall x: NodeId, i: nat :: old(|d.operands|) <= x < |d.operands| && i < |d.operands[x]| ==>
              TypeAt(e.types, d.operands[x][i]) == Raw
    ensures forall x: NodeId :: x >= |d.operands| ==> TypeAt(e.types, x) == TypeAt(types, x)
    ensures EncodesMeetCiphers(d.G(), e.types)
    ensures forall n: NodeId :: n < old(|d.operands|) ==> ScaleAt(e.scale, n) == ScaleAt(scale, n)
  {
    ghost var g0 := d.G();
    EncodeStart(size, g0, types, scale, b);
    FwdStart(g0, d.sources);
    e := new EncodeInserter(types, scale);
    var t := new DagTraversal();
    t.Begin(d.sources);
    ghost var exempt := {};
    while t.work != []
      invariant d.Valid() && t.Consistent({}) && |g0.operands| <= |d.operands|
      invariant forall x: NodeId :: x >= |d.operands| ==> TypeAt(e.types, x) == TypeAt(types, x)
      invariant forall n: NodeId :: n < |g0.operands| ==> ScaleAt(e.scale, n) == ScaleAt(scale, n)
      invariant EncodeInv(size, g0, d.G(), e.types, e.scale, b, t.processed, exempt)
      invariant FwdInv(d.G(), t.ready, t.processed, Elems(t.work), exempt)
      decreases AllNodes(g0) - t.processed
    {
      hide *;
      var n;
      n, exempt := EncodeStep(d, e, t, b, g0, exempt, size);
      Rescaling.NodesShrink(g0, g0, g0, n);
    }
    assert t.ready == t.processed;
    EncodeEnd(size, g0, d.G(), e.types, e.scale, b, t.processed, exempt);
    EncodeResult(size, g0, d.G(), e.types, e.scale, b, t.processed, exempt);
  }
}
