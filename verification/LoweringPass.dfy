/** The whole lowering pass. A subtraction hands its uses to a node that is never visited, so the
    traversal stops there: it lowers exactly the subtractions that stand behind no other. The graph
    computes the same outputs, on levels and scales that still match. */
module LoweringPass {
  import opened Graphs
  import opened Usage
  import opened Dags
  import opened Traversals
  import opened Semantics
  import opened Types
  import opened ModSwitchSpec
  import opened ModSwitchers
  import opened ModSwitchPass
  import opened RescaleSpec
  import opened EncodePass
  import opened Chains
  import opened Sizes
  import opened LoweredSizes
  import opened Kinds
  import opened Lowering
  import opened LoweringReach
  import opened RemainingSubs

  ghost predicate Agree(f: Facts, f': Facts, below: nat)
  {
    forall p: NodeId :: p < below ==>
      TypeAt(f'.types, p) == TypeAt(f.types, p) && LevelAt(f'.level, p) == LevelAt(f.level, p)
      && ScaleAt(f'.scale, p) == ScaleAt(f.scale, p)
  }

  /** Whatever is used was used before, and outputs alone stay so. */
  ghost predicate NoNewUses(g0: Graph, g: Graph)
  {
    AloneKept(g0, g) && forall m: NodeId :: m < |g0.operands| && IsUsed(g, m) ==> IsUsed(g0, m)
  }

  lemma LoweredUses(g0: Graph, g: Graph, f: Facts, n: NodeId, r: Graph, f': Facts)
    requires LowersAt(g, f, n, r, f') && NoNewUses(g0, g) && |g0.operands| <= |g.operands|
    ensures NoNewUses(g0, r)
  {
    LoweredAlone(g, n);
    hide Lowered, LowersAt, IsUsed, OutputsAlone;
    forall m: NodeId | m < |g0.operands| && IsUsed(r, m)
      ensures IsUsed(g0, m)
    {
      UsedBefore(g, f, n, r, f', m);
    }
    LoweredAloneKept(g0, g, f, n, r, f');
  }

  lemma LoweredAloneKept(g0: Graph, g: Graph, f: Facts, n: NodeId, r: Graph, f': Facts)
    requires LowersAt(g, f, n, r, f') && AloneKept(g0, g) && AloneKept(g, Lowered(g, n))
    ensures AloneKept(g0, r)
  {
  }

  lemma UsedBefore(g: Graph, f: Facts, n: NodeId, r: Graph, f': Facts, m: NodeId)
    requires LowersAt(g, f, n, r, f') && m < |g.operands| && IsUsed(r, m)
    ensures IsUsed(g, m)
  {
    LoweredOperands(g, f, n, r, f');
    hide Lowered, LowersAt, IsUsed, TypeAt, Live;
    var u, i := UserOf(r, m);
    if u < |g.operands| {
      UsedBy(g, u, i);
    } else {
      assert u == |g.operands| || u == |g.operands| + 1;
      UsedBy(g, n, if u == |g.operands| then 1 else 0);
    }
  }

  lemma NewOperands(r: Graph, s: seq<NodeId>, x: NodeId)
    requires |s| == 2 && |r.operands| == x + 2 && r.operands[x] == [s[1]] && r.operands[x + 1] == [s[0], x]
    ensures forall y: NodeId, p: NodeId :: x <= y < |r.operands| && p in r.operands[y] ==> p in s || p == x
  {
    assert s[0] in s && s[1] in s;
    forall y: NodeId, p: NodeId | x <= y < |r.operands| && p in r.operands[y]
      ensures p in s || p == x
    {
      assert y == x || y == x + 1;
    }
  }

  lemma LoweredAlone(g: Graph, n: NodeId)
    requires WellFormed(g) && n < |g.op| && n < |g.operands| && g.op[n].Sub? && |g.operands[n]| == 2
    requires n !in g.operands[n]
    ensures AloneKept(g, Lowered(g, n))
  {
    hide AloneKept, InRange, Lowered;
    WellFormedRange(g);
    hide WellFormed;
    var r, x := Lowered(g, n), |g.operands|;
    LoweredShape(g, n);
    NewOperands(r, g.operands[n], x);
    TakenOverAlone(g, r, n, x + 1);
  }

  ghost predicate LowerInv(size: nat, g0: Graph, f0: Facts, g: Graph, f: Facts)
  {
    && WellFormed(g) && Acyclic(g) && Refines(size, g0, g) && ChainsKept(g0, g) && SizesKept(g0, g)
    && KindsFit(g, f.types) && NoNewUses(g0, g)
    && Typed(g, f.types) && SourceArity(g) && Arity(g)
    && EdgesLevelled(g, f.types, f.level) && ScalesExact(g, f.types, f.scale)
    && |g0.op| == |g0.operands| <= |g.operands| && g0.op <= g.op && g.sources == g0.sources
    && Agree(f0, f, |g0.operands|)
    && (forall x: NodeId :: |g0.op| <= x < |g.op| ==> g.op[x].Negate? || g.op[x].Add?)
    && (forall u: NodeId :: u < |g0.operands| ==> |g.operands[u]| == |g0.operands[u]|)
  }

  /** Visited, ready and waiting nodes are old; new nodes only use visited or new ones. */
  ghost predicate LowerTrav(g0: Graph, g: Graph, ready: set<NodeId>, processed: set<NodeId>, work: set<NodeId>)
  {
    && |g0.operands| <= |g.operands|
    && (forall m: NodeId :: m in ready ==> m < |g0.operands| && Live(g, m))
    && work <= ready && processed <= ready
    && (forall m: NodeId :: m in work && m < |g.operands| ==> Unblocked(g.operands, processed, m))
    && (forall x: NodeId, i: nat :: |g0.operands| <= x < |g.operands| && i < |g.operands[x]| ==>
          g.operands[x][i] in processed || g.operands[x][i] >= |g0.operands|)
  }

  lemma LowerStart(size: nat, g: Graph, f: Facts)
    requires WellFormed(g) && Acyclic(g) && Typed(g, f.types) && SourceArity(g) && Arity(g)
    requires EdgesLevelled(g, f.types, f.level) && ScalesExact(g, f.types, f.scale) && KindsFit(g, f.types)
    ensures LowerInv(size, g, f, g, f) && LowerTrav(g, g, g.sources, {}, g.sources)
  {
    ChainsReflexive(g);
    SizesReflexive(g);
    RefinesReflexive(size, g);
  }

  /** What a visit does; the pass reads the types it started with. */
  ghost predicate LowerEffect(g: Graph, types: TypeMap, n: NodeId, r: Graph)
  {
    if IsPlainMinusCipher(g, types, n) then r == Lowered(g, n) else r == g
  }

  method Visit(d: Dag, types: TypeMap, n: NodeId)
    requires d.Valid() && n < |d.operands| && (d.op[n].Sub? ==> |d.operands[n]| == 2)
    modifies d
    ensures d.Valid() && LowerEffect(old(d.G()), types, n, d.G())
  {
    if d.op[n].Sub? && TypeAt(types, d.operands[n][0]) != Cipher && TypeAt(types, d.operands[n][1]) == Cipher {
      LowerNode(d, n);
    }
  }

  method LowerNode(d: Dag, n: NodeId)
    requires d.Valid() && n < |d.operands| && |d.operands[n]| == 2
    modifies d
    ensures d.Valid() && d.G() == Lowered(old(d.G()), n)
  {
    ghost var g := d.G();
    hide WellFormed, UsesInverse, SinksMatch, Live, Erased, RedirectAll, Lowered, Negating;
    var addition := MakeNegated(d, n);
    ghost var g2 := d.G();
    d.ReplaceAllUsesWith(n, addition);
    LoweredEnd(g, n, g2, d.G());
  }

  /** A negation of the subtrahend, and its sum with the minuend. */
  method MakeNegated(d: Dag, n: NodeId) returns (addition: NodeId)
    requires d.Valid() && n < |d.operands| && |d.operands[n]| == 2
    modifies d
    ensures d.Valid() && d.G() == Negating(old(d.G()), n) && addition == old(|d.operands|) + 1 < |d.operands|
    ensures Live(d.G(), addition)
  {
    ghost var g := d.G();
    NegatingWellFormed(g, n);
    SubLive(g, n);
    var a, c := d.operands[n][0], d.operands[n][1];
    hide WellFormed, UsesInverse, SinksMatch, Live, Erased, AddNode, Negating;
    var negation := d.MakeNode(Negate, [c]);
    ghost var g1 := d.G();
    addition := d.MakeNode(Add, [a, negation]);
    LoweredStart(g, n, a, c, g1, d.G());
  }

  lemma LoweredStart(g: Graph, n: NodeId, a: NodeId, c: NodeId, g1: Graph, g2: Graph)
    requires WellFormed(g) && n < |g.operands| && |g.operands[n]| == 2 && a == g.operands[n][0] && c == g.operands[n][1]
    requires g1 == AddNode(g, Negate, [c]) && g2 == AddNode(g1, Add, [a, |g.operands|])
    ensures |g1.operands| == |g.operands| + 1 && g2 == Negating(g, n) && n < |g2.operands| && Live(g2, |g.operands| + 1)
  {
    NegatingWellFormed(g, n);
  }

  lemma LoweredEnd(g: Graph, n: NodeId, g2: Graph, r: Graph)
    requires n < |g.operands| && |g.operands[n]| == 2 && g2 == Negating(g, n)
      && r == RedirectAll(g2, n, |g.operands| + 1)
    ensures r == Lowered(g, n)
  {
  }

  lemma EffectKeeps(size: nat, g0: Graph, f0: Facts, g: Graph, f: Facts, n: NodeId, r: Graph) returns (f': Facts)
    requires LowerInv(size, g0, f0, g, f) && n < |g0.operands| && LowerEffect(g, f.types, n, r)
    ensures LowerInv(size, g0, f0, r, f')
  {
    if IsPlainMinusCipher(g, f.types, n) {
      f' := Extended(f, |g.operands|, n);
      hide LowerInv, Lowered;
      LoweredKeeps(size, g0, f0, g, f, n, r, f');
    } else {
      f' := f;
    }
  }

  lemma LoweredKeeps(size: nat, g0: Graph, f0: Facts, g: Graph, f: Facts, n: NodeId, r: Graph, f': Facts)
    requires LowerInv(size, g0, f0, g, f) && IsPlainMinusCipher(g, f.types, n)
    requires r == Lowered(g, n) && f' == Extended(f, |g.operands|, n)
    ensures LowerInv(size, g0, f0, r, f')
  {
    hide Refines, Acyclic, WellFormed, Typed, SourceArity, Arity, EdgesLevelled, ScalesExact, Lowered, LowersAt,
         Agree, ChainsKept, SizesKept, KindsFit, NoNewUses;
    InvParts(size, g0, f0, g, f);
    LoweredChains(g, n);
    ChainsTransitive(g0, g, r);
    LoweredKeepsSizes(g, n);
    SizesTransitive(g0, g, r);
    LoweredAcyclic(g, n);
    LowersHere(g, f, n, r, f');
    LoweredKinds(g, f, n, r, f');
    LoweredUses(g0, g, f, n, r, f');
    LoweredRefines(size, g, n);
    RefinesTransitive(size, g0, g, r);
    LoweredTyped(g, f, n, r, f');
    LoweredLevels(g, f, n, r, f');
    LoweredScales(g, f, n, r, f');
    LoweredOperands(g, f, n, r, f');
    AgreeExtended(f0, f, f', |g0.operands|, |g.operands|, n);
  }

  lemma AgreeExtended(f0: Facts, f: Facts, f': Facts, below: nat, x: NodeId, n: NodeId)
    requires Agree(f0, f, below) && below <= x && f' == Extended(f, x, n)
    ensures Agree(f0, f', below)
  {
  }

  lemma LoweredKinds(g: Graph, f: Facts, n: NodeId, r: Graph, f': Facts)
    requires LowersAt(g, f, n, r, f') && KindsFit(g, f.types)
    ensures KindsFit(r, f'.types)
  {
    LoweredOperands(g, f, n, r, f');
    hide Lowered, LowersAt, KindFits, TypeAt;
    forall u: NodeId, i: nat | u < |r.operands| && i < |r.operands[u]|
      ensures KindFits(r.op[u], TypeAt(f'.types, u), TypeAt(f'.types, r.operands[u][i]))
    {
      if u < |g.operands| {
        OldKind(g, f, n, r, f', u, i);
      } else {
        NewKind(g, f, n, r, f', u, i);
      }
    }
  }

  lemma OldKind(g: Graph, f: Facts, n: NodeId, r: Graph, f': Facts, u: NodeId, i: nat)
    requires LowersAt(g, f, n, r, f') && KindsFit(g, f.types) && u < |g.operands| && u < |r.operands| && u < |r.op|
      && i < |r.operands[u]|
    ensures KindFits(r.op[u], TypeAt(f'.types, u), TypeAt(f'.types, r.operands[u][i]))
  {
    LoweredOperands(g, f, n, r, f');
    OperandsLike(g, f, n, r, f', u, i);
    SameOld(g, f, n, r, f', u);
    hide Lowered, LowersAt, KindFits, TypeAt;
    assert KindFits(g.op[u], TypeAt(f.types, u), TypeAt(f.types, g.operands[u][i]));
  }

  lemma NewKind(g: Graph, f: Facts, n: NodeId, r: Graph, f': Facts, u: NodeId, i: nat)
    requires LowersAt(g, f, n, r, f') && KindsFit(g, f.types) && |g.operands| <= u < |r.operands| && u < |r.op|
      && i < |r.operands[u]|
    ensures KindFits(r.op[u], TypeAt(f'.types, u), TypeAt(f'.types, r.operands[u][i]))
  {
    LoweredOperands(g, f, n, r, f');
    LoweredKind(g, f.types, n);
    NewNodes(g, f, n, r, f');
    hide Lowered, LowersAt, KindFits, TypeAt, KindsFit;
    assert u == |g.operands| || u == |g.operands| + 1;
  }

  lemma LoweredKind(g: Graph, types: TypeMap, n: NodeId)
    requires WellFormed(g) && n < |g.operands| && IsPlainMinusCipher(g, types, n) && TypeAt(types, n) == Cipher
      && KindsFit(g, types)
    ensures KindFits(Add, Cipher, TypeAt(types, g.operands[n][0])) && KindFits(Add, Cipher, Cipher)
    ensures KindFits(Negate, Cipher, TypeAt(types, g.operands[n][1]))
  {
    assert KindFits(g.op[n], TypeAt(types, n), TypeAt(types, g.operands[n][0]));
  }

  lemma LowersHere(g: Graph, f: Facts, n: NodeId, r: Graph, f': Facts)
    requires WellFormed(g) && Typed(g, f.types) && IsPlainMinusCipher(g, f.types, n) && n !in g.operands[n]
    requires r == Lowered(g, n) && f' == Extended(f, |g.operands|, n)
    ensures LowersAt(g, f, n, r, f')
  {
  }

  /** The operands of a node about to be visited are old, so its types are the ones read. */
  lemma SameEffect(g0: Graph, f0: Facts, g: Graph, f: Facts, ready: set<NodeId>, processed: set<NodeId>, n: NodeId,
                   r: Graph)
    requires Agree(f0, f, |g0.operands|) && n < |g.operands| && Unblocked(g.operands, processed, n)
    requires processed <= ready && forall m: NodeId :: m in ready ==> m < |g0.operands|
    requires LowerEffect(g, f0.types, n, r)
    ensures LowerEffect(g, f.types, n, r)
  {
    if |g.operands[n]| == 2 {
      assert g.operands[n][0] in processed && g.operands[n][1] in processed;
    }
  }

  ghost predicate TravEffect(g: Graph, n: NodeId, r: Graph)
  {
    || r == g
    || (n < |g.operands| && |g.operands[n]| == 2 && n !in g.operands[n] && |g.op| == |g.operands| && r == Lowered(g, n))
  }

  lemma UsersOld(g0: Graph, g: Graph, ready: set<NodeId>, processed: set<NodeId>, work: set<NodeId>, n: NodeId,
                 uses: seq<seq<NodeId>>)
    requires LowerTrav(g0, g, ready, processed, work) && n < |g0.operands| && n !in processed
    requires UsesInverse(g.operands, uses)
    ensures |uses| == |g.operands|
    ensures forall i: nat :: i < |uses[n]| ==> uses[n][i] < |g0.operands| && g.operands[uses[n][i]] != []
  {
    forall i: nat | i < |uses[n]|
      ensures uses[n][i] < |g0.operands| && g.operands[uses[n][i]] != []
    {
      UsersAreUses(g.operands, uses, n, uses[n][i]);
      var u := uses[n][i];
      var j: nat :| j < |g.operands[u]| && g.operands[u][j] == n;
    }
  }

  lemma TravStep(g0: Graph, g: Graph, ready: set<NodeId>, processed: set<NodeId>, work: set<NodeId>, n: NodeId,
                 r: Graph, cands: seq<NodeId>, ready': set<NodeId>, work': set<NodeId>)
    requires LowerTrav(g0, g, ready, processed, work) && n in ready && n !in processed && n !in work
    requires TravEffect(g, n, r) && Unblocked(g.operands, processed, n) && processed !! work
    requires WellFormed(r) && r.sources == g.sources && g.sources <= ready
    requires forall i: nat :: i < |cands| ==> cands[i] < |g0.operands| && g.operands[cands[i]] != []
    requires ready <= ready' <= ready + r.sources + Elems(cands)
    requires work' == work + (ready' - ready)
    requires forall m: NodeId :: m in ready' - ready && m < |r.operands| ==> Unblocked(r.operands, processed + {n}, m)
    ensures LowerTrav(g0, r, ready', processed + {n}, work')
  {
    if r != g {
      LoweredShape(g, n);
    }
    forall m: NodeId | m in ready'
      ensures m < |g0.operands| && Live(r, m)
    {
      if m !in ready {
        var i :| 0 <= i < |cands| && cands[i] == m;
      }
    }
    forall m: NodeId | m in work && m < |r.operands|
      ensures Unblocked(r.operands, processed + {n}, m)
    {
      assert Unblocked(g.operands, processed, m);
    }
    TravNew(g0, g, ready, processed, work, n, r);
  }

  lemma TravNew(g0: Graph, g: Graph, ready: set<NodeId>, processed: set<NodeId>, work: set<NodeId>, n: NodeId, r: Graph)
    requires LowerTrav(g0, g, ready, processed, work) && n in ready && n !in processed
    requires TravEffect(g, n, r) && Unblocked(g.operands, processed, n)
    ensures forall x: NodeId, i: nat :: |g0.operands| <= x < |r.operands| && i < |r.operands[x]| ==>
      r.operands[x][i] in processed + {n} || r.operands[x][i] >= |g0.operands|
  {
    if r != g {
      LoweredShape(g, n);
    }
  }

  lemma PopFacts(g0: Graph, g: Graph, ready: set<NodeId>, processed: set<NodeId>, work: seq<NodeId>)
    requires LowerTrav(g0, g, ready, processed, Elems(work)) && work != [] && Frontier(ready, processed, work, {})
    ensures var n := work[|work|-1];
      && n in ready && n < |g0.operands| && n < |g.operands| && n !in processed && n !in Elems(work[..|work|-1])
      && Live(g, n) && Unblocked(g.operands, processed, n)
      && LowerTrav(g0, g, ready, processed, Elems(work[..|work|-1]))
  {
    ElemsLast(work);
  }

  lemma SubArity(g: Graph, n: NodeId)
    requires Arity(g) && Live(g, n)
    ensures n < |g.op| && (g.op[n].Sub? ==> |g.operands[n]| == 2)
  {
  }

  lemma InvParts(size: nat, g0: Graph, f0: Facts, g: Graph, f: Facts)
    requires LowerInv(size, g0, f0, g, f)
    ensures WellFormed(g) && Acyclic(g) && Arity(g) && Agree(f0, f, |g0.operands|) && |g.op| == |g.operands|
      && g.sources == g0.sources
  {
  }

  lemma EffectShape(g: Graph, types: TypeMap, n: NodeId, r: Graph)
    requires Acyclic(g) && |g.op| == |g.operands| && LowerEffect(g, types, n, r)
    ensures TravEffect(g, n, r)
  {
    if IsPlainMinusCipher(g, types, n) {
      LoweredAcyclic(g, n);
    }
  }

  lemma CandsOld(g0: Graph, g: Graph, r: Graph, cands: seq<NodeId>, uses': seq<seq<NodeId>>, n: NodeId)
    requires TravEffect(g, n, r) && UsesInverse(r.operands, uses') && n < |g0.operands| <= |g.operands|
      && |g.operands| <= |r.operands|
    requires forall i: nat :: i < |cands| ==> cands[i] < |g0.operands| && g.operands[cands[i]] != []
    requires forall u: NodeId :: u < |g.operands| && n in g.operands[u] ==> u in cands
    ensures |uses'| == |r.operands|
    ensures forall i: nat :: i < |cands + uses'[n]| ==>
      (cands + uses'[n])[i] < |g0.operands| && g.operands[(cands + uses'[n])[i]] != []
  {
    forall i: nat | i < |uses'[n]|
      ensures uses'[n][i] in cands
    {
      UsersAreUses(r.operands, uses', n, uses'[n][i]);
      if r != g {
        LoweredShape(g, n);
        NotUsedAfter(g, n, uses'[n][i]);
      }
    }
  }

  lemma NotUsedAfter(g: Graph, n: NodeId, u: NodeId)
    requires |g.op| == |g.operands| && n < |g.operands| && |g.operands[n]| == 2 && n !in g.operands[n]
    requires u < |Lowered(g, n).operands|
    ensures n !in Lowered(g, n).operands[u]
  {
    LoweredShape(g, n);
    assert g.operands[n][0] in g.operands[n] && g.operands[n][1] in g.operands[n];
    if u < |g.operands| {
      SubstMembers(g.operands[u], n, |g.operands| + 1, n);
    }
  }

  method LowerStep(d: Dag, t: DagTraversal, types: TypeMap, ghost f0: Facts, ghost f: Facts, ghost g0: Graph,
                   ghost lowered: seq<NodeId>, ghost size: nat)
    returns (n: NodeId, ghost f': Facts, ghost lowered': seq<NodeId>)
    requires d.Valid() && t.Consistent({}) && t.work != [] && types == f0.types
    requires LowerInv(size, g0, f0, d.G(), f) && LowerTrav(g0, d.G(), t.ready, t.processed, Elems(t.work))
    requires d.sources <= t.ready && ReachInv(g0, types, lowered, d.G(), t.ready, t.processed)
    modifies d, t
    ensures d.Valid() && t.Consistent({}) && d.sources <= t.ready
    ensures LowerInv(size, g0, f0, d.G(), f') && LowerTrav(g0, d.G(), t.ready, t.processed, Elems(t.work))
    ensures ReachInv(g0, types, lowered', d.G(), t.ready, t.processed)
    ensures n < |g0.operands| && n !in old(t.processed) && t.processed == old(t.processed) + {n}
  {
    hide LowerInv, LowerTrav, Frontier, WellFormed, UsesInverse, SinksMatch, Unblocked, Live, Erased, LowerEffect,
         TravEffect, Acyclic, Arity, Agree, Lowered, ReachInv;
    ghost var g, ready, processed := d.G(), t.ready, t.processed;
    PopFacts(g0, g, t.ready, t.processed, t.work);
    InvParts(size, g0, f0, g, f);
    n := t.Pop({});
    ghost var work := Elems(t.work);
    SubArity(g, n);
    UsersOld(g0, g, ready, processed, work, n, d.uses);
    AllUsers(g, d.uses, n);
    var cands := d.uses[n];
    Visit(d, types, n);
    ReadyOld(g0, g, ready, processed, work);
    SameEffect(g0, f0, g, f, ready, processed, n, d.G());
    f' := EffectKeeps(size, g0, f0, g, f, n, d.G());
    EffectShape(g, types, n, d.G());
    InvParts(size, g0, f0, d.G(), f');
    EffectGrows(g, n, d.G());
    CandsOld(g0, g, d.G(), cands, d.uses, n);
    FinishLowering(d, t, n, cands + d.uses[n], g0, g, ready, processed, work);
    lowered' := NextLowered(g0, types, n, lowered);
    ReachStep(g0, types, lowered, g, ready, processed, work, n, d.G(), cands + d.uses[n], t.ready);
  }

  lemma ReachStep(g0: Graph, types: TypeMap, lowered: seq<NodeId>, g: Graph, ready: set<NodeId>,
                  processed: set<NodeId>, work: set<NodeId>, n: NodeId, r: Graph, cands: seq<NodeId>,
                  ready': set<NodeId>)
    requires ReachInv(g0, types, lowered, g, ready, processed) && LowerTrav(g0, g, ready, processed, work)
    requires n in ready && n !in processed && n < |g.operands| && Unblocked(g.operands, processed, n)
    requires LowerEffect(g, types, n, r) && TravEffect(g, n, r) && ready <= ready' && n in ready'
    requires forall m: NodeId :: m < |g.operands| && n in g.operands[m] ==> m in cands
    requires forall i: nat :: i < |cands| && cands[i] < |r.operands| ==>
      cands[i] in ready' || !Unblocked(r.operands, processed + {n}, cands[i])
    ensures ReachInv(g0, types, NextLowered(g0, types, n, lowered), r, ready', processed + {n})
  {
    ReadyLive(g0, types, lowered, g, ready, processed, work, n);
    TravSums(g0, g, ready, processed, work);
    WithSumsNext(g0, types, lowered, g, ready, processed, n, r);
    EffectGrows(g, n, r);
    hide WithSums, Reached, LowerTrav, LowerEffect, Live, Unblocked, SumsUse;
    OthersStay(g, n, r);
    WaitingNext(g0, g, ready, processed, n, r, cands, ready');
  }

  lemma ReadyLive(g0: Graph, types: TypeMap, lowered: seq<NodeId>, g: Graph, ready: set<NodeId>,
                  processed: set<NodeId>, work: set<NodeId>, n: NodeId)
    requires ReachInv(g0, types, lowered, g, ready, processed) && LowerTrav(g0, g, ready, processed, work) && n in ready
    ensures Live(g0, n)
  {
    assert |g.operands[n]| == |g0.operands[n]|;
  }

  lemma TravSums(g0: Graph, g: Graph, ready: set<NodeId>, processed: set<NodeId>, work: set<NodeId>)
    requires LowerTrav(g0, g, ready, processed, work)
    ensures SumsUse(g0, g, processed)
  {
  }

  lemma OthersStay(g: Graph, n: NodeId, r: Graph)
    requires TravEffect(g, n, r)
    ensures |g.operands| <= |r.operands|
    ensures forall m: NodeId :: m < |g.operands| ==> r.operands[m] == g.operands[m] || n in g.operands[m]
  {
    if r != g {
      LoweredShape(g, n);
      forall m: NodeId | m < |g.operands| && n !in g.operands[m]
        ensures r.operands[m] == g.operands[m]
      {
        assert forall i: nat :: i < |g.operands[m]| ==> g.operands[m][i] in g.operands[m];
      }
    }
  }

  method FinishLowering(d: Dag, t: DagTraversal, n: NodeId, cands: seq<NodeId>, ghost g0: Graph, ghost g: Graph,
                        ghost ready: set<NodeId>, ghost processed: set<NodeId>, ghost work: set<NodeId>)
    requires d.Valid() && t.Consistent({} + {n}) && t.ready == ready && t.processed == processed
      && Elems(t.work) == work
    requires LowerTrav(g0, g, ready, processed, work) && n in ready && n !in processed && n !in work
    requires TravEffect(g, n, d.G()) && n < |g.operands| && Unblocked(g.operands, processed, n)
    requires d.sources == g.sources && g.sources <= ready && |g.operands| <= |d.operands|
    requires forall i: nat :: i < |cands| ==>
      cands[i] < |g0.operands| && cands[i] < |g.operands| && g.operands[cands[i]] != []
    modifies t
    ensures t.Consistent({}) && t.processed == processed + {n} && d.sources <= t.ready && ready <= t.ready
    ensures LowerTrav(g0, d.G(), t.ready, t.processed, Elems(t.work))
    ensures forall i: nat :: i < |cands| && cands[i] < |d.operands| ==>
      cands[i] in t.ready || !Unblocked(d.operands, processed + {n}, cands[i])
  {
    hide LowerTrav, UsesInverse, SinksMatch, TravEffect, Live, WellFormed, Unblocked;
    t.Finish(n, false, d.sources, cands, d.operands, {});
    TravStep(g0, g, ready, processed, work, n, d.G(), cands, t.ready, Elems(t.work));
  }

  lemma ReadyOld(g0: Graph, g: Graph, ready: set<NodeId>, processed: set<NodeId>, work: set<NodeId>)
    requires LowerTrav(g0, g, ready, processed, work)
    ensures processed <= ready && |g0.operands| <= |g.operands| && forall m: NodeId :: m in ready ==> m < |g0.operands|
  {
  }

  lemma AllUsers(g: Graph, uses: seq<seq<NodeId>>, n: NodeId)
    requires UsesInverse(g.operands, uses) && n < |g.operands|
    ensures |uses| == |g.operands| && forall u: NodeId :: u < |g.operands| && n in g.operands[u] ==> u in uses[n]
  {
    forall u: NodeId
      ensures u in uses[n] <==> u < |g.operands| && n in g.operands[u]
    {
      UsersAreUses(g.operands, uses, n, u);
    }
  }

  lemma EffectGrows(g: Graph, n: NodeId, r: Graph)
    requires TravEffect(g, n, r)
    ensures |g.operands| <= |r.operands|
  {
    if r != g {
      LoweredShape(g, n);
    }
  }

  lemma ReachesAll(g0: Graph, types: TypeMap, lowered: seq<NodeId>, g: Graph, ready: set<NodeId>,
                   processed: set<NodeId>)
    requires WellFormed(g0) && Acyclic(g0) && ReachInv(g0, types, lowered, g, ready, processed)
    requires Frontier(ready, processed, [], {})
    ensures FirstLowered(g0, types, lowered, g) && IsVisited(g0, types, processed)
  {
    assert ready == processed;
    ReachEnd(g0, types, lowered, g, processed);
  }

  /** The forward pass, iyfc/seal/alo/seal_ckks_handler.cpp:64. level and scale are those of the
      passes before, f tells what they become; lowered are the subtractions lowered, in that order. */
  method LowerSubtractions(d: Dag, types: TypeMap, ghost level: LevelMap, ghost scale: ScaleMap, ghost size: nat)
    returns (ghost f: Facts, ghost lowered: seq<NodeId>, ghost visited: set<NodeId>)
    requires d.Valid() && Acyclic(d.G()) && Typed(d.G(), types) && SourceArity(d.G()) && Arity(d.G())
    requires EdgesLevelled(d.G(), types, level) && ScalesExact(d.G(), types, scale) && KindsFit(d.G(), types)
    modifies d
    ensures d.Valid() && IsVisited(old(d.G()), types, visited)
    ensures FirstLowered(old(d.G()), types, lowered, d.G())
    ensures (forall s: NodeId :: !UsedSub(d.G(), f.types, s)) <==>
      forall s: NodeId :: UsedSub(old(d.G()), types, s) ==> !BehindSub(old(d.G()), types, s)
    ensures Acyclic(d.G()) && Refines(size, old(d.G()), d.G()) && ChainsKept(old(d.G()), d.G())
    ensures Typed(d.G(), f.types) && SourceArity(d.G()) && Arity(d.G()) && SizesKept(old(d.G()), d.G())
      && KindsFit(d.G(), f.types)
    ensures NoNewUses(old(d.G()), d.G())
    ensures EdgesLevelled(d.G(), f.types, f.level) && ScalesExact(d.G(), f.types, f.scale)
    ensures Agree(Facts(types, level, scale), f, old(|d.operands|)) && d.sources == old(d.sources)
    ensures old(|d.op|) == old(|d.operands|) <= |d.operands| && old(d.op) <= d.op
    ensures forall x: NodeId :: old(|d.op|) <= x < |d.op| ==> d.op[x].Negate? || d.op[x].Add?
    ensures forall u: NodeId :: u < old(|d.operands|) ==> |d.operands[u]| == old(|d.operands[u]|)
  {
    ghost var g0, f0 := d.G(), Facts(types, level, scale);
    f, lowered := f0, [];
    LowerStart(size, g0, f0);
    ReachStart(g0, types);
    var t := new DagTraversal();
    t.Begin(d.sources);
    while t.work != []
      invariant d.Valid() && t.Consistent({}) && d.sources <= t.ready
      invariant LowerInv(size, g0, f0, d.G(), f) && LowerTrav(g0, d.G(), t.ready, t.processed, Elems(t.work))
      invariant ReachInv(g0, types, lowered, d.G(), t.ready, t.processed)
      decreases AllNodes(g0) - t.processed
    {
      hide *;
      var n;
      n, f, lowered := LowerStep(d, t, types, f0, f, g0, lowered, size);
      InAllNodes(g0, n);
    }
    visited := t.processed;
    hide FirstLowered, IsVisited, ReachInv, UsedSub, BehindSub;
    ReachesAll(g0, types, lowered, d.G(), t.ready, t.processed);
    NoneRemains(g0, types, lowered, d.G(), f.types);
  }
}
