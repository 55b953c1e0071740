/** The whole relinearization pass: ciphertext sizes at every node. */
module RelinPass {
  import opened Graphs
  import opened Usage
  import opened Threads
  import opened Chains
  import opened Dags
  import opened Traversals
  import opened ForwardPass
  import opened Semantics
  import opened Types
  import opened Relinearizers
  import opened ModSwitchers

  /** Every computed ciphertext except the outputs is used: the graph has been cleaned. */
  ghost predicate CiphersUsed(g: Graph, types: TypeMap)
  {
    forall n: NodeId ::
      n < |g.op| && n < |g.operands| && g.operands[n] != [] && TypeAt(types, n) == Cipher && !g.op[n].Output? ==>
        IsUsed(g, n)
  }

  /** What is encoded is not encrypted. */
  ghost predicate EncodesRaw(g: Graph, types: TypeMap)
  {
    forall n: NodeId, i: nat :: n < |g.operands| && n < |g.op| && g.op[n].Encode? && i < |g.operands[n]| ==>
      TypeAt(types, g.operands[n][i]) != Cipher
  }

  ghost predicate Grown(g0: Graph, g: Graph)
  {
    && |g0.op| == |g0.operands| && |g.op| == |g.operands| && g0.op <= g.op && g.sources == g0.sources
    && (forall u: NodeId :: u < |g0.operands| ==> |g.operands[u]| == |g0.operands[u]|)
    && (forall x: NodeId :: |g0.operands| <= x < |g.op| ==> g.op[x].Relinearize? && |g.operands[x]| == 1)
  }

  predicate Carried(pending: set<NodeId>, processed: set<NodeId>, p: NodeId)
  {
    p in pending && p in processed
  }

  /** A visited node that holds three polynomials hands them only to a relinearization or to a
      pending node that can take them. */
  ghost predicate HandsOn(g: Graph, types: TypeMap, pending: set<NodeId>, processed: set<NodeId>)
    requires |g.op| == |g.operands|
  {
    forall u: NodeId, i: nat ::
      u < |g.operands| && i < |g.operands[u]| && Carried(pending, processed, g.operands[u][i]) ==>
      g.op[u].Relinearize? || (u in pending && !NeedsSmall(g, types, u))
  }

  ghost predicate HasBigOperand(g: Graph, pending: set<NodeId>, processed: set<NodeId>, u: NodeId)
    requires u < |g.operands|
  {
    exists i: nat :: i < |g.operands[u]| && Carried(pending, processed, g.operands[u][i])
  }

  ghost predicate PendingReasons(g0: Graph, g: Graph, types: TypeMap, pending: set<NodeId>, processed: set<NodeId>)
    requires |g.op| == |g.operands|
  {
    && (forall u: NodeId :: u in pending ==>
          u < |g0.operands| && u < |g.operands| && TypeAt(types, u) == Cipher && g.operands[u] != []
          && (HasBigOperand(g, pending, processed, u) || (u in processed && IsEncryptedMul(g, types, u))))
    && (forall u: NodeId ::
          u in processed && u < |g0.operands| && u < |g.operands| && g.operands[u] != []
          && IsEncryptedMul(g, types, u) ==>
          u in pending)
  }

  ghost predicate RelinInv(size: nat, g0: Graph, g: Graph, types: TypeMap, pending: set<NodeId>, processed: set<NodeId>)
  {
    && WellFormed(g) && Acyclic(g) && Refines(size, g0, g) && Grown(g0, g) && ThreadedInto(g0, g) && ChainsKept(g0, g)
    && Typed(g, types) && SourceArity(g) && CiphersUsed(g, types) && EncodesRaw(g, types)
    && HandsOn(g, types, pending, processed)
    && PendingReasons(g0, g, types, pending, processed)
    && NewCiphers(g0, g, types) && NoneTooEarly(g0, g, types)
  }

  /** Nothing has been relinearized that could have waited: what stands behind a relinearization is more than
      one node, or takes only two polynomials. */
  ghost predicate NoneTooEarly(g0: Graph, g: Graph, types: TypeMap)
  {
    && |g.op| == |g.operands|
    && forall x: NodeId :: |g0.operands| <= x < |g.operands| ==> MustBeSmall(g, types, x)
  }

  /** What has been relinearized is encrypted. */
  ghost predicate NewCiphers(g0: Graph, g: Graph, types: TypeMap)
  {
    forall x: NodeId :: |g0.operands| <= x < |g.operands| ==> TypeAt(types, x) == Cipher
  }

  // ----- a relinearization is inserted -----

  lemma AllCipherKept(g: Graph, types: TypeMap, n: NodeId, r: Graph, types': TypeMap, u: NodeId)
    requires WellFormed(g) && n < |g.operands| && Relinearized(g, types, n, r, types')
    requires u < |g.operands|
    ensures u < |r.operands| && (AllCipher(r, types', u) <==> AllCipher(g, types, u))
  {
    InsertAfterShape(g, n, Relinearize);
    forall i: nat | i < |g.operands[u]|
      ensures TypeAt(types', r.operands[u][i]) == TypeAt(types, g.operands[u][i])
    {
      assert Live(g, g.operands[u][i]);
    }
  }

  lemma TypedKept(g: Graph, types: TypeMap, n: NodeId, r: Graph, types': TypeMap)
    requires WellFormed(g) && Live(g, n) && Typed(g, types) && SourceArity(g) && TypeAt(types, n) == Cipher
    requires Relinearized(g, types, n, r, types')
    ensures Typed(r, types') && SourceArity(r)
  {
    InsertAfterShape(g, n, Relinearize);
    var x := |g.operands|;
    forall u: NodeId | Live(r, u)
      ensures TypeAt(types', u) == Inferred(r, types', u) && (IsSourceOp(r.op[u]) <==> r.operands[u] == [])
    {
      if u < x {
        assert |r.operands[u]| == |g.operands[u]|;
        assert Live(g, u);
        forall i: nat | i < |g.operands[u]|
          ensures TypeAt(types', r.operands[u][i]) == TypeAt(types, g.operands[u][i])
        {
          assert Live(g, g.operands[u][i]);
        }
        assert HasCipherOperand(r, types', u) <==> HasCipherOperand(g, types, u);
      } else {
        assert TypeAt(types', r.operands[x][0]) == Cipher;
      }
    }
  }

  lemma UsedKept(g: Graph, types: TypeMap, n: NodeId, r: Graph, types': TypeMap)
    requires WellFormed(g) && Live(g, n) && Relinearized(g, types, n, r, types') && IsUsed(g, n)
    requires CiphersUsed(g, types) && EncodesRaw(g, types) && TypeAt(types, n) == Cipher
    ensures CiphersUsed(r, types') && EncodesRaw(r, types')
  {
    InsertAfterShape(g, n, Relinearize);
    var x := |g.operands|;
    forall m: NodeId | m < |r.op| && m < |r.operands| && r.operands[m] != [] && TypeAt(types', m) == Cipher
      && !r.op[m].Output?
      ensures IsUsed(r, m)
    {
      if m == n {
        assert n in r.operands[x];
      } else if m == x {
        var u: NodeId :| u < |g.operands| && n in g.operands[u];
        SubstMembers(g.operands[u], n, x, x);
        assert x in r.operands[u];
      } else {
        assert |r.operands[m]| == |g.operands[m]|;
        assert IsUsed(g, m);
        var u: NodeId :| u < |g.operands| && m in g.operands[u];
        SubstMembers(g.operands[u], n, x, m);
        assert m in r.operands[u];
      }
    }
    forall m: NodeId, i: nat | m < |r.operands| && r.op[m].Encode? && i < |r.operands[m]|
      ensures TypeAt(types', r.operands[m][i]) != Cipher
    {
      assert TypeAt(types, g.operands[m][i]) != Cipher;
      assert Live(g, g.operands[m][i]);
    }
  }

  lemma HandsOnInsert(g0: Graph, g: Graph, types: TypeMap, pending: set<NodeId>, processed: set<NodeId>,
                      n: NodeId, r: Graph, types': TypeMap)
    requires WellFormed(g) && Grown(g0, g) && HandsOn(g, types, pending, processed)
    requires PendingReasons(g0, g, types, pending, processed)
    requires n < |g.operands| && Relinearized(g, types, n, r, types')
    ensures |r.op| == |r.operands| && HandsOn(r, types', pending + {n}, processed + {n})
  {
    InsertAfterShape(g, n, Relinearize);
    var x := |g.operands|;
    forall u: NodeId, i: nat | u < |r.operands| && i < |r.operands[u]| &&
        Carried(pending + {n}, processed + {n}, r.operands[u][i])
      ensures r.op[u].Relinearize? || (u in pending + {n} && !NeedsSmall(r, types', u))
    {
      if u < x {
        assert x !in pending;
        assert r.operands[u][i] != n;
        assert r.operands[u][i] == g.operands[u][i];
        AllCipherKept(g, types, n, r, types', u);
        assert r.op[u] == g.op[u];
      }
    }
  }

  lemma ReasonsInsert(g0: Graph, g: Graph, types: TypeMap, pending: set<NodeId>, processed: set<NodeId>,
                      n: NodeId, r: Graph, types': TypeMap)
    requires WellFormed(g) && Grown(g0, g) && PendingReasons(g0, g, types, pending, processed)
    requires n < |g0.operands| && n !in processed && g.operands[n] != [] && TypeAt(types, n) == Cipher
    requires IsEncryptedMul(g, types, n) || n in pending
    requires Relinearized(g, types, n, r, types')
    ensures |r.op| == |r.operands| && PendingReasons(g0, r, types', pending + {n}, processed + {n})
  {
    InsertAfterShape(g, n, Relinearize);
    var x := |g.operands|;
    forall u: NodeId | u in pending + {n}
      ensures u < |g0.operands| && TypeAt(types', u) == Cipher && r.operands[u] != []
      ensures HasBigOperand(r, pending + {n}, processed + {n}, u)
        || (u in processed + {n} && IsEncryptedMul(r, types', u))
    {
      AllCipherKept(g, types, n, r, types', u);
      if u in pending && HasBigOperand(g, pending, processed, u) {
        var i: nat :| i < |g.operands[u]| && Carried(pending, processed, g.operands[u][i]);
        assert r.operands[u][i] == g.operands[u][i];
      }
    }
    forall u: NodeId | u in processed + {n} && u < |g0.operands| && r.operands[u] != [] && IsEncryptedMul(r, types', u)
      ensures u in pending + {n}
    {
      AllCipherKept(g, types, n, r, types', u);
      assert |r.operands[u]| == |g.operands[u]|;
    }
  }

  lemma NoneTooEarlyInsert(g0: Graph, g: Graph, types: TypeMap, n: NodeId, r: Graph, types': TypeMap)
    requires WellFormed(g) && NoneTooEarly(g0, g, types) && n < |g0.operands| <= |g.operands|
    requires MustBeSmall(g, types, n) && Relinearized(g, types, n, r, types')
    ensures NoneTooEarly(g0, r, types')
  {
    InsertAfterShape(g, n, Relinearize);
    var x := |g.operands|;
    forall m: NodeId | |g0.operands| <= m < |r.operands|
      ensures MustBeSmall(r, types', m)
    {
      var k := if m == x then n else m;
      assert MustBeSmall(g, types, k);
      forall u: NodeId
        ensures !Deferred(r, types', m, u)
      {
        DeferredBefore(g, types, n, r, types', m, u);
        assert !Deferred(g, types, k, u);
      }
    }
  }

  /** What could wait behind a node could have waited before the relinearization. */
  lemma DeferredBefore(g: Graph, types: TypeMap, n: NodeId, r: Graph, types': TypeMap, m: NodeId, u: NodeId)
    requires WellFormed(g) && n < |g.operands| && Relinearized(g, types, n, r, types')
    requires m != n && m < |r.operands|
    ensures Deferred(r, types', m, u) ==> Deferred(g, types, if m == |g.operands| then n else m, u)
  {
    InsertAfterShape(g, n, Relinearize);
    var x := |g.operands|;
    var k := if m == x then n else m;
    forall w: NodeId | w < |g.operands|
      ensures k in g.operands[w] <==> m in r.operands[w]
    {
      SubstMembers(g.operands[w], n, x, m);
      forall i: nat | i < |g.operands[w]|
        ensures g.operands[w][i] < x
      {
        assert Live(g, g.operands[w][i]);
      }
      if k in g.operands[w] {
        var i :| 0 <= i < |g.operands[w]| && g.operands[w][i] == k;
        assert r.operands[w][i] == m;
      }
      if m in r.operands[w] {
        var i :| 0 <= i < |r.operands[w]| && r.operands[w][i] == m;
        assert g.operands[w][i] == k;
      }
    }
    assert r.operands[x] == [n];
    if u < x {
      AllCipherKept(g, types, n, r, types', u);
    }
  }

  // ----- the relinearization is put off -----

  lemma DeferKeeps(g0: Graph, g: Graph, types: TypeMap, pending: set<NodeId>, processed: set<NodeId>, n: NodeId,
                   u: NodeId)
    requires WellFormed(g) && Grown(g0, g) && HandsOn(g, types, pending, processed)
    requires PendingReasons(g0, g, types, pending, processed)
    requires n < |g0.operands| && n !in processed && g.operands[n] != [] && TypeAt(types, n) == Cipher
    requires IsEncryptedMul(g, types, n) || n in pending
    requires Deferred(g, types, n, u) && u < |g0.operands| && TypeAt(types, u) == Cipher
    requires u !in processed && u != n
    ensures HandsOn(g, types, pending + {n, u}, processed + {n})
    ensures PendingReasons(g0, g, types, pending + {n, u}, processed + {n})
  {
    forall w: NodeId, i: nat | w < |g.operands| && i < |g.operands[w]| &&
        Carried(pending + {n, u}, processed + {n}, g.operands[w][i])
      ensures g.op[w].Relinearize? || (w in pending + {n, u} && !NeedsSmall(g, types, w))
    {
      if g.operands[w][i] == n {
        assert n in g.operands[w];
      }
    }
    forall w: NodeId | w in pending + {n, u}
      ensures w < |g0.operands| && TypeAt(types, w) == Cipher && g.operands[w] != []
      ensures HasBigOperand(g, pending + {n, u}, processed + {n}, w)
        || (w in processed + {n} && IsEncryptedMul(g, types, w))
    {
      if w in pending {
        if HasBigOperand(g, pending, processed, w) {
          var i: nat :| i < |g.operands[w]| && Carried(pending, processed, g.operands[w][i]);
        }
      } else if w == u {
        var i :| 0 <= i < |g.operands[u]| && g.operands[u][i] == n;
      }
    }
  }

  lemma SkipKeeps(g0: Graph, g: Graph, types: TypeMap, pending: set<NodeId>, processed: set<NodeId>, n: NodeId)
    requires WellFormed(g) && Grown(g0, g) && HandsOn(g, types, pending, processed)
    requires PendingReasons(g0, g, types, pending, processed)
    requires n < |g.operands| && (g.operands[n] == [] || (!IsEncryptedMul(g, types, n) && n !in pending))
    ensures HandsOn(g, types, pending, processed + {n})
    ensures PendingReasons(g0, g, types, pending, processed + {n})
  {
    forall u: NodeId | u in pending
      ensures HasBigOperand(g, pending, processed + {n}, u) || (u in processed + {n} && IsEncryptedMul(g, types, u))
    {
      if HasBigOperand(g, pending, processed, u) {
        var i: nat :| i < |g.operands[u]| && Carried(pending, processed, g.operands[u][i]);
      }
    }
  }

  // ----- one visit -----

  /** Visited nodes have visited operands; relinearizations stand behind visited nodes. */
  ghost predicate Closed(g0: Graph, g: Graph, processed: set<NodeId>)
  {
    && (forall m: NodeId, i: nat :: m < |g.operands| && m in processed && i < |g.operands[m]| ==>
          g.operands[m][i] in processed)
    && (forall x: NodeId, i: nat :: |g0.operands| <= x < |g.operands| && i < |g.operands[x]| ==>
          g.operands[x][i] in processed)
  }

  lemma ConcernedFacts(size: nat, g0: Graph, g: Graph, types: TypeMap, pending: set<NodeId>, processed: set<NodeId>,
                       n: NodeId)
    requires RelinInv(size, g0, g, types, pending, processed)
    requires n < |g.operands| && n !in processed && g.operands[n] != []
    requires IsEncryptedMul(g, types, n) || n in pending
    ensures n < |g0.operands| && Live(g, n) && TypeAt(types, n) == Cipher && IsUsed(g, n)
    ensures IsEncryptedMul(g, types, n) ==> n !in pending
  {
    if IsEncryptedMul(g, types, n) {
      assert TypeAt(types, g.operands[n][0]) == Cipher;
      assert TypeAt(types, n) == Inferred(g, types, n);
    }
    if n in pending {
      var i: nat :| i < |g.operands[n]| && Carried(pending, processed, g.operands[n][i]);
    }
  }

  lemma DeferredUse(size: nat, g0: Graph, g: Graph, types: TypeMap, pending: set<NodeId>, processed: set<NodeId>,
                    n: NodeId, u: NodeId)
    requires RelinInv(size, g0, g, types, pending, processed) && Closed(g0, g, processed)
    requires n < |g.operands| && n !in processed && TypeAt(types, n) == Cipher
    requires Deferred(g, types, n, u)
    ensures u < |g0.operands| && TypeAt(types, u) == Cipher && u !in processed && u != n
  {
    var i :| 0 <= i < |g.operands[u]| && g.operands[u][i] == n;
    var rank :| Ranked(g, rank);
    assert rank[g.operands[u][i]] < rank[u];
    assert TypeAt(types, u) == Inferred(g, types, u);
    assert TypeAt(types, g.operands[u][i]) == Cipher;
  }

  lemma InsertKeeps(size: nat, g0: Graph, g: Graph, types: TypeMap, pending: set<NodeId>, processed: set<NodeId>,
                    n: NodeId, r: Graph, types': TypeMap)
    requires RelinInv(size, g0, g, types, pending, processed) && WellFormed(r)
    requires n < |g.operands| && n !in processed && g.operands[n] != []
    requires IsEncryptedMul(g, types, n) || n in pending
    requires Relinearized(g, types, n, r, types') && MustBeSmall(g, types, n)
    ensures RelinInv(size, g0, r, types', pending + {n}, processed + {n})
  {
    ConcernedFacts(size, g0, g, types, pending, processed, n);
    InsertKeepsShape(size, g0, g, n, r);
    InsertThreads(g0, g, types, n, r);
    TypedKept(g, types, n, r, types');
    UsedKept(g, types, n, r, types');
    NewCiphersInsert(g0, g, types, n, r, types');
    NoneTooEarlyInsert(g0, g, types, n, r, types');
    HandsOnInsert(g0, g, types, pending, processed, n, r, types');
    ReasonsInsert(g0, g, types, pending, processed, n, r, types');
  }

  lemma NewCiphersInsert(g0: Graph, g: Graph, types: TypeMap, n: NodeId, r: Graph, types': TypeMap)
    requires NewCiphers(g0, g, types) && |g.op| == |g.operands| && n < |g.operands| && TypeAt(types, n) == Cipher
    requires Relinearized(g, types, n, r, types')
    ensures NewCiphers(g0, r, types')
  {
    InsertAfterShape(g, n, Relinearize);
    assert forall p: NodeId :: p != |g.operands| ==> TypeAt(types', p) == TypeAt(types, p);
  }

  lemma InsertThreads(g0: Graph, g: Graph, types: TypeMap, n: NodeId, r: Graph)
    requires WellFormed(g) && ThreadedInto(g0, g) && Typed(g, types) && SourceArity(g) && Live(g, n)
      && TypeAt(types, n) == Cipher
    requires r == InsertAfter(g, n, Relinearize) && IsUsed(g, n)
    requires ChainsKept(g0, g)
    ensures ThreadedInto(g0, r) && ChainsKept(g0, r)
  {
    hide ThreadedInto, ChainsKept;
    InsertAfterThreads(g, n, Relinearize);
    ThreadedTransitive(g0, g, r);
    InsertAfterChains(g, n, Relinearize);
    ChainsTransitive(g0, g, r);
  }

  lemma InsertKeepsShape(size: nat, g0: Graph, g: Graph, n: NodeId, r: Graph)
    requires WellFormed(g) && Acyclic(g) && Refines(size, g0, g) && Grown(g0, g) && Live(g, n)
    requires r == InsertAfter(g, n, Relinearize)
    ensures Acyclic(r) && Refines(size, g0, r) && Grown(g0, r)
  {
    InsertAfterAcyclic(g, n, Relinearize);
    InsertAfterRefines(size, g, n, Relinearize);
    RefinesTransitive(size, g0, g, r);
    InsertAfterShape(g, n, Relinearize);
  }

  lemma ClosedStep(g0: Graph, g: Graph, processed: set<NodeId>, n: NodeId, r: Graph)
    requires Closed(g0, g, processed) && Acyclic(g) && |g.op| == |g.operands| && |g0.operands| <= |g.operands|
    requires n < |g.operands| && n !in processed && Unblocked(g.operands, processed, n)
    requires r == g || r == InsertAfter(g, n, Relinearize)
    ensures Closed(g0, r, processed + {n})
    ensures LocalRewrite(g, r, processed, n, {})
  {
    var rank :| Ranked(g, rank);
    if r != g {
      InsertAfterShape(g, n, Relinearize);
      forall m: NodeId | m < |g.operands|
        ensures r.operands[m] == g.operands[m] || n in g.operands[m]
      {
        if n !in g.operands[m] {
          assert Subst(g.operands[m], n, |g.operands|) == g.operands[m];
        }
      }
      forall m: NodeId | m < |g.operands| && (m in processed + {n} || m >= |g0.operands|)
        ensures n !in g.operands[m]
      {
      }
    }
  }

  lemma VisitKeeps(size: nat, g0: Graph, g: Graph, types: TypeMap, pending: set<NodeId>, processed: set<NodeId>,
                   n: NodeId, r: Graph, types': TypeMap, pending': set<NodeId>)
    requires RelinInv(size, g0, g, types, pending, processed) && WellFormed(r) && Closed(g0, g, processed)
    requires n < |g.operands| && n !in processed && Unblocked(g.operands, processed, n)
    requires VisitEffect(g, types, pending, n, r, types', pending')
    ensures RelinInv(size, g0, r, types', pending', processed + {n})
    ensures Closed(g0, r, processed + {n}) && LocalRewrite(g, r, processed, n, {})
  {
    ClosedStep(g0, g, processed, n, r);
    if g.operands[n] != [] && (IsEncryptedMul(g, types, n) || n in pending) {
      ConcernedFacts(size, g0, g, types, pending, processed, n);
      if MustBeSmall(g, types, n) && Relinearized(g, types, n, r, types') && pending' == pending + {n} {
        InsertKeeps(size, g0, g, types, pending, processed, n, r, types');
      } else {
        var u: NodeId :| Deferred(g, types, n, u) && pending' == pending + {n, u};
        DeferredUse(size, g0, g, types, pending, processed, n, u);
        DeferKeeps(g0, g, types, pending, processed, n, u);
      }
    } else {
      SkipKeeps(g0, g, types, pending, processed, n);
    }
  }

  method RelinStep(d: Dag, l: LazyRelinearizer, t: DagTraversal, ghost g0: Graph, ghost size: nat)
    returns (n: NodeId, ok: bool)
    requires d.Valid() && t.Consistent({}) && t.work != []
    requires RelinInv(size, g0, d.G(), l.types, l.pending, t.processed) && Closed(g0, d.G(), t.processed)
    requires FwdInv(d.G(), t.ready, t.processed, Elems(t.work), {})
    modifies d, l, t
    ensures d.Valid() && t.Consistent({}) && ok
    ensures RelinInv(size, g0, d.G(), l.types, l.pending, t.processed) && Closed(g0, d.G(), t.processed)
    ensures FwdInv(d.G(), t.ready, t.processed, Elems(t.work), {})
    ensures n < old(|d.operands|) && n !in old(t.processed) && t.processed == old(t.processed) + {n}
    ensures n >= |g0.operands| ==> |d.operands| == old(|d.operands|)
    ensures old(|d.operands|) <= |d.operands| <= old(|d.operands|) + 1
    ensures forall x: NodeId :: x >= |d.operands| ==> TypeAt(l.types, x) == TypeAt(old(l.types), x)
  {
    hide RelinInv, FwdInv, Frontier, Closed, WellFormed, UsesInverse, SinksMatch, LocalRewrite, VisitEffect,
         Unblocked, IsEncryptedMul, TypesKnown;
    ghost var g, processed := d.G(), t.processed;
    ghost var types0, pending0 := l.types, l.pending;
    FwdPop(g, t.ready, t.processed, t.work, {});
    n := t.Pop({});
    StepBefore(size, g0, g, types0, pending0, processed, n, d.uses);
    var cands := d.uses[n];
    RelinTyped(size, g0, g, types0, pending0, processed);
    ok := l.Visit(d, n);
    VisitKeeps(size, g0, g, types0, pending0, processed, n, d.G(), l.types, l.pending);
    VisitGrowth(g0, g, types0, pending0, n, d.G(), l.types, l.pending);
    FwdFinish(d, t, n, cands, g, processed, {}, {});
  }

  lemma RelinTyped(size: nat, g0: Graph, g: Graph, types: TypeMap, pending: set<NodeId>, processed: set<NodeId>)
    requires RelinInv(size, g0, g, types, pending, processed)
    ensures TypesKnown(g, types)
  {
    forall p: NodeId | Live(g, p)
      ensures TypeAt(types, p) != Undef
    {
      assert TypeAt(types, p) == Inferred(g, types, p);
    }
  }

  /** Why the assertions of the visit hold. */
  lemma StepBefore(size: nat, g0: Graph, g: Graph, types: TypeMap, pending: set<NodeId>, processed: set<NodeId>,
                   n: NodeId, uses: seq<seq<NodeId>>)
    requires RelinInv(size, g0, g, types, pending, processed) && n < |g.operands| && n !in processed
    requires UsesInverse(g.operands, uses)
    ensures |g.op| == |g.operands| && |uses| == |g.operands|
    ensures n >= |g0.operands| ==> !IsEncryptedMul(g, types, n) && n !in pending
    ensures g.operands[n] == [] || ((IsEncryptedMul(g, types, n) ==> n !in pending) &&
      (IsEncryptedMul(g, types, n) || n in pending ==> uses[n] != []))
    ensures forall m: NodeId :: m < |g.operands| && n in g.operands[m] ==> m in uses[n]
    ensures forall i: nat :: i < |uses[n]| ==> uses[n][i] < |g.operands| && n in g.operands[uses[n][i]]
  {
    if g.operands[n] != [] && (IsEncryptedMul(g, types, n) || n in pending) {
      ConcernedFacts(size, g0, g, types, pending, processed, n);
      var u: NodeId :| u < |g.operands| && n in g.operands[u];
      UsersAreUses(g.operands, uses, n, u);
    }
    forall m: NodeId
      ensures m in uses[n] <==> m < |g.operands| && n in g.operands[m]
    {
      UsersAreUses(g.operands, uses, n, m);
    }
    forall i: nat | i < |uses[n]|
      ensures uses[n][i] < |g.operands| && n in g.operands[uses[n][i]]
    {
      assert uses[n][i] in uses[n];
    }
  }

  lemma VisitGrowth(g0: Graph, g: Graph, types: TypeMap, pending: set<NodeId>, n: NodeId, r: Graph, types': TypeMap,
                    pending': set<NodeId>)
    requires |g.op| == |g.operands| && n < |g.operands| && VisitEffect(g, types, pending, n, r, types', pending')
    ensures |g.operands| <= |r.operands| <= |g.operands| + 1
    ensures !IsEncryptedMul(g, types, n) && n !in pending ==> r == g
    ensures forall x: NodeId :: x >= |r.operands| ==> TypeAt(types', x) == TypeAt(types, x)
  {
  }

  // ----- the pass -----

  /** The result of the pass, over all live nodes. */
  ghost predicate Relaxed(g: Graph, types: TypeMap, pending: set<NodeId>)
  {
    && |g.op| == |g.operands|
    && HandsOn(g, types, pending, LiveNodes(g))
    && (forall u: NodeId :: u in pending ==>
          u < |g.operands| && g.operands[u] != [] && TypeAt(types, u) == Cipher && !g.op[u].Relinearize?)
    && (forall u: NodeId :: u in pending ==> HasBigOperand(g, pending, LiveNodes(g), u) || IsEncryptedMul(g, types, u))
    && (forall u: NodeId :: Live(g, u) && g.operands[u] != [] && IsEncryptedMul(g, types, u) ==> u in pending)
  }

  lemma RelinStart(size: nat, g0: Graph, types: TypeMap)
    requires WellFormed(g0) && Acyclic(g0) && Typed(g0, types) && SourceArity(g0)
    requires CiphersUsed(g0, types) && EncodesRaw(g0, types)
    ensures RelinInv(size, g0, g0, types, {}, {}) && Closed(g0, g0, {})
  {
    RefinesReflexive(size, g0);
    ThreadedReflexive(g0);
    ChainsReflexive(g0);
  }

  lemma RelinEnd(size: nat, g0: Graph, g: Graph, types: TypeMap, pending: set<NodeId>, processed: set<NodeId>)
    requires RelinInv(size, g0, g, types, pending, processed)
    requires FwdInv(g, processed, processed, {}, {})
    requires forall n: NodeId :: n < |g0.op| ==> !g0.op[n].Relinearize?
    ensures Relaxed(g, types, pending) && Acyclic(g) && Refines(size, g0, g)
    ensures Typed(g, types) && SourceArity(g) && Grown(g0, g) && EncodesRaw(g, types) && ThreadedInto(g0, g)
      && ChainsKept(g0, g)
    ensures CiphersUsed(g, types) && NewCiphers(g0, g, types) && NoneTooEarly(g0, g, types)
  {
    var rank :| Ranked(g, rank);
    forall m: NodeId | Live(g, m)
      ensures m in processed
    {
      FwdEnd(g, rank, processed, {}, m);
    }
    forall u: NodeId | u in pending
      ensures !g.op[u].Relinearize? && (HasBigOperand(g, pending, LiveNodes(g), u) || IsEncryptedMul(g, types, u))
    {
      assert g.op[u] == g0.op[u];
      if HasBigOperand(g, pending, processed, u) {
        var i: nat :| i < |g.operands[u]| && Carried(pending, processed, g.operands[u][i]);
        assert Live(g, g.operands[u][i]);
        assert Carried(pending, LiveNodes(g), g.operands[u][i]);
      }
    }
    forall u: NodeId | Live(g, u) && g.operands[u] != [] && IsEncryptedMul(g, types, u)
      ensures u in pending
    {
      assert u < |g0.operands|;
    }
  }

  /** Behind each relinearization stand two nodes, or one that takes only two polynomials. */
  lemma WhyRelinearized(g0: Graph, g: Graph, types: TypeMap, x: NodeId)
    requires Grown(g0, g) && CiphersUsed(g, types) && NewCiphers(g0, g, types) && NoneTooEarly(g0, g, types)
    requires |g0.operands| <= x < |g.operands|
    ensures exists u: NodeId, u': NodeId ::
      && u < |g.operands| && u' < |g.operands| && x in g.operands[u] && x in g.operands[u']
      && (u != u' || NeedsSmall(g, types, u))
  {
    assert g.op[x].Relinearize? && IsUsed(g, x);
    var u: NodeId :| u < |g.operands| && x in g.operands[u];
    assert MustBeSmall(g, types, x) && !Deferred(g, types, x, u);
    if !NeedsSmall(g, types, u) {
      var u': NodeId :| u' < |g.operands| && x in g.operands[u'] && u' != u;
    }
  }

  /** The forward pass, iyfc/seal/alo/seal_ckks_handler.cpp:52; ok: no assertion failed. */
  method RelinearizeLazily(d: Dag, types: TypeMap, scale: ScaleMap, ghost size: nat) returns (l: LazyRelinearizer,
      ok: bool)
    requires d.Valid() && Acyclic(d.G()) && Typed(d.G(), types) && SourceArity(d.G())
    requires CiphersUsed(d.G(), types) && EncodesRaw(d.G(), types)
    requires forall n: NodeId :: n < |d.op| ==> !d.op[n].Relinearize?
    modifies d
    ensures fresh(l) && ok && d.Valid() && Refines(size, old(d.G()), d.G()) && Acyclic(d.G())
    ensures Typed(d.G(), l.types) && SourceArity(d.G()) && Grown(old(d.G()), d.G()) && EncodesRaw(d.G(), l.types)
    ensures CiphersUsed(d.G(), l.types) && NewCiphers(old(d.G()), d.G(), l.types)
    ensures NoneTooEarly(old(d.G()), d.G(), l.types)
    ensures Relaxed(d.G(), l.types, l.pending) && ThreadedInto(old(d.G()), d.G()) && ChainsKept(old(d.G()), d.G())
    ensures forall x: NodeId :: x >= |d.operands| ==> TypeAt(l.types, x) == TypeAt(types, x)
  {
    hide RelinInv, FwdInv, Closed, Relaxed, ThreadedInto, ChainsKept, Refines, Acyclic, Typed, Grown, CiphersUsed,
         EncodesRaw;
    ghost var g0 := d.G();
    RelinStart(size, g0, types);
    FwdStart(g0, d.sources);
    l := new LazyRelinearizer(types, scale);
    var t := new DagTraversal();
    t.Begin(d.sources);
    ok := true;
    while t.work != []
      invariant d.Valid() && t.Consistent({}) && ok
      invariant forall x: NodeId :: x >= |d.operands| ==> TypeAt(l.types, x) == TypeAt(types, x)
      invariant RelinInv(size, g0, d.G(), l.types, l.pending, t.processed) && Closed(g0, d.G(), t.processed)
      invariant FwdInv(d.G(), t.ready, t.processed, Elems(t.work), {})
      decreases AllNodes(g0) - t.processed, AllNodes(d.G()) - t.processed
    {
      hide *;
      ghost var before := d.G();
      var n, fine := RelinStep(d, l, t, g0, size);
      NodesShrink(g0, before, n);
      ok := ok && fine;
    }
    assert Elems(t.work) == {} && t.ready == t.processed;
    RelinEnd(size, g0, d.G(), l.types, l.pending, t.processed);
  }

  lemma NodesShrink(g0: Graph, g: Graph, n: NodeId)
    ensures n < |g0.operands| <==> n in AllNodes(g0)
    ensures n < |g.operands| <==> n in AllNodes(g)
  {
  }
}
