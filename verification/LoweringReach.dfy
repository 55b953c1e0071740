/** Which subtractions the lowering pass reaches. A lowered subtraction hands its uses to a sum that is
    never visited, so nothing behind it is visited either: exactly the nodes without a plaintext minus
    ciphertext before them are. */
module LoweringReach {
  import opened Graphs
  import opened Usage
  import opened Dags
  import opened Traversals
  import opened Semantics
  import opened Types
  import opened Lowering
  import opened CleanNodes

  // ----- what stands before a node -----

  /** A path of at least one edge leads from a to n. */
  ghost predicate Precedes(g: Graph, a: NodeId, n: NodeId)
  {
    exists path :: LeadsFrom(g, a, path, n)
  }

  ghost predicate LeadsFrom(g: Graph, a: NodeId, path: seq<NodeId>, n: NodeId)
  {
    IsPath(g, path) && |path| > 1 && path[0] == a && path[|path| - 1] == n
  }

  /** Some plaintext minus ciphertext stands before n. */
  ghost predicate BehindSub(g: Graph, types: TypeMap, n: NodeId)
  {
    exists a: NodeId :: IsPlainMinusCipher(g, types, a) && Precedes(g, a, n)
  }

  lemma PathByOperand(g: Graph, a: NodeId, path: seq<NodeId>, n: NodeId)
    requires LeadsFrom(g, a, path, n)
    ensures var p := path[|path| - 2]; n < |g.operands| && p in g.operands[n] && (p == a || Precedes(g, a, p))
  {
    var shorter := path[..|path| - 1];
    var p := path[|path| - 2];
    assert path[|path| - 2] in g.operands[path[|path| - 2 + 1]];
    if |path| > 2 {
      forall k: nat | k + 1 < |shorter|
        ensures shorter[k] in g.operands[shorter[k + 1]]
      {
        assert path[k] in g.operands[path[k + 1]];
      }
      assert LeadsFrom(g, a, shorter, p);
    }
  }

  lemma OperandPrecedes(g: Graph, a: NodeId, p: NodeId, n: NodeId)
    requires n < |g.operands| && n < |g.op| && p < |g.operands| && p < |g.op| && p in g.operands[n]
    requires p == a || Precedes(g, a, p)
    ensures Precedes(g, a, n)
  {
    if p == a {
      assert LeadsFrom(g, a, [p, n], n);
    } else {
      var path :| LeadsFrom(g, a, path, p);
      var longer := path + [n];
      forall k: nat | k + 1 < |longer|
        ensures longer[k] in g.operands[longer[k + 1]]
      {
        if k + 1 < |path| {
          assert path[k] in g.operands[path[k + 1]];
        }
      }
      assert LeadsFrom(g, a, longer, n);
    }
  }

  /** p is such a subtraction, or stands behind one. */
  ghost predicate SubUpTo(g: Graph, types: TypeMap, p: NodeId)
  {
    IsPlainMinusCipher(g, types, p) || BehindSub(g, types, p)
  }

  /** A node stands behind a subtraction exactly when one of its operands is one or does. */
  lemma BehindByOperand(g: Graph, types: TypeMap, n: NodeId)
    requires InRange(g) && n < |g.operands|
    ensures BehindSub(g, types, n) <==> exists i: nat :: i < |g.operands[n]| && SubUpTo(g, types, g.operands[n][i])
  {
    hide IsPlainMinusCipher, IsPath;
    if BehindSub(g, types, n) {
      var a: NodeId :| IsPlainMinusCipher(g, types, a) && Precedes(g, a, n);
      var path :| LeadsFrom(g, a, path, n);
      PathByOperand(g, a, path, n);
      var i: nat :| i < |g.operands[n]| && g.operands[n][i] == path[|path| - 2];
      assert SubUpTo(g, types, g.operands[n][i]);
    }
    if i: nat :| i < |g.operands[n]| && SubUpTo(g, types, g.operands[n][i]) {
      var p := g.operands[n][i];
      var a: NodeId :| IsPlainMinusCipher(g, types, a) && (p == a || Precedes(g, a, p));
      OperandPrecedes(g, a, p, n);
    }
  }

  // ----- the graph during the pass -----

  /** The sum that takes over for the k-th lowered subtraction. */
  function SumOf(g0: Graph, k: nat): NodeId
  {
    |g0.operands| + 2 * k + 1
  }

  /** An operand p of the graph before the pass is q afterwards. */
  predicate MovedTo(g0: Graph, lowered: seq<NodeId>, p: NodeId, q: NodeId)
  {
    && (p !in lowered ==> q == p)
    && forall k: nat :: k < |lowered| && lowered[k] == p ==> q == SumOf(g0, k)
  }

  /** The k-th two new nodes negate the subtrahend of the k-th lowered subtraction and add its minuend. */
  predicate SumReplaces(g0: Graph, lowered: seq<NodeId>, g: Graph, k: nat)
    requires k < |lowered|
  {
    var n, x := lowered[k], SumOf(g0, k);
    && n < |g0.operands| && |g0.operands[n]| == 2 && x < |g.operands| && x < |g.op|
    && g.op[x - 1] == Negate && g.operands[x - 1] == [g0.operands[n][1]]
    && g.op[x] == Add && g.operands[x] == [g0.operands[n][0], x - 1]
  }

  /** g is g0 in which the sums have taken over all uses of the lowered subtractions; there are no
      other new nodes, and no other operand is changed. */
  ghost predicate WithSums(g0: Graph, lowered: seq<NodeId>, g: Graph)
  {
    && |g0.op| == |g0.operands| && |g.op| == |g.operands| == |g0.operands| + 2 * |lowered|
    && g0.op <= g.op && g.sources == g0.sources && NoDuplicates(lowered)
    && (forall u: NodeId :: u < |g0.operands| ==> |g.operands[u]| == |g0.operands[u]|)
    && (forall u: NodeId, i: nat :: u < |g0.operands| && i < |g0.operands[u]| ==>
          MovedTo(g0, lowered, g0.operands[u][i], g.operands[u][i]))
    && forall k: nat :: k < |lowered| ==> SumReplaces(g0, lowered, g, k)
  }

  /** Visited nodes stand behind no subtraction, and those of them that are one have been lowered. */
  ghost predicate Reached(g0: Graph, types: TypeMap, lowered: seq<NodeId>, processed: set<NodeId>)
  {
    && (forall n: NodeId :: n in processed ==> n < |g0.operands| && Live(g0, n) && !BehindSub(g0, types, n))
    && forall n: NodeId :: n in lowered <==> n in processed && IsPlainMinusCipher(g0, types, n)
  }

  /** Nodes that are not ready wait for an operand. */
  ghost predicate OldWaiting(g0: Graph, g: Graph, ready: set<NodeId>, processed: set<NodeId>)
  {
    |g0.operands| <= |g.operands| && forall m: NodeId :: Live(g0, m) && m !in ready ==>
      !Unblocked(g.operands, processed, m)
  }

  ghost predicate ReachInv(g0: Graph, types: TypeMap, lowered: seq<NodeId>, g: Graph, ready: set<NodeId>,
                           processed: set<NodeId>)
  {
    && InRange(g0) && WithSums(g0, lowered, g) && Reached(g0, types, lowered, processed)
    && OldWaiting(g0, g, ready, processed) && processed <= ready
  }

  lemma ReachStart(g: Graph, types: TypeMap)
    requires WellFormed(g)
    ensures ReachInv(g, types, [], g, g.sources, {})
  {
    WellFormedRange(g);
    forall m: NodeId | Live(g, m) && m !in g.sources
      ensures !Unblocked(g.operands, {}, m)
    {
      var first := g.operands[m][0];
      assert Unblocked(g.operands, {}, m) ==> first in {};
    }
  }

  // ----- a visit -----

  lemma NotMoved(g0: Graph, lowered: seq<NodeId>, p: NodeId, q: NodeId)
    requires MovedTo(g0, lowered, p, q) && q < |g0.operands|
    ensures p !in lowered && q == p
  {
    forall k: nat | k < |lowered|
      ensures lowered[k] != p
    {
      assert lowered[k] == p ==> q == SumOf(g0, k);
    }
  }

  /** The operands of a node about to be visited are those it had. */
  lemma VisitedOperands(g0: Graph, types: TypeMap, lowered: seq<NodeId>, g: Graph, ready: set<NodeId>,
                        processed: set<NodeId>, n: NodeId)
    requires ReachInv(g0, types, lowered, g, ready, processed)
    requires n < |g0.operands| && Unblocked(g.operands, processed, n)
    ensures n < |g.operands| && g.operands[n] == g0.operands[n] && n < |g.op| && g.op[n] == g0.op[n]
    ensures forall i: nat :: i < |g0.operands[n]| ==>
      g0.operands[n][i] in processed && g0.operands[n][i] !in lowered
  {
    hide BehindSub, IsPlainMinusCipher;
    forall i: nat | i < |g0.operands[n]|
      ensures g.operands[n][i] == g0.operands[n][i] && g0.operands[n][i] in processed
        && g0.operands[n][i] !in lowered
    {
      assert g.operands[n][i] in processed;
      NotMoved(g0, lowered, g0.operands[n][i], g.operands[n][i]);
    }
  }

  lemma VisitedReached(g0: Graph, types: TypeMap, lowered: seq<NodeId>, g: Graph, ready: set<NodeId>,
                       processed: set<NodeId>, n: NodeId)
    requires ReachInv(g0, types, lowered, g, ready, processed)
    requires n < |g0.operands| && Unblocked(g.operands, processed, n)
    ensures !BehindSub(g0, types, n)
    ensures IsPlainMinusCipher(g, types, n) == IsPlainMinusCipher(g0, types, n)
  {
    VisitedOperands(g0, types, lowered, g, ready, processed, n);
    BehindByOperand(g0, types, n);
    hide BehindSub;
    forall i: nat | i < |g0.operands[n]|
      ensures !SubUpTo(g0, types, g0.operands[n][i])
    {
      assert g0.operands[n][i] in processed;
    }
  }

  /** What the visit of n does to the list of lowered subtractions. */
  function NextLowered(g: Graph, types: TypeMap, n: NodeId, lowered: seq<NodeId>): seq<NodeId>
  {
    if IsPlainMinusCipher(g, types, n) then lowered + [n] else lowered
  }

  lemma ReachedNext(g0: Graph, types: TypeMap, lowered: seq<NodeId>, processed: set<NodeId>, n: NodeId)
    requires Reached(g0, types, lowered, processed) && Live(g0, n) && !BehindSub(g0, types, n) && n !in processed
    ensures Reached(g0, types, NextLowered(g0, types, n, lowered), processed + {n})
    ensures n !in lowered
  {
    hide BehindSub, IsPlainMinusCipher;
  }

  /** No new node uses what has not been visited. */
  ghost predicate SumsUse(g0: Graph, g: Graph, processed: set<NodeId>)
  {
    forall x: NodeId, i: nat :: |g0.operands| <= x < |g.operands| && i < |g.operands[x]| ==>
      g.operands[x][i] in processed || g.operands[x][i] >= |g0.operands|
  }

  lemma SumsNext(g0: Graph, lowered: seq<NodeId>, g: Graph, processed: set<NodeId>, n: NodeId)
    requires WithSums(g0, lowered, g) && SumsUse(g0, g, processed) && n !in lowered && n !in processed
    requires n < |g0.operands| && |g0.operands[n]| == 2 && g.operands[n] == g0.operands[n] && n !in g.operands[n]
    ensures WithSums(g0, lowered + [n], Lowered(g, n))
  {
    var r, next := Lowered(g, n), lowered + [n];
    LoweredShape(g, n);
    hide MovedTo, SumReplaces, Lowered, SumsUse;
    forall u: NodeId, i: nat | u < |g0.operands| && i < |g0.operands[u]|
      ensures MovedTo(g0, next, g0.operands[u][i], r.operands[u][i])
    {
      MovedNext(g0, lowered, n, g0.operands[u][i], g.operands[u][i]);
    }
    SumNew(g0, lowered, g, n);
    forall k: nat | k < |lowered|
      ensures SumReplaces(g0, next, r, k)
    {
      SumStays(g0, lowered, g, processed, n, k);
    }
  }

  lemma SumNew(g0: Graph, lowered: seq<NodeId>, g: Graph, n: NodeId)
    requires |g.op| == |g.operands| == |g0.operands| + 2 * |lowered|
    requires n < |g0.operands| && |g0.operands[n]| == 2 && g.operands[n] == g0.operands[n] && n !in g.operands[n]
    ensures SumReplaces(g0, lowered + [n], Lowered(g, n), |lowered|)
  {
    LoweredShape(g, n);
  }

  lemma MovedNext(g0: Graph, lowered: seq<NodeId>, n: NodeId, p: NodeId, q: NodeId)
    requires MovedTo(g0, lowered, p, q) && n !in lowered && n < |g0.operands|
    ensures MovedTo(g0, lowered + [n], p, if q == n then SumOf(g0, |lowered|) else q)
  {
    var next := lowered + [n];
    if p in lowered {
      var k: nat :| k < |lowered| && lowered[k] == p;
      assert q == SumOf(g0, k);
    }
    assert p !in next ==> p !in lowered && p != n by {
      if p in lowered {
        var k: nat :| k < |lowered| && lowered[k] == p;
        assert next[k] == p;
      }
      assert next[|lowered|] == n;
    }
  }

  lemma SumStays(g0: Graph, lowered: seq<NodeId>, g: Graph, processed: set<NodeId>, n: NodeId, k: nat)
    requires WithSums(g0, lowered, g) && SumsUse(g0, g, processed) && n !in processed && k < |lowered|
    requires n < |g0.operands| && |g.operands[n]| == 2 && n !in g.operands[n] && n < |g.operands|
    ensures SumReplaces(g0, lowered + [n], Lowered(g, n), k)
  {
    LoweredShape(g, n);
    assert SumReplaces(g0, lowered, g, k);
    hide MovedTo, WithSums, Lowered;
    var r, x := Lowered(g, n), SumOf(g0, k);
    assert g.operands[x - 1][0] != n && g.operands[x][0] != n && g.operands[x][1] != n;
    assert r.operands[x - 1] == g.operands[x - 1] && r.operands[x] == g.operands[x];
  }

  /** The effect of a visit on the graph, given that it is what the pass does at n. */
  lemma WithSumsNext(g0: Graph, types: TypeMap, lowered: seq<NodeId>, g: Graph, ready: set<NodeId>,
                     processed: set<NodeId>, n: NodeId, r: Graph)
    requires ReachInv(g0, types, lowered, g, ready, processed) && SumsUse(g0, g, processed)
    requires Live(g0, n) && n !in processed && Unblocked(g.operands, processed, n)
    requires r == if IsPlainMinusCipher(g, types, n) then Lowered(g, n) else g
    ensures var next := NextLowered(g0, types, n, lowered);
      WithSums(g0, next, r) && Reached(g0, types, next, processed + {n})
  {
    VisitedOperands(g0, types, lowered, g, ready, processed, n);
    VisitedReached(g0, types, lowered, g, ready, processed, n);
    ReachedNext(g0, types, lowered, processed, n);
    if IsPlainMinusCipher(g, types, n) {
      forall i: nat | i < |g.operands[n]|
        ensures g.operands[n][i] != n
      {
        assert g0.operands[n][i] in processed;
      }
      hide Reached, OldWaiting, BehindSub, SumsUse;
      SumsNext(g0, lowered, g, processed, n);
    }
  }

  /** Nodes that waited for another operand still do, and the others are ready or still wait. */
  lemma WaitingNext(g0: Graph, g: Graph, ready: set<NodeId>, processed: set<NodeId>, n: NodeId, r: Graph,
                    cands: seq<NodeId>, ready': set<NodeId>)
    requires OldWaiting(g0, g, ready, processed) && ready <= ready' && |g.operands| <= |r.operands|
    requires forall m: NodeId :: m < |g0.operands| ==>
      r.operands[m] == g.operands[m] || n in g.operands[m]
    requires forall m: NodeId :: m < |g.operands| && n in g.operands[m] ==> m in cands
    requires forall i: nat :: i < |cands| && cands[i] < |r.operands| ==>
      cands[i] in ready' || !Unblocked(r.operands, processed + {n}, cands[i])
    ensures OldWaiting(g0, r, ready', processed + {n})
  {
    forall m: NodeId | Live(g0, m) && m !in ready'
      ensures !Unblocked(r.operands, processed + {n}, m)
    {
      if n in g.operands[m] {
        var k: nat :| k < |cands| && cands[k] == m;
      } else {
        var i: nat :| i < |g.operands[m]| && g.operands[m][i] !in processed;
        assert g.operands[m][i] != n && r.operands[m][i] !in processed + {n};
      }
    }
  }

  // ----- the end -----

  /** When nothing is left to visit, every node that stands behind no subtraction has been visited. */
  lemma {:induction false} AllReached(g0: Graph, rank: seq<nat>, types: TypeMap, lowered: seq<NodeId>, g: Graph,
                                      processed: set<NodeId>, m: NodeId)
    requires WellFormed(g0) && Ranked(g0, rank) && ReachInv(g0, types, lowered, g, processed, processed)
    requires Live(g0, m) && !BehindSub(g0, types, m)
    ensures m in processed
    decreases rank[m]
  {
    if m !in processed {
      assert !Unblocked(g.operands, processed, m);
      var i: nat :| i < |g.operands[m]| && g.operands[m][i] !in processed;
      var p := g0.operands[m][i];
      BehindByOperand(g0, types, m);
      assert !SubUpTo(g0, types, p) && Live(g0, p);
      hide BehindSub, IsPlainMinusCipher;
      assert MovedTo(g0, lowered, p, g.operands[m][i]) && g.operands[m][i] == p;
      AllReached(g0, rank, types, lowered, g, processed, p);
    }
  }

  /** The graph after the pass: the lowered subtractions are those that stand behind no other. */
  ghost predicate FirstLowered(g0: Graph, types: TypeMap, lowered: seq<NodeId>, g: Graph)
  {
    && WithSums(g0, lowered, g)
    && forall n: NodeId :: n in lowered <==> Live(g0, n) && IsPlainMinusCipher(g0, types, n) && !BehindSub(g0, types, n)
  }

  ghost predicate IsVisited(g0: Graph, types: TypeMap, visited: set<NodeId>)
  {
    forall n: NodeId :: n in visited <==> Live(g0, n) && !BehindSub(g0, types, n)
  }

  lemma ReachEnd(g0: Graph, types: TypeMap, lowered: seq<NodeId>, g: Graph, processed: set<NodeId>)
    requires WellFormed(g0) && Acyclic(g0) && ReachInv(g0, types, lowered, g, processed, processed)
    ensures FirstLowered(g0, types, lowered, g) && IsVisited(g0, types, processed)
  {
    var rank :| Ranked(g0, rank);
    hide BehindSub, IsPlainMinusCipher, WithSums, OldWaiting;
    forall n: NodeId | Live(g0, n) && !BehindSub(g0, types, n)
      ensures n in processed
    {
      AllReached(g0, rank, types, lowered, g, processed, n);
    }
  }
}
