/** Which nodes are used, and edits after which every used node still is. */
module Usage {
  import opened Graphs

  ghost predicate IsUsed(g: Graph, n: NodeId)
  {
    exists u: NodeId :: u < |g.operands| && n in g.operands[u]
  }

  /** Nothing else uses what an output uses. */
  ghost predicate OutputsAlone(g: Graph)
  {
    forall o: NodeId, u: NodeId, p: NodeId :: OutputUses(g, o, p) && u < |g.operands| && p in g.operands[u] ==> u == o
  }

  predicate OutputUses(g: Graph, o: NodeId, p: NodeId)
  {
    o < |g.op| && g.op[o].Output? && o < |g.operands| && p in g.operands[o]
  }

  ghost predicate AloneKept(g: Graph, r: Graph)
  {
    OutputsAlone(g) ==> OutputsAlone(r)
  }

  /** The same nodes of g are used, and all nodes of r that are not in g; outputs alone stay so. */
  ghost predicate UsedKept(g: Graph, r: Graph)
  {
    && |g.operands| <= |r.operands| && AloneKept(g, r)
    && (forall m: NodeId :: m < |g.operands| ==> (IsUsed(r, m) <==> IsUsed(g, m)))
    && (forall x: NodeId :: |g.operands| <= x < |r.operands| ==> IsUsed(r, x))
  }

  lemma UsedAlone(g: Graph, r: Graph)
    requires UsedKept(g, r)
    ensures AloneKept(g, r)
  {
  }

  lemma AloneTransitive(g: Graph, g': Graph, g'': Graph)
    requires AloneKept(g, g') && AloneKept(g', g'')
    ensures AloneKept(g, g'')
  {
  }

  lemma UsedReflexive(g: Graph)
    ensures UsedKept(g, g)
  {
  }

  lemma UsedTransitive(g: Graph, g': Graph, g'': Graph)
    requires UsedKept(g, g') && UsedKept(g', g'')
    ensures UsedKept(g, g'')
  {
  }

  lemma UsedBy(g: Graph, u: NodeId, i: nat)
    requires u < |g.operands| && i < |g.operands[u]|
    ensures IsUsed(g, g.operands[u][i])
  {
    assert g.operands[u][i] in g.operands[u];
  }

  lemma UserOf(g: Graph, n: NodeId) returns (u: NodeId, i: nat)
    requires IsUsed(g, n)
    ensures u < |g.operands| && i < |g.operands[u]| && g.operands[u][i] == n
  {
    u :| u < |g.operands| && n in g.operands[u];
    i :| i < |g.operands[u]| && g.operands[u][i] == n;
  }

  ghost predicate InRange(g: Graph)
  {
    |g.op| == |g.operands| && forall u: NodeId, i: nat :: u < |g.operands| && i < |g.operands[u]| ==>
      g.operands[u][i] < |g.operands|
  }

  lemma WellFormedRange(g: Graph)
    requires WellFormed(g)
    ensures InRange(g)
  {
    forall u: NodeId, i: nat | u < |g.operands| && i < |g.operands[u]|
      ensures g.operands[u][i] < |g.operands|
    {
      assert Live(g, g.operands[u][i]);
    }
  }

  lemma InsertAfterAlone(g: Graph, a: NodeId, op: Op)
    requires InRange(g) && a < |g.operands| && !op.Output? && OutputsAlone(g)
    ensures OutputsAlone(InsertAfter(g, a, op))
  {
    var r, x := InsertAfter(g, a, op), |g.operands|;
    InsertAfterShape(g, a, op);
    forall o: NodeId, u: NodeId, p: NodeId | OutputUses(r, o, p) && u < |r.operands| && p in r.operands[u]
      ensures u == o
    {
      assert o < x;
      SubstMembers(g.operands[o], a, x, p);
      if u < x {
        SubstMembers(g.operands[u], a, x, p);
        var q := if p == x then a else p;
        MemberRange(g, o, p);
        MemberRange(g, u, p);
        assert OutputUses(g, o, q) && q in g.operands[u];
      }
    }
  }

  /** In r, n uses the new node x in place of its operand o; only new nodes lead from o to x. */
  ghost predicate Rerouted(g: Graph, r: Graph, n: NodeId, o: NodeId, x: NodeId)
  {
    && InRange(g) && |r.op| == |r.operands| && g.op <= r.op && n < |g.operands| && o in g.operands[n]
    && |g.operands| <= x < |r.operands|
    && (forall u: NodeId :: u < |g.operands| ==>
          r.operands[u] == if u == n then Subst(g.operands[n], o, x) else g.operands[u])
    && (forall y: NodeId :: |g.operands| <= y < |r.operands| ==> !r.op[y].Output?)
    && forall y: NodeId, p: NodeId :: |g.operands| <= y < |r.operands| && p in r.operands[y] ==>
         p == o || (p >= |g.operands| && p != x)
  }

  lemma ReroutedAlone(g: Graph, r: Graph, n: NodeId, o: NodeId, x: NodeId)
    requires Rerouted(g, r, n, o, x)
    ensures OutputsAlone(g) ==> OutputsAlone(r)
  {
    if OutputsAlone(g) {
      forall k: NodeId, u: NodeId, p: NodeId | OutputUses(r, k, p) && u < |r.operands| && p in r.operands[u]
        ensures u == k
      {
        ReroutedUser(g, r, n, o, x, k, u, p);
      }
    }
  }

  lemma ReroutedUser(g: Graph, r: Graph, n: NodeId, o: NodeId, x: NodeId, k: NodeId, u: NodeId, p: NodeId)
    requires Rerouted(g, r, n, o, x) && OutputsAlone(g)
    requires OutputUses(r, k, p) && u < |r.operands| && p in r.operands[u]
    ensures u == k
  {
    SubstMembers(g.operands[n], o, x, p);
    assert k < |g.operands|;
    MemberRange(g, k, p);
    if u < |g.operands| {
      MemberRange(g, u, p);
    }
    if k != n {
      assert OutputUses(g, k, p);
    } else if p != x {
      assert OutputUses(g, k, p);
    }
  }

  /** The new node x takes over all uses of n; new nodes use operands of n and other new nodes. */
  ghost predicate TakenOver(g: Graph, r: Graph, n: NodeId, x: NodeId)
  {
    && InRange(g) && |r.op| == |r.operands| && g.op <= r.op && n < |g.operands| && !g.op[n].Output?
    && |g.operands| <= x < |r.operands|
    && (forall u: NodeId :: u < |g.operands| ==> r.operands[u] == Subst(g.operands[u], n, x))
    && (forall y: NodeId :: |g.operands| <= y < |r.operands| ==> !r.op[y].Output?)
    && forall y: NodeId, p: NodeId :: |g.operands| <= y < |r.operands| && p in r.operands[y] ==>
         p in g.operands[n] || (p >= |g.operands| && p != x)
  }

  lemma TakenOverAlone(g: Graph, r: Graph, n: NodeId, x: NodeId)
    requires TakenOver(g, r, n, x)
    ensures AloneKept(g, r)
  {
    if OutputsAlone(g) {
      forall k: NodeId, u: NodeId, p: NodeId | OutputUses(r, k, p) && u < |r.operands| && p in r.operands[u]
        ensures u == k
      {
        TakenOverUser(g, r, n, x, k, u, p);
      }
    }
  }

  lemma TakenOverUser(g: Graph, r: Graph, n: NodeId, x: NodeId, k: NodeId, u: NodeId, p: NodeId)
    requires TakenOver(g, r, n, x) && OutputsAlone(g)
    requires OutputUses(r, k, p) && u < |r.operands| && p in r.operands[u]
    ensures u == k
  {
    assert k < |g.operands|;
    SubstMembers(g.operands[k], n, x, p);
    var q := if p == x then n else p;
    MemberRange(g, k, p);
    MemberRange(g, n, p);
    assert OutputUses(g, k, q) && q < |g.operands|;
    if u < |g.operands| {
      SubstMembers(g.operands[u], n, x, p);
      MemberRange(g, u, p);
      assert q in g.operands[u];
    }
    NewUser(g, r, n, x, u, p);
  }

  lemma NewUser(g: Graph, r: Graph, n: NodeId, x: NodeId, u: NodeId, p: NodeId)
    requires TakenOver(g, r, n, x) && u < |r.operands| && p in r.operands[u]
    ensures u >= |g.operands| ==> p != x && (p in g.operands[n] || p >= |g.operands|)
  {
    MemberRange(g, n, p);
  }

  lemma MemberRange(g: Graph, u: NodeId, p: NodeId)
    requires InRange(g) && u < |g.operands|
    ensures p in g.operands[u] ==> p < |g.operands|
  {
  }

  lemma InsertAfterUsed(g: Graph, a: NodeId, op: Op)
    requires InRange(g) && a < |g.operands| && IsUsed(g, a) && !op.Output?
    ensures UsedKept(g, InsertAfter(g, a, op))
  {
    var r, x := InsertAfter(g, a, op), |g.operands|;
    InsertAfterShape(g, a, op);
    if OutputsAlone(g) {
      InsertAfterAlone(g, a, op);
    }
    hide OutputsAlone;
    UsedBy(r, x, 0);
    forall m: NodeId | m <= x && (m == x || IsUsed(g, m))
      ensures IsUsed(r, m)
    {
      if m == x {
        var u, i := UserOf(g, a);
        UsedBy(r, u, i);
      } else if m != a {
        var u, i := UserOf(g, m);
        UsedBy(r, u, i);
      }
    }
    forall m: NodeId | m < x && IsUsed(r, m)
      ensures IsUsed(g, m)
    {
      var u, i := UserOf(r, m);
      if u < x {
        UsedBy(g, u, i);
      }
    }
  }
}
