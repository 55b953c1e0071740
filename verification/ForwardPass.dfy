/** Forward passes whose rewriter changes the graph: what a visit may do to the neighbourhood of
    the visited node so that the traversal still reaches every node it has to reach. */
module ForwardPass {
  import opened Graphs
  import opened Dags
  import opened Traversals

  /** State between visits. Exempt nodes were put in front of nodes already visited; they are
      never visited and are used only by processed or exempt nodes. */
  ghost predicate FwdInv(g: Graph, ready: set<NodeId>, processed: set<NodeId>, work: set<NodeId>, exempt: set<NodeId>)
  {
    && (forall m: NodeId :: m in ready ==> m < |g.operands|)
    && work <= ready && processed <= ready && g.sources <= ready
    && ready !! exempt
    && (forall m: NodeId :: m in exempt ==> m < |g.operands|)
    && (forall m: NodeId :: m < |g.operands| && m !in ready && m !in exempt && Live(g, m) ==>
          !Unblocked(g.operands, processed, m))
    && (forall m: NodeId :: m in work && m < |g.operands| ==> Unblocked(g.operands, processed, m) && Live(g, m))
    && (forall m: NodeId, i: nat :: m < |g.operands| && i < |g.operands[m]| && g.operands[m][i] in exempt ==>
          m in processed || m in exempt)
  }

  /** Only the visited node n and its uses may get other operands; a new node is exempt, a
      source, next to n, or waits for another new node. */
  ghost predicate LocalRewrite(g: Graph, r: Graph, processed: set<NodeId>, n: NodeId, exempt: set<NodeId>)
  {
    && |g.operands| <= |r.operands| && g.sources <= r.sources
    && (forall m: NodeId :: m < |g.operands| && m != n && g.operands[m] != [] ==> r.operands[m] != [])
    && (forall m: NodeId :: m < |g.operands| && m !in processed && m != n && m !in exempt ==>
          r.operands[m] == g.operands[m] || n in g.operands[m])
    && (forall m: NodeId :: |g.operands| <= m < |r.operands| ==>
          m in exempt || m in r.sources || n in r.operands[m] || !Unblocked(r.operands, processed + {n}, m))
    && (forall m: NodeId, i: nat :: m < |r.operands| && i < |r.operands[m]| && r.operands[m][i] in exempt ==>
          m in processed || m == n || m in exempt)
  }

  lemma FwdStart(g: Graph, work: set<NodeId>)
    requires WellFormed(g) && work == g.sources
    ensures FwdInv(g, g.sources, {}, work, {})
  {
    forall m: NodeId | m < |g.operands| && m !in g.sources && Live(g, m)
      ensures !Unblocked(g.operands, {}, m)
    {
      var first := g.operands[m][0];
      assert Unblocked(g.operands, {}, m) ==> first in {};
    }
  }

  lemma FwdStep(g: Graph, ready: set<NodeId>, processed: set<NodeId>, work: set<NodeId>, exempt: set<NodeId>,
                n: NodeId, r: Graph, exempt': set<NodeId>, cands: seq<NodeId>, ready': set<NodeId>, work': set<NodeId>)
    requires WellFormed(r) && FwdInv(g, ready, processed, work, exempt)
    requires n in ready && n !in work && n !in processed && work !! processed
    requires LocalRewrite(g, r, processed, n, exempt')
    requires exempt <= exempt' && forall m: NodeId :: m in exempt' - exempt ==> |g.operands| <= m < |r.operands|
    requires forall m: NodeId :: m < |g.operands| && n in g.operands[m] ==> m in cands
    requires forall m: NodeId :: m < |r.operands| && n in r.operands[m] ==> m in cands
    requires forall i: nat :: i < |cands| ==> cands[i] < |r.operands| && Live(r, cands[i]) && cands[i] !in exempt'
    requires ready + r.sources <= ready' <= ready + r.sources + Elems(cands)
    requires forall m: NodeId :: m in work ==> m < |g.operands|
    requires work' <= work + (ready' - ready) && work <= work'
    requires forall i: nat :: i < |cands| ==> cands[i] in ready' || !Unblocked(r.operands, processed + {n}, cands[i])
    requires forall m: NodeId :: m in ready' - ready - r.sources && m < |r.operands| ==>
      Unblocked(r.operands, processed + {n}, m)
    requires r.sources !! exempt'
    ensures FwdInv(r, ready', processed + {n}, work', exempt')
  {
    forall m: NodeId | m < |r.operands| && m !in ready' && m !in exempt' && Live(r, m)
      ensures !Unblocked(r.operands, processed + {n}, m)
    {
      StillBlocked(g, ready, processed, work, exempt, n, r, exempt', cands, ready', m);
    }
    forall m: NodeId | m in ready'
      ensures m !in exempt'
    {
      if m in ready {
        assert m !in exempt && m !in exempt' - exempt;
      } else if m in Elems(cands) {
        var k :| 0 <= k < |cands| && cands[k] == m;
      }
    }
    forall m: NodeId | m in work' && m < |r.operands|
      ensures Unblocked(r.operands, processed + {n}, m) && Live(r, m)
    {
      if m in work {
        StaysUnblocked(g, processed, n, r, exempt', m);
      }
    }
    forall m: NodeId | m in exempt'
      ensures m < |r.operands|
    {
      assert m in exempt || m in exempt' - exempt;
    }
  }

  lemma StaysUnblocked(g: Graph, processed: set<NodeId>, n: NodeId, r: Graph, exempt: set<NodeId>, m: NodeId)
    requires LocalRewrite(g, r, processed, n, exempt)
    requires m < |g.operands| && m !in processed && m != n && m !in exempt && n !in processed
    requires Unblocked(g.operands, processed, m)
    ensures Unblocked(r.operands, processed + {n}, m) && (Live(g, m) ==> Live(r, m))
  {
  }

  lemma StillBlocked(g: Graph, ready: set<NodeId>, processed: set<NodeId>, work: set<NodeId>, exempt: set<NodeId>,
                     n: NodeId, r: Graph, exempt': set<NodeId>, cands: seq<NodeId>, ready': set<NodeId>, m: NodeId)
    requires FwdInv(g, ready, processed, work, exempt) && n in ready
    requires LocalRewrite(g, r, processed, n, exempt') && exempt <= exempt'
    requires forall m: NodeId :: m in exempt' - exempt ==> |g.operands| <= m < |r.operands|
    requires forall m: NodeId :: m < |g.operands| && n in g.operands[m] ==> m in cands
    requires forall m: NodeId :: m < |r.operands| && n in r.operands[m] ==> m in cands
    requires forall i: nat :: i < |cands| ==> cands[i] < |r.operands|
    requires ready + r.sources <= ready'
    requires forall i: nat :: i < |cands| ==> cands[i] in ready' || !Unblocked(r.operands, processed + {n}, cands[i])
    requires m < |r.operands| && m !in ready' && m !in exempt' && Live(r, m)
    ensures !Unblocked(r.operands, processed + {n}, m)
  {
    if m in cands {
      var k :| 0 <= k < |cands| && cands[k] == m;
      assert cands[k] !in ready';
    } else if m < |g.operands| {
      assert m !in processed && m != n;
      assert r.operands[m] == g.operands[m];
      assert Live(g, m);
      var i: nat :| i < |g.operands[m]| && g.operands[m][i] !in processed;
      assert g.operands[m][i] != n;
    }
  }

  /** When the worklist is empty, every live node that is not exempt has been visited. */
  lemma {:induction false} FwdEnd(g: Graph, rank: seq<nat>, processed: set<NodeId>, exempt: set<NodeId>, m: NodeId)
    requires WellFormed(g) && Ranked(g, rank) && FwdInv(g, processed, processed, {}, exempt)
    requires Live(g, m) && m !in exempt
    ensures m in processed
    decreases rank[m]
  {
    if m !in processed {
      var i: nat :| i < |g.operands[m]| && g.operands[m][i] !in processed;
      assert Live(g, g.operands[m][i]);
      FwdEnd(g, rank, processed, exempt, g.operands[m][i]);
    }
  }

  lemma FwdPop(g: Graph, ready: set<NodeId>, processed: set<NodeId>, work: seq<NodeId>, exempt: set<NodeId>)
    requires Frontier(ready, processed, work, {}) && work != []
    requires FwdInv(g, ready, processed, Elems(work), exempt)
    ensures var n := work[|work|-1];
      n < |g.operands| && n in ready && n !in processed && n !in exempt && Live(g, n)
        && Unblocked(g.operands, processed, n)
      && n !in Elems(work[..|work|-1]) && FwdInv(g, ready, processed, Elems(work[..|work|-1]), exempt)
  {
    ElemsLast(work);
  }

  /** The part of a visit after the rewrite. */
  method FwdFinish(d: Dag, t: DagTraversal, n: NodeId, cands: seq<NodeId>, ghost g: Graph, ghost processed: set<NodeId>,
                   ghost exempt: set<NodeId>, ghost exempt': set<NodeId>)
    requires d.Valid() && t.Consistent({} + {n}) && n < |d.operands|
    requires t.processed == processed && n !in processed && n in t.ready && n !in Elems(t.work)
    requires FwdInv(g, t.ready, processed, Elems(t.work), exempt)
    requires LocalRewrite(g, d.G(), processed, n, exempt')
    requires exempt <= exempt' && n !in exempt' && d.sources !! exempt'
    requires forall m: NodeId :: m in exempt' - exempt ==> |g.operands| <= m < |d.operands|
    requires forall m: NodeId :: m < |g.operands| && n in g.operands[m] ==> m in cands
    requires n < |g.operands| && Unblocked(g.operands, processed, n)
    requires forall i: nat :: i < |cands| ==>
      cands[i] < |g.operands| && n in g.operands[cands[i]] && cands[i] !in exempt'
    requires forall m: NodeId :: m < |d.operands| && n in d.operands[m] ==> m !in exempt'
    modifies t
    ensures t.Consistent({}) && t.processed == processed + {n}
    ensures FwdInv(d.G(), t.ready, t.processed, Elems(t.work), exempt')
  {
    ghost var ready, work := t.ready, Elems(t.work);
    var all := cands + d.uses[n];
    AllCands(d.G(), d.uses, n, cands);
    assert n !in g.operands[n];
    t.Finish(n, false, d.sources, all, d.operands, {});
    hide Live, UsesInverse, SinksMatch, Unblocked;
    FwdStep(g, ready, processed, work, exempt, n, d.G(), exempt', all, t.ready, Elems(t.work));
  }

  lemma AllCands(r: Graph, uses: seq<seq<NodeId>>, n: NodeId, cands: seq<NodeId>)
    requires UsesInverse(r.operands, uses) && n < |r.operands|
    ensures forall m: NodeId :: m < |r.operands| && n in r.operands[m] ==> m in cands + uses[n]
    ensures forall m: NodeId :: m in cands ==> m in cands + uses[n]
    ensures forall i: nat :: i < |cands + uses[n]| && (cands + uses[n])[i] !in cands ==>
      (cands + uses[n])[i] < |r.operands| && n in r.operands[(cands + uses[n])[i]]
  {
    var all := cands + uses[n];
    forall m: NodeId | m < |r.operands| && n in r.operands[m]
      ensures m in all
    {
      UsersAreUses(r.operands, uses, n, m);
    }
    forall i: nat | i < |all| && all[i] !in cands
      ensures all[i] < |r.operands| && n in r.operands[all[i]]
    {
      assert i >= |cands| && all[i] == uses[n][i - |cands|];
      UsersAreUses(r.operands, uses, n, all[i]);
    }
  }
}
