/** Dead-node removal, iyfc/daghandler/clean_node_handler.cpp: a backward pass that erases nodes
    without uses, and so makes further nodes lose theirs while the pass is under way. */
module CleanNodes {
  import opened Graphs
  import opened Usage
  import opened Dags
  import opened Traversals
  import opened Semantics

  predicate CanClean(op: Op) { !op.Output? && !op.Input? }

  // ----- reaching an output -----

  /** Each node of the path is an operand of the next. */
  ghost predicate IsPath(g: Graph, path: seq<NodeId>)
  {
    && path != []
    && (forall k: nat :: k < |path| ==> path[k] < |g.operands| && path[k] < |g.op|)
    && (forall k: nat :: k + 1 < |path| ==> path[k] in g.operands[path[k + 1]])
  }

  ghost predicate Leads(g: Graph, path: seq<NodeId>, n: NodeId)
  {
    IsPath(g, path) && path[0] == n && g.op[path[|path| - 1]].Output?
  }

  ghost predicate ReachesOutput(g: Graph, n: NodeId)
  {
    exists path :: Leads(g, path, n)
  }

  lemma UserReaches(g: Graph, n: NodeId, u: NodeId)
    requires |g.op| == |g.operands| && n < |g.operands| && u < |g.operands| && n in g.operands[u] && ReachesOutput(g, u)
    ensures ReachesOutput(g, n)
  {
    var path :| Leads(g, path, u);
    var longer := [n] + path;
    forall k: nat | k + 1 < |longer|
      ensures longer[k] in g.operands[longer[k + 1]]
    {
      if k > 0 {
        assert path[k - 1] in g.operands[path[k]];
      }
    }
    assert Leads(g, longer, n);
  }

  lemma OutputReaches(g: Graph, n: NodeId)
    requires n < |g.operands| && n < |g.op| && g.op[n].Output?
    ensures ReachesOutput(g, n)
  {
    assert Leads(g, [n], n);
  }

  lemma ReachesByUser(g: Graph, n: NodeId, path: seq<NodeId>) returns (u: NodeId)
    requires Leads(g, path, n) && !g.op[n].Output?
    ensures |path| > 1 && u == path[1] && u < |g.operands| && n in g.operands[u] && Leads(g, path[1..], u)
  {
    u := path[1];
    var rest := path[1..];
    forall k: nat | k + 1 < |rest|
      ensures rest[k] in g.operands[rest[k + 1]]
    {
      assert path[k + 1] in g.operands[path[k + 2]];
    }
  }

  // ----- the state of the pass -----

  /** g is g0 without the dropped nodes. */
  ghost predicate Without(g0: Graph, g: Graph, dropped: set<NodeId>)
  {
    && g.op == g0.op && |g.operands| == |g0.operands| && |g0.op| == |g0.operands|
    && g.sources == g0.sources - dropped
    && (forall n: NodeId :: n < |g.operands| ==> g.operands[n] == if n in dropped then [] else g0.operands[n])
  }

  /** Only cleanable nodes are dropped, after all of their users. */
  ghost predicate DroppedDead(g0: Graph, dropped: set<NodeId>)
  {
    && (forall n: NodeId :: n in dropped ==> n < |g0.operands| && n < |g0.op| && CanClean(g0.op[n]))
    && (forall n: NodeId, u: NodeId :: n in dropped && u < |g0.operands| && n in g0.operands[u] ==> u in dropped)
  }

  ghost predicate KeptNeeded(g0: Graph, processed: set<NodeId>)
  {
    forall n: NodeId :: n in processed ==> n < |g0.operands| && n < |g0.op| && (g0.op[n].Input? || ReachesOutput(g0, n))
  }

  /** Nodes on the worklist have only visited users; nodes not yet ready wait for one. */
  ghost predicate CleanTrav(g: Graph, ready: set<NodeId>, processed: set<NodeId>, work: set<NodeId>)
  {
    && (forall m: NodeId :: m in ready ==> m < |g.operands|)
    && work <= ready
    && (forall m: NodeId, u: NodeId :: m in work && u < |g.operands| && m in g.operands[u] ==> u in processed)
    && (forall m: NodeId :: Live(g, m) && m !in ready ==> WaitsForUse(g, processed, m))
  }

  ghost predicate WaitsForUse(g: Graph, processed: set<NodeId>, m: NodeId)
  {
    exists u: NodeId :: u < |g.operands| && m in g.operands[u] && u !in processed
  }

  ghost predicate CleanInv(g0: Graph, g: Graph, processed: set<NodeId>, dropped: set<NodeId>)
  {
    Without(g0, g, dropped) && DroppedDead(g0, dropped) && KeptNeeded(g0, processed)
  }

  // ----- a visit -----

  /** A node is erased when it has no uses and is neither an input nor an output. */
  ghost predicate Droppable(g: Graph, n: NodeId)
  {
    n < |g.operands| && n < |g.op| && !IsUsed(g, n) && CanClean(g.op[n])
  }

  lemma NoUses(g: Graph, uses: seq<seq<NodeId>>, n: NodeId)
    requires UsesInverse(g.operands, uses) && n < |g.operands|
    ensures |uses| == |g.operands| && (uses[n] == [] <==> !IsUsed(g, n))
  {
    forall u: NodeId
      ensures u in uses[n] <==> u < |g.operands| && n in g.operands[u]
    {
      UsersAreUses(g.operands, uses, n, u);
    }
    if uses[n] != [] {
      assert uses[n][0] in uses[n];
    }
  }

  lemma ErasedValid(g: Graph, uses: seq<seq<NodeId>>, sinks: set<NodeId>, n: NodeId)
    requires WellFormed(g) && UsesInverse(g.operands, uses) && SinksMatch(uses, sinks, Erased(g))
    requires n < |g.operands| && g.operands[n] == [] && uses[n] == []
    ensures var r := g.(sources := g.sources - {n});
      WellFormed(r) && SinksMatch(uses, sinks - {n}, Erased(r))
  {
    var r := g.(sources := g.sources - {n});
    forall m: NodeId, i: nat | m < |g.operands| && i < |g.operands[m]|
      ensures Live(r, r.operands[m][i])
    {
      assert Live(g, g.operands[m][i]);
      UsersAreUses(g.operands, uses, n, m);
    }
    assert n in Erased(r);
    assert forall m: NodeId :: m in Erased(g) ==> m in Erased(r);
  }

  class CleanNodeHandler {
    constructor () {}

    method Visit(d: Dag, n: NodeId) returns (dropped: bool)
      requires d.Valid() && n < |d.operands| && n !in d.operands[n]
      modifies d
      ensures d.Valid() && dropped == Droppable(old(d.G()), n)
      ensures d.op == old(d.op)
      ensures dropped ==> d.operands == old(d.operands)[n := []] && d.sources == old(d.sources) - {n}
      ensures !dropped ==> d.G() == old(d.G())
    {
      NoUses(d.G(), d.uses, n);
      dropped := |d.uses[n]| == 0 && CanClean(d.op[n]);
      if dropped {
        d.EraseAllOperand(n);
        ghost var g := d.G();
        UsesStillEmpty(g, old(d.G()), d.uses, n);
        ErasedValid(g, d.uses, d.sinks, n);
        d.EraseSink(n);
        d.EraseSource(n);
      }
    }
  }

  lemma UsesStillEmpty(g: Graph, before: Graph, uses: seq<seq<NodeId>>, n: NodeId)
    requires UsesInverse(g.operands, uses) && n < |before.operands| && g.operands == before.operands[n := []]
    requires !IsUsed(before, n)
    ensures |uses| == |g.operands| && uses[n] == []
  {
    NoUses(g, uses, n);
    if IsUsed(g, n) {
      var u, i := UserOf(g, n);
      UsedBy(before, u, i);
    }
  }

  lemma UserKept(g0: Graph, g: Graph, processed: set<NodeId>, dropped: set<NodeId>, n: NodeId, u: NodeId)
    requires CleanInv(g0, g, processed, dropped) && u < |g0.operands| && n in g0.operands[u]
    ensures u in dropped || IsUsed(g, n)
  {
    if u !in dropped {
      assert n in g.operands[u];
    }
  }

  lemma DropStep(g0: Graph, g: Graph, processed: set<NodeId>, dropped: set<NodeId>, n: NodeId, r: Graph)
    requires CleanInv(g0, g, processed, dropped) && Droppable(g, n)
    requires r == Graph(g.op, g.operands[n := []], g.sources - {n})
    ensures CleanInv(g0, r, processed, dropped + {n})
  {
    forall u: NodeId | u < |g0.operands| && n in g0.operands[u]
      ensures u in dropped
    {
      UserKept(g0, g, processed, dropped, n, u);
    }
  }

  lemma KeepStep(g0: Graph, g: Graph, processed: set<NodeId>, dropped: set<NodeId>, ready: set<NodeId>,
                 work: set<NodeId>, n: NodeId)
    requires CleanInv(g0, g, processed, dropped) && SourceArity(g0) && WellFormed(g0)
    requires n < |g.operands| && n < |g.op| && !Droppable(g, n)
    requires forall u: NodeId :: u < |g.operands| && n in g.operands[u] ==> u in processed
    ensures CleanInv(g0, g, processed + {n}, dropped)
  {
    if g0.op[n].Output? {
      OutputReaches(g0, n);
    } else if !g0.op[n].Input? {
      var u, i := UserOf(g, n);
      UserIsComputed(g0, g, processed, dropped, n, u);
      UserReaches(g0, n, u);
    }
  }

  lemma UserIsComputed(g0: Graph, g: Graph, processed: set<NodeId>, dropped: set<NodeId>, n: NodeId, u: NodeId)
    requires CleanInv(g0, g, processed, dropped) && SourceArity(g0)
    requires u in processed && u < |g.operands| && n in g.operands[u]
    ensures n in g0.operands[u] && ReachesOutput(g0, u)
  {
    assert u !in dropped && Live(g0, u);
  }

  // ----- the traversal -----

  /** After the visit of n: r is g, or g with n erased. */
  ghost predicate CleanEffect(g: Graph, n: NodeId, wasDropped: bool, r: Graph)
  {
    && n < |g.operands| && wasDropped == Droppable(g, n)
    && r == if wasDropped then Graph(g.op, g.operands[n := []], g.sources - {n}) else g
  }

  lemma CleanTravStep(g: Graph, ready: set<NodeId>, processed: set<NodeId>, work: set<NodeId>, n: NodeId,
                      wasDropped: bool, r: Graph, uses: seq<seq<NodeId>>, sinks: set<NodeId>, cands: seq<NodeId>,
                      ready': set<NodeId>, processed': set<NodeId>, work': set<NodeId>)
    requires CleanTrav(g, ready, processed, work) && CleanEffect(g, n, wasDropped, r) && n in ready && n !in work
    requires WellFormed(r) && UsesInverse(r.operands, uses) && SinksMatch(uses, sinks, Erased(r))
    requires processed' == if wasDropped then processed else processed + {n}
    requires forall i: nat :: i < |g.operands[n]| ==> g.operands[n][i] in cands
    requires forall i: nat :: i < |cands| ==> cands[i] < |r.operands|
    requires ready + sinks <= ready' <= ready + sinks + Elems(cands)
    requires work' == work + (ready' - ready)
    requires forall i: nat :: i < |cands| ==> cands[i] in ready' || !Unblocked(uses, processed', cands[i])
    requires forall m: NodeId :: m in ready' - ready - sinks && m < |uses| ==> Unblocked(uses, processed', m)
    ensures CleanTrav(r, ready', processed', work')
  {
    forall m: NodeId | m in ready'
      ensures m < |r.operands|
    {
      if m in Elems(cands) {
        var k :| 0 <= k < |cands| && cands[k] == m;
      }
    }
    forall m: NodeId, u: NodeId | m in work' && u < |r.operands| && m in r.operands[u]
      ensures u in processed'
    {
      UsersAreUses(r.operands, uses, m, u);
      if m in work {
        assert m in g.operands[u];
      } else if m !in sinks {
        assert Unblocked(uses, processed', m);
        var k :| 0 <= k < |uses[m]| && uses[m][k] == u;
      }
    }
    forall m: NodeId | Live(r, m) && m !in ready'
      ensures WaitsForUse(r, processed', m)
    {
      StillWaits(g, ready, processed, work, n, wasDropped, r, uses, sinks, cands, ready', processed', m);
    }
  }

  lemma StillWaits(g: Graph, ready: set<NodeId>, processed: set<NodeId>, work: set<NodeId>, n: NodeId,
                   wasDropped: bool, r: Graph, uses: seq<seq<NodeId>>, sinks: set<NodeId>, cands: seq<NodeId>,
                   ready': set<NodeId>, processed': set<NodeId>, m: NodeId)
    requires CleanTrav(g, ready, processed, work) && CleanEffect(g, n, wasDropped, r) && n in ready
    requires UsesInverse(r.operands, uses)
    requires processed' == if wasDropped then processed else processed + {n}
    requires forall i: nat :: i < |g.operands[n]| ==> g.operands[n][i] in cands
    requires forall i: nat :: i < |cands| ==> cands[i] < |r.operands|
    requires ready <= ready'
    requires forall i: nat :: i < |cands| ==> cands[i] in ready' || !Unblocked(uses, processed', cands[i])
    requires Live(r, m) && m !in ready'
    ensures WaitsForUse(r, processed', m)
  {
    assert Live(g, m) && m !in ready;
    if m in g.operands[n] {
      var i :| 0 <= i < |g.operands[n]| && g.operands[n][i] == m;
      assert g.operands[n][i] in cands;
      var k :| 0 <= k < |cands| && cands[k] == m;
      var j: nat :| j < |uses[m]| && uses[m][j] !in processed';
      UsersAreUses(r.operands, uses, m, uses[m][j]);
    } else {
      var u: NodeId :| u < |g.operands| && m in g.operands[u] && u !in processed;
      assert u != n && r.operands[u] == g.operands[u];
    }
  }

  lemma {:induction false} AllReady(g: Graph, rank: seq<nat>, ready: set<NodeId>, processed: set<NodeId>,
                                    dropped: set<NodeId>, m: NodeId)
    requires Ranked(g, rank) && CleanTrav(g, ready, processed, {}) && ready == processed + dropped && Live(g, m)
    requires forall p: NodeId :: p in dropped && p < |g.operands| ==> g.operands[p] == []
    ensures m in ready
    decreases Top(rank) - rank[m]
  {
    if m !in ready {
      var u: NodeId :| u < |g.operands| && m in g.operands[u] && u !in processed;
      var i :| 0 <= i < |g.operands[u]| && g.operands[u][i] == m;
      assert Live(g, u) && u !in dropped && u !in ready;
      AllReady(g, rank, ready, processed, dropped, u);
    }
  }

  lemma {:induction false} DroppedUseless(g0: Graph, dropped: set<NodeId>, n: NodeId, path: seq<NodeId>)
    requires DroppedDead(g0, dropped) && n in dropped
    ensures !Leads(g0, path, n)
    decreases |path|
  {
    if Leads(g0, path, n) {
      var u := ReachesByUser(g0, n, path);
      DroppedUseless(g0, dropped, u, path[1..]);
    }
  }

  // ----- the pass -----

  lemma CleanStart(g: Graph, uses: seq<seq<NodeId>>, sinks: set<NodeId>)
    requires WellFormed(g) && UsesInverse(g.operands, uses) && SinksMatch(uses, sinks, Erased(g))
    ensures CleanInv(g, g, {}, {}) && CleanTrav(g, sinks, {}, sinks)
  {
    forall m: NodeId | m < |g.operands|
      ensures uses[m] == [] <==> !IsUsed(g, m)
    {
      NoUses(g, uses, m);
    }
  }

  lemma PopFacts(g0: Graph, g: Graph, ready: set<NodeId>, processed: set<NodeId>, dropped: set<NodeId>,
                 work: seq<NodeId>)
    requires CleanInv(g0, g, processed, dropped) && CleanTrav(g, ready, processed, Elems(work)) && Acyclic(g)
    requires Frontier(ready, processed, work, dropped) && work != []
    ensures var n := work[|work|-1];
      && n < |g.operands| && n < |g.op| && n in ready && n !in processed && n !in dropped
           && n !in Elems(work[..|work|-1])
      && n !in g.operands[n]
      && (forall u: NodeId :: u < |g.operands| && n in g.operands[u] ==> u in processed)
      && CleanTrav(g, ready, processed, Elems(work[..|work|-1]))
  {
    ElemsLast(work);
    var rank :| Ranked(g, rank);
  }

  lemma OperandBounds(g: Graph, n: NodeId, r: Graph)
    requires WellFormed(g) && n < |g.operands| && |r.operands| == |g.operands|
    ensures forall i: nat :: i < |g.operands[n]| ==> g.operands[n][i] < |r.operands|
  {
    forall i: nat | i < |g.operands[n]|
      ensures g.operands[n][i] < |r.operands|
    {
      assert Live(g, g.operands[n][i]);
    }
  }

  lemma StaysAcyclic(g: Graph, n: NodeId, r: Graph, wasDropped: bool)
    requires Acyclic(g) && CleanEffect(g, n, wasDropped, r)
    ensures Acyclic(r)
  {
    var rank :| Ranked(g, rank);
    assert Ranked(r, rank);
  }

  method CleanStep(d: Dag, h: CleanNodeHandler, t: DagTraversal, ghost g0: Graph, ghost dropped: set<NodeId>)
    returns (n: NodeId, ghost dropped': set<NodeId>)
    requires d.Valid() && Acyclic(d.G()) && t.Consistent(dropped) && t.work != [] && SourceArity(g0) && WellFormed(g0)
    requires CleanInv(g0, d.G(), t.processed, dropped) && CleanTrav(d.G(), t.ready, t.processed, Elems(t.work))
    modifies d, t
    ensures d.Valid() && Acyclic(d.G()) && t.Consistent(dropped')
    ensures CleanInv(g0, d.G(), t.processed, dropped') && CleanTrav(d.G(), t.ready, t.processed, Elems(t.work))
    ensures n < |g0.operands| && n !in old(t.processed) && n !in dropped
    ensures t.processed + dropped' == old(t.processed) + dropped + {n}
  {
    hide CleanInv, CleanTrav, Frontier, WellFormed, UsesInverse, SinksMatch, Unblocked, Live, Erased, Acyclic,
         Droppable, IsUsed;
    ghost var g, ready, processed := d.G(), t.ready, t.processed;
    PopFacts(g0, g, ready, processed, dropped, t.work);
    SameCount(g0, g, processed, dropped);
    n := t.Pop(dropped);
    ghost var work := Elems(t.work);
    var cands := d.operands[n];
    OperandBounds(g, n, g);
    var wasDropped := h.Visit(d, n);
    if wasDropped {
      dropped' := dropped + {n};
      DropStep(g0, g, processed, dropped, n, d.G());
    } else {
      dropped' := dropped;
      KeepStep(g0, g, processed, dropped, ready, work, n);
      cands := cands + d.operands[n];
    }
    StaysAcyclic(g, n, d.G(), wasDropped);
    UsesCount(d.G(), d.uses);
    t.Finish(n, wasDropped, d.sinks, cands, d.uses, dropped);
    CleanTravStep(g, ready, processed, work, n, wasDropped, d.G(), d.uses, d.sinks, cands, t.ready, t.processed,
      Elems(t.work));
  }

  lemma UsesCount(g: Graph, uses: seq<seq<NodeId>>)
    requires UsesInverse(g.operands, uses)
    ensures |uses| == |g.operands|
  {
  }

  lemma SameCount(g0: Graph, g: Graph, processed: set<NodeId>, dropped: set<NodeId>)
    requires CleanInv(g0, g, processed, dropped)
    ensures |g.operands| == |g0.operands|
  {
  }

  /** The pass keeps exactly the inputs and the nodes that reach an output. */
  ghost predicate CleanResult(g0: Graph, g: Graph)
  {
    && g.op == g0.op && |g.operands| == |g0.operands| == |g0.op|
    && (forall n: NodeId :: Live(g0, n) ==> (Live(g, n) <==> g0.op[n].Input? || ReachesOutput(g0, n)))
    && (forall n: NodeId :: Live(g, n) ==> Live(g0, n) && g.operands[n] == g0.operands[n])
    && (forall n: NodeId :: n in g.sources <==> n in g0.sources && Live(g, n))
  }

  lemma CleanEnd(g0: Graph, g: Graph, processed: set<NodeId>, dropped: set<NodeId>)
    requires WellFormed(g0) && WellFormed(g) && Acyclic(g)
    requires CleanInv(g0, g, processed, dropped) && CleanTrav(g, processed + dropped, processed, {})
    ensures CleanResult(g0, g)
  {
    var rank :| Ranked(g, rank);
    forall n: NodeId | Live(g, n)
      ensures n in processed && n !in dropped
    {
      AllReady(g, rank, processed + dropped, processed, dropped, n);
    }
    forall n: NodeId | Live(g0, n)
      ensures Live(g, n) <==> g0.op[n].Input? || ReachesOutput(g0, n)
    {
      if n in dropped && ReachesOutput(g0, n) {
        var path :| Leads(g0, path, n);
        DroppedUseless(g0, dropped, n, path);
      }
    }
  }

  lemma CleanRefines(size: nat, g0: Graph, g: Graph)
    requires WellFormed(g0) && WellFormed(g) && CleanResult(g0, g)
    ensures Refines(size, g0, g)
  {
    forall n: NodeId | n < |g0.op| && Live(g0, n) && g0.op[n].Output?
      ensures Live(g, n)
    {
      OutputReaches(g0, n);
    }
    forall env
      ensures Extends(g0, g, SlotSem(size, env))
    {
      CleanExtends(g0, g, SlotSem(size, env));
    }
    CleanExtends(g0, g, CipherSem());
  }

  lemma CleanExtends<T(!new)>(g0: Graph, g: Graph, sem: (NodeId, Op, seq<T>) -> T)
    requires WellFormed(g) && CleanResult(g0, g)
    ensures Extends(g0, g, sem)
  {
    hide ReachesOutput;
    forall v | Interprets(g0, sem, v)
      ensures exists v' :: Interprets(g, sem, v') && v <= v'
    {
      forall n: NodeId | Live(g, n)
        ensures v[n] == sem(n, g.op[n], Args(g, v, n))
      {
        assert Args(g, v, n) == Args(g0, v, n);
      }
      assert Interprets(g, sem, v) && v <= v;
    }
  }

  lemma CleanedAlone(g0: Graph, g: Graph)
    requires CleanResult(g0, g)
    ensures AloneKept(g0, g)
  {
    hide ReachesOutput;
    forall o: NodeId, u: NodeId, p: NodeId | OutputsAlone(g0) && OutputUses(g, o, p) && u < |g.operands|
      && p in g.operands[u]
      ensures u == o
    {
      assert Live(g, o) && Live(g, u);
      assert OutputUses(g0, o, p) && p in g0.operands[u];
    }
  }

  /** What the compiler assumes of its input: what is computed is used, unless it is an output. */
  lemma CleanedIsUsed(g0: Graph, g: Graph, n: NodeId)
    requires WellFormed(g0) && WellFormed(g) && SourceArity(g0) && CleanResult(g0, g)
    requires n < |g.op| && n < |g.operands| && g.operands[n] != [] && !g.op[n].Output?
    ensures IsUsed(g, n)
  {
    assert Live(g, n) && Live(g0, n) && !g0.op[n].Input?;
    var path :| Leads(g0, path, n);
    var u := ReachesByUser(g0, n, path);
    assert ReachesOutput(g0, u) && Live(g0, u);
    assert Live(g, u) && n in g.operands[u];
  }

  /** The backward pass of CleanNodeHandler, without m_clean_all. */
  method CleanDeadNodes(d: Dag, ghost size: nat)
    requires d.Valid() && Acyclic(d.G()) && SourceArity(d.G())
    modifies d
    ensures d.Valid() && Acyclic(d.G()) && CleanResult(old(d.G()), d.G()) && Refines(size, old(d.G()), d.G())
    ensures forall n: NodeId :: n < |d.op| && n < |d.operands| && d.operands[n] != [] && !d.op[n].Output? ==>
      IsUsed(d.G(), n)
  {
    ghost var g0 := d.G();
    CleanStart(g0, d.uses, d.sinks);
    hide Acyclic, CleanInv, CleanTrav, CleanResult, WellFormed, UsesInverse, SinksMatch, Erased, IsUsed, Refines,
         SourceArity;
    var h := new CleanNodeHandler();
    var t := new DagTraversal();
    t.Begin(d.sinks);
    ghost var dropped := {};
    while t.work != []
      invariant d.Valid() && Acyclic(d.G()) && t.Consistent(dropped)
      invariant CleanInv(g0, d.G(), t.processed, dropped) && CleanTrav(d.G(), t.ready, t.processed, Elems(t.work))
      decreases AllNodes(g0) - (t.processed + dropped)
    {
      hide *;
      var n;
      n, dropped := CleanStep(d, h, t, g0, dropped);
      InAllNodes(g0, n);
    }
    assert Elems(t.work) == {} && t.ready == t.processed + dropped;
    CleanEnd(g0, d.G(), t.processed, dropped);
    CleanRefines(size, g0, d.G());
    forall n: NodeId | n < |d.op| && n < |d.operands| && d.operands[n] != [] && !d.op[n].Output?
      ensures IsUsed(d.G(), n)
    {
      CleanedIsUsed(g0, d.G(), n);
    }
  }
}
