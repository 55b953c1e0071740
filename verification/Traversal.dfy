/** The worklist traversal of iyfc/daghandler/traversal_handler.h. A pass visits a node once
    all of its predecessors have been processed; predecessors are the operands in a forward
    pass and the uses in a backward pass. */
module Traversals {
  import opened Graphs
  import opened Dags

  function Elems(s: seq<NodeId>): set<NodeId>
  {
    set i | 0 <= i < |s| :: s[i]
  }

  predicate NoDuplicates(s: seq<NodeId>)
  {
    forall i, j :: 0 <= i < j < |s| ==> s[i] != s[j]
  }

  /** arePredecessorsDone */
  predicate Unblocked(preds: seq<seq<NodeId>>, processed: set<NodeId>, n: NodeId)
    requires n < |preds|
  {
    forall i: nat :: i < |preds[n]| ==> preds[n][i] in processed
  }

  /** Ready nodes are processed, waiting on the worklist, or out: being visited or dropped. */
  ghost predicate Frontier(ready: set<NodeId>, processed: set<NodeId>, work: seq<NodeId>, out: set<NodeId>)
  {
    && NoDuplicates(work)
    && ready == processed + Elems(work) + out
    && processed !! Elems(work)
    && out !! Elems(work)
  }

  /** Nothing that could be visited has been forgotten: every node that is neither ready nor
      exempt still waits for a predecessor. */
  ghost predicate Waiting(preds: seq<seq<NodeId>>, nodes: set<NodeId>, ready: set<NodeId>, processed: set<NodeId>)
  {
    forall n: NodeId :: n in nodes && n !in ready && n < |preds| ==> !Unblocked(preds, processed, n)
  }

  ghost predicate WorkUnblocked(preds: seq<seq<NodeId>>, processed: set<NodeId>, work: seq<NodeId>)
  {
    forall i: nat :: i < |work| ==> work[i] < |preds| && Unblocked(preds, processed, work[i])
  }

  /** Predecessors come strictly earlier. */
  ghost predicate Ordered(preds: seq<seq<NodeId>>, rank: seq<nat>)
  {
    && |rank| == |preds|
    && forall n: NodeId, i: nat :: n < |preds| && i < |preds[n]| ==>
         preds[n][i] < |rank| && rank[preds[n][i]] < rank[n]
  }

  lemma ElemsAppend(s: seq<NodeId>, x: NodeId)
    ensures Elems(s + [x]) == Elems(s) + {x}
  {
    forall y | y in Elems(s) + {x}
      ensures y in Elems(s + [x])
    {
      if y in Elems(s) {
        var i :| 0 <= i < |s| && s[i] == y;
        assert (s + [x])[i] == y;
      } else {
        assert (s + [x])[|s|] == y;
      }
    }
  }

  lemma ElemsLast(s: seq<NodeId>)
    requires s != [] && NoDuplicates(s)
    ensures Elems(s) == Elems(s[..|s|-1]) + {s[|s|-1]}
    ensures s[|s|-1] !in Elems(s[..|s|-1])
  {
    assert s == s[..|s|-1] + [s[|s|-1]];
    ElemsAppend(s[..|s|-1], s[|s|-1]);
  }

  class DagTraversal {
    var ready: set<NodeId>
    var processed: set<NodeId>
    var work: seq<NodeId>

    ghost predicate Consistent(out: set<NodeId>)
      reads this
    {
      Frontier(ready, processed, work, out)
    }

    constructor ()
    {
      ready, processed, work := {}, {}, [];
    }

    method PushReady(n: NodeId, ghost out: set<NodeId>)
      requires Consistent(out)
      modifies this`ready, this`work
      ensures Consistent(out)
      ensures ready == old(ready) + {n}
      ensures work == if n in old(ready) then old(work) else old(work) + [n]
    {
      if n !in ready {
        ElemsAppend(work, n);
        work := work + [n];
        ready := ready + {n};
      }
    }

    /** Puts every leaf that is not ready yet on the worklist, in any order. */
    method PushLeaves(leaves: set<NodeId>, ghost out: set<NodeId>)
      requires Consistent(out)
      modifies this`ready, this`work
      ensures Consistent(out)
      ensures ready == old(ready) + leaves
      ensures Elems(work) == Elems(old(work)) + (leaves - old(ready))
    {
      var todo := leaves;
      while todo != {}
        invariant Consistent(out)
        invariant todo <= leaves
        invariant ready == old(ready) + (leaves - todo)
        invariant Elems(work) == Elems(old(work)) + (leaves - todo - old(ready))
        decreases todo
      {
        var n :| n in todo;
        ElemsAppend(work, n);
        PushReady(n, out);
        todo := todo - {n};
      }
    }

    method Begin(leaves: set<NodeId>)
      modifies this
      ensures Consistent({})
      ensures processed == {} && ready == leaves && Elems(work) == leaves
    {
      ready, processed, work := {}, {}, [];
      PushLeaves(leaves, {});
    }

    method Pop(ghost out: set<NodeId>) returns (n: NodeId)
      requires Consistent(out) && work != []
      modifies this`work
      ensures n == old(work)[|old(work)|-1] && work == old(work)[..|old(work)|-1]
      ensures Consistent(out + {n})
      ensures n !in Elems(work) && n !in processed
    {
      ElemsLast(work);
      n := work[|work|-1];
      work := work[..|work|-1];
    }

    /** The candidates, nodes next to the visited one before or after the rewrite, are taken
        up once all of their predecessors have been processed. */
    method PushCandidates(cands: seq<NodeId>, preds: seq<seq<NodeId>>, ghost out: set<NodeId>)
      requires Consistent(out)
      requires forall i: nat :: i < |cands| ==> cands[i] < |preds|
      modifies this`ready, this`work
      ensures Consistent(out)
      ensures old(ready) <= ready && ready - old(ready) <= Elems(cands)
      ensures Elems(work) == Elems(old(work)) + (ready - old(ready))
      ensures forall i: nat :: i < |cands| ==> cands[i] in ready || !Unblocked(preds, processed, cands[i])
      ensures forall n: NodeId :: n in ready - old(ready) && n < |preds| ==> Unblocked(preds, processed, n)
    {
      for i := 0 to |cands|
        invariant Consistent(out)
        invariant old(ready) <= ready && ready - old(ready) <= Elems(cands)
        invariant Elems(work) == Elems(old(work)) + (ready - old(ready))
        invariant forall k: nat :: k < i ==> cands[k] in ready || !Unblocked(preds, processed, cands[k])
        invariant forall n: NodeId :: n in ready - old(ready) && n < |preds| ==> Unblocked(preds, processed, n)
      {
        if Unblocked(preds, processed, cands[i]) {
          ElemsAppend(work, cands[i]);
          PushReady(cands[i], out);
        }
      }
    }

    /** What follows the rewrite of node n: it is marked processed, unless the rewrite dropped
        it, and leaves and unblocked candidates become ready. */
    method Finish(n: NodeId, dropped: bool, leaves: set<NodeId>, cands: seq<NodeId>, preds: seq<seq<NodeId>>,
                  ghost out: set<NodeId>)
      requires Consistent(out + {n}) && n !in out
      requires forall i: nat :: i < |cands| ==> cands[i] < |preds|
      modifies this
      ensures processed == if dropped then old(processed) else old(processed) + {n}
      ensures Consistent(if dropped then out + {n} else out)
      ensures old(ready) + leaves <= ready && ready <= old(ready) + leaves + Elems(cands)
      ensures Elems(work) == Elems(old(work)) + (ready - old(ready))
      ensures forall i: nat :: i < |cands| ==> cands[i] in ready || !Unblocked(preds, processed, cands[i])
      ensures forall m: NodeId :: m in ready - old(ready) - leaves && m < |preds| ==> Unblocked(preds, processed, m)
    {
      if !dropped {
        processed := processed + {n};
      }
      ghost var out' := if dropped then out + {n} else out;
      PushLeaves(leaves, out');
      PushCandidates(cands, preds, out');
    }
  }

  /** When the worklist runs dry every node has been processed, apart from exempt ones that
      only feed processed nodes. */
  lemma {:induction false} AllVisited(preds: seq<seq<NodeId>>, rank: seq<nat>, nodes: set<NodeId>, exempt: set<NodeId>,
                                      processed: set<NodeId>, n: NodeId)
    requires Ordered(preds, rank)
    requires Waiting(preds, nodes - exempt, processed, processed)
    requires forall m: NodeId :: m in nodes ==> m < |preds|
    requires forall m: NodeId, i: nat :: m in nodes && i < |preds[m]| ==> preds[m][i] in nodes
    requires forall m: NodeId, i: nat :: m in nodes - exempt && i < |preds[m]| && preds[m][i] in exempt ==>
      m in processed
    requires n in nodes - exempt
    ensures n in processed
    decreases rank[n]
  {
    if n !in processed {
      var i: nat :| i < |preds[n]| && preds[n][i] !in processed;
      AllVisited(preds, rank, nodes, exempt, processed, preds[n][i]);
    }
  }

  /** order lists each of nodes once, and every node after all of its predecessors. */
  ghost predicate TopologicalOrder(preds: seq<seq<NodeId>>, nodes: set<NodeId>, order: seq<NodeId>)
  {
    && NoDuplicates(order)
    && Elems(order) == nodes
    && PredecessorsFirst(preds, order)
  }

  ghost predicate PredecessorsFirst(preds: seq<seq<NodeId>>, order: seq<NodeId>)
  {
    forall k: nat :: k < |order| ==> order[k] < |preds| && Unblocked(preds, Elems(order[..k]), order[k])
  }

  /** preds and succs describe the same edges, which stay inside nodes; leaves are the nodes
      without predecessors. */
  ghost predicate Adjacency(preds: seq<seq<NodeId>>, succs: seq<seq<NodeId>>, nodes: set<NodeId>, leaves: set<NodeId>)
  {
    && |preds| == |succs|
    && (forall n: NodeId :: n in nodes ==> n < |preds|)
    && (forall n: NodeId, i: nat :: n in nodes && i < |preds[n]| ==> preds[n][i] in nodes && n in succs[preds[n][i]])
    && (forall n: NodeId, i: nat :: n in nodes && i < |succs[n]| ==> succs[n][i] in nodes)
    && (forall n: NodeId :: n in leaves ==> n in nodes)
    && (forall n: NodeId :: n in nodes ==> (n in leaves <==> preds[n] == []))
  }

  lemma WaitingStep(preds: seq<seq<NodeId>>, succs: seq<seq<NodeId>>, nodes: set<NodeId>, leaves: set<NodeId>,
                    ready: set<NodeId>, processed: set<NodeId>, n: NodeId, ready': set<NodeId>)
    requires Adjacency(preds, succs, nodes, leaves) && n in nodes
    requires Waiting(preds, nodes, ready, processed)
    requires ready <= ready'
    requires forall i: nat :: i < |succs[n]| ==>
      succs[n][i] in ready' || !Unblocked(preds, processed + {n}, succs[n][i])
    ensures Waiting(preds, nodes, ready', processed + {n})
  {
    forall m: NodeId | m in nodes && m !in ready' && m < |preds|
      ensures !Unblocked(preds, processed + {n}, m)
    {
      var i: nat :| i < |preds[m]| && preds[m][i] !in processed;
      if preds[m][i] == n {
        assert m in succs[n];
        var k :| 0 <= k < |succs[n]| && succs[n][k] == m;
        assert succs[n][k] in ready' || !Unblocked(preds, processed + {n}, succs[n][k]);
      } else {
        assert preds[m][i] !in processed + {n};
      }
    }
  }

  lemma UnblockedMonotone(preds: seq<seq<NodeId>>, p: set<NodeId>, q: set<NodeId>, n: NodeId)
    requires n < |preds| && p <= q && Unblocked(preds, p, n)
    ensures Unblocked(preds, q, n)
  {
  }

  /** A visit that leaves the graph alone. */
  method TraverseStep(t: DagTraversal, preds: seq<seq<NodeId>>, succs: seq<seq<NodeId>>, leaves: set<NodeId>,
                      ghost nodes: set<NodeId>, ghost order: seq<NodeId>)
    returns (n: NodeId)
    requires Adjacency(preds, succs, nodes, leaves) && t.Consistent({}) && t.work != []
    requires t.ready <= nodes && leaves <= t.ready && Waiting(preds, nodes, t.ready, t.processed)
    requires WorkUnblocked(preds, t.processed, t.work) && PredecessorsFirst(preds, order)
    requires NoDuplicates(order) && Elems(order) == t.processed
    modifies t
    ensures t.Consistent({}) && n in nodes && n !in old(t.processed) && t.processed == old(t.processed) + {n}
    ensures t.ready <= nodes && leaves <= t.ready && Waiting(preds, nodes, t.ready, t.processed)
    ensures WorkUnblocked(preds, t.processed, t.work) && PredecessorsFirst(preds, order + [n])
    ensures NoDuplicates(order + [n]) && Elems(order + [n]) == t.processed
  {
    assert t.work[|t.work|-1] in Elems(t.work);
    ghost var ready0, processed0, work0 := t.ready, t.processed, t.work;
    n := t.Pop({});
    assert Unblocked(preds, processed0, n);
    ElemsAppend(order, n);
    OrderExtend(preds, order, n);
    hide PredecessorsFirst;
    StillDistinct(order, n);
    t.Finish(n, false, leaves, succs[n] + succs[n], preds, {});
    CandidatesTwice(preds, succs[n], t.ready, t.processed);
    WaitingStep(preds, succs, nodes, leaves, ready0, processed0, n, t.ready);
    WorkStep(preds, processed0, work0, t.processed, t.work, t.ready - ready0);
  }

  lemma StillDistinct(order: seq<NodeId>, n: NodeId)
    requires NoDuplicates(order) && n !in Elems(order)
    ensures NoDuplicates(order + [n])
  {
  }

  /** The order in which a traversal calls a rewriter that leaves the graph alone. */
  method Traverse(preds: seq<seq<NodeId>>, succs: seq<seq<NodeId>>, leaves: set<NodeId>, ghost nodes: set<NodeId>,
                  ghost rank: seq<nat>)
    returns (order: seq<NodeId>)
    requires Adjacency(preds, succs, nodes, leaves) && Ordered(preds, rank)
    ensures TopologicalOrder(preds, nodes, order)
  {
    var t := new DagTraversal();
    t.Begin(leaves);
    order := [];
    TraversalStart(preds, succs, nodes, leaves, t.work);
    while t.work != []
      invariant t.Consistent({})
      invariant t.ready <= nodes && leaves <= t.ready
      invariant Waiting(preds, nodes, t.ready, t.processed)
      invariant WorkUnblocked(preds, t.processed, t.work)
      invariant NoDuplicates(order) && Elems(order) == t.processed
      invariant PredecessorsFirst(preds, order)
      decreases nodes - t.processed
    {
      hide *;
      var n := TraverseStep(t, preds, succs, leaves, nodes, order);
      order := order + [n];
    }
    forall n: NodeId | n in nodes
      ensures n in t.processed
    {
      assert t.ready == t.processed;
      assert nodes - {} == nodes;
      AllVisited(preds, rank, nodes, {}, t.processed, n);
    }
  }

  lemma TraversalStart(preds: seq<seq<NodeId>>, succs: seq<seq<NodeId>>, nodes: set<NodeId>, leaves: set<NodeId>,
                       work: seq<NodeId>)
    requires Adjacency(preds, succs, nodes, leaves) && Elems(work) == leaves
    ensures WorkUnblocked(preds, {}, work)
    ensures Waiting(preds, nodes, leaves, {})
  {
    forall i: nat | i < |work|
      ensures work[i] in leaves
    {
      assert work[i] in Elems(work);
    }
    forall n: NodeId | n in nodes && n !in leaves && n < |preds|
      ensures !Unblocked(preds, {}, n)
    {
      var first := preds[n][0];
      assert Unblocked(preds, {}, n) ==> first in {};
    }
  }

  lemma CandidatesTwice(preds: seq<seq<NodeId>>, s: seq<NodeId>, ready: set<NodeId>, processed: set<NodeId>)
    requires forall i: nat :: i < |s| ==> s[i] < |preds|
    requires forall i: nat :: i < |s + s| ==> (s + s)[i] in ready || !Unblocked(preds, processed, (s + s)[i])
    ensures forall i: nat :: i < |s| ==> s[i] in ready || !Unblocked(preds, processed, s[i])
  {
    forall i: nat | i < |s|
      ensures s[i] in ready || !Unblocked(preds, processed, s[i])
    {
      assert (s + s)[i] == s[i];
    }
  }

  lemma WorkStep(preds: seq<seq<NodeId>>, processed: set<NodeId>, work: seq<NodeId>,
                 processed': set<NodeId>, work': seq<NodeId>, added: set<NodeId>)
    requires WorkUnblocked(preds, processed, work) && processed <= processed'
    requires Elems(work') <= Elems(work) + added
    requires forall m: NodeId :: m in added ==> m < |preds| && Unblocked(preds, processed', m)
    ensures WorkUnblocked(preds, processed', work')
  {
    forall i: nat | i < |work'|
      ensures work'[i] < |preds| && Unblocked(preds, processed', work'[i])
    {
      assert work'[i] in Elems(work');
      if work'[i] in Elems(work) {
        var k :| 0 <= k < |work| && work[k] == work'[i];
        UnblockedMonotone(preds, processed, processed', work[k]);
      }
    }
  }

  lemma OrderExtend(preds: seq<seq<NodeId>>, order: seq<NodeId>, n: NodeId)
    requires PredecessorsFirst(preds, order) && n < |preds| && Unblocked(preds, Elems(order), n)
    ensures PredecessorsFirst(preds, order + [n])
  {
    forall k: nat | k < |order + [n]|
      ensures (order + [n])[k] < |preds| && Unblocked(preds, Elems((order + [n])[..k]), (order + [n])[k])
    {
      if k < |order| {
        assert (order + [n])[..k] == order[..k];
      } else {
        assert (order + [n])[..k] == order;
      }
    }
  }

  ghost function LiveNodes(g: Graph): set<NodeId>
  {
    set n: NodeId | 0 <= n < |g.operands| && Live(g, n)
  }

  ghost function AllNodes(g: Graph): (s: set<NodeId>)
    ensures forall n: NodeId :: n in s <==> n < |g.operands|
  {
    LiveNodes(g) + Erased(g)
  }

  lemma InAllNodes(g: Graph, n: NodeId)
    ensures n < |g.operands| <==> n in AllNodes(g)
  {
  }

  lemma ForwardAdjacency(g: Graph, uses: seq<seq<NodeId>>)
    requires WellFormed(g) && UsesInverse(g.operands, uses)
    ensures Adjacency(g.operands, uses, LiveNodes(g), g.sources)
  {
    forall n: NodeId, i: nat | n in LiveNodes(g) && i < |g.operands[n]|
      ensures g.operands[n][i] in LiveNodes(g) && n in uses[g.operands[n][i]]
    {
      assert Live(g, g.operands[n][i]);
      UsersAreUses(g.operands, uses, g.operands[n][i], n);
    }
    forall n: NodeId, i: nat | n in LiveNodes(g) && i < |uses[n]|
      ensures uses[n][i] in LiveNodes(g)
    {
      UsersAreUses(g.operands, uses, n, uses[n][i]);
    }
  }

  lemma BackwardAdjacency(g: Graph, uses: seq<seq<NodeId>>, sinks: set<NodeId>)
    requires WellFormed(g) && UsesInverse(g.operands, uses) && SinksMatch(uses, sinks, Erased(g))
    ensures Adjacency(uses, g.operands, LiveNodes(g) + sinks, sinks)
  {
    forall n: NodeId, i: nat | n in LiveNodes(g) + sinks && i < |uses[n]|
      ensures uses[n][i] in LiveNodes(g) + sinks && n in g.operands[uses[n][i]]
    {
      UsersAreUses(g.operands, uses, n, uses[n][i]);
    }
    forall n: NodeId, i: nat | n in LiveNodes(g) + sinks && i < |g.operands[n]|
      ensures g.operands[n][i] in LiveNodes(g) + sinks
    {
      assert Live(g, g.operands[n][i]);
    }
  }

  /** The rank read from uses to operands. */
  ghost function Reversed(rank: seq<nat>): (r: seq<nat>)
    ensures |r| == |rank|
    ensures forall i, j :: 0 <= i < |rank| && 0 <= j < |rank| && rank[i] < rank[j] ==> r[j] < r[i]
  {
    var top := Top(rank);
    seq(|rank|, i requires 0 <= i < |rank| => top - rank[i])
  }

  ghost function Top(rank: seq<nat>): (top: nat)
    ensures forall i :: 0 <= i < |rank| ==> rank[i] <= top
  {
    if rank == [] then 0
    else
      var t := Top(rank[1..]);
      assert forall i :: 1 <= i < |rank| ==> rank[i] == rank[1..][i-1];
      if t < rank[0] then rank[0] else t
  }

  lemma BackwardOrdered(g: Graph, uses: seq<seq<NodeId>>, rank: seq<nat>)
    requires Ranked(g, rank) && UsesInverse(g.operands, uses)
    ensures Ordered(uses, Reversed(rank))
  {
    forall n: NodeId, i: nat | n < |uses| && i < |uses[n]|
      ensures uses[n][i] < |rank| && Reversed(rank)[uses[n][i]] < Reversed(rank)[n]
    {
      UsersAreUses(g.operands, uses, n, uses[n][i]);
      var k :| 0 <= k < |g.operands[uses[n][i]]| && g.operands[uses[n][i]][k] == n;
    }
  }

  /** A forward pass over an unchanging graph: each live node once, after its operands. */
  method ForwardOrder(d: Dag) returns (order: seq<NodeId>)
    requires d.Valid() && Acyclic(d.G())
    ensures TopologicalOrder(d.operands, LiveNodes(d.G()), order)
  {
    ghost var rank :| Ranked(d.G(), rank);
    ForwardAdjacency(d.G(), d.uses);
    order := Traverse(d.operands, d.uses, d.sources, LiveNodes(d.G()), rank);
  }

  /** A backward pass over an unchanging graph: each live node and sink once, after its uses. */
  method BackwardOrder(d: Dag) returns (order: seq<NodeId>)
    requires d.Valid() && Acyclic(d.G())
    ensures TopologicalOrder(d.uses, LiveNodes(d.G()) + d.sinks, order)
  {
    ghost var rank :| Ranked(d.G(), rank);
    BackwardAdjacency(d.G(), d.uses, d.sinks);
    BackwardOrdered(d.G(), d.uses, rank);
    order := Traverse(d.uses, d.operands, d.sinks, LiveNodes(d.G()) + d.sinks, Reversed(rank));
  }
}
