/** Graphs that differ only in relinearizations and mod-switches threaded into their edges, and
    what such threading cannot disturb. */
module Threads {
  import opened Graphs
  import opened Usage
  import opened Semantics
  import Traversals

  predicate IsThreadOp(op: Op) { op.Relinearize? || op.ModSwitch? }

  /** origin maps every node of r to the node of g whose result it passes on; nothing is threaded
      behind an encoding or a node without uses. */
  ghost predicate Threaded(g: Graph, r: Graph, origin: seq<NodeId>)
  {
    && |g.op| == |g.operands| && |r.op| == |r.operands| && |g.operands| <= |r.operands|
    && g.op <= r.op && r.sources == g.sources
    && |origin| == |r.operands| && (forall n: NodeId :: n < |origin| ==> origin[n] < |g.operands|)
    && (forall n: NodeId :: n < |g.operands| ==> origin[n] == n && |r.operands[n]| == |g.operands[n]|)
    && (forall n: NodeId, i: nat :: n < |g.operands| && i < |g.operands[n]| ==>
          r.operands[n][i] < |origin| && origin[r.operands[n][i]] == g.operands[n][i])
    && (forall x: NodeId :: |g.operands| <= x < |r.operands| ==>
          IsThreadOp(r.op[x]) && !g.op[origin[x]].Encode? && IsUsed(g, origin[x])
          && |r.operands[x]| == 1 && r.operands[x][0] < |origin| && origin[r.operands[x][0]] == origin[x])
  }

  ghost predicate ThreadedInto(g: Graph, r: Graph)
  {
    exists origin :: Threaded(g, r, origin)
  }

  function Compose(outer: seq<NodeId>, inner: seq<NodeId>): seq<NodeId>
    requires forall n: NodeId :: n < |inner| ==> inner[n] < |outer|
  {
    seq(|inner|, n requires 0 <= n < |inner| => outer[inner[n]])
  }

  /** The nodes below count, followed by extra copies of n. */
  function Origins(count: nat, n: NodeId, extra: nat): (origin: seq<NodeId>)
    ensures |origin| == count + extra
    ensures forall m: NodeId :: m < |origin| ==> origin[m] == if m < count then m else n
  {
    seq(count + extra, m requires 0 <= m < count + extra => if m < count then m else n)
  }

  lemma ThreadedReflexive(g: Graph)
    requires WellFormed(g)
    ensures ThreadedInto(g, g)
  {
    var origin := Origins(|g.operands|, 0, 0);
    forall n: NodeId, i: nat | n < |g.operands| && i < |g.operands[n]|
      ensures g.operands[n][i] < |origin|
    {
      assert Live(g, g.operands[n][i]);
    }
    assert Threaded(g, g, origin);
  }

  lemma ThreadedTransitive(g: Graph, g': Graph, g'': Graph)
    requires ThreadedInto(g, g') && ThreadedInto(g', g'')
    ensures ThreadedInto(g, g'')
  {
    var a :| Threaded(g, g', a);
    var b :| Threaded(g', g'', b);
    ComposeOld(g, g', g'', a, b);
    ComposeNew(g, g', g'', a, b);
    assert Threaded(g, g'', Compose(a, b));
  }

  lemma ComposeOld(g: Graph, g': Graph, g'': Graph, a: seq<NodeId>, b: seq<NodeId>)
    requires Threaded(g, g', a) && Threaded(g', g'', b)
    ensures forall n: NodeId, i: nat :: n < |g.operands| && i < |g.operands[n]| ==>
      g''.operands[n][i] < |b| && Compose(a, b)[g''.operands[n][i]] == g.operands[n][i]
  {
    forall n: NodeId, i: nat | n < |g.operands| && i < |g.operands[n]|
      ensures g''.operands[n][i] < |b| && Compose(a, b)[g''.operands[n][i]] == g.operands[n][i]
    {
      assert b[g''.operands[n][i]] == g'.operands[n][i];
    }
  }

  /** An edge of r that starts at a node of g: an old edge, or the first one of a thread. */
  lemma OldEdge(g: Graph, r: Graph, origin: seq<NodeId>, u: NodeId, i: nat)
    requires Threaded(g, r, origin) && u < |r.operands| && i < |r.operands[u]| && r.operands[u][i] < |g.operands|
    ensures u < |g.operands| ==> i < |g.operands[u]| && g.operands[u][i] == r.operands[u][i]
    ensures u >= |g.operands| ==>
      IsUsed(g, r.operands[u][i]) && r.operands[u][i] < |g.op| && !g.op[r.operands[u][i]].Encode?
  {
    hide IsUsed;
  }

  /** A node of g that r uses is used in g. */
  lemma UsedBefore(g: Graph, r: Graph, origin: seq<NodeId>, m: NodeId)
    requires Threaded(g, r, origin) && m < |g.operands| && IsUsed(r, m)
    ensures IsUsed(g, m)
  {
    var u, i := UserOf(r, m);
    OldEdge(g, r, origin, u, i);
    hide Threaded;
    if u < |g.operands| {
      UsedBy(g, u, i);
    }
  }

  lemma UsedBeforeThreads(g: Graph, r: Graph, m: NodeId)
    requires ThreadedInto(g, r) && m < |g.operands| && IsUsed(r, m)
    ensures IsUsed(g, m)
  {
    var origin :| Threaded(g, r, origin);
    UsedBefore(g, r, origin, m);
  }

  lemma ComposeNew(g: Graph, g': Graph, g'': Graph, a: seq<NodeId>, b: seq<NodeId>)
    requires Threaded(g, g', a) && Threaded(g', g'', b)
    ensures forall x: NodeId :: |g.operands| <= x < |g''.operands| ==>
      IsThreadOp(g''.op[x]) && !g.op[Compose(a, b)[x]].Encode? && IsUsed(g, Compose(a, b)[x]) && |g''.operands[x]| == 1
      && g''.operands[x][0] < |b| && Compose(a, b)[g''.operands[x][0]] == Compose(a, b)[x]
  {
    forall x: NodeId | |g.operands| <= x < |g''.operands|
      ensures IsThreadOp(g''.op[x]) && !g.op[Compose(a, b)[x]].Encode? && IsUsed(g, Compose(a, b)[x])
        && |g''.operands[x]| == 1
      ensures g''.operands[x][0] < |b| && Compose(a, b)[g''.operands[x][0]] == Compose(a, b)[x]
    {
      if x < |g'.operands| {
        assert b[g''.operands[x][0]] == g'.operands[x][0];
      } else {
        assert g'.op[b[x]] == g''.op[b[x]];
        if a[b[x]] != b[x] {
          assert b[x] >= |g.operands|;
        } else {
          UsedBefore(g, g', a, b[x]);
        }
      }
    }
  }

  lemma InsertAfterThreads(g: Graph, a: NodeId, op: Op)
    requires WellFormed(g) && a < |g.operands| && IsThreadOp(op) && !g.op[a].Encode? && IsUsed(g, a)
    ensures ThreadedInto(g, InsertAfter(g, a, op))
  {
    InsertAfterShape(g, a, op);
    var origin := Origins(|g.operands|, a, 1);
    forall n: NodeId, i: nat | n < |g.operands| && i < |g.operands[n]|
      ensures g.operands[n][i] < |g.operands|
    {
      assert Live(g, g.operands[n][i]);
    }
    assert Threaded(g, InsertAfter(g, a, op), origin);
  }

  /** Every encoding has at most one user. */
  ghost predicate EncodesOnce(g: Graph)
  {
    forall u: NodeId, i: nat, w: NodeId, j: nat :: SharedEncode(g, u, i, w, j) ==> u == w
  }

  ghost predicate SharedEncode(g: Graph, u: NodeId, i: nat, w: NodeId, j: nat)
  {
    && u < |g.operands| && i < |g.operands[u]| && w < |g.operands| && j < |g.operands[w]|
    && g.operands[u][i] == g.operands[w][j] && g.operands[u][i] < |g.op| && g.op[g.operands[u][i]].Encode?
  }

  lemma EncodeUserOld(g: Graph, r: Graph, origin: seq<NodeId>, u: NodeId, i: nat)
    requires Threaded(g, r, origin) && u < |r.operands| && i < |r.operands[u]|
    requires r.operands[u][i] < |r.op| && r.op[r.operands[u][i]].Encode?
    ensures u < |g.operands| && r.operands[u][i] < |g.operands| && g.operands[u][i] == r.operands[u][i]
  {
    hide IsUsed;
    assert r.operands[u][i] < |g.operands|;
    OldEdge(g, r, origin, u, i);
  }

  lemma EncodesStayOnce(g: Graph, r: Graph)
    requires ThreadedInto(g, r) && EncodesOnce(g)
    ensures EncodesOnce(r)
  {
    var origin :| Threaded(g, r, origin);
    forall u: NodeId, i: nat, w: NodeId, j: nat | SharedEncode(r, u, i, w, j)
      ensures u == w
    {
      EncodeUserOld(g, r, origin, u, i);
      EncodeUserOld(g, r, origin, w, j);
      assert SharedEncode(g, u, i, w, j);
    }
  }

  ghost predicate EncodesUsed(g: Graph)
  {
    forall e: NodeId :: e < |g.op| && g.op[e].Encode? ==> IsUsed(g, e)
  }

  lemma EncodesStayUsed(g: Graph, r: Graph)
    requires ThreadedInto(g, r) && EncodesUsed(g)
    ensures EncodesUsed(r)
  {
    var origin :| Threaded(g, r, origin);
    forall e: NodeId | e < |r.op| && r.op[e].Encode?
      ensures IsUsed(r, e)
    {
      assert e < |g.op| && g.op[e].Encode?;
      var u, i := UserOf(g, e);
      UnthreadedEdge(g, r, origin, u, i);
      UsedBy(r, u, i);
    }
  }

  lemma UnthreadedEdge(g: Graph, r: Graph, origin: seq<NodeId>, u: NodeId, i: nat)
    requires Threaded(g, r, origin) && u < |g.operands| && i < |g.operands[u]|
    requires g.operands[u][i] < |g.op| && g.op[g.operands[u][i]].Encode?
    ensures u < |r.operands| && i < |r.operands[u]| && r.operands[u][i] == g.operands[u][i]
  {
    hide IsUsed;
    assert origin[r.operands[u][i]] == g.operands[u][i];
  }

  lemma OldThread(g: Graph, r: Graph, origin: seq<NodeId>, n: NodeId, i: nat)
    requires Threaded(g, r, origin) && n < |g.operands| && n < |r.operands| && i < |r.operands[n]|
    ensures |r.operands| == |origin| && i < |g.operands[n]| && r.operands[n][i] < |origin|
    ensures origin[r.operands[n][i]] == g.operands[n][i] && g.operands[n][i] in g.operands[n]
  {
    assert |r.operands[n]| == |g.operands[n]|;
    assert r.operands[n][i] < |origin| && origin[r.operands[n][i]] == g.operands[n][i];
  }

  lemma NewThread(g: Graph, r: Graph, origin: seq<NodeId>, x: NodeId)
    requires Threaded(g, r, origin) && |g.operands| <= x < |r.operands|
    ensures |r.operands| == |origin| && |r.operands[x]| == 1 && r.operands[x][0] < |origin|
    ensures origin[r.operands[x][0]] == origin[x] && x < |r.op| && IsThreadOp(r.op[x])
  {
  }

  lemma ThreadCounts(g: Graph, r: Graph, origin: seq<NodeId>)
    requires Threaded(g, r, origin)
    ensures |g.op| == |g.operands| <= |r.operands| == |r.op| == |origin| && g.op <= r.op
    ensures forall n: NodeId :: n < |g.operands| ==> |r.operands[n]| == |g.operands[n]|
  {
  }

  ghost predicate NewUsed(g: Graph, r: Graph)
  {
    forall y: NodeId :: |g.operands| <= y < |r.operands| ==> IsUsed(r, y)
  }

  lemma RankedEdge(r: Graph, rank: seq<nat>, u: NodeId, i: nat)
    requires Ranked(r, rank) && u < |r.operands| && i < |r.operands[u]|
    ensures |rank| == |r.operands| && r.operands[u][i] < |rank| && rank[r.operands[u][i]] < rank[u]
  {
  }

  /** A new node leads up to an edge of an old node that passes the same result on. */
  lemma {:induction false} ThreadLeads(g: Graph, r: Graph, origin: seq<NodeId>, rank: seq<nat>, x: NodeId)
    returns (w: NodeId, k: nat)
    requires Threaded(g, r, origin) && Ranked(r, rank) && NewUsed(g, r) && |g.operands| <= x < |r.operands|
    requires |rank| == |origin| == |r.operands|
    ensures w < |g.operands| && w < |r.operands| && k < |r.operands[w]| && r.operands[w][k] < |rank|
    ensures origin[r.operands[w][k]] == origin[x] && rank[r.operands[w][k]] >= rank[x]
    decreases Traversals.Top(rank) - rank[x]
  {
    hide Threaded, Ranked, IsUsed;
    var u, i := UserOf(r, x);
    RankedEdge(r, rank, u, i);
    if u < |g.operands| {
      w, k := u, i;
    } else {
      NewThread(g, r, origin, u);
      w, k := ThreadLeads(g, r, origin, rank, u);
    }
  }

  ghost predicate OneOperandOutputs(g: Graph)
  {
    forall o: NodeId :: o < |g.op| && o < |g.operands| && g.op[o].Output? ==> |g.operands[o]| <= 1
  }

  /** Outputs alone stay so under threads that are used. */
  lemma ThreadedAlone(g: Graph, r: Graph)
    requires ThreadedInto(g, r) && Acyclic(r) && OneOperandOutputs(g) && NewUsed(g, r)
    ensures AloneKept(g, r)
  {
    hide Threaded, Ranked, OneOperandOutputs, NewUsed;
    var origin :| Threaded(g, r, origin);
    var rank :| Ranked(r, rank);
    if OutputsAlone(g) {
      forall o: NodeId, u: NodeId, p: NodeId | OutputUses(r, o, p) && u < |r.operands| && p in r.operands[u]
        ensures u == o
      {
        var j: nat :| j < |r.operands[u]| && r.operands[u][j] == p;
        ThreadedUser(g, r, origin, rank, o, u, j, p);
      }
    }
  }

  lemma ThreadedUser(g: Graph, r: Graph, origin: seq<NodeId>, rank: seq<nat>, o: NodeId, u: NodeId, j: nat, p: NodeId)
    requires Threaded(g, r, origin) && Ranked(r, rank) && OutputsAlone(g) && OneOperandOutputs(g) && NewUsed(g, r)
    requires OutputUses(r, o, p) && u < |r.operands| && j < |r.operands[u]| && r.operands[u][j] == p
    ensures u == o
  {
    hide Threaded, Ranked, NewUsed;
    ThreadCounts(g, r, origin);
    OutputIsOld(g, r, origin, o);
    var i: nat :| i < |r.operands[o]| && r.operands[o][i] == p;
    OldThread(g, r, origin, o, i);
    var q := g.operands[o][i];
    assert q in g.operands[o] && OutputUses(g, o, q);
    RankedEdge(r, rank, u, j);
    if u < |g.operands| {
      OldThread(g, r, origin, u, j);
      assert g.operands[u][j] == q && q in g.operands[u];
    } else {
      NewThread(g, r, origin, u);
      var w, k := ThreadLeads(g, r, origin, rank, u);
      OldThread(g, r, origin, w, k);
    }
  }

  lemma OutputIsOld(g: Graph, r: Graph, origin: seq<NodeId>, o: NodeId)
    requires Threaded(g, r, origin) && o < |r.operands| && o < |r.op| && r.op[o].Output?
    ensures o < |g.operands| && o < |g.op| && g.op[o].Output?
  {
    if o >= |g.operands| {
      NewThread(g, r, origin, o);
    }
  }
}
