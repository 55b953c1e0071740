/** Merging an addition or multiplication into its only use, Reduction in
    iyfc/daghandler/reduction_handler.cpp. */
module Reductions {
  import opened Graphs
  import opened Dags
  import opened Traversals
  import opened ForwardPass
  import opened Semantics
  import opened Reassociation
  import opened OperandScales
  import opened Usage
  import opened CleanNodes
  import Rescaling = RescalePass

  // ----- values of operand lists -----

  function Vals<T>(v: seq<T>, s: seq<NodeId>): (r: seq<T>)
    requires forall i: nat :: i < |s| ==> s[i] < |v|
    ensures |r| == |s|
  {
    seq(|s|, i requires 0 <= i < |s| => v[s[i]])
  }

  lemma ValsAppend<T>(v: seq<T>, s: seq<NodeId>, t: seq<NodeId>)
    requires forall i: nat :: i < |s| ==> s[i] < |v|
    requires forall i: nat :: i < |t| ==> t[i] < |v|
    ensures Vals(v, s + t) == Vals(v, s) + Vals(v, t)
  {
  }

  lemma {:induction false} ValsPermuted<T>(v: seq<T>, s: seq<NodeId>, t: seq<NodeId>)
    requires multiset(s) == multiset(t)
    requires forall i: nat :: i < |s| ==> s[i] < |v|
    requires forall i: nat :: i < |t| ==> t[i] < |v|
    ensures multiset(Vals(v, s)) == multiset(Vals(v, t))
    decreases |s|
  {
    if s == [] {
      assert |multiset(t)| == |t|;
    } else {
      assert s[0] in multiset(t);
      var i: nat :| i < |t| && t[i] == s[0];
      var rest := t[..i] + t[i + 1..];
      RestPermuted(s, t, i);
      ValsPermuted(v, s[1..], rest);
      assert Vals(v, s) == [v[s[0]]] + Vals(v, s[1..]);
      assert Vals(v, t) == Vals(v, t[..i]) + ([v[t[i]]] + Vals(v, t[i + 1..]));
      ValsAppend(v, t[..i], t[i + 1..]);
    }
  }

  lemma {:induction false} FirstRemoved(s: seq<NodeId>, n: NodeId)
    requires n in s
    ensures multiset(s) == multiset([n] + RemoveFirst(s, n))
  {
    if s[0] == n {
      assert s == [n] + s[1..];
    } else {
      FirstRemoved(s[1..], n);
      assert s == [s[0]] + s[1..];
    }
  }

  /** An operand computed by the same operation can be replaced by its own operands. */
  lemma Flattened<T(!new)>(sem: (NodeId, Op, seq<T>) -> T, op: Op, v: seq<T>, n: NodeId, u: NodeId, s: seq<NodeId>,
                           inner: seq<NodeId>)
    requires Regroups(sem, op) && n in s && n < |v|
    requires forall i: nat :: i < |s| ==> s[i] < |v|
    requires forall i: nat :: i < |inner| ==> inner[i] < |v|
    requires v[n] == sem(n, op, Vals(v, inner))
    requires forall i: nat :: i < |RemoveFirst(s, n)| ==> RemoveFirst(s, n)[i] < |v|
    ensures sem(u, op, Vals(v, s)) == sem(u, op, Vals(v, RemoveFirst(s, n) + inner))
  {
    var rest := RemoveFirst(s, n);
    FirstRemoved(s, n);
    ValsPermuted(v, s, [n] + rest);
    ValsAppend(v, [n], rest);
    assert Vals(v, [n]) == [v[n]];
    ValsAppend(v, rest, inner);
    var xs, ys := Vals(v, rest), Vals(v, inner);
    assert sem(u, op, Vals(v, s)) == sem(u, op, [v[n]] + xs);
    assert sem(u, op, [v[n]] + xs) == sem(u, op, ys + xs);
    assert multiset(ys + xs) == multiset(xs + ys);
  }

  // ----- one merge -----

  ghost predicate UsedOnceBy(g: Graph, n: NodeId, u: NodeId)
  {
    && u < |g.operands| && Count(g.operands[u], n) == 1
    && forall w: NodeId :: w < |g.operands| && n in g.operands[w] ==> w == u
  }

  /** An addition or multiplication with operands, used once, by an operation of its own kind. */
  ghost predicate MergesInto(g: Graph, n: NodeId, u: NodeId)
  {
    && |g.op| == |g.operands| && n < |g.operands| && g.operands[n] != [] && IsReductionOp(g.op[n])
    && UsedOnceBy(g, n, u) && g.op[u] == g.op[n]
  }

  ghost predicate Reducible(g: Graph, n: NodeId)
  {
    exists u :: MergesInto(g, n, u)
  }

  function Merged(g: Graph, n: NodeId, u: NodeId): Graph
    requires n < |g.operands| && u < |g.operands|
  {
    g.(operands := g.operands[u := RemoveFirst(g.operands[u], n) + g.operands[n]][n := []])
  }

  lemma {:induction false} RemovedCount(s: seq<NodeId>, n: NodeId)
    requires Count(s, n) == 1
    ensures n in s && n !in RemoveFirst(s, n)
    ensures forall i: nat :: i < |RemoveFirst(s, n)| ==> RemoveFirst(s, n)[i] in s
  {
    CountPositive(s, n);
    CountRemoveFirst(s, n, n);
    CountPositive(RemoveFirst(s, n), n);
    RemoveFirstSubset(s, n);
  }

  lemma MergedShape(g: Graph, n: NodeId, u: NodeId)
    requires WellFormed(g) && MergesInto(g, n, u) && n !in g.operands[n]
    ensures n != u
    ensures var r := Merged(g, n, u);
      && r.op == g.op && r.sources == g.sources && |r.operands| == |g.operands| && r.operands[n] == []
      && r.operands[u] == RemoveFirst(g.operands[u], n) + g.operands[n]
      && forall w: NodeId :: w < |g.operands| && w != n && w != u ==> r.operands[w] == g.operands[w]
    ensures forall w: NodeId :: w < |g.operands| ==> n !in Merged(g, n, u).operands[w]
  {
    RemovedCount(g.operands[u], n);
  }

  lemma MergedMembers(g: Graph, n: NodeId, u: NodeId, o: NodeId)
    requires WellFormed(g) && MergesInto(g, n, u) && n !in g.operands[n] && o in Merged(g, n, u).operands[u]
    ensures o in g.operands[u] || o in g.operands[n]
    ensures o < |g.operands| && Live(g, o) && o != n
  {
    MergedShape(g, n, u);
    RemovedCount(g.operands[u], n);
    var k: nat :| k < |Merged(g, n, u).operands[u]| && Merged(g, n, u).operands[u][k] == o;
    if o in g.operands[u] {
      var i: nat :| i < |g.operands[u]| && g.operands[u][i] == o;
      assert Live(g, g.operands[u][i]);
    } else {
      var i: nat :| i < |g.operands[n]| && g.operands[n][i] == o;
      assert Live(g, g.operands[n][i]);
    }
  }

  lemma MergedWellFormed(g: Graph, n: NodeId, u: NodeId)
    requires WellFormed(g) && MergesInto(g, n, u) && n !in g.operands[n]
    ensures WellFormed(Merged(g, n, u))
    ensures forall w: NodeId :: Live(Merged(g, n, u), w) <==> Live(g, w) && w != n
  {
    var r := Merged(g, n, u);
    MergedShape(g, n, u);
    forall w: NodeId
      ensures Live(r, w) <==> Live(g, w) && w != n
    {
      assert w == u ==> r.operands[w] != [] && g.operands[w] != [];
    }
    forall w: NodeId, i: nat | w < |r.operands| && i < |r.operands[w]|
      ensures Live(r, r.operands[w][i])
    {
      if w == u {
        MergedMembers(g, n, u, r.operands[w][i]);
      } else {
        assert Live(g, g.operands[w][i]) && n !in r.operands[w];
      }
    }
  }

  lemma MergedAcyclic(g: Graph, n: NodeId, u: NodeId, rank: seq<nat>)
    requires WellFormed(g) && MergesInto(g, n, u) && Ranked(g, rank)
    ensures n !in g.operands[n] && Ranked(Merged(g, n, u), rank)
  {
    assert n !in g.operands[n];
    var r := Merged(g, n, u);
    MergedShape(g, n, u);
    RemovedCount(g.operands[u], n);
    var j: nat :| j < |g.operands[u]| && g.operands[u][j] == n;
    assert rank[n] < rank[u];
    forall w: NodeId, i: nat | w < |r.operands| && i < |r.operands[w]|
      ensures r.operands[w][i] < |rank| && rank[r.operands[w][i]] < rank[w]
    {
      if w == u {
        var o := r.operands[w][i];
        MergedMembers(g, n, u, o);
        if o in g.operands[u] {
          var k: nat :| k < |g.operands[u]| && g.operands[u][k] == o;
        } else {
          var k: nat :| k < |g.operands[n]| && g.operands[n][k] == o;
        }
      }
    }
  }

  lemma MergedExtends<T(!new)>(g: Graph, sem: (NodeId, Op, seq<T>) -> T, n: NodeId, u: NodeId)
    requires MergesInto(g, n, u) && n !in g.operands[n] && Regroups(sem, g.op[n])
    ensures Extends(g, Merged(g, n, u), sem)
  {
    var r := Merged(g, n, u);
    hide Interprets, Regroups, Merged;
    forall v | Interprets(g, sem, v)
      ensures exists v' :: Interprets(r, sem, v') && v <= v'
    {
      MergedInterprets(g, sem, v, n, u);
      assert Interprets(r, sem, v) && v <= v;
    }
  }

  /** After a merge every node has the meaning it had. */
  lemma MergedInterprets<T(!new)>(g: Graph, sem: (NodeId, Op, seq<T>) -> T, v: seq<T>, n: NodeId, u: NodeId)
    requires MergesInto(g, n, u) && n !in g.operands[n] && Regroups(sem, g.op[n]) && Interprets(g, sem, v)
    ensures Interprets(Merged(g, n, u), sem, v)
  {
    var r := Merged(g, n, u);
    MergedWellFormed(g, n, u);
    MergedShape(g, n, u);
    forall w: NodeId | Live(r, w)
      ensures v[w] == sem(w, r.op[w], Args(r, v, w))
    {
      assert Live(g, w) && v[w] == sem(w, g.op[w], Args(g, v, w));
      if w == u {
        MergedUser(g, sem, v, n, u);
      } else {
        assert Args(r, v, w) == Args(g, v, w);
      }
    }
  }

  lemma MergedUser<T(!new)>(g: Graph, sem: (NodeId, Op, seq<T>) -> T, v: seq<T>, n: NodeId, u: NodeId)
    requires MergesInto(g, n, u) && n !in g.operands[n] && Regroups(sem, g.op[n]) && Interprets(g, sem, v)
    requires WellFormed(Merged(g, n, u))
    ensures v[u] == sem(u, g.op[u], Args(Merged(g, n, u), v, u))
  {
    MergedShape(g, n, u);
    RemovedCount(g.operands[u], n);
    forall i: nat | i < |g.operands[u]|
      ensures g.operands[u][i] < |v|
    {
      assert Live(g, g.operands[u][i]);
    }
    forall i: nat | i < |g.operands[n]|
      ensures g.operands[n][i] < |v|
    {
      assert Live(g, g.operands[n][i]);
    }
    assert Live(g, n) && Live(g, u);
    assert Args(g, v, n) == Vals(v, g.operands[n]) && Args(g, v, u) == Vals(v, g.operands[u]);
    var rest := RemoveFirst(g.operands[u], n);
    forall i: nat | i < |rest|
      ensures rest[i] < |v|
    {
      assert rest[i] in g.operands[u];
    }
    Flattened(sem, g.op[n], v, n, u, g.operands[u], g.operands[n]);
    assert Args(Merged(g, n, u), v, u) == Vals(v, rest + g.operands[n]);
  }

  lemma MergedRefines(size: nat, g: Graph, n: NodeId, u: NodeId)
    requires WellFormed(g) && MergesInto(g, n, u) && n !in g.operands[n]
    ensures Refines(size, g, Merged(g, n, u))
  {
    MergedWellFormed(g, n, u);
    MergedShape(g, n, u);
    hide Live, UsedOnceBy, Merged;
    forall env
      ensures Extends(g, Merged(g, n, u), SlotSem(size, env))
    {
      SlotsRegroup(size, env, g.op[n]);
      MergedExtends(g, SlotSem(size, env), n, u);
    }
    FlagsRegroup(g.op[n]);
    MergedExtends(g, CipherSem(), n, u);
  }

  // ----- a visit -----

  /** The uses of n as a list tell whether n can be merged. */
  lemma {:induction false} OneUse(g: Graph, uses: seq<seq<NodeId>>, n: NodeId)
    requires UsesInverse(g.operands, uses) && n < |g.operands|
    ensures |uses| == |g.operands|
    ensures |uses[n]| == 1 ==> UsedOnceBy(g, n, uses[n][0])
    ensures forall u: NodeId :: UsedOnceBy(g, n, u) ==> uses[n] == [u]
  {
    forall u: NodeId
      ensures u in uses[n] <==> u < |g.operands| && n in g.operands[u]
      ensures u < |g.operands| ==> Count(g.operands[u], n) == Count(uses[n], u)
    {
      UsersAreUses(g.operands, uses, n, u);
      assert Balanced(g.operands, uses, n, u);
    }
    if |uses[n]| == 1 {
      assert uses[n] == [uses[n][0]];
      assert uses[n][0] in uses[n];
    }
    forall u: NodeId | UsedOnceBy(g, n, u)
      ensures uses[n] == [u]
    {
      forall i: nat | i < |uses[n]|
        ensures uses[n][i] == u
      {
        assert uses[n][i] in uses[n];
      }
      AllSame(uses[n], u);
    }
  }

  lemma {:induction false} AllSame(s: seq<NodeId>, u: NodeId)
    requires forall i: nat :: i < |s| ==> s[i] == u
    ensures Count(s, u) == |s|
  {
    if s != [] {
      AllSame(s[1..], u);
      CountPop(s, u);
    }
  }

  method AddOperands(d: Dag, u: NodeId, os: seq<NodeId>)
    requires d.Valid() && Live(d.G(), u) && forall i: nat :: i < |os| ==> Live(d.G(), os[i])
    modifies d
    ensures d.Valid() && d.op == old(d.op)
    ensures d.operands == old(d.operands)[u := old(d.operands)[u] + os]
    ensures d.sources == if os == [] then old(d.sources) else old(d.sources) - {u}
  {
    ghost var g := d.G();
    assert g.operands[u] + os[..0] == g.operands[u];
    for i := 0 to |os|
      invariant d.Valid() && d.op == old(d.op)
      invariant d.operands == g.operands[u := g.operands[u] + os[..i]]
      invariant d.sources == if i == 0 then g.sources else g.sources - {u}
    {
      assert Live(d.G(), u) && Live(d.G(), os[i]) by {
        assert Live(g, os[i]) && Live(g, u);
      }
      assert g.operands[u] + os[..i + 1] == g.operands[u] + os[..i] + [os[i]];
      d.AddOperand(u, os[i]);
    }
    assert os[..|os|] == os;
  }

  lemma DecideReducible(g: Graph, uses: seq<seq<NodeId>>, n: NodeId)
    requires UsesInverse(g.operands, uses) && n < |g.operands| && |g.op| == |g.operands|
    ensures |uses| == |g.operands| && (|uses[n]| == 1 ==> uses[n][0] < |g.op|)
    ensures Reducible(g, n) <==>
      g.operands[n] != [] && IsReductionOp(g.op[n]) && |uses[n]| == 1 && g.op[uses[n][0]] == g.op[n]
    ensures Reducible(g, n) ==> MergesInto(g, n, uses[n][0])
  {
    OneUse(g, uses, n);
    hide UsedOnceBy;
    if |uses[n]| == 1 {
      UsersAreUses(g.operands, uses, n, uses[n][0]);
      assert uses[n][0] in uses[n];
      if g.operands[n] != [] && IsReductionOp(g.op[n]) && g.op[uses[n][0]] == g.op[n] {
        assert MergesInto(g, n, uses[n][0]);
      }
    }
  }

  class Reduction {
    constructor () {}

    method Visit(d: Dag, n: NodeId)
      requires d.Valid() && n < |d.operands| && Acyclic(d.G())
      modifies d
      ensures d.Valid() && Visited(old(d.G()), n, d.G())
    {
      ghost var g := d.G();
      DecideReducible(g, d.uses, n);
      hide Reducible, MergesInto, UsesInverse, SinksMatch;
      if d.operands[n] == [] || d.uses[n] == [] || !IsReductionOp(d.op[n]) {
        return;
      }
      var uses := d.uses[n];
      if |uses| == 1 {
        var u := uses[0];
        if d.op[u] == d.op[n] {
          MoveOperands(d, n, u);
          var newUses := d.uses[n];
          if |newUses| == 0 {
            d.EraseAllOperand(n);
          }
        }
      }
    }

    /** The loop that moves the operands of n to u as often as u uses n. */
    method MoveOperands(d: Dag, n: NodeId, u: NodeId)
      requires d.Valid() && Acyclic(d.G()) && MergesInto(d.G(), n, u)
      modifies d
      ensures d.Valid() && d.op == old(d.op) && d.sources == old(d.sources)
      ensures d.operands == old(d.operands)[u := RemoveFirst(old(d.operands)[u], n) + old(d.operands)[n]]
      ensures d.uses[n] == [] && n !in d.operands[n] && n !in old(d.operands)[n] && n != u
    {
      ghost var g := d.G();
      NoSelf(g, n);
      MergedShape(g, n, u);
      hide UsesInverse, SinksMatch, Erased, MergesInto, Acyclic;
      var found := d.EraseOperand(u, n);
      EraseFacts(g, n, u);
      while found
        invariant d.Valid() && d.op == g.op && n != u && u < |d.operands|
        invariant found ==> d.operands == g.operands[u := RemoveFirst(g.operands[u], n)]
        invariant found ==> d.sources == if RemoveFirst(g.operands[u], n) == [] then g.sources + {u} else g.sources
        invariant !found ==> d.operands == g.operands[u := RemoveFirst(g.operands[u], n) + g.operands[n]]
        invariant !found ==> d.sources == g.sources
        decreases found
      {
        StillLive(g, n, u, d.G());
        AddOperands(d, u, d.operands[n]);
        assert n !in d.operands[u];
        NothingRemoved(d.operands[u], n);
        assert Live(d.G(), u);
        found := d.EraseOperand(u, n);
        assert d.operands == g.operands[u := RemoveFirst(g.operands[u], n) + g.operands[n]];
      }
      NoUses(d.G(), d.uses, n);
    }
  }

  lemma EraseFacts(g: Graph, n: NodeId, u: NodeId)
    requires WellFormed(g) && MergesInto(g, n, u)
    ensures n in g.operands[u] && u !in g.sources
  {
    RemovedCount(g.operands[u], n);
  }

  lemma {:induction false} NothingRemoved(s: seq<NodeId>, n: NodeId)
    requires n !in s
    ensures RemoveFirst(s, n) == s
  {
  }

  lemma StillLive(g: Graph, n: NodeId, u: NodeId, r: Graph)
    requires WellFormed(g) && n < |g.operands| && u < |g.operands| && n != u
    requires r.operands == g.operands[u := RemoveFirst(g.operands[u], n)]
    requires r.sources == if RemoveFirst(g.operands[u], n) == [] then g.sources + {u} else g.sources
    ensures Live(r, u) && forall i: nat :: i < |g.operands[n]| ==> Live(r, g.operands[n][i])
  {
    forall i: nat | i < |g.operands[n]|
      ensures Live(r, g.operands[n][i])
    {
      assert Live(g, g.operands[n][i]);
    }
  }

  /** The visit merges n whenever it can be merged. */
  ghost predicate Visited(g: Graph, n: NodeId, r: Graph)
    requires n < |g.operands|
  {
    if Reducible(g, n) then exists u :: MergesInto(g, n, u) && r == Merged(g, n, u) else r == g
  }

  // ----- what later merges leave alone -----

  lemma MergedCount(g: Graph, n: NodeId, u: NodeId, x: NodeId)
    requires WellFormed(g) && MergesInto(g, n, u) && n !in g.operands[n]
    ensures x != n ==> Count(Merged(g, n, u).operands[u], x) == Count(g.operands[u], x) + Count(g.operands[n], x)
  {
    MergedShape(g, n, u);
    CountRemoveFirst(g.operands[u], n, x);
    CountAppend(RemoveFirst(g.operands[u], n), g.operands[n], x);
  }

  lemma NoSelf(g: Graph, x: NodeId)
    requires Acyclic(g) && x < |g.operands|
    ensures x !in g.operands[x]
  {
    var rank :| Ranked(g, rank);
    forall i: nat | i < |g.operands[x]|
      ensures g.operands[x][i] != x
    {
    }
  }

  /** A merge does not make other nodes reducible: a use by n turns into a use by u, of the same kind. */
  lemma ReducibleBefore(g: Graph, n: NodeId, u: NodeId, x: NodeId)
    requires WellFormed(g) && Acyclic(g) && MergesInto(g, n, u) && Reducible(Merged(g, n, u), x)
    ensures x != n && Reducible(g, x)
  {
    NoSelf(g, n);
    MergedShape(g, n, u);
    var r := Merged(g, n, u);
    var w :| MergesInto(r, x, w);
    RemovedCount(g.operands[u], n);
    EraseFacts(g, n, u);
    MergedCount(g, n, u, x);
    CountPositive(g.operands[u], x);
    CountPositive(g.operands[n], x);
    CountPositive(r.operands[u], x);
    if w != u {
      OtherUser(g, n, u, x, w);
    } else if Count(g.operands[n], x) == 0 {
      SameUser(g, n, u, x);
    } else {
      MergedUserBefore(g, n, u, x);
    }
  }

  lemma OtherUser(g: Graph, n: NodeId, u: NodeId, x: NodeId, w: NodeId)
    requires WellFormed(g) && MergesInto(g, n, u) && n !in g.operands[n] && n != u && n in g.operands[u]
    requires MergesInto(Merged(g, n, u), x, w) && w != u && x != n
    requires x in g.operands[u] || x in g.operands[n] ==> x in Merged(g, n, u).operands[u]
    ensures Reducible(g, x)
  {
    MergedShape(g, n, u);
    assert MergesInto(g, x, w);
  }

  lemma SameUser(g: Graph, n: NodeId, u: NodeId, x: NodeId)
    requires WellFormed(g) && MergesInto(g, n, u) && n !in g.operands[n] && n != u && n in g.operands[u]
    requires MergesInto(Merged(g, n, u), x, u) && x != n && x !in g.operands[n]
    requires Count(g.operands[u], x) == 1
    ensures Reducible(g, x)
  {
    MergedShape(g, n, u);
    assert MergesInto(g, x, u);
  }

  lemma MergedUserBefore(g: Graph, n: NodeId, u: NodeId, x: NodeId)
    requires WellFormed(g) && MergesInto(g, n, u) && n !in g.operands[n] && n != u && n in g.operands[u]
    requires MergesInto(Merged(g, n, u), x, u) && x != n && x !in g.operands[u] && Count(g.operands[n], x) == 1
    ensures Reducible(g, x)
  {
    MergedShape(g, n, u);
    assert MergesInto(g, x, n);
  }

  /** Nor does it keep another node from being merged later. */
  lemma ReducibleAfter(g: Graph, n: NodeId, u: NodeId, x: NodeId)
    requires WellFormed(g) && Acyclic(g) && MergesInto(g, n, u) && Reducible(g, x) && x != n
    ensures Reducible(Merged(g, n, u), x)
  {
    NoSelf(g, n);
    MergedShape(g, n, u);
    var r := Merged(g, n, u);
    var v :| MergesInto(g, x, v);
    RemovedCount(g.operands[u], n);
    EraseFacts(g, n, u);
    MergedCount(g, n, u, x);
    CountPositive(g.operands[u], x);
    CountPositive(g.operands[n], x);
    CountPositive(r.operands[u], x);
    hide Acyclic, WellFormed;
    if v == n {
      assert MergesInto(r, x, u);
    } else {
      assert MergesInto(r, x, v);
    }
  }

  // ----- flattening -----

  function Together(args: seq<multiset<NodeId>>): multiset<NodeId>
  {
    if args == [] then multiset{} else args[0] + Together(args[1..])
  }

  /** What a node hands on to those that use it: itself, or, if it will be merged, all that it has been handed. */
  ghost function FlatSem(g: Graph): (NodeId, Op, seq<multiset<NodeId>>) -> multiset<NodeId>
  {
    (n: NodeId, op: Op, args: seq<multiset<NodeId>>) => if Reducible(g, n) then Together(args) else multiset{n}
  }

  /** All that the nodes of s hand on. */
  function FlatOf(w: seq<multiset<NodeId>>, s: seq<NodeId>): multiset<NodeId>
  {
    if s == [] then multiset{} else (if s[0] < |w| then w[s[0]] else multiset{}) + FlatOf(w, s[1..])
  }

  lemma {:induction false} TogetherIsFlat(w: seq<multiset<NodeId>>, s: seq<NodeId>, args: seq<multiset<NodeId>>)
    requires |args| == |s| && forall i: nat :: i < |s| ==> s[i] < |w| && args[i] == w[s[i]]
    ensures Together(args) == FlatOf(w, s)
  {
    if s != [] {
      TogetherIsFlat(w, s[1..], args[1..]);
    }
  }

  lemma {:induction false} FlatAppend(w: seq<multiset<NodeId>>, s: seq<NodeId>, t: seq<NodeId>)
    ensures FlatOf(w, s + t) == FlatOf(w, s) + FlatOf(w, t)
  {
    if s == [] {
      assert s + t == t;
    } else {
      assert (s + t)[1..] == s[1..] + t;
      FlatAppend(w, s[1..], t);
    }
  }

  lemma {:induction false} FlatRemoved(w: seq<multiset<NodeId>>, s: seq<NodeId>, n: NodeId)
    requires n in s && n < |w|
    ensures FlatOf(w, s) == w[n] + FlatOf(w, RemoveFirst(s, n))
  {
    if s[0] != n {
      FlatRemoved(w, s[1..], n);
      assert ([s[0]] + RemoveFirst(s[1..], n))[1..] == RemoveFirst(s[1..], n);
    }
  }

  lemma {:induction false} FlatSingles(w: seq<multiset<NodeId>>, s: seq<NodeId>)
    requires forall i: nat :: i < |s| ==> s[i] < |w| && w[s[i]] == multiset{s[i]}
    ensures FlatOf(w, s) == multiset(s)
  {
    if s != [] {
      assert s == [s[0]] + s[1..];
      FlatSingles(w, s[1..]);
    }
  }

  /** During the pass: what is handed to a node stays the same, and what could be merged still can or has been. */
  ghost predicate FlatInv(g0: Graph, w: seq<multiset<NodeId>>, g: Graph)
  {
    && Interprets(g0, FlatSem(g0), w) && |g.operands| == |g0.operands|
    && (forall p: NodeId :: Live(g, p) ==> Live(g0, p) && FlatOf(w, g.operands[p]) == FlatOf(w, g0.operands[p]))
    && (forall p: NodeId :: Live(g0, p) && !Live(g, p) ==> Reducible(g0, p))
    && forall p: NodeId :: Live(g, p) ==> (Reducible(g, p) <==> Reducible(g0, p))
  }

  lemma HandsOn(g0: Graph, w: seq<multiset<NodeId>>, n: NodeId)
    requires Interprets(g0, FlatSem(g0), w) && Live(g0, n)
    ensures n < |w| == |g0.operands| == |g0.op|
    ensures w[n] == if Reducible(g0, n) then FlatOf(w, g0.operands[n]) else multiset{n}
  {
    hide Reducible;
    forall i: nat | i < |g0.operands[n]|
      ensures g0.operands[n][i] < |w|
    {
      assert Live(g0, g0.operands[n][i]);
    }
    TogetherIsFlat(w, g0.operands[n], Args(g0, w, n));
    assert w[n] == FlatSem(g0)(n, g0.op[n], Args(g0, w, n));
  }

  lemma MergedHands(g0: Graph, w: seq<multiset<NodeId>>, g: Graph, n: NodeId, u: NodeId)
    requires WellFormed(g) && Acyclic(g) && MergesInto(g, n, u) && FlatInv(g0, w, g)
    ensures |Merged(g, n, u).operands| == |g.operands| && u < |g.operands| && n < |g.operands|
    ensures FlatOf(w, Merged(g, n, u).operands[u]) == FlatOf(w, g.operands[u])
    ensures Live(g, n) && Live(g, u) && Reducible(g0, n)
  {
    hide Interprets, Reducible;
    NoSelf(g, n);
    MergedShape(g, n, u);
    EraseFacts(g, n, u);
    assert Reducible(g, n) by { MergeIsReducible(g, n, u); }
    assert Live(g, n) && Live(g, u);
    hide FlatOf;
    HandsOn(g0, w, n);
    FlatRemoved(w, g.operands[u], n);
    FlatAppend(w, RemoveFirst(g.operands[u], n), g.operands[n]);
  }

  lemma MergedFlat(g0: Graph, w: seq<multiset<NodeId>>, g: Graph, n: NodeId, u: NodeId)
    requires WellFormed(g) && Acyclic(g) && MergesInto(g, n, u) && FlatInv(g0, w, g)
    ensures FlatInv(g0, w, Merged(g, n, u))
  {
    hide Interprets, Reducible, FlatOf;
    var r := Merged(g, n, u);
    NoSelf(g, n);
    MergedShape(g, n, u);
    MergedWellFormed(g, n, u);
    MergedHands(g0, w, g, n, u);
    hide Merged, MergesInto, WellFormed, Acyclic, Live, RemoveFirst;
    forall p: NodeId | Live(r, p)
      ensures Live(g0, p) && FlatOf(w, r.operands[p]) == FlatOf(w, g0.operands[p])
      ensures Reducible(r, p) <==> Reducible(g0, p)
    {
      assert Live(g, p) && p != n;
      ReducibleBoth(g, n, u, p);
    }
  }

  lemma MergeIsReducible(g: Graph, n: NodeId, u: NodeId)
    requires MergesInto(g, n, u)
    ensures Reducible(g, n) && n < |g.operands| && u < |g.operands| && g.operands[n] != [] && g.operands[u] != []
  {
    CountPositive(g.operands[u], n);
  }

  lemma ReducibleBoth(g: Graph, n: NodeId, u: NodeId, x: NodeId)
    requires WellFormed(g) && Acyclic(g) && MergesInto(g, n, u) && x != n
    ensures Reducible(Merged(g, n, u), x) <==> Reducible(g, x)
  {
    ReducibleOnlyBefore(g, n, u, x);
    if Reducible(g, x) {
      ReducibleAfter(g, n, u, x);
    }
  }

  /** Exactly the nodes that can be merged are gone, and every other has exactly the operands that reach it
      through them. */
  ghost predicate MergedAll(g0: Graph, g: Graph)
  {
    && |g.operands| == |g0.operands| && (forall p: NodeId :: Live(g, p) <==> Live(g0, p) && !Reducible(g0, p))
    && exists w: seq<multiset<NodeId>> :: Interprets(g0, FlatSem(g0), w)
         && forall p: NodeId :: Live(g, p) ==> multiset(g.operands[p]) == FlatOf(w, g0.operands[p])
  }

  lemma AllMerged(g0: Graph, w: seq<multiset<NodeId>>, g: Graph)
    requires WellFormed(g) && FlatInv(g0, w, g) && forall p: NodeId :: Live(g, p) ==> !Reducible(g, p)
    ensures MergedAll(g0, g)
  {
    hide Interprets, Reducible;
    forall p: NodeId | Live(g, p)
      ensures multiset(g.operands[p]) == FlatOf(w, g0.operands[p])
    {
      forall i: nat | i < |g.operands[p]|
        ensures g.operands[p][i] < |w| && w[g.operands[p][i]] == multiset{g.operands[p][i]}
      {
        assert Live(g, g.operands[p][i]);
        HandsOn(g0, w, g.operands[p][i]);
      }
      FlatSingles(w, g.operands[p]);
    }
  }

  /** Sources have no operands, additions and multiplications at least two. */
  ghost predicate WideArity(g: Graph)
  {
    && |g.op| == |g.operands|
    && forall n: NodeId :: Live(g, n) ==> WideAt(g, n)
  }

  ghost predicate WideAt(g: Graph, n: NodeId)
    requires n < |g.op| && n < |g.operands|
  {
    if IsSourceOp(g.op[n]) then g.operands[n] == []
    else if IsReductionOp(g.op[n]) then |g.operands[n]| >= 2
    else |g.operands[n]| == if g.op[n].Sub? then 2 else 1
  }

  lemma {:induction false} RemovedLength(s: seq<NodeId>, n: NodeId)
    requires n in s
    ensures |RemoveFirst(s, n)| == |s| - 1
  {
  }

  lemma MergedWide(g: Graph, n: NodeId, u: NodeId)
    requires WellFormed(g) && MergesInto(g, n, u) && n !in g.operands[n] && WideArity(g)
    ensures WideArity(Merged(g, n, u))
  {
    MergedShape(g, n, u);
    MergedWellFormed(g, n, u);
    RemovedCount(g.operands[u], n);
    RemovedLength(g.operands[u], n);
    assert Live(g, n) && Live(g, u);
    assert WideAt(g, n) && WideAt(g, u);
    var r := Merged(g, n, u);
    forall w: NodeId | Live(r, w)
      ensures WideAt(r, w)
    {
      assert Live(g, w) && WideAt(g, w);
    }
  }

  lemma MergedUsed(g: Graph, n: NodeId, u: NodeId, m: NodeId)
    requires WellFormed(g) && MergesInto(g, n, u) && n !in g.operands[n] && IsUsed(g, m) && m != n
    ensures IsUsed(Merged(g, n, u), m)
  {
    MergedShape(g, n, u);
    var r := Merged(g, n, u);
    var w: NodeId :| w < |g.operands| && m in g.operands[w];
    if w == n || w == u {
      MergedCount(g, n, u, m);
      CountPositive(g.operands[w], m);
      CountPositive(r.operands[u], m);
      assert m in r.operands[u];
    } else {
      assert m in r.operands[w];
    }
  }

  lemma UsedBeforeMerge(g: Graph, n: NodeId, u: NodeId, m: NodeId)
    requires WellFormed(g) && MergesInto(g, n, u) && n !in g.operands[n] && IsUsed(Merged(g, n, u), m)
    ensures IsUsed(g, m)
  {
    MergedShape(g, n, u);
    var w, i := UserOf(Merged(g, n, u), m);
    if w == u {
      MergedMembers(g, n, u, m);
    }
  }

  lemma MergedAlone(g: Graph, n: NodeId, u: NodeId)
    requires WellFormed(g) && MergesInto(g, n, u) && n !in g.operands[n]
    ensures AloneKept(g, Merged(g, n, u))
  {
    var r := Merged(g, n, u);
    MergedShape(g, n, u);
    if OutputsAlone(g) {
      forall o: NodeId, w: NodeId, p: NodeId | OutputUses(r, o, p) && w < |r.operands| && p in r.operands[w]
        ensures w == o
      {
        assert o != n && o != u && OutputUses(g, o, p);
        if w == u {
          MergedMembers(g, n, u, p);
        }
        assert w != u ==> p in g.operands[w];
      }
    }
  }

  lemma MergedLocal(g: Graph, n: NodeId, u: NodeId, processed: set<NodeId>)
    requires WellFormed(g) && MergesInto(g, n, u) && n !in g.operands[n]
    ensures LocalRewrite(g, Merged(g, n, u), processed, n, {})
  {
    MergedShape(g, n, u);
    EraseFacts(g, n, u);
  }

  // ----- the pass -----

  ghost predicate ReduceInv(size: nat, g0: Graph, g: Graph, processed: set<NodeId>)
  {
    && Acyclic(g) && WideArity(g) && Refines(size, g0, g)
    && g.op == g0.op && |g.operands| == |g0.operands| && g.sources == g0.sources
    && (forall p: NodeId :: p in processed && Live(g, p) ==> !Reducible(g, p))
    && (forall m: NodeId :: Live(g, m) ==> Live(g0, m))
    && (forall m: NodeId :: Live(g, m) && IsUsed(g0, m) ==> IsUsed(g, m))
    && (forall m: NodeId :: IsUsed(g, m) ==> IsUsed(g0, m)) && AloneKept(g0, g)
    && (forall m: NodeId :: Live(g0, m) && !IsReductionOp(g0.op[m]) ==> Live(g, m) && g.operands[m] == g0.operands[m])
  }

  lemma ReduceStart(size: nat, g: Graph)
    requires Acyclic(g) && WideArity(g)
    ensures ReduceInv(size, g, g, {})
  {
    RefinesReflexive(size, g);
  }

  lemma MergedInv(size: nat, g0: Graph, g: Graph, processed: set<NodeId>, n: NodeId, u: NodeId)
    requires WellFormed(g) && ReduceInv(size, g0, g, processed) && MergesInto(g, n, u)
    ensures ReduceInv(size, g0, Merged(g, n, u), processed + {n})
  {
    hide OutputsAlone, Refines, WideArity, IsUsed, Reducible;
    var r := Merged(g, n, u);
    NoSelf(g, n);
    var rank :| Ranked(g, rank);
    MergedAcyclic(g, n, u, rank);
    MergedWide(g, n, u);
    MergedRefines(size, g, n, u);
    RefinesTransitive(size, g0, g, r);
    MergedShape(g, n, u);
    MergedWellFormed(g, n, u);
    MergedAlone(g, n, u);
    hide Acyclic, MergesInto, Merged, Live;
    forall p: NodeId | p in processed + {n} && Live(r, p)
      ensures !Reducible(r, p)
    {
      MergedNotReducible(size, g0, g, processed, n, u, p);
    }
    forall m: NodeId | Live(r, m) && IsUsed(g0, m)
      ensures IsUsed(r, m)
    {
      MergedUsed(g, n, u, m);
    }
    forall m: NodeId | IsUsed(r, m)
      ensures IsUsed(g, m)
    {
      UsedBeforeMerge(g, n, u, m);
    }
    forall m: NodeId | Live(g0, m) && !IsReductionOp(g0.op[m])
      ensures Live(r, m) && r.operands[m] == g0.operands[m]
    {
      MergedKinds(g, n, u);
    }
  }

  lemma MergedKinds(g: Graph, n: NodeId, u: NodeId)
    requires MergesInto(g, n, u)
    ensures n < |g.op| && u < |g.op| && IsReductionOp(g.op[n]) && IsReductionOp(g.op[u])
  {
  }

  lemma MergedNotReducible(size: nat, g0: Graph, g: Graph, processed: set<NodeId>, n: NodeId, u: NodeId, p: NodeId)
    requires WellFormed(g) && ReduceInv(size, g0, g, processed) && MergesInto(g, n, u) && p in processed + {n}
    requires Live(Merged(g, n, u), p)
    ensures !Reducible(Merged(g, n, u), p)
  {
    NoSelf(g, n);
    MergedWellFormed(g, n, u);
    ReducibleOnlyBefore(g, n, u, p);
    assert p in processed && Live(g, p);
  }

  lemma ReducibleOnlyBefore(g: Graph, n: NodeId, u: NodeId, x: NodeId)
    requires WellFormed(g) && Acyclic(g) && MergesInto(g, n, u)
    ensures Reducible(Merged(g, n, u), x) ==> x != n && Reducible(g, x)
  {
    if Reducible(Merged(g, n, u), x) {
      ReducibleBefore(g, n, u, x);
    }
  }

  lemma KeptInv(size: nat, g0: Graph, g: Graph, processed: set<NodeId>, n: NodeId)
    requires ReduceInv(size, g0, g, processed) && !Reducible(g, n)
    ensures ReduceInv(size, g0, g, processed + {n})
  {
  }

  lemma VisitKeeps(size: nat, g0: Graph, g: Graph, processed: set<NodeId>, n: NodeId, r: Graph)
    requires WellFormed(g) && ReduceInv(size, g0, g, processed) && n < |g.operands| && n !in processed
      && Visited(g, n, r)
    ensures ReduceInv(size, g0, r, processed + {n}) && LocalRewrite(g, r, processed, n, {})
    ensures |r.operands| == |g.operands|
  {
    hide LocalRewrite, ReduceInv;
    if Reducible(g, n) {
      var u :| MergesInto(g, n, u) && r == Merged(g, n, u);
      MergedInv(size, g0, g, processed, n, u);
      InvAcyclic(size, g0, g, processed);
      NoSelf(g, n);
      MergedLocal(g, n, u, processed);
    } else {
      KeptInv(size, g0, g, processed, n);
      SameLocal(g, processed, n);
    }
  }

  lemma InvAcyclic(size: nat, g0: Graph, g: Graph, processed: set<NodeId>)
    requires ReduceInv(size, g0, g, processed)
    ensures Acyclic(g) && |g.operands| == |g0.operands|
  {
  }

  lemma SameLocal(g: Graph, processed: set<NodeId>, n: NodeId)
    ensures LocalRewrite(g, g, processed, n, {})
  {
  }

  method ReduceStep(d: Dag, h: Reduction, t: DagTraversal, ghost g0: Graph, ghost w: seq<multiset<NodeId>>,
                    ghost stored: map<NodeId, nat>, ghost keys: Keys, ghost size: nat)
    returns (n: NodeId)
    requires d.Valid() && t.Consistent({}) && t.work != []
    requires ReduceInv(size, g0, d.G(), t.processed) && FlatInv(g0, w, d.G()) && KeysOf(d.G(), stored, keys)
    requires FwdInv(d.G(), t.ready, t.processed, Elems(t.work), {})
    modifies d, t
    ensures d.Valid() && t.Consistent({})
    ensures ReduceInv(size, g0, d.G(), t.processed) && FlatInv(g0, w, d.G()) && KeysOf(d.G(), stored, keys)
    ensures FwdInv(d.G(), t.ready, t.processed, Elems(t.work), {})
    ensures n < |g0.operands| && n !in old(t.processed) && t.processed == old(t.processed) + {n}
  {
    hide ReduceInv, FwdInv, Frontier, WellFormed, UsesInverse, SinksMatch, LocalRewrite, Unblocked, Live, Erased,
         Acyclic, Visited, FlatInv, KeysOf;
    ghost var g, processed := d.G(), t.processed;
    FwdPop(g, t.ready, t.processed, t.work, {});
    n := t.Pop({});
    InvAcyclic(size, g0, g, processed);
    Rescaling.UsersOf(g, d.uses, n);
    var cands := d.uses[n];
    h.Visit(d, n);
    VisitKeeps(size, g0, g, processed, n, d.G());
    VisitFlat(g0, w, g, stored, keys, n, d.G());
    FwdFinish(d, t, n, cands, g, processed, {}, {});
  }

  /** What the pass leaves: no addition or multiplication whose only use is of its own kind. */
  ghost predicate Reduced(g0: Graph, g: Graph)
  {
    && g.op == g0.op && |g0.op| == |g.operands| == |g0.operands| && g.sources == g0.sources
    && (forall p: NodeId :: Live(g, p) ==> Live(g0, p) && !Reducible(g, p) && (IsUsed(g0, p) ==> IsUsed(g, p)))
    && (forall m: NodeId :: IsUsed(g, m) ==> IsUsed(g0, m)) && AloneKept(g0, g)
    && (forall m: NodeId :: Live(g0, m) && !IsReductionOp(g0.op[m]) ==> Live(g, m) && g.operands[m] == g0.operands[m])
  }

  lemma FlatStart(g: Graph) returns (w: seq<multiset<NodeId>>)
    requires WellFormed(g) && Acyclic(g)
    ensures FlatInv(g, w, g)
  {
    w := InterpretationExists<multiset<NodeId>>(g, FlatSem(g));
  }

  lemma VisitFlat(g0: Graph, w: seq<multiset<NodeId>>, g: Graph, stored: map<NodeId, nat>, keys: Keys, n: NodeId,
                  r: Graph)
    requires WellFormed(g) && Acyclic(g) && FlatInv(g0, w, g) && KeysOf(g, stored, keys)
    requires n < |g.operands| && Visited(g, n, r)
    ensures FlatInv(g0, w, r) && KeysOf(r, stored, keys)
  {
    hide FlatInv, Reducible, Regroups, Interprets;
    if Reducible(g, n) {
      var u :| MergesInto(g, n, u) && r == Merged(g, n, u);
      MergedFlat(g0, w, g, n, u);
      NoSelf(g, n);
      FlagsRegroup(g.op[n]);
      ScalesRegroup(stored, g.op[n]);
      MergedInterprets<bool>(g, CipherSem(), keys.encrypted, n, u);
      MergedInterprets<nat>(g, ScaleSem(stored), keys.scale, n, u);
    }
  }

  lemma ReduceEnd(size: nat, g0: Graph, g: Graph, processed: set<NodeId>)
    requires WellFormed(g) && ReduceInv(size, g0, g, processed) && FwdInv(g, processed, processed, {}, {})
      && |g0.op| == |g0.operands|
    ensures Acyclic(g) && WideArity(g) && Refines(size, g0, g) && Reduced(g0, g)
    ensures forall p: NodeId :: Live(g, p) ==> !Reducible(g, p)
  {
    hide Reducible, IsUsed, Refines, WideArity;
    var rank :| Ranked(g, rank);
    forall p: NodeId | Live(g, p)
      ensures p in processed
    {
      FwdEnd(g, rank, processed, {}, p);
    }
  }

  /** The forward pass of Reduction; keys tell encryption and scale of every node, before and after. */
  method ReduceNodes(d: Dag, ghost size: nat, ghost stored: map<NodeId, nat>, ghost keys: Keys)
    requires d.Valid() && Acyclic(d.G()) && WideArity(d.G()) && KeysOf(d.G(), stored, keys)
    modifies d
    ensures d.Valid() && Acyclic(d.G()) && WideArity(d.G())
    ensures Refines(size, old(d.G()), d.G()) && Reduced(old(d.G()), d.G()) && MergedAll(old(d.G()), d.G())
    ensures KeysOf(d.G(), stored, keys)
  {
    ghost var g0 := d.G();
    ReduceStart(size, g0);
    FwdStart(g0, d.sources);
    ghost var w := FlatStart(g0);
    hide ReduceInv, FwdInv, FlatInv, Reduced, WideArity, Acyclic, Refines, UsesInverse, SinksMatch, Erased, MergedAll,
         KeysOf;
    var h := new Reduction();
    var t := new DagTraversal();
    t.Begin(d.sources);
    while t.work != []
      invariant d.Valid() && t.Consistent({})
      invariant ReduceInv(size, g0, d.G(), t.processed) && FlatInv(g0, w, d.G()) && KeysOf(d.G(), stored, keys)
      invariant FwdInv(d.G(), t.ready, t.processed, Elems(t.work), {})
      decreases AllNodes(g0) - t.processed
    {
      hide *;
      var n := ReduceStep(d, h, t, g0, w, stored, keys, size);
      InAllNodes(g0, n);
    }
    assert Elems(t.work) == {} && t.ready == t.processed;
    ReduceEnd(size, g0, d.G(), t.processed);
    AllMerged(g0, w, d.G());
  }
}
