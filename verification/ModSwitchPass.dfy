/** The whole backward mod-switch pass: levels along edges, values and acyclicity. */
module ModSwitchPass {
  import opened Graphs
  import opened Dags
  import opened Traversals
  import opened Semantics
  import opened Threads
  import opened Chains
  import opened Sizes
  import opened Usage
  import opened Types
  import opened ModSwitchSpec
  import opened ModSwitchers

  // ----- meaning and acyclicity of one visit -----

  lemma SwitchedInterprets<T(!new)>(g: Graph, sem: (NodeId, Op, seq<T>) -> T, v: seq<T>, n: NodeId, level: LevelMap,
                                    low: nat, top: nat, r: Graph)
    returns (w: seq<T>)
    requires Interprets(g, sem, v) && Live(g, n) && PassesThrough(sem, ModSwitch)
    requires Switched(r, g, n, level, low, top) && WellFormed(r)
    ensures Interprets(r, sem, w) && v <= w
  {
    w := v + seq(top - low, i => v[n]);
    assert v[n] == sem(n, g.op[n], Args(g, v, n));
    forall u: NodeId | Live(r, u)
      ensures w[u] == sem(u, r.op[u], Args(r, w, u))
    {
      if u < |g.operands| {
        SwitchedArgs(g, v, w, n, level, low, top, r, u);
      } else {
        assert Args(r, w, u) == [v[n]];
      }
    }
  }

  lemma SwitchedArgs<T(!new)>(g: Graph, v: seq<T>, w: seq<T>, n: NodeId, level: LevelMap,
                              low: nat, top: nat, r: Graph, u: NodeId)
    requires WellFormed(g) && WellFormed(r) && n < |g.operands| && u < |g.operands|
    requires Switched(r, g, n, level, low, top)
    requires |v| == |g.operands| && |w| == |r.operands| && v <= w
    requires forall x: NodeId :: |v| <= x < |w| ==> w[x] == v[n]
    ensures Live(r, u) <==> Live(g, u)
    ensures Args(r, w, u) == Args(g, v, u)
  {
    forall i: nat | i < |g.operands[u]|
      ensures w[r.operands[u][i]] == v[g.operands[u][i]]
    {
      if u in Users(g, n) {
        assert r.operands[u][i] == if g.operands[u][i] == n then Target(g, n, level, top, u) else g.operands[u][i];
      }
    }
  }

  lemma SwitchedRefines(size: nat, g: Graph, n: NodeId, level: LevelMap, low: nat, top: nat, r: Graph)
    requires WellFormed(g) && WellFormed(r) && Live(g, n) && Switched(r, g, n, level, low, top)
    ensures Refines(size, g, r)
  {
    forall env
      ensures Extends(g, r, SlotSem(size, env))
    {
      TransparentSlots(size, env, ModSwitch);
      SwitchedExtends(g, SlotSem(size, env), n, level, low, top, r);
    }
    TransparentCipher(ModSwitch);
    SwitchedExtends(g, CipherSem(), n, level, low, top, r);
    forall u: NodeId | u < |g.op| && Live(g, u)
      ensures Live(r, u)
    {
      assert |r.operands[u]| == |g.operands[u]|;
    }
  }

  lemma SwitchedExtends<T(!new)>(g: Graph, sem: (NodeId, Op, seq<T>) -> T, n: NodeId, level: LevelMap,
                                 low: nat, top: nat, r: Graph)
    requires Live(g, n) && PassesThrough(sem, ModSwitch)
    requires Switched(r, g, n, level, low, top) && WellFormed(r)
    ensures Extends(g, r, sem)
  {
    forall v | Interprets(g, sem, v)
      ensures exists w :: Interprets(r, sem, w) && v <= w
    {
      var w := SwitchedInterprets(g, sem, v, n, level, low, top, r);
    }
  }

  /** Ranks spread out far enough for a chain of the given length above `at`. */
  ghost function Spread(rank: seq<nat>, at: nat, length: nat): (r: seq<nat>)
    ensures |r| == |rank| + length
    ensures forall i: nat :: i < |rank| ==> r[i] == rank[i] * (length + 1)
    ensures forall i: nat :: |rank| <= i < |r| ==> r[i] == at * (length + 1) + (i - |rank|) + 1
  {
    seq(|rank|, i requires 0 <= i < |rank| => rank[i] * (length + 1))
    + seq(length, i requires 0 <= i < length => at * (length + 1) + i + 1)
  }

  lemma SpreadGap(a: nat, b: nat, k: nat)
    requires a < b
    ensures a * (k + 1) + k < b * (k + 1)
  {
    assert (a + 1) * (k + 1) <= b * (k + 1);
    assert (a + 1) * (k + 1) == a * (k + 1) + k + 1;
  }

  lemma SwitchedRanked(g: Graph, rank: seq<nat>, n: NodeId, level: LevelMap, low: nat, top: nat, r: Graph)
    requires Ranked(g, rank) && n < |g.operands| && Switched(r, g, n, level, low, top)
    ensures Ranked(r, Spread(rank, rank[n], top - low))
  {
    var k := top - low;
    var rank' := Spread(rank, rank[n], k);
    forall u: NodeId, i: nat | u < |r.operands| && i < |r.operands[u]|
      ensures r.operands[u][i] < |rank'| && rank'[r.operands[u][i]] < rank'[u]
    {
      if u < |g.operands| {
        var p := g.operands[u][i];
        SpreadGap(rank[p], rank[u], k);
        if u in Users(g, n) {
          assert r.operands[u][i] == if p == n then Target(g, n, level, top, u) else p;
        }
      }
    }
  }

  // ----- levels -----

  predicate Settled(old': nat, processed: set<NodeId>, p: NodeId)
  {
    p in processed || p >= old'
  }

  /** The use u of p sits at the level p leaves: one less when p itself consumes a prime. */
  ghost predicate EdgeLevel(g: Graph, level: LevelMap, u: NodeId, p: NodeId)
    requires p < |g.op|
  {
    LevelAt(level, u) + Consumes(g.op[p]) == LevelAt(level, p)
  }

  ghost predicate SettledEdges(g0: Graph, types: TypeMap, g: Graph, level: LevelMap, processed: set<NodeId>)
    requires |g.op| == |g.operands| && WellFormed(g)
  {
    forall u: NodeId, i: nat :: u < |g.operands| && i < |g.operands[u]| ==>
      var p := g.operands[u][i];
      Settled(|g0.operands|, processed, p) && TypeAt(types, p) != Raw ==>
        Settled(|g0.operands|, processed, u) && EdgeLevel(g, level, u, p)
  }

  /** What stays true between visits. */
  ghost predicate Growth(g0: Graph, g: Graph, processed: set<NodeId>)
  {
    && |g0.operands| <= |g.operands| && g0.op <= g.op && |g.op| == |g.operands| && |g0.op| == |g0.operands|
    && g.sources == g0.sources
    && (forall x: NodeId :: |g0.operands| <= x < |g.op| ==> g.op[x] == ModSwitch)
    && (forall u: NodeId :: u < |g0.operands| && u !in processed ==> g.operands[u] == g0.operands[u])
    && (forall u: NodeId :: u < |g0.operands| ==> |g.operands[u]| == |g0.operands[u]|)
  }

  lemma GrowthStep(g0: Graph, g: Graph, processed: set<NodeId>, n: NodeId, level: LevelMap, low: nat, top: nat,
                   r: Graph)
    requires Growth(g0, g, processed) && n < |g0.operands|
    requires Switched(r, g, n, level, low, top)
    requires forall u: NodeId :: u in Users(g, n) ==> Settled(|g0.operands|, processed, u)
    ensures Growth(g0, r, processed + {n})
  {
  }

  lemma OldEdgesStep(g0: Graph, types: TypeMap, g: Graph, level: LevelMap, processed: set<NodeId>,
                     n: NodeId, low: nat, top: nat, r: Graph, level': LevelMap, u: NodeId, i: nat)
    requires WellFormed(g) && WellFormed(r) && Growth(g0, g, processed)
    requires SettledEdges(g0, types, g, level, processed)
    requires n < |g0.operands| && n !in processed && !g0.op[n].ModSwitch?
    requires forall w: NodeId :: w in Users(g, n) ==> Settled(|g0.operands|, processed, w)
    requires Switched(r, g, n, level, low, top) && VisitLevels(level', level, g, n, low, top)
    requires u < |g.operands| && u < |r.operands| && i < |r.operands[u]|
    requires Settled(|g0.operands|, processed + {n}, r.operands[u][i]) && TypeAt(types, r.operands[u][i]) != Raw
    ensures Settled(|g0.operands|, processed + {n}, u) && EdgeLevel(r, level', u, r.operands[u][i])
  {
    var q := g.operands[u][i];
    assert Live(g, q);
    hide Growth;
    if q == n {
      assert u in Users(g, n);
      assert u != n;
      assert r.operands[u][i] == Target(g, n, level, top, u);
    } else {
      hide Target, Users;
      assert r.operands[u][i] == q;
      assert Settled(|g0.operands|, processed, q);
      assert u != n;
    }
  }

  lemma EdgesStep(g0: Graph, types: TypeMap, g: Graph, level: LevelMap, processed: set<NodeId>,
                  n: NodeId, low: nat, top: nat, r: Graph, level': LevelMap, u: NodeId, i: nat)
    requires WellFormed(g) && WellFormed(r) && Growth(g0, g, processed)
    requires SettledEdges(g0, types, g, level, processed)
    requires n < |g0.operands| && n !in processed && !g0.op[n].ModSwitch?
    requires forall w: NodeId :: w in Users(g, n) ==> Settled(|g0.operands|, processed, w)
    requires Switched(r, g, n, level, low, top) && VisitLevels(level', level, g, n, low, top)
    requires u < |r.operands| && i < |r.operands[u]|
    requires Settled(|g0.operands|, processed + {n}, r.operands[u][i]) && TypeAt(types, r.operands[u][i]) != Raw
    ensures Settled(|g0.operands|, processed + {n}, u) && EdgeLevel(r, level', u, r.operands[u][i])
  {
    if u < |g.operands| {
      OldEdgesStep(g0, types, g, level, processed, n, low, top, r, level', u, i);
    }
  }

  lemma UsersKept(g: Graph, n: NodeId, level: LevelMap, low: nat, top: nat, r: Graph, p: NodeId, u: NodeId)
    requires WellFormed(g) && n < |g.operands| && p < |g.operands| && p != n
    requires Switched(r, g, n, level, low, top)
    ensures u in Users(r, p) <==> u in Users(g, p)
  {
    if u < |g.operands| && u in Users(g, n) {
      SubstMembers(g.operands[u], n, Target(g, n, level, top, u), p);
    }
  }

  lemma TopUserKept(g: Graph, n: NodeId, level: LevelMap, low: nat, top: nat, r: Graph, u: NodeId)
    requires Switched(r, g, n, level, low, top) && u in Users(g, n) && LevelAt(level, u) == top
    ensures u in Users(r, n)
  {
    SubstMembers(g.operands[u], n, n, n);
  }

  lemma ChainUsed(g: Graph, n: NodeId, level: LevelMap, low: nat, top: nat, r: Graph, x: NodeId)
    requires n < |g.operands| && Switched(r, g, n, level, low, top) && Extremes(g, n, level, low, top)
    requires |g.operands| <= x < |r.operands|
    ensures Users(r, x) != {}
  {
    if x + 1 < |r.operands| {
      assert r.operands[x + 1] == [x];
      UserIs(r, x, x + 1);
    } else {
      var u: NodeId :| u in Users(g, n) && LevelAt(level, u) == low;
      SubstMembers(g.operands[u], n, x, x);
      assert Target(g, n, level, top, u) == x;
      UserIs(r, x, u);
    }
  }

  lemma UserIs(g: Graph, x: NodeId, u: NodeId)
    requires u < |g.operands| && x in g.operands[u]
    ensures u in Users(g, x)
  {
  }

  ghost predicate Untouched(g0: Graph, types: TypeMap, g: Graph, processed: set<NodeId>, p: NodeId)
  {
    !Settled(|g0.operands|, processed, p) || Users(g, p) == {} || TypeAt(types, p) == Raw
  }

  /** Nodes not visited, without uses, or raw are at level zero; every inserted node is used. */
  ghost predicate ZeroLevels(g0: Graph, types: TypeMap, g: Graph, level: LevelMap, processed: set<NodeId>)
  {
    && (forall p: NodeId :: p in level ==> p < |g.operands|)
    && (forall p: NodeId :: p < |g.operands| && Untouched(g0, types, g, processed, p) ==> LevelAt(level, p) == 0)
    && (forall x: NodeId :: |g0.operands| <= x < |g.operands| ==> Users(g, x) != {})
  }

  /** A visited node keeps a direct, that is not mod-switched, use at its level. */
  ghost predicate DirectUses(g0: Graph, types: TypeMap, g: Graph, level: LevelMap, processed: set<NodeId>)
    requires |g.op| == |g.operands|
  {
    forall p: NodeId ::
      p in processed && p < |g0.operands| && p < |g.operands| && Users(g, p) != {} && TypeAt(types, p) != Raw ==>
        exists u: NodeId :: u in Users(g, p) && u < |g0.operands| && EdgeLevel(g, level, u, p)
  }

  lemma ZeroStep(g0: Graph, types: TypeMap, g: Graph, level: LevelMap, processed: set<NodeId>,
                 n: NodeId, low: nat, top: nat, r: Graph, level': LevelMap)
    requires WellFormed(g) && Growth(g0, g, processed)
    requires ZeroLevels(g0, types, g, level, processed)
    requires n < |g0.operands| && TypeAt(types, n) != Raw
    requires forall x: NodeId :: |g0.operands| <= x ==> TypeAt(types, x) != Raw
    requires Switched(r, g, n, level, low, top) && Extremes(g, n, level, low, top)
    requires VisitLevels(level', level, g, n, low, top)
    requires forall p: NodeId :: p in level' ==> p < |r.operands|
    ensures ZeroLevels(g0, types, r, level', processed + {n})
  {
    forall x: NodeId | |g0.operands| <= x < |r.operands|
      ensures Users(r, x) != {}
    {
      if x < |g.operands| {
        var u :| u in Users(g, x);
        UsersKept(g, n, level, low, top, r, x, u);
      } else {
        ChainUsed(g, n, level, low, top, r, x);
      }
    }
    forall p: NodeId | p < |r.operands| && Untouched(g0, types, r, processed + {n}, p)
      ensures LevelAt(level', p) == 0
    {
      if p == n {
        var u: NodeId :| u in Users(g, n) && LevelAt(level, u) == top;
        TopUserKept(g, n, level, low, top, r, u);
        assert false;
      } else if p < |g.operands| {
        if Users(r, p) == {} {
          forall u: NodeId ensures u !in Users(g, p) { UsersKept(g, n, level, low, top, r, p, u); }
          assert Users(g, p) == {};
        }
      }
    }
  }

  lemma DirectStep(g0: Graph, types: TypeMap, g: Graph, level: LevelMap, processed: set<NodeId>,
                   n: NodeId, low: nat, top: nat, r: Graph, level': LevelMap, p: NodeId)
    requires WellFormed(g) && Growth(g0, g, processed)
    requires DirectUses(g0, types, g, level, processed)
    requires n < |g0.operands| && n !in processed && n !in Users(g, n)
    requires SettledEdges(g0, types, g, level, processed)
    requires Switched(r, g, n, level, low, top) && VisitLevels(level', level, g, n, low, top) && |r.op| == |r.operands|
    requires p in processed && p < |g0.operands| && Users(r, p) != {} && TypeAt(types, p) != Raw
    ensures exists u: NodeId :: u in Users(r, p) && u < |g0.operands| && EdgeLevel(r, level', u, p)
  {
    var w :| w in Users(r, p);
    UsersKept(g, n, level, low, top, r, p, w);
    var u: NodeId :| u in Users(g, p) && u < |g0.operands| && EdgeLevel(g, level, u, p);
    UsersKept(g, n, level, low, top, r, p, u);
    var i :| 0 <= i < |g.operands[u]| && g.operands[u][i] == p;
    assert u != n;
    assert EdgeLevel(r, level', u, p);
  }

  lemma DirectVisited(g0: Graph, types: TypeMap, g: Graph, level: LevelMap, processed: set<NodeId>,
                      n: NodeId, low: nat, top: nat, r: Graph, level': LevelMap)
    requires Growth(g0, g, processed)
    requires n < |g0.operands| && n !in processed && !g0.op[n].ModSwitch? && n !in Users(g, n)
    requires Switched(r, g, n, level, low, top) && Extremes(g, n, level, low, top)
    requires VisitLevels(level', level, g, n, low, top) && |r.op| == |r.operands|
    requires forall u: NodeId :: u in Users(g, n) ==> u < |g0.operands|
    ensures exists u: NodeId :: u in Users(r, n) && u < |g0.operands| && EdgeLevel(r, level', u, n)
  {
    var u: NodeId :| u in Users(g, n) && LevelAt(level, u) == top;
    TopUserKept(g, n, level, low, top, r, u);
    assert EdgeLevel(r, level', u, n);
  }

  // ----- the worklist -----

  /** Every live node that is not ready still waits for a use. */
  ghost predicate WaitingForUse(g0: Graph, ready: set<NodeId>, processed: set<NodeId>)
  {
    forall m: NodeId :: Live(g0, m) && m !in ready ==> exists u: NodeId :: u in Users(g0, m) && u !in processed
  }

  ghost predicate WorkSettled(g0: Graph, g: Graph, processed: set<NodeId>, work: set<NodeId>)
  {
    forall m: NodeId, u: NodeId :: m in work && u in Users(g, m) ==> Settled(|g0.operands|, processed, u)
  }

  /** The uses of an unvisited node are old nodes. */
  lemma OldUsers(g0: Graph, types: TypeMap, g: Graph, processed: set<NodeId>, n: NodeId)
    requires WellFormed(g) && Growth(g0, g, processed) && NewOperandsSettled(g0, g, processed)
    requires n < |g0.operands| && n !in processed
    ensures forall u: NodeId :: u in Users(g, n) ==> u < |g0.operands|
  {
  }

  /** Inserted nodes only take visited or inserted nodes as operands. */
  ghost predicate NewOperandsSettled(g0: Graph, g: Graph, processed: set<NodeId>)
  {
    forall x: NodeId :: |g0.operands| <= x < |g.operands| ==>
      |g.operands[x]| == 1 && Settled(|g0.operands|, processed, g.operands[x][0])
  }

  lemma NewOperandsStep(g0: Graph, g: Graph, processed: set<NodeId>, n: NodeId, level: LevelMap, low: nat, top: nat,
                        r: Graph)
    requires WellFormed(g) && Growth(g0, g, processed) && n < |g0.operands|
    requires NewOperandsSettled(g0, g, processed) && Switched(r, g, n, level, low, top)
    ensures NewOperandsSettled(g0, r, processed + {n})
  {
  }

  lemma {:induction false} AllProcessed(g0: Graph, rank: seq<nat>, processed: set<NodeId>, m: NodeId)
    requires Ranked(g0, rank) && WaitingForUse(g0, processed, processed)
    requires Live(g0, m)
    ensures m in processed
    decreases Top(rank) - rank[m]
  {
    if m !in processed {
      var u: NodeId :| u in Users(g0, m) && u !in processed;
      var i :| 0 <= i < |g0.operands[u]| && g0.operands[u][i] == m;
      AllProcessed(g0, rank, processed, u);
    }
  }

  /** The invariant of the pass between two visits. */
  ghost predicate PassInv(size: nat, g0: Graph, types: TypeMap, g: Graph, level: LevelMap, processed: set<NodeId>)
  {
    && WellFormed(g) && Acyclic(g) && Refines(size, g0, g) && ThreadedInto(g0, g) && ChainsKept(g0, g)
         && SizesKept(g0, g)
    && Growth(g0, g, processed)
    && SettledEdges(g0, types, g, level, processed)
    && ZeroLevels(g0, types, g, level, processed)
    && DirectUses(g0, types, g, level, processed)
    && NewOperandsSettled(g0, g, processed) && HeadsNotRaw(g0, types, g)
  }

  /** No chain of mod-switches starts at a raw node. */
  ghost predicate HeadsNotRaw(g0: Graph, types: TypeMap, g: Graph)
  {
    forall x: NodeId, i: nat ::
      |g0.operands| <= x < |g.operands| && i < |g.operands[x]| && g.operands[x][i] < |g0.operands| ==>
      TypeAt(types, g.operands[x][i]) != Raw
  }

  lemma HeadsStep(g0: Graph, types: TypeMap, g: Graph, processed: set<NodeId>, n: NodeId, level: LevelMap, low: nat,
                  top: nat, r: Graph)
    requires WellFormed(g) && Growth(g0, g, processed) && n < |g0.operands| && TypeAt(types, n) != Raw
    requires NewOperandsSettled(g0, g, processed) && HeadsNotRaw(g0, types, g) && Switched(r, g, n, level, low, top)
    ensures HeadsNotRaw(g0, types, r)
  {
    forall x: NodeId, i: nat | |g0.operands| <= x < |r.operands| && i < |r.operands[x]|
      && r.operands[x][i] < |g0.operands|
      ensures TypeAt(types, r.operands[x][i]) != Raw
    {
      assert x < |g.operands| ==> |r.operands[x]| == |g.operands[x]|;
    }
  }

  lemma SkipKeepsInv(size: nat, g0: Graph, types: TypeMap, g: Graph, level: LevelMap, processed: set<NodeId>, n: NodeId)
    requires PassInv(size, g0, types, g, level, processed) && Skipped(g, types, n) && n < |g0.operands|
    ensures PassInv(size, g0, types, g, level, processed + {n})
  {
    forall u: NodeId, i: nat | u < |g.operands| && i < |g.operands[u]| &&
        Settled(|g0.operands|, processed + {n}, g.operands[u][i]) && TypeAt(types, g.operands[u][i]) != Raw
      ensures Settled(|g0.operands|, processed + {n}, u) && EdgeLevel(g, level, u, g.operands[u][i])
    {
      assert Live(g, g.operands[u][i]);
      assert u in Users(g, g.operands[u][i]);
    }
  }

  lemma NotOwnUser(g: Graph, n: NodeId)
    requires Acyclic(g)
    ensures n !in Users(g, n)
  {
    var rank :| Ranked(g, rank);
  }

  lemma SwitchThreads(g0: Graph, g: Graph, n: NodeId, level: LevelMap, low: nat, top: nat, r: Graph)
    requires ThreadedInto(g0, g) && EncodesOnce(g0) && WellFormed(g) && n < |g.operands|
    requires Switched(r, g, n, level, low, top) && Extremes(g, n, level, low, top)
    ensures ThreadedInto(g0, r)
  {
    hide ThreadedInto, EncodesOnce;
    EncodesStayOnce(g0, g);
    SwitchedThreads(g, n, level, low, top, r);
    ThreadedTransitive(g0, g, r);
  }

  lemma SwitchChains(g0: Graph, g: Graph, n: NodeId, level: LevelMap, low: nat, top: nat, r: Graph)
    requires ChainsKept(g0, g) && Live(g, n) && Switched(r, g, n, level, low, top) && WellFormed(r)
    ensures ChainsKept(g0, r)
  {
    PassesChain(ModSwitch);
    SwitchedExtends<nat>(g, ChainSem(), n, level, low, top, r);
    ChainsTransitive(g0, g, r);
  }

  lemma SwitchSizes(g0: Graph, g: Graph, n: NodeId, level: LevelMap, low: nat, top: nat, r: Graph)
    requires SizesKept(g0, g) && Live(g, n) && Switched(r, g, n, level, low, top) && WellFormed(r)
    ensures SizesKept(g0, r)
  {
    SwitchPassesSize();
    SwitchedExtends<Poly>(g, PolySem(), n, level, low, top, r);
    SizesTransitive(g0, g, r);
  }

  lemma SwitchedThreads(g: Graph, n: NodeId, level: LevelMap, low: nat, top: nat, r: Graph)
    requires WellFormed(g) && EncodesOnce(g) && n < |g.operands|
    requires Switched(r, g, n, level, low, top) && Extremes(g, n, level, low, top)
    ensures ThreadedInto(g, r)
  {
    var origin := Origins(|g.operands|, n, top - low);
    if g.op[n].Encode? {
      SoleUserLevel(g, n, level, low, top);
    }
    SwitchedOrigins(g, n, level, low, top, r, origin);
    SwitchedChain(g, n, level, low, top, r, origin);
    ExtremesUsed(g, n, level, low, top);
    hide WellFormed, EncodesOnce, Switched, Extremes, IsUsed;
    ThreadedFrom(g, n, r, origin);
  }

  lemma ThreadedFrom(g: Graph, n: NodeId, r: Graph, origin: seq<NodeId>)
    requires |g.op| == |g.operands| && |r.op| == |r.operands| && |r.operands| == |origin| && g.op <= r.op
      && r.sources == g.sources
    requires n < |g.operands| <= |r.operands| && IsUsed(g, n) && (g.op[n].Encode? ==> |r.operands| == |g.operands|)
    requires forall m: NodeId :: m < |origin| ==> origin[m] == if m < |g.operands| then m else n
    requires forall u: NodeId :: u < |g.operands| ==> |r.operands[u]| == |g.operands[u]|
    requires forall u: NodeId, i: nat :: u < |g.operands| && i < |g.operands[u]| ==>
      r.operands[u][i] < |origin| && origin[r.operands[u][i]] == g.operands[u][i]
    requires forall x: NodeId :: |g.operands| <= x < |r.operands| ==>
      IsThreadOp(r.op[x]) && |r.operands[x]| == 1 && r.operands[x][0] < |origin| && origin[r.operands[x][0]] == n
    ensures ThreadedInto(g, r)
  {
    hide IsUsed;
    assert Threaded(g, r, origin);
  }

  lemma ExtremesUsed(g: Graph, n: NodeId, level: LevelMap, low: nat, top: nat)
    requires Extremes(g, n, level, low, top)
    ensures IsUsed(g, n)
  {
    var u: NodeId :| u in Users(g, n) && LevelAt(level, u) == low;
  }

  lemma SwitchedChain(g: Graph, n: NodeId, level: LevelMap, low: nat, top: nat, r: Graph, origin: seq<NodeId>)
    requires WellFormed(g) && n < |g.operands| && Switched(r, g, n, level, low, top)
    requires |origin| == |g.operands| + (top - low)
    requires forall m: NodeId :: m < |origin| ==> origin[m] == if m < |g.operands| then m else n
    ensures |g.op| == |g.operands| && |r.op| == |r.operands| && |r.operands| == |origin| && g.op <= r.op
      && r.sources == g.sources
    ensures forall u: NodeId :: u < |g.operands| ==> |r.operands[u]| == |g.operands[u]|
    ensures forall x: NodeId :: |g.operands| <= x < |r.operands| ==>
      IsThreadOp(r.op[x]) && |r.operands[x]| == 1 && r.operands[x][0] < |origin| && origin[r.operands[x][0]] == n
  {
  }

  lemma SwitchedOrigins(g: Graph, n: NodeId, level: LevelMap, low: nat, top: nat, r: Graph, origin: seq<NodeId>)
    requires WellFormed(g) && n < |g.operands| && Switched(r, g, n, level, low, top)
    requires |origin| == |g.operands| + (top - low)
    requires forall m: NodeId :: m < |origin| ==> origin[m] == if m < |g.operands| then m else n
    ensures forall u: NodeId, i: nat :: u < |g.operands| && i < |g.operands[u]| ==>
      r.operands[u][i] < |origin| && origin[r.operands[u][i]] == g.operands[u][i]
  {
    forall u: NodeId, i: nat | u < |g.operands| && i < |g.operands[u]|
      ensures r.operands[u][i] < |origin| && origin[r.operands[u][i]] == g.operands[u][i]
    {
      assert Live(g, g.operands[u][i]);
      if g.operands[u][i] == n {
        assert u in Users(g, n);
      }
    }
  }

  /** A node with one user has nothing to switch. */
  lemma SoleUserLevel(g: Graph, n: NodeId, level: LevelMap, low: nat, top: nat)
    requires WellFormed(g) && n < |g.op| && EncodesOnce(g) && g.op[n].Encode? && Extremes(g, n, level, low, top)
    ensures low == top
  {
    var u: NodeId :| u in Users(g, n) && LevelAt(level, u) == low;
    var w: NodeId :| w in Users(g, n) && LevelAt(level, w) == top;
    var i :| 0 <= i < |g.operands[u]| && g.operands[u][i] == n;
    var j :| 0 <= j < |g.operands[w]| && g.operands[w][j] == n;
    assert SharedEncode(g, u, i, w, j);
  }

  lemma SwitchKeepsShape(size: nat, g0: Graph, types: TypeMap, g: Graph, level: LevelMap, processed: set<NodeId>,
                         n: NodeId, low: nat, top: nat, r: Graph)
    requires PassInv(size, g0, types, g, level, processed) && WellFormed(r)
    requires n < |g0.operands| && Users(g, n) != {}
    requires forall w: NodeId :: w in Users(g, n) ==> Settled(|g0.operands|, processed, w)
    requires Switched(r, g, n, level, low, top) && Extremes(g, n, level, low, top) && EncodesOnce(g0)
    ensures Acyclic(r) && Refines(size, g0, r) && Growth(g0, r, processed + {n})
    ensures NewOperandsSettled(g0, r, processed + {n}) && ThreadedInto(g0, r) && ChainsKept(g0, r) && SizesKept(g0, r)
  {
    UsedIsLive(g, n);
    SwitchThreads(g0, g, n, level, low, top, r);
    SwitchChains(g0, g, n, level, low, top, r);
    SwitchSizes(g0, g, n, level, low, top, r);
    SwitchedRefines(size, g, n, level, low, top, r);
    RefinesTransitive(size, g0, g, r);
    var rank :| Ranked(g, rank);
    SwitchedRanked(g, rank, n, level, low, top, r);
    GrowthStep(g0, g, processed, n, level, low, top, r);
    NewOperandsStep(g0, g, processed, n, level, low, top, r);
  }

  lemma SwitchKeepsEdges(g0: Graph, types: TypeMap, g: Graph, level: LevelMap, processed: set<NodeId>,
                         n: NodeId, low: nat, top: nat, r: Graph, level': LevelMap)
    requires WellFormed(g) && WellFormed(r) && Growth(g0, g, processed)
    requires SettledEdges(g0, types, g, level, processed)
    requires n < |g0.operands| && n !in processed && !g0.op[n].ModSwitch?
    requires forall w: NodeId :: w in Users(g, n) ==> Settled(|g0.operands|, processed, w)
    requires Switched(r, g, n, level, low, top) && VisitLevels(level', level, g, n, low, top)
    ensures SettledEdges(g0, types, r, level', processed + {n})
  {
    hide Growth, Switched, VisitLevels, Settled, EdgeLevel, Users;
    forall u: NodeId, i: nat | u < |r.operands| && i < |r.operands[u]| &&
        Settled(|g0.operands|, processed + {n}, r.operands[u][i]) && TypeAt(types, r.operands[u][i]) != Raw
      ensures Settled(|g0.operands|, processed + {n}, u) && EdgeLevel(r, level', u, r.operands[u][i])
    {
      EdgesStep(g0, types, g, level, processed, n, low, top, r, level', u, i);
    }
  }

  lemma SwitchKeepsDirect(g0: Graph, types: TypeMap, g: Graph, level: LevelMap, processed: set<NodeId>,
                          n: NodeId, low: nat, top: nat, r: Graph, level': LevelMap)
    requires WellFormed(g) && Growth(g0, g, processed) && |r.op| == |r.operands|
    requires SettledEdges(g0, types, g, level, processed) && DirectUses(g0, types, g, level, processed)
    requires n < |g0.operands| && n !in processed && !g0.op[n].ModSwitch? && n !in Users(g, n)
    requires forall u: NodeId :: u in Users(g, n) ==> u < |g0.operands|
    requires Switched(r, g, n, level, low, top) && Extremes(g, n, level, low, top)
    requires VisitLevels(level', level, g, n, low, top)
    ensures DirectUses(g0, types, r, level', processed + {n})
  {
    hide Growth, Switched, VisitLevels, EdgeLevel, WellFormed, SettledEdges, Extremes;
    forall p: NodeId | p in processed + {n} && p < |g0.operands| && p < |r.operands| && Users(r, p) != {}
                       && TypeAt(types, p) != Raw
      ensures exists u: NodeId :: u in Users(r, p) && u < |g0.operands| && EdgeLevel(r, level', u, p)
    {
      if p == n {
        DirectVisited(g0, types, g, level, processed, n, low, top, r, level');
      } else {
        DirectStep(g0, types, g, level, processed, n, low, top, r, level', p);
      }
    }
  }

  lemma SwitchKeepsLevels(size: nat, g0: Graph, types: TypeMap, g: Graph, level: LevelMap, processed: set<NodeId>,
                          n: NodeId, low: nat, top: nat, r: Graph, level': LevelMap)
    requires PassInv(size, g0, types, g, level, processed) && WellFormed(r)
    requires n < |g0.operands| && n !in processed && !g0.op[n].ModSwitch? && !Skipped(g, types, n)
    requires forall w: NodeId :: w in Users(g, n) ==> Settled(|g0.operands|, processed, w)
    requires forall x: NodeId :: |g0.operands| <= x ==> TypeAt(types, x) != Raw
    requires Switched(r, g, n, level, low, top) && Extremes(g, n, level, low, top)
    requires VisitLevels(level', level, g, n, low, top)
    requires forall p: NodeId :: p in level' ==> p < |r.operands|
    ensures SettledEdges(g0, types, r, level', processed + {n})
    ensures ZeroLevels(g0, types, r, level', processed + {n})
    ensures DirectUses(g0, types, r, level', processed + {n})
  {
    hide SettledEdges, ZeroLevels, DirectUses, Switched, Extremes, VisitLevels, Settled, Users;
    NotOwnUser(g, n);
    OldUsers(g0, types, g, processed, n);
    ZeroStep(g0, types, g, level, processed, n, low, top, r, level');
    SwitchKeepsEdges(g0, types, g, level, processed, n, low, top, r, level');
    SwitchKeepsDirect(g0, types, g, level, processed, n, low, top, r, level');
  }

  /** Between visits: the pass invariant together with the state of the worklist. */
  ghost predicate TravInv(g0: Graph, g: Graph, ready: set<NodeId>, processed: set<NodeId>, work: set<NodeId>)
  {
    && (forall m: NodeId :: m in ready ==> m < |g0.operands|)
    && work <= ready && processed <= ready
    && WaitingForUse(g0, ready, processed)
    && WorkSettled(g0, g, processed, work)
  }

  lemma PassStart(size: nat, g0: Graph, types: TypeMap, uses: seq<seq<NodeId>>, sinks: set<NodeId>)
    requires WellFormed(g0) && Acyclic(g0) && UsesInverse(g0.operands, uses) && SinksMatch(uses, sinks, Erased(g0))
    ensures PassInv(size, g0, types, g0, map[], {})
    ensures TravInv(g0, g0, sinks, {}, sinks)
  {
    RefinesReflexive(size, g0);
    ThreadedReflexive(g0);
    ChainsReflexive(g0);
    SizesReflexive(g0);
    forall m: NodeId | Live(g0, m) && m !in sinks
      ensures exists u: NodeId :: u in Users(g0, m) && u !in {}
    {
      UsersAreUses(g0.operands, uses, m, uses[m][0]);
      assert uses[m][0] in Users(g0, m);
    }
    forall m: NodeId, u: NodeId | m in sinks && u in Users(g0, m)
      ensures Settled(|g0.operands|, {}, u)
    {
      UsersAreUses(g0.operands, uses, m, u);
    }
  }

  lemma TravStep(g0: Graph, g: Graph, processed: set<NodeId>, ready: set<NodeId>, work: set<NodeId>, n: NodeId,
                 r: Graph, uses': seq<seq<NodeId>>, sinks': set<NodeId>, cands: seq<NodeId>,
                 ready': set<NodeId>, work': set<NodeId>)
    requires WellFormed(g) && WellFormed(r) && Growth(g0, g, processed) && Growth(g0, r, processed + {n})
    requires NewOperandsSettled(g0, r, processed + {n}) && n !in processed && n < |g0.operands|
    requires TravInv(g0, g, ready, processed, work) && n in ready && n !in work
    requires forall p: NodeId, u: NodeId :: p < |g.operands| && p != n && u in Users(r, p) ==> u in Users(g, p)
    requires UsesInverse(r.operands, uses') && SinksMatch(uses', sinks', Erased(r))
    requires forall x: NodeId :: |g0.operands| <= x < |r.operands| ==> Users(r, x) != {}
    requires forall i: nat :: i < |cands| ==> cands[i] < |r.operands|
    requires forall i: nat :: i < |g.operands[n]| ==> g.operands[n][i] in cands
    requires forall i: nat :: i < |cands| ==> cands[i] < |g0.operands|
    requires ready + sinks' <= ready' <= ready + sinks' + Elems(cands) && n in ready'
    requires work' <= work + (ready' - ready) && processed + {n} <= ready' && work' <= ready'
    requires forall i: nat :: i < |cands| ==> cands[i] in ready' || !Unblocked(uses', processed + {n}, cands[i])
    requires forall m: NodeId :: m in ready' - ready - sinks' && m < |uses'| ==> Unblocked(uses', processed + {n}, m)
    ensures TravInv(g0, r, ready', processed + {n}, work')
  {
    forall m: NodeId | m in ready'
      ensures m < |g0.operands|
    {
      if m in sinks' {
        SinkIsOld(g0, r, uses', sinks', m);
      }
    }
    forall m: NodeId, u: NodeId | m in work' && u in Users(r, m)
      ensures Settled(|g0.operands|, processed + {n}, u)
    {
      UsersAreUses(r.operands, uses', m, u);
      if m in work {
        assert u in Users(g, m);
        assert Settled(|g0.operands|, processed, u);
      } else {
        assert m !in sinks';
        var j :| 0 <= j < |uses'[m]| && uses'[m][j] == u;
        assert m in ready' - ready - sinks';
        assert Unblocked(uses', processed + {n}, m);
        assert u in processed + {n};
      }
    }
    forall m: NodeId | Live(g0, m) && m !in ready'
      ensures exists u: NodeId :: u in Users(g0, m) && u !in processed + {n}
    {
      WaitingKept(g0, g, processed, n, r, uses', cands, ready', m);
    }
  }

  lemma SinkIsOld(g0: Graph, r: Graph, uses': seq<seq<NodeId>>, sinks': set<NodeId>, m: NodeId)
    requires UsesInverse(r.operands, uses') && SinksMatch(uses', sinks', Erased(r)) && m in sinks'
    requires forall x: NodeId :: |g0.operands| <= x < |r.operands| ==> Users(r, x) != {}
    ensures m < |g0.operands|
  {
    if m >= |g0.operands| {
      var u :| u in Users(r, m);
      UsersAreUses(r.operands, uses', m, u);
    }
  }

  lemma WaitingKept(g0: Graph, g: Graph, processed: set<NodeId>, n: NodeId, r: Graph, uses': seq<seq<NodeId>>,
                    cands: seq<NodeId>, ready': set<NodeId>, m: NodeId)
    requires Growth(g0, g, processed) && Growth(g0, r, processed + {n})
    requires NewOperandsSettled(g0, r, processed + {n}) && n !in processed && n < |g0.operands|
    requires processed + {n} <= ready'
    requires exists u: NodeId :: u in Users(g0, m) && u !in processed
    requires UsesInverse(r.operands, uses')
    requires forall i: nat :: i < |g.operands[n]| ==> g.operands[n][i] in cands
    requires forall i: nat :: i < |cands| ==> cands[i] < |r.operands|
    requires forall i: nat :: i < |cands| ==> cands[i] in ready' || !Unblocked(uses', processed + {n}, cands[i])
    requires Live(g0, m) && m !in ready'
    ensures exists u: NodeId :: u in Users(g0, m) && u !in processed + {n}
  {
    var u: NodeId :| u in Users(g0, m) && u !in processed;
    if u == n {
      assert g.operands[n] == g0.operands[n];
      var i :| 0 <= i < |g.operands[n]| && g.operands[n][i] == m;
      assert g.operands[n][i] in cands;
      var k :| 0 <= k < |cands| && cands[k] == m;
      assert !Unblocked(uses', processed + {n}, cands[k]);
      var j: nat :| j < |uses'[m]| && uses'[m][j] !in processed + {n};
      var w := uses'[m][j];
      assert w in uses'[m];
      UsersAreUses(r.operands, uses', m, w);
      assert w < |g0.operands|;
      assert r.operands[w] == g0.operands[w];
      assert w in Users(g0, m);
    }
  }

  lemma VisitKeepsInv(size: nat, g0: Graph, types: TypeMap, g: Graph, level: LevelMap, processed: set<NodeId>,
                      n: NodeId, low: nat, top: nat, r: Graph, level': LevelMap)
    requires PassInv(size, g0, types, g, level, processed) && WellFormed(r) && BeforeSwitching(g0, types)
    requires n < |g0.operands| && n !in processed
    requires forall w: NodeId :: w in Users(g, n) ==> Settled(|g0.operands|, processed, w)
    requires Skipped(g, types, n) ==> r == g && level' == level
    requires !Skipped(g, types, n) ==> Extremes(g, n, level, low, top)
    requires !Skipped(g, types, n) ==> Switched(r, g, n, level, low, top) && VisitLevels(level', level, g, n, low, top)
    requires forall p: NodeId :: p in level' ==> p < |r.operands|
    ensures PassInv(size, g0, types, r, level', processed + {n})
    ensures forall p: NodeId, u: NodeId :: p < |g.operands| && p != n && u in Users(r, p) ==> u in Users(g, p)
  {
    if Skipped(g, types, n) {
      SkipKeepsInv(size, g0, types, g, level, processed, n);
    } else {
      SwitchKeepsShape(size, g0, types, g, level, processed, n, low, top, r);
      HeadsStep(g0, types, g, processed, n, level, low, top, r);
      SwitchKeepsLevels(size, g0, types, g, level, processed, n, low, top, r, level');
      forall p: NodeId, u: NodeId | p < |g.operands| && p != n && u in Users(r, p)
        ensures u in Users(g, p)
      {
        UsersKept(g, n, level, low, top, r, p, u);
      }
    }
  }

  /** The pass is run on a graph without mod-switches; nodes it will add are not typed raw. */
  ghost predicate BeforeSwitching(g0: Graph, types: TypeMap)
  {
    && (forall n: NodeId :: n < |g0.op| ==> !g0.op[n].ModSwitch?)
    && (forall x: NodeId :: |g0.operands| <= x ==> TypeAt(types, x) != Raw)
    && EncodesOnce(g0)
  }

  lemma WorkNode(g0: Graph, g: Graph, ready: set<NodeId>, processed: set<NodeId>, work: seq<NodeId>, out: set<NodeId>)
    requires Frontier(ready, processed, work, out) && work != []
    requires TravInv(g0, g, ready, processed, Elems(work))
    ensures var n := work[|work|-1];
      n < |g0.operands| && n !in processed && n in ready
      && (forall w: NodeId :: w in Users(g, n) ==> Settled(|g0.operands|, processed, w))
      && TravInv(g0, g, ready, processed, Elems(work[..|work|-1])) && n !in Elems(work[..|work|-1])
  {
    ElemsLast(work);
  }

  lemma OperandsOld(g0: Graph, g: Graph, processed: set<NodeId>, n: NodeId)
    requires WellFormed(g0) && Growth(g0, g, processed) && n < |g0.operands| && n !in processed
    ensures forall i: nat :: i < |g.operands[n]| ==> g.operands[n][i] < |g0.operands|
  {
    forall i: nat | i < |g.operands[n]|
      ensures g.operands[n][i] < |g0.operands|
    {
      assert Live(g0, g0.operands[n][i]);
    }
  }

  lemma OperandsUnmoved(g: Graph, types: TypeMap, n: NodeId, level: LevelMap, low: nat, top: nat, r: Graph)
    requires n !in Users(g, n) && n < |g.operands|
    requires Skipped(g, types, n) ==> r == g
    requires !Skipped(g, types, n) ==> Switched(r, g, n, level, low, top)
    ensures r.operands[n] == g.operands[n] && |g.operands| <= |r.operands|
  {
  }

  /** Every visited encode node with a use has been recorded. */
  ghost predicate EncodesListed(types: TypeMap, g: Graph, processed: set<NodeId>, encodeNodes: seq<NodeId>)
  {
    forall e: NodeId ::
      e in processed && e < |g.op| && g.op[e].Encode? && Users(g, e) != {} && TypeAt(types, e) != Raw ==>
        e in encodeNodes
  }

  lemma EncodesStep(g0: Graph, types: TypeMap, g: Graph, processed: set<NodeId>, encodes: seq<NodeId>, n: NodeId,
                    r: Graph, encodes': seq<NodeId>)
    requires Growth(g0, g, processed) && Growth(g0, r, processed + {n}) && n < |g0.operands|
    requires forall p: NodeId :: p in processed ==> p < |g0.operands|
    requires EncodesListed(types, g, processed, encodes)
    requires forall p: NodeId, u: NodeId :: p < |g.operands| && p != n && u in Users(r, p) ==> u in Users(g, p)
    requires Skipped(g, types, n) ==> r == g
    requires encodes' == if !Skipped(g, types, n) && g.op[n].Encode? then encodes + [n] else encodes
    ensures EncodesListed(types, r, processed + {n}, encodes')
  {
    forall e: NodeId | e in processed + {n} && e < |r.op| && r.op[e].Encode? && Users(r, e) != {}
      && TypeAt(types, e) != Raw
      ensures e in encodes'
    {
      if e != n {
        var u :| u in Users(r, e);
        assert u in Users(g, e);
      }
    }
  }

  lemma PassFacts(size: nat, g0: Graph, types: TypeMap, g: Graph, level: LevelMap, processed: set<NodeId>)
    requires PassInv(size, g0, types, g, level, processed)
    ensures WellFormed(g) && Growth(g0, g, processed) && NewOperandsSettled(g0, g, processed)
    ensures forall x: NodeId :: |g0.operands| <= x < |g.operands| ==> Users(g, x) != {}
  {
  }

  lemma ProcessedOld(g0: Graph, g: Graph, ready: set<NodeId>, processed: set<NodeId>, work: set<NodeId>)
    requires TravInv(g0, g, ready, processed, work)
    ensures forall p: NodeId :: p in processed ==> p < |g0.operands|
  {
  }

  lemma StepFacts(size: nat, g0: Graph, types: TypeMap, g: Graph, level: LevelMap, processed: set<NodeId>, n: NodeId)
    requires PassInv(size, g0, types, g, level, processed) && WellFormed(g0) && n < |g0.operands| && n !in processed
    ensures WellFormed(g) && Growth(g0, g, processed) && n < |g.operands| && n !in Users(g, n)
    ensures forall p: NodeId :: p in level ==> p < |g.operands|
    ensures forall i: nat :: i < |g.operands[n]| ==> g.operands[n][i] < |g0.operands|
  {
    NotOwnUser(g, n);
    OperandsOld(g0, g, processed, n);
  }

  method PassFinish(d: Dag, t: DagTraversal, ghost g0: Graph, ghost g: Graph, ghost processed0: set<NodeId>,
                    ghost ready0: set<NodeId>, n: NodeId, cands: seq<NodeId>)
    requires d.Valid() && t.Consistent({} + {n})
    requires WellFormed(g) && Growth(g0, g, processed0) && Growth(g0, d.G(), processed0 + {n})
    requires NewOperandsSettled(g0, d.G(), processed0 + {n})
    requires forall x: NodeId :: |g0.operands| <= x < |d.operands| ==> Users(d.G(), x) != {}
    requires t.processed == processed0 && t.ready == ready0
    requires n !in processed0 && n < |g0.operands| && n in ready0 && n !in Elems(t.work)
    requires TravInv(g0, g, ready0, processed0, Elems(t.work))
    requires cands == g.operands[n] && d.operands[n] == cands
    requires forall i: nat :: i < |cands| ==> cands[i] < |g0.operands|
    requires forall p: NodeId, u: NodeId :: p < |g.operands| && p != n && u in Users(d.G(), p) ==> u in Users(g, p)
    modifies t
    ensures t.Consistent({}) && t.processed == processed0 + {n}
    ensures TravInv(g0, d.G(), t.ready, t.processed, Elems(t.work))
  {
    ghost var work0 := Elems(t.work);
    var all := cands + d.operands[n];
    CandsIn(cands, |g0.operands|);
    t.Finish(n, false, d.sinks, all, d.uses, {});
    TravStep(g0, g, processed0, ready0, work0, n, d.G(), d.uses, d.sinks, all, t.ready, Elems(t.work));
  }

  lemma CandsIn(cands: seq<NodeId>, bound: nat)
    requires forall i: nat :: i < |cands| ==> cands[i] < bound
    ensures forall i: nat :: i < |cands| ==> cands[i] in cands + cands
    ensures forall i: nat :: i < |cands + cands| ==> (cands + cands)[i] < bound
  {
    forall i: nat | i < |cands|
      ensures cands[i] in cands + cands
    {
      assert (cands + cands)[i] == cands[i];
    }
  }

  method PassStep(d: Dag, m: ModSwitcher, t: DagTraversal, types: TypeMap, ghost g0: Graph, ghost size: nat)
    returns (n: NodeId)
    requires d.Valid() && t.Consistent({}) && t.work != [] && WellFormed(g0) && BeforeSwitching(g0, types)
    requires PassInv(size, g0, types, d.G(), m.level, t.processed)
    requires TravInv(g0, d.G(), t.ready, t.processed, Elems(t.work))
    requires EncodesListed(types, d.G(), t.processed, m.encodeNodes)
    modifies d, m, t
    ensures d.Valid() && t.Consistent({})
    ensures PassInv(size, g0, types, d.G(), m.level, t.processed)
    ensures EncodesListed(types, d.G(), t.processed, m.encodeNodes)
    ensures TravInv(g0, d.G(), t.ready, t.processed, Elems(t.work))
    ensures n < |g0.operands| && n !in old(t.processed) && t.processed == old(t.processed) + {n}
  {
    hide PassInv, TravInv, WellFormed, UsesInverse, SinksMatch, Frontier, Extremes, VisitLevels, Switched,
         BeforeSwitching, Settled, Skipped, Growth, NewOperandsSettled, WaitingForUse, EncodesListed;
    ghost var g, level0, ready0, processed0, encodes0 := d.G(), m.level, t.ready, t.processed, m.encodeNodes;
    WorkNode(g0, g, t.ready, t.processed, t.work, {});
    ProcessedOld(g0, g, t.ready, t.processed, Elems(t.work));
    StepFacts(size, g0, types, g, m.level, t.processed, t.work[|t.work|-1]);
    n := t.Pop({});
    var cands := d.operands[n];
    ghost var low, top := m.Visit(d, types, n);
    VisitKeepsInv(size, g0, types, g, level0, processed0, n, low, top, d.G(), m.level);
    OperandsUnmoved(g, types, n, level0, low, top, d.G());
    PassFacts(size, g0, types, d.G(), m.level, processed0 + {n});
    EncodesStep(g0, types, g, processed0, encodes0, n, d.G(), m.encodeNodes);
    PassFinish(d, t, g0, g, processed0, ready0, n, cands);
  }

  /** Along every edge that does not start at a raw node the level drops by what the operand consumes. */
  ghost predicate EdgesLevelled(g: Graph, types: TypeMap, level: LevelMap)
  {
    && |g.op| == |g.operands|
    && forall u: NodeId, i: nat :: u < |g.operands| && i < |g.operands[u]| ==>
         g.operands[u][i] < |g.op|
           && (TypeAt(types, g.operands[u][i]) != Raw ==> EdgeLevel(g, level, u, g.operands[u][i]))
  }

  /** The levels left behind: nodes without uses and raw nodes are at level zero. */
  ghost predicate Levelled(g: Graph, types: TypeMap, level: LevelMap)
  {
    && EdgesLevelled(g, types, level)
    && forall p: NodeId :: p < |g.operands| && (Users(g, p) == {} || TypeAt(types, p) == Raw) ==> LevelAt(level, p) == 0
  }

  /** Each node other than a mod-switch keeps a use at its level that is not a mod-switch. */
  ghost predicate DirectlyUsed(g: Graph, types: TypeMap, level: LevelMap)
  {
    && |g.op| == |g.operands|
    && forall p: NodeId :: p < |g.operands| && !g.op[p].ModSwitch? && Users(g, p) != {} && TypeAt(types, p) != Raw ==>
         exists u: NodeId :: u in Users(g, p) && !g.op[u].ModSwitch? && EdgeLevel(g, level, u, p)
  }

  lemma PassEnd(size: nat, g0: Graph, types: TypeMap, g: Graph, level: LevelMap, processed: set<NodeId>, rank: seq<nat>)
    requires PassInv(size, g0, types, g, level, processed) && BeforeSwitching(g0, types) && WellFormed(g0)
    requires Ranked(g0, rank) && WaitingForUse(g0, processed, processed)
    ensures Levelled(g, types, level) && DirectlyUsed(g, types, level)
    ensures forall p: NodeId :: Live(g, p) && p < |g0.operands| ==> p in processed
    ensures Acyclic(g) && Refines(size, g0, g) && ThreadedInto(g0, g) && ChainsKept(g0, g) && Growth(g0, g, processed)
    ensures HeadsNotRaw(g0, types, g) && SizesKept(g0, g)
    ensures forall x: NodeId :: |g0.operands| <= x < |g.operands| ==> Users(g, x) != {}
  {
    forall p: NodeId | Live(g, p) && p < |g0.operands|
      ensures p in processed
    {
      assert Live(g0, p);
      AllProcessed(g0, rank, processed, p);
    }
    forall u: NodeId, i: nat | u < |g.operands| && i < |g.operands[u]|
      ensures g.operands[u][i] < |g.op|
        && (TypeAt(types, g.operands[u][i]) != Raw ==> EdgeLevel(g, level, u, g.operands[u][i]))
    {
      assert Live(g, g.operands[u][i]);
      assert Settled(|g0.operands|, processed, g.operands[u][i]);
    }
    forall p: NodeId | p < |g.operands| && !g.op[p].ModSwitch? && Users(g, p) != {} && TypeAt(types, p) != Raw
      ensures exists u: NodeId :: u in Users(g, p) && !g.op[u].ModSwitch? && EdgeLevel(g, level, u, p)
    {
      UsedIsLive(g, p);
      var u: NodeId :| u in Users(g, p) && u < |g0.operands| && EdgeLevel(g, level, u, p);
      assert g.op[u] == g0.op[u];
    }
  }

  /** The backward pass, iyfc/seal/alo/seal_ckks_handler.cpp:58. */
  method SwitchModuli(d: Dag, types: TypeMap, scale: ScaleMap, ghost size: nat) returns (m: ModSwitcher)
    requires d.Valid() && Acyclic(d.G()) && BeforeSwitching(d.G(), types)
    modifies d
    ensures fresh(m) && d.Valid() && Acyclic(d.G()) && Refines(size, old(d.G()), d.G())
    ensures Levelled(d.G(), types, m.level) && DirectlyUsed(d.G(), types, m.level) && ThreadedInto(old(d.G()), d.G())
      && ChainsKept(old(d.G()), d.G())
    ensures forall e: NodeId ::
      Live(d.G(), e) && d.op[e].Encode? && Users(d.G(), e) != {} && TypeAt(types, e) != Raw ==>
      e in m.encodeNodes
    ensures d.sources == old(d.sources) && old(d.op) <= d.op
    ensures HeadsNotRaw(old(d.G()), types, d.G()) && SizesKept(old(d.G()), d.G())
    ensures forall x: NodeId :: old(|d.operands|) <= x < |d.operands| ==> Users(d.G(), x) != {}
    ensures forall x: NodeId :: old(|d.op|) <= x < |d.op| ==> d.op[x].ModSwitch?
  {
    ghost var g0 := d.G();
    ghost var rank :| Ranked(g0, rank);
    PassStart(size, g0, types, d.uses, d.sinks);
    m := new ModSwitcher(scale);
    var t := new DagTraversal();
    t.Begin(d.sinks);
    ghost var all := AllNodes(g0);
    hide PassInv, TravInv, EncodesListed, BeforeSwitching, ThreadedInto, ChainsKept, SizesKept, HeadsNotRaw, Refines,
         Acyclic, Levelled, DirectlyUsed, SettledEdges, ZeroLevels, DirectUses, NewOperandsSettled;
    while t.work != []
      invariant d.Valid() && t.Consistent({})
      invariant PassInv(size, g0, types, d.G(), m.level, t.processed)
      invariant TravInv(g0, d.G(), t.ready, t.processed, Elems(t.work))
      invariant EncodesListed(types, d.G(), t.processed, m.encodeNodes)
      decreases all - t.processed
    {
      hide *;
      var n := PassStep(d, m, t, types, g0, size);
      InAllNodes(g0, n);
    }
    assert Elems(t.work) == {} && t.ready == t.processed;
    AllWaiting(g0, d.G(), t.processed);
    PassEnd(size, g0, types, d.G(), m.level, t.processed, rank);
    ListedEncodes(g0, types, d.G(), t.processed, m.encodeNodes);
  }

  lemma AllWaiting(g0: Graph, g: Graph, processed: set<NodeId>)
    requires TravInv(g0, g, processed, processed, {})
    ensures WaitingForUse(g0, processed, processed)
  {
  }

  lemma ListedEncodes(g0: Graph, types: TypeMap, g: Graph, processed: set<NodeId>, encodeNodes: seq<NodeId>)
    requires EncodesListed(types, g, processed, encodeNodes) && Growth(g0, g, processed)
    requires forall p: NodeId :: Live(g, p) && p < |g0.operands| ==> p in processed
    ensures forall e: NodeId ::
      Live(g, e) && e < |g.op| && g.op[e].Encode? && Users(g, e) != {} && TypeAt(types, e) != Raw ==> e in encodeNodes
  {
  }
}
