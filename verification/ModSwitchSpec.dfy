/** What one visit of the mod switcher does to the graph, as a value: a chain of ModSwitch
    nodes behind n, with every use of n moved down the chain to its own level. */
module ModSwitchSpec {
  import opened Graphs
  import opened Semantics

  type LevelMap = map<NodeId, nat>

  function LevelAt(level: LevelMap, n: NodeId): nat
  {
    if n in level then level[n] else 0
  }

  /** The j-th node of the chain hanging off n; the chain starts with n itself. */
  function ChainNode(n: NodeId, base: NodeId, j: nat): NodeId
  {
    if j == 0 then n else base + j - 1
  }

  /** The operand that use u gets in place of n. */
  function Target(g: Graph, n: NodeId, level: LevelMap, top: nat, u: NodeId): NodeId
    requires LevelAt(level, u) <= top
  {
    ChainNode(n, |g.operands|, top - LevelAt(level, u))
  }

  /** r is g with a chain of the given length and the uses in moved already redirected. */
  ghost predicate Chained(r: Graph, g: Graph, n: NodeId, level: LevelMap, top: nat, length: nat, moved: set<NodeId>)
  {
    && |r.operands| == |g.operands| + length && |r.op| == |g.op| + length
    && r.sources == g.sources && g.op <= r.op
    && (forall u: NodeId :: u in moved ==> LevelAt(level, u) <= top)
    && (forall u: NodeId :: u < |g.operands| ==>
          r.operands[u] == if u in moved then Subst(g.operands[u], n, Target(g, n, level, top, u)) else g.operands[u])
    && (forall x: NodeId :: |g.operands| <= x < |r.operands| ==>
          r.operands[x] == [ChainNode(n, |g.operands|, x - |g.operands|)])
    && (forall x: NodeId :: |g.op| <= x < |r.op| ==> r.op[x] == ModSwitch)
  }

  ghost function Users(g: Graph, n: NodeId): set<NodeId>
  {
    set u: NodeId | 0 <= u < |g.operands| && n in g.operands[u]
  }

  ghost predicate UserLevelsWithin(g: Graph, n: NodeId, level: LevelMap, low: nat, top: nat)
  {
    forall u: NodeId :: u in Users(g, n) ==> low <= LevelAt(level, u) <= top
  }

  /** The finished visit: top and low are the extreme levels among the uses of n. */
  ghost predicate Switched(r: Graph, g: Graph, n: NodeId, level: LevelMap, low: nat, top: nat)
  {
    && low <= top && UserLevelsWithin(g, n, level, low, top)
    && Chained(r, g, n, level, top, top - low, Users(g, n))
  }

  lemma ChainedCount(r: Graph, g: Graph, n: NodeId, level: LevelMap, top: nat, length: nat, moved: set<NodeId>)
    requires Chained(r, g, n, level, top, length, moved)
    ensures |r.operands| == |g.operands| + length
  {
  }

  lemma ChainedGrow(r: Graph, g: Graph, n: NodeId, level: LevelMap, top: nat, length: nat, moved: set<NodeId>)
    requires |g.op| == |g.operands| && Chained(r, g, n, level, top, length, moved)
    ensures Chained(AddNode(r, ModSwitch, [ChainNode(n, |g.operands|, length)]), g, n, level, top, length + 1, moved)
  {
  }

  lemma ChainedMove(r: Graph, g: Graph, n: NodeId, level: LevelMap, top: nat, length: nat, moved: set<NodeId>,
                    u: NodeId)
    requires n < |g.operands| && u < |g.operands| && Chained(r, g, n, level, top, length, moved)
    requires LevelAt(level, u) <= top && top - LevelAt(level, u) == length && length > 0
    ensures Chained(ReplaceIn(r, u, n, ChainNode(n, |g.operands|, length)), g, n, level, top, length, moved + {u})
  {
    var x := ChainNode(n, |g.operands|, length);
    assert Subst(Subst(g.operands[u], n, x), n, x) == Subst(g.operands[u], n, x);
  }

  /** The uses at the top level keep n, so they need not be moved. */
  lemma ChainedTop(r: Graph, g: Graph, n: NodeId, level: LevelMap, low: nat, top: nat, moved: set<NodeId>)
    requires low <= top && UserLevelsWithin(g, n, level, low, top)
    requires moved == set u: NodeId | u in Users(g, n) && LevelAt(level, u) < top
    requires Chained(r, g, n, level, top, top - low, moved)
    ensures Switched(r, g, n, level, low, top)
  {
    forall u: NodeId | u in Users(g, n) && u !in moved
      ensures Subst(g.operands[u], n, Target(g, n, level, top, u)) == g.operands[u]
    {
      assert Subst(g.operands[u], n, n) == g.operands[u];
    }
  }
}
