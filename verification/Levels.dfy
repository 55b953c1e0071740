/** Levels written back to sources and encode nodes, and the levels checker that recomputes
    them front to back: iyfc/seal/alo/mod_switcher.cpp:49-63, iyfc/seal/alo/levels_checker.cpp. */
module Levels {
  import opened Graphs
  import opened Dags
  import opened Traversals
  import opened Types
  import opened ModSwitchSpec
  import opened ModSwitchers
  import opened ModSwitchPass

  /** EncodeAtLevelAttr; the source subtracts unsigned numbers, kept here as integers so that
      a difference below zero would show. */
  type LevelAttr = map<NodeId, int>

  function AttrAt(attr: LevelAttr, n: NodeId): int
  {
    if n in attr then attr[n] else 0
  }

  ghost predicate IsMaxSourceLevel(sources: set<NodeId>, level: LevelMap, max: nat)
  {
    && (forall s: NodeId :: s in sources ==> LevelAt(level, s) <= max)
    && (max == 0 || exists s: NodeId :: s in sources && LevelAt(level, s) == max)
  }

  /** The destructor of the mod switcher. */
  method AssignLevels(sources: set<NodeId>, encodeNodes: seq<NodeId>, level: LevelMap, attr0: LevelAttr)
    returns (attr: LevelAttr, maxLevel: nat)
    ensures IsMaxSourceLevel(sources, level, maxLevel)
    ensures forall n: NodeId :: n in sources || n in encodeNodes ==> AttrAt(attr, n) == maxLevel - LevelAt(level, n)
    ensures forall n: NodeId :: n !in sources && n !in encodeNodes ==> AttrAt(attr, n) == AttrAt(attr0, n)
  {
    maxLevel := 0;
    var todo := sources;
    while todo != {}
      invariant todo <= sources
      invariant IsMaxSourceLevel(sources - todo, level, maxLevel)
      decreases todo
    {
      var s :| s in todo;
      if LevelAt(level, s) > maxLevel {
        maxLevel := LevelAt(level, s);
      }
      todo := todo - {s};
    }
    assert sources - {} == sources;
    attr := attr0;
    todo := sources;
    while todo != {}
      invariant todo <= sources
      invariant forall n: NodeId :: n in sources - todo ==> AttrAt(attr, n) == maxLevel - LevelAt(level, n)
      invariant forall n: NodeId :: n !in sources - todo ==> AttrAt(attr, n) == AttrAt(attr0, n)
      decreases todo
    {
      var s :| s in todo;
      attr := attr[s := maxLevel - LevelAt(level, s)];
      todo := todo - {s};
    }
    for i := 0 to |encodeNodes|
      invariant forall n: NodeId :: n in sources || n in encodeNodes[..i] ==>
        AttrAt(attr, n) == maxLevel - LevelAt(level, n)
      invariant forall n: NodeId :: n !in sources && n !in encodeNodes[..i] ==> AttrAt(attr, n) == AttrAt(attr0, n)
    {
      assert encodeNodes[..i+1] == encodeNodes[..i] + [encodeNodes[i]];
      attr := attr[encodeNodes[i] := maxLevel - LevelAt(level, encodeNodes[i])];
    }
    assert encodeNodes[..|encodeNodes|] == encodeNodes;
  }

  // ----- the checker -----

  /** Level of the first encrypted operand, 0 without one. */
  function OperandLevel(operands: seq<NodeId>, types: TypeMap, levels: LevelAttr): int
  {
    if operands == [] then 0
    else if TypeAt(types, operands[0]) == Cipher then AttrAt(levels, operands[0])
    else OperandLevel(operands[1..], types, levels)
  }

  function CheckedLevel(g: Graph, types: TypeMap, attr: LevelAttr, levels: LevelAttr, n: NodeId): int
    requires n < |g.operands| && n < |g.op|
  {
    if g.operands[n] == [] then AttrAt(attr, n)
    else OperandLevel(g.operands[n], types, levels) + Consumes(g.op[n])
  }

  /** levels is what the checker computes from the level attributes. */
  ghost predicate Checked(g: Graph, types: TypeMap, attr: LevelAttr, levels: LevelAttr)
  {
    && |g.op| == |g.operands|
    && forall n: NodeId :: Live(g, n) ==> AttrAt(levels, n) == CheckedLevel(g, types, attr, levels, n)
  }

  /** The checker's assertion at node n: all encrypted operands are at the same level. */
  ghost predicate LevelsMatch(g: Graph, types: TypeMap, levels: LevelAttr, n: NodeId)
    requires n < |g.operands|
  {
    forall i: nat :: i < |g.operands[n]| && TypeAt(types, g.operands[n][i]) == Cipher ==>
      AttrAt(levels, g.operands[n][i]) == OperandLevel(g.operands[n], types, levels)
  }

  lemma {:induction false} OperandLevelAgrees(operands: seq<NodeId>, types: TypeMap, levels: LevelAttr, l: int)
    requires forall i: nat :: i < |operands| && TypeAt(types, operands[i]) == Cipher ==>
      AttrAt(levels, operands[i]) == l
    requires exists i: nat :: i < |operands| && TypeAt(types, operands[i]) == Cipher
    ensures OperandLevel(operands, types, levels) == l
  {
    if TypeAt(types, operands[0]) != Cipher {
      var i: nat :| i < |operands| && TypeAt(types, operands[i]) == Cipher;
      assert operands[1..][i-1] == operands[i];
      OperandLevelAgrees(operands[1..], types, levels, l);
    }
  }

  /** The forward level of every encrypted node is the maximum level minus its reverse level,
      one more for a node that consumes a prime itself. */
  lemma {:induction false} ForwardLevel(g: Graph, rank: seq<nat>, types: TypeMap, level: LevelMap, max: nat,
                                        attr: LevelAttr, levels: LevelAttr, n: NodeId)
    requires WellFormed(g) && Ranked(g, rank) && SourceArity(g) && Typed(g, types) && EdgesLevelled(g, types, level)
    requires forall s: NodeId :: s in g.sources ==> AttrAt(attr, s) == max - LevelAt(level, s)
    requires Checked(g, types, attr, levels)
    requires Live(g, n) && TypeAt(types, n) == Cipher
    ensures AttrAt(levels, n) + LevelAt(level, n) == max + Consumes(g.op[n])
    decreases rank[n]
  {
    if g.operands[n] != [] {
      forall i: nat | i < |g.operands[n]| && TypeAt(types, g.operands[n][i]) == Cipher
        ensures AttrAt(levels, g.operands[n][i]) == max - LevelAt(level, n)
      {
        var p := g.operands[n][i];
        assert Live(g, p);
        ForwardLevel(g, rank, types, level, max, attr, levels, p);
        assert EdgeLevel(g, level, n, p);
      }
      OperandLevelAgrees(g.operands[n], types, levels, max - LevelAt(level, n));
    }
  }

  /** The assertion of the levels checker cannot fail. */
  lemma LevelsNeverMismatch(g: Graph, types: TypeMap, level: LevelMap, max: nat,
                            attr: LevelAttr, levels: LevelAttr, n: NodeId)
    requires WellFormed(g) && Acyclic(g) && SourceArity(g) && Typed(g, types) && EdgesLevelled(g, types, level)
    requires forall s: NodeId :: s in g.sources ==> AttrAt(attr, s) == max - LevelAt(level, s)
    requires Checked(g, types, attr, levels) && Live(g, n)
    ensures LevelsMatch(g, types, levels, n)
  {
    var rank :| Ranked(g, rank);
    forall i: nat | i < |g.operands[n]| && TypeAt(types, g.operands[n][i]) == Cipher
      ensures AttrAt(levels, g.operands[n][i]) == max - LevelAt(level, n)
    {
      var p := g.operands[n][i];
      assert Live(g, p);
      ForwardLevel(g, rank, types, level, max, attr, levels, p);
      assert EdgeLevel(g, level, n, p);
    }
    if exists i: nat :: i < |g.operands[n]| && TypeAt(types, g.operands[n][i]) == Cipher {
      OperandLevelAgrees(g.operands[n], types, levels, max - LevelAt(level, n));
    }
  }

  /** Nodes at reverse level zero, encrypted outputs in particular, end at the maximum level. */
  lemma SinksAtMaxLevel(g: Graph, types: TypeMap, level: LevelMap, max: nat,
                        attr: LevelAttr, levels: LevelAttr, n: NodeId)
    requires WellFormed(g) && Acyclic(g) && SourceArity(g) && Typed(g, types) && EdgesLevelled(g, types, level)
    requires forall s: NodeId :: s in g.sources ==> AttrAt(attr, s) == max - LevelAt(level, s)
    requires Checked(g, types, attr, levels)
    requires Live(g, n) && TypeAt(types, n) == Cipher && LevelAt(level, n) == 0 && !g.op[n].Rescale?
      && !g.op[n].ModSwitch?
    ensures AttrAt(levels, n) == max
  {
    var rank :| Ranked(g, rank);
    ForwardLevel(g, rank, types, level, max, attr, levels, n);
  }

  /** An encode node is encoded at the level of the ciphertext it meets. */
  lemma EncodeMeetsCipher(g: Graph, types: TypeMap, level: LevelMap, max: nat,
                          attr: LevelAttr, levels: LevelAttr, e: NodeId, u: NodeId, i: nat, j: nat)
    requires WellFormed(g) && Acyclic(g) && SourceArity(g) && Typed(g, types) && EdgesLevelled(g, types, level)
    requires forall s: NodeId :: s in g.sources ==> AttrAt(attr, s) == max - LevelAt(level, s)
    requires Checked(g, types, attr, levels)
    requires u < |g.operands| && i < |g.operands[u]| && j < |g.operands[u]|
    requires g.operands[u][i] == e && e < |g.op| && g.op[e].Encode? && TypeAt(types, e) == Plain
    requires AttrAt(attr, e) == max - LevelAt(level, e)
    requires TypeAt(types, g.operands[u][j]) == Cipher
    ensures AttrAt(attr, e) == AttrAt(levels, g.operands[u][j])
  {
    var rank :| Ranked(g, rank);
    var c := g.operands[u][j];
    assert Live(g, c);
    ForwardLevel(g, rank, types, level, max, attr, levels, c);
    assert EdgeLevel(g, level, u, c);
    assert EdgeLevel(g, level, u, e);
  }

  /** No source of the ciphertexts meeting at a node is deeper than the maximum, so the levels
      assigned to encrypted nodes and to the encodes they meet are not negative. */
  lemma {:induction false} CipherLevelBounded(g: Graph, rank: seq<nat>, types: TypeMap, level: LevelMap, max: nat,
                                              n: NodeId)
    requires WellFormed(g) && Ranked(g, rank) && SourceArity(g) && Typed(g, types) && EdgesLevelled(g, types, level)
    requires IsMaxSourceLevel(g.sources, level, max)
    requires Live(g, n) && TypeAt(types, n) == Cipher
    ensures LevelAt(level, n) <= max
    decreases rank[n]
  {
    if g.operands[n] != [] {
      var i: nat :| i < |g.operands[n]| && TypeAt(types, g.operands[n][i]) == Cipher;
      assert Live(g, g.operands[n][i]);
      CipherLevelBounded(g, rank, types, level, max, g.operands[n][i]);
      assert EdgeLevel(g, level, n, g.operands[n][i]);
    }
  }

  /** The checker at one node: its level, and whether the assertion holds. */
  method CheckNode(d: Dag, types: TypeMap, attr: LevelAttr, levels: LevelAttr, n: NodeId) returns (level: int, ok: bool)
    requires d.Valid() && Live(d.G(), n)
    ensures level == CheckedLevel(d.G(), types, attr, levels, n)
    ensures ok <==> LevelsMatch(d.G(), types, levels, n)
  {
    if |d.operands[n]| == 0 {
      return AttrAt(attr, n), true;
    }
    var operands := d.operands[n];
    var opLevel := 0;
    var i := 0;
    while i < |operands|
      invariant i <= |operands|
      invariant OperandLevel(operands, types, levels) == if i < |operands| then OperandLevel(operands[i..], types,
        levels) else 0
      invariant opLevel == 0
    {
      if TypeAt(types, operands[i]) == Cipher {
        opLevel := AttrAt(levels, operands[i]);
        break;
      }
      i := i + 1;
    }
    assert opLevel == OperandLevel(operands, types, levels);
    ok := true;
    for k := 0 to |operands|
      invariant ok <==> forall j: nat :: j < k && TypeAt(types, operands[j]) == Cipher ==>
        AttrAt(levels, operands[j]) == opLevel
    {
      if TypeAt(types, operands[k]) == Cipher && AttrAt(levels, operands[k]) != opLevel {
        ok := false;
      }
    }
    level := opLevel + if d.op[n].Rescale? || d.op[n].ModSwitch? then 1 else 0;
  }

  ghost predicate CheckedUpTo(g: Graph, types: TypeMap, attr: LevelAttr, levels: LevelAttr, order: seq<NodeId>, k: nat)
    requires k <= |order|
  {
    forall j: nat :: j < k ==>
      order[j] < |g.operands| && order[j] < |g.op|
        && AttrAt(levels, order[j]) == CheckedLevel(g, types, attr, levels, order[j])
  }

  ghost predicate MatchUpTo(g: Graph, types: TypeMap, levels: LevelAttr, order: seq<NodeId>, k: nat)
    requires k <= |order|
  {
    forall j: nat :: j < k ==> order[j] < |g.operands| && LevelsMatch(g, types, levels, order[j])
  }

  lemma OperandLevelFrame(operands: seq<NodeId>, types: TypeMap, levels: LevelAttr, levels': LevelAttr)
    requires forall i: nat :: i < |operands| ==> AttrAt(levels, operands[i]) == AttrAt(levels', operands[i])
    ensures OperandLevel(operands, types, levels) == OperandLevel(operands, types, levels')
  {
  }

  /** Nodes already checked do not look at the one checked next. */
  lemma CheckFrame(g: Graph, types: TypeMap, attr: LevelAttr, levels: LevelAttr, order: seq<NodeId>, k: nat,
                   level: int, j: nat)
    requires WellFormed(g) && j <= k < |order| && TopologicalOrder(g.operands, LiveNodes(g), order)
    ensures order[j] < |g.operands|
    ensures CheckedLevel(g, types, attr, levels[order[k] := level], order[j]) == CheckedLevel(g, types, attr, levels,
      order[j])
         || (j == k && g.operands[order[j]] == [])
    ensures g.operands[order[j]] == [] ==>
      CheckedLevel(g, types, attr, levels[order[k] := level], order[j]) == CheckedLevel(g, types, attr, levels,
        order[j])
    ensures LevelsMatch(g, types, levels[order[k] := level], order[j]) <==> LevelsMatch(g, types, levels, order[j])
  {
    var levels' := levels[order[k] := level];
    forall i: nat | i < |g.operands[order[j]]|
      ensures g.operands[order[j]][i] != order[k]
    {
      assert g.operands[order[j]][i] in Elems(order[..j]);
      var m :| 0 <= m < j && order[..j][m] == g.operands[order[j]][i];
      assert order[m] != order[k];
    }
    OperandLevelFrame(g.operands[order[j]], types, levels, levels');
  }

  lemma CheckStep(g: Graph, types: TypeMap, attr: LevelAttr, levels: LevelAttr, order: seq<NodeId>, k: nat,
                  level: int, ok: bool, match': bool)
    requires WellFormed(g) && k < |order| && TopologicalOrder(g.operands, LiveNodes(g), order)
    requires order[k] < |g.operands| && level == CheckedLevel(g, types, attr, levels, order[k])
    requires match' <==> LevelsMatch(g, types, levels, order[k])
    requires CheckedUpTo(g, types, attr, levels, order, k)
    requires ok <==> MatchUpTo(g, types, levels, order, k)
    ensures CheckedUpTo(g, types, attr, levels[order[k] := level], order, k + 1)
    ensures (ok && match') <==> MatchUpTo(g, types, levels[order[k] := level], order, k + 1)
  {
    var levels' := levels[order[k] := level];
    forall j: nat | j <= k
      ensures order[j] < |g.operands| && AttrAt(levels', order[j]) == CheckedLevel(g, types, attr, levels', order[j])
      ensures LevelsMatch(g, types, levels', order[j]) <==> LevelsMatch(g, types, levels, order[j])
    {
      CheckFrame(g, types, attr, levels, order, k, level, j);
    }
  }

  /** The forward pass of the levels checker; ok tells whether every assertion held. */
  method CheckLevels(d: Dag, types: TypeMap, attr: LevelAttr) returns (levels: LevelAttr, ok: bool)
    requires d.Valid() && Acyclic(d.G())
    ensures Checked(d.G(), types, attr, levels)
    ensures ok <==> forall n: NodeId :: Live(d.G(), n) ==> LevelsMatch(d.G(), types, levels, n)
  {
    levels, ok := map[], true;
    var order := ForwardOrder(d);
    for k := 0 to |order|
      invariant CheckedUpTo(d.G(), types, attr, levels, order, k)
      invariant ok <==> MatchUpTo(d.G(), types, levels, order, k)
    {
      assert order[k] in Elems(order);
      var level, match' := CheckNode(d, types, attr, levels, order[k]);
      CheckStep(d.G(), types, attr, levels, order, k, level, ok, match');
      levels := levels[order[k] := level];
      ok := ok && match';
    }
    forall n: NodeId | Live(d.G(), n)
      ensures exists j: nat :: j < |order| && order[j] == n
    {
      assert n in Elems(order);
    }
    forall j: nat | j < |order|
      ensures Live(d.G(), order[j])
    {
      assert order[j] in Elems(order);
    }
  }
}
