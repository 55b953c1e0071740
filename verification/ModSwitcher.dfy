/** One visit of the backward mod-switch pass, iyfc/seal/alo/mod_switcher.cpp. */
module ModSwitchers {
  import opened Graphs
  import opened Dags
  import opened Traversals
  import opened Types
  import opened ModSwitchSpec

  type ScaleMap = map<NodeId, nat>

  function ScaleAt(scale: ScaleMap, n: NodeId): nat
  {
    if n in scale then scale[n] else 0
  }

  function WithScale(scale: ScaleMap, n: NodeId, s: nat): (r: ScaleMap)
    ensures forall p: NodeId :: ScaleAt(r, p) == if p == n then s else ScaleAt(scale, p)
  {
    scale[n := s]
  }

  /** Rescaling and mod-switching consume a prime of the modulus chain. */
  function Consumes(op: Op): nat
  {
    if op.Rescale? || op.ModSwitch? then 1 else 0
  }

  /** Levels of old nodes below base are those of level0; chain node x has level top - (x - base). */
  ghost predicate ChainLevels(level: LevelMap, level0: LevelMap, base: NodeId, top: nat, length: nat)
  {
    && (forall x: NodeId :: x < base ==> LevelAt(level, x) == LevelAt(level0, x))
    && (forall x: NodeId :: base <= x < base + length ==> LevelAt(level, x) == top - (x - base))
    && (forall x: NodeId :: x in level ==> x < base + length)
  }

  lemma MaxExists(s: set<nat>)
    requires s != {}
    ensures exists m: nat :: m in s && forall k: nat :: k in s ==> k <= m
  {
    var x :| x in s;
    if s != {x} {
      MaxExists(s - {x});
      var m: nat :| m in s - {x} && forall k: nat :: k in s - {x} ==> k <= m;
      var top := if m < x then x else m;
      forall k: nat | k in s
        ensures k <= top
      {
        assert k == x || k in s - {x};
      }
      assert top in s;
    } else {
      assert forall k: nat :: k in s ==> k <= x;
    }
  }

  class ModSwitcher {
    var level: LevelMap
    var scale: ScaleMap
    var encodeNodes: seq<NodeId>

    constructor (scale0: ScaleMap)
      ensures level == map[] && scale == scale0 && encodeNodes == []
    {
      level, scale, encodeNodes := map[], scale0, [];
    }

    method InsertModSwitchNode(d: Dag, node: NodeId, nodeLevel: nat) returns (x: NodeId)
      requires d.Valid() && Live(d.G(), node)
      modifies this`level, this`scale, d
      ensures d.Valid() && x == old(|d.operands|)
      ensures d.G() == AddNode(old(d.G()), ModSwitch, [node])
      ensures level == old(level)[x := nodeLevel]
      ensures scale == old(scale)[x := ScaleAt(old(scale), node)]
    {
      x := d.MakeNode(ModSwitch, [node]);
      scale := scale[x := ScaleAt(scale, node)];
      level := level[x := nodeLevel];
    }

    /** map_use_levels: the uses of a node by their level. */
    method GroupUses(d: Dag, node: NodeId) returns (groups: map<nat, seq<NodeId>>)
      requires node < |d.uses|
      ensures forall l: nat :: l in groups ==> groups[l] != []
      ensures forall l: nat, i: nat :: l in groups && i < |groups[l]| ==>
        groups[l][i] in d.uses[node] && LevelAt(level, groups[l][i]) == l
      ensures forall u: NodeId :: u in d.uses[node] ==> LevelAt(level, u) in groups && u in groups[LevelAt(level, u)]
    {
      groups := map[];
      for k := 0 to |d.uses[node]|
        invariant forall l: nat :: l in groups ==> groups[l] != []
        invariant forall l: nat, i: nat :: l in groups && i < |groups[l]| ==>
          groups[l][i] in d.uses[node] && LevelAt(level, groups[l][i]) == l
        invariant forall j: nat :: j < k ==>
          LevelAt(level, d.uses[node][j]) in groups && d.uses[node][j] in groups[LevelAt(level, d.uses[node][j])]
      {
        var u := d.uses[node][k];
        var l := LevelAt(level, u);
        groups := groups[l := (if l in groups then groups[l] else []) + [u]];
      }
    }

    /** Extends the chain from level tempLevel down to the expected level. */
    method Descend(d: Dag, temp0: NodeId, tempLevel0: nat, expected: nat,
                   ghost g: Graph, ghost n: NodeId, ghost level0: LevelMap, ghost top: nat, ghost moved: set<NodeId>)
      returns (temp: NodeId)
      requires d.Valid() && WellFormed(g) && Live(g, n)
      requires expected <= tempLevel0 <= top
      requires Chained(d.G(), g, n, level0, top, top - tempLevel0, moved)
      requires temp0 == ChainNode(n, |g.operands|, top - tempLevel0) && Live(d.G(), temp0)
      requires ChainLevels(level, level0, |g.operands|, top, top - tempLevel0)
      modifies this`level, this`scale, d
      ensures d.Valid()
      ensures Chained(d.G(), g, n, level0, top, top - expected, moved)
      ensures temp == ChainNode(n, |g.operands|, top - expected) && Live(d.G(), temp)
      ensures ChainLevels(level, level0, |g.operands|, top, top - expected)
    {
      hide Chained, ChainLevels, WellFormed, UsesInverse, SinksMatch, Erased, Live;
      temp := temp0;
      var tempLevel := tempLevel0;
      while tempLevel > expected
        invariant expected <= tempLevel <= top
        invariant d.Valid()
        invariant Chained(d.G(), g, n, level0, top, top - tempLevel, moved)
        invariant temp == ChainNode(n, |g.operands|, top - tempLevel) && Live(d.G(), temp)
        invariant ChainLevels(level, level0, |g.operands|, top, top - tempLevel)
      {
        DescendStep(d.G(), g, n, level0, level, top, top - tempLevel, moved);
        temp := InsertModSwitchNode(d, temp, tempLevel);
        tempLevel := tempLevel - 1;
      }
    }

    /** Redirects the uses of one level to the current end of the chain. */
    method MoveGroup(d: Dag, n: NodeId, users: seq<NodeId>, temp: NodeId,
                     ghost g: Graph, ghost level0: LevelMap, ghost top: nat, ghost expected: nat,
                     ghost moved: set<NodeId>)
      requires d.Valid() && n < |g.operands|
      requires expected < top
      requires Chained(d.G(), g, n, level0, top, top - expected, moved)
      requires temp == ChainNode(n, |g.operands|, top - expected) && Live(d.G(), temp)
      requires forall i: nat :: i < |users| ==> users[i] < |g.operands| && LevelAt(level0, users[i]) == expected
      modifies d
      ensures d.Valid()
      ensures Chained(d.G(), g, n, level0, top, top - expected, moved + Elems(users))
      ensures Live(d.G(), temp)
    {
      hide Chained, UsesInverse, SinksMatch, Erased, WellFormed, Live, ReplaceIn;
      ghost var done := moved;
      assert moved + Elems(users[..0]) == moved;
      for i := 0 to |users|
        invariant done == moved + Elems(users[..i])
        invariant d.Valid() && Live(d.G(), temp)
        invariant Chained(d.G(), g, n, level0, top, top - expected, done)
      {
        ChainedCount(d.G(), g, n, level0, top, top - expected, done);
        ChainedMove(d.G(), g, n, level0, top, top - expected, done, users[i]);
        ReplaceWellFormed(d.G(), users[i], n, temp);
        var _ := d.ReplaceOperand(users[i], n, temp);
        PrefixElems(users, i);
        done := done + {users[i]};
      }
      assert users[..|users|] == users;
    }

    /** Serves the highest remaining level. */
    method ServeGroup(d: Dag, node: NodeId, groups: map<nat, seq<NodeId>>, top: nat, remaining: set<nat>,
                      temp0: NodeId, tempLevel: nat, expected: nat, ghost g: Graph, ghost level0: LevelMap)
      returns (temp: NodeId)
      requires d.Valid() && WellFormed(g) && Live(g, node) && GroupsUses(g, node, level0, groups)
      requires expected in remaining && forall k: nat :: k in remaining ==> k <= expected
      requires Serving(d.G(), g, node, level0, level, groups, top, remaining, temp0, tempLevel)
      modifies this`level, this`scale, d
      ensures d.Valid()
      ensures Serving(d.G(), g, node, level0, level, groups, top, remaining - {expected}, temp, expected)
    {
      ghost var moved := UsersServed(g, node, level0, top, remaining);
      GroupInRange(g, node, level0, groups, expected);
      ServingFacts(d.G(), g, node, level0, level, groups, top, remaining, temp0, tempLevel, expected);
      hide *;
      temp := Descend(d, temp0, tempLevel, expected, g, node, level0, top, moved);
      MoveGroup(d, node, groups[expected], temp, g, level0, top, expected, moved);
      ServingStep(d.G(), g, node, level0, level, groups, top, remaining, expected, temp);
    }

    /** Serves the levels below top from the highest to the lowest. */
    method SwitchGroups(d: Dag, node: NodeId, groups: map<nat, seq<NodeId>>, top: nat)
      returns (ghost low: nat)
      requires d.Valid() && Live(d.G(), node)
      requires GroupsUses(d.G(), node, level, groups) && top in groups
      requires forall l: nat :: l in groups ==> l <= top
      requires forall x: NodeId :: x in level ==> x < |d.operands|
      modifies this`level, this`scale, d
      ensures d.Valid()
      ensures low in groups && low <= top
      ensures Switched(d.G(), old(d.G()), node, old(level), low, top) && |d.G().operands| == |d.operands|
      ensures ChainLevels(level, old(level), old(|d.operands|), top, top - low)
    {
      ghost var g, level0 := d.G(), level;
      var remaining, temp, tempLevel := groups.Keys - {top}, node, top;
      ServingStart(g, node, level, groups, top);
      while remaining != {}
        invariant d.Valid()
        invariant Serving(d.G(), g, node, level0, level, groups, top, remaining, temp, tempLevel)
        decreases remaining
      {
        hide *;
        MaxExists(remaining);
        var expected: nat :| expected in remaining && forall k: nat :: k in remaining ==> k <= expected;
        temp := ServeGroup(d, node, groups, top, remaining, temp, tempLevel, expected, g, level0);
        tempLevel, remaining := expected, remaining - {expected};
      }
      low := tempLevel;
      ServingEnd(d.G(), g, node, level0, level, groups, top, temp, low);
    }

    /** The visit of a node that has uses and is not raw. */
    method SwitchUses(d: Dag, node: NodeId) returns (ghost low: nat, ghost top: nat)
      requires d.Valid() && Live(d.G(), node) && Users(d.G(), node) != {}
      requires forall x: NodeId :: x in level ==> x < |d.operands|
      modifies this`level, this`scale, d
      ensures d.Valid()
      ensures Extremes(old(d.G()), node, old(level), low, top)
      ensures Switched(d.G(), old(d.G()), node, old(level), low, top)
      ensures VisitLevels(level, old(level), old(d.G()), node, low, top)
      ensures forall x: NodeId :: x in level ==> x < |d.operands|
    {
      ghost var g, level0 := d.G(), level;
      var isRescale := d.op[node].Rescale?;
      assert UsesInverse(g.operands, d.uses) && node < |d.uses| && |g.op| == |g.operands|;
      assert isRescale == g.op[node].Rescale?;
      hide *;
      var groups := GroupUses(d, node);
      GroupsCover(g, d.uses, node, level, groups);
      SomeGroup(g, node, level, groups);
      assert |groups| > 1 || |groups| == 1;
      var nodeLevel := HighestLevel(groups);
      top := nodeLevel;
      low := SwitchGroups(d, node, groups, nodeLevel);
      VisitEnd(d.G(), g, node, level0, level, groups, low, top);
      SetLevel(node, nodeLevel, isRescale);
    }

    /** A rescale sits one level above its uses. */
    method SetLevel(node: NodeId, usesLevel: nat, isRescale: bool)
      modifies this`level
      ensures level == old(level)[node := usesLevel + if isRescale then 1 else 0]
    {
      var nodeLevel := usesLevel;
      if isRescale {
        nodeLevel := nodeLevel + 1;
      }
      level := level[node := nodeLevel];
    }

    method HighestLevel(groups: map<nat, seq<NodeId>>) returns (top: nat)
      requires groups != map[]
      ensures top in groups && forall l: nat :: l in groups ==> l <= top
    {
      MaxExists(groups.Keys);
      top :| top in groups.Keys && forall k: nat :: k in groups.Keys ==> k <= top;
    }

    /** The visit: nodes without uses and raw nodes are left alone. */
    method Visit(d: Dag, types: TypeMap, node: NodeId) returns (ghost low: nat, ghost top: nat)
      requires d.Valid() && node < |d.operands|
      requires forall x: NodeId :: x in level ==> x < |d.operands|
      modifies this, d
      ensures d.Valid()
      ensures Skipped(old(d.G()), types, node) ==> d.G() == old(d.G()) && level == old(level)
      ensures !Skipped(old(d.G()), types, node) ==>
        && Extremes(old(d.G()), node, old(level), low, top)
        && Switched(d.G(), old(d.G()), node, old(level), low, top)
        && VisitLevels(level, old(level), old(d.G()), node, low, top)
      ensures forall x: NodeId :: x in level ==> x < |d.operands|
      ensures encodeNodes == if !Skipped(old(d.G()), types, node)
        && old(d.op[node]).Encode? then old(encodeNodes) + [node]
                             else old(encodeNodes)
    {
      low, top := 0, 0;
      ghost var g := d.G();
      if d.uses[node] == [] {
        NoUsers(g, d.uses, node);
        return;
      }
      UsersAreUses(d.operands, d.uses, node, d.uses[node][0]);
      assert d.uses[node][0] in Users(g, node);
      UsedIsLive(g, node);
      if TypeAt(types, node) == Raw { return; }
      hide Extremes, VisitLevels, UsesInverse, SinksMatch;
      if d.op[node].Encode? {
        encodeNodes := encodeNodes + [node];
      }
      low, top := SwitchUses(d, node);
    }
  }

  /** One more mod-switch at the end of the chain. */
  lemma DescendStep(r: Graph, g: Graph, n: NodeId, level0: LevelMap, level: LevelMap, top: nat, length: nat,
                    moved: set<NodeId>)
    requires WellFormed(g) && WellFormed(r) && Live(g, n) && length < top
      && Chained(r, g, n, level0, top, length, moved)
    requires Live(r, ChainNode(n, |g.operands|, length)) && ChainLevels(level, level0, |g.operands|, top, length)
    ensures var x, r' := |r.operands|, AddNode(r, ModSwitch, [ChainNode(n, |g.operands|, length)]);
      && Chained(r', g, n, level0, top, length + 1, moved) && Live(r', x) && x == ChainNode(n, |g.operands|, length + 1)
      && ChainLevels(level[x := top - length], level0, |g.operands|, top, length + 1)
  {
    hide Chained, ChainLevels, WellFormed;
    OpsMatch(g);
    ChainedGrow(r, g, n, level0, top, length, moved);
    ChainedCount(r, g, n, level0, top, length, moved);
    ChainLevelsGrow(level, level0, |g.operands|, top, length);
  }

  lemma OpsMatch(g: Graph)
    requires WellFormed(g)
    ensures |g.op| == |g.operands|
  {
  }

  lemma ChainLevelsGrow(level: LevelMap, level0: LevelMap, base: NodeId, top: nat, length: nat)
    requires ChainLevels(level, level0, base, top, length) && length < top
    ensures ChainLevels(level[base + length := top - length], level0, base, top, length + 1)
  {
    var level' := level[base + length := top - length];
    assert forall x: NodeId :: LevelAt(level', x) == if x == base + length then top - length else LevelAt(level, x);
  }

  lemma PrefixElems(users: seq<NodeId>, i: nat)
    requires i < |users|
    ensures Elems(users[..i+1]) == Elems(users[..i]) + {users[i]}
  {
    assert users[..i+1] == users[..i] + [users[i]];
    ElemsAppend(users[..i], users[i]);
  }

  ghost predicate GroupsUses(g: Graph, node: NodeId, level: LevelMap, groups: map<nat, seq<NodeId>>)
  {
    && (forall l: nat :: l in groups ==> groups[l] != [])
    && (forall l: nat, i: nat :: l in groups && i < |groups[l]| ==>
          groups[l][i] in Users(g, node) && LevelAt(level, groups[l][i]) == l)
    && (forall u: NodeId :: u in Users(g, node) ==> LevelAt(level, u) in groups && u in groups[LevelAt(level, u)])
  }

  /** Uses below the top level whose group has been dealt with. */
  ghost function UsersServed(g: Graph, node: NodeId, level: LevelMap, top: nat, remaining: set<nat>): set<NodeId>
  {
    set u: NodeId | u in Users(g, node) && LevelAt(level, u) < top && LevelAt(level, u) !in remaining
  }

  /** The loop state while the uses of node are being moved, level by level. */
  ghost predicate Serving(r: Graph, g: Graph, node: NodeId, level0: LevelMap, level: LevelMap,
                          groups: map<nat, seq<NodeId>>, top: nat, remaining: set<nat>, temp: NodeId, tempLevel: nat)
  {
    && tempLevel in groups && tempLevel <= top
    && (forall l: nat :: l in remaining ==> l in groups && l < tempLevel)
    && (forall l: nat :: l in groups ==> tempLevel <= l <= top || l in remaining)
    && Chained(r, g, node, level0, top, top - tempLevel, UsersServed(g, node, level0, top, remaining))
    && temp == ChainNode(node, |g.operands|, top - tempLevel) && Live(r, temp)
    && ChainLevels(level, level0, |g.operands|, top, top - tempLevel)
  }

  lemma ServingStart(g: Graph, node: NodeId, level: LevelMap, groups: map<nat, seq<NodeId>>, top: nat)
    requires GroupsUses(g, node, level, groups) && top in groups && Live(g, node)
    requires forall l: nat :: l in groups ==> l <= top
    requires forall x: NodeId :: x in level ==> x < |g.operands|
    ensures Serving(g, g, node, level, level, groups, top, groups.Keys - {top}, node, top)
  {
    assert UsersServed(g, node, level, top, groups.Keys - {top}) == {};
  }

  lemma ServingFacts(r: Graph, g: Graph, node: NodeId, level0: LevelMap, level: LevelMap,
                     groups: map<nat, seq<NodeId>>, top: nat, remaining: set<nat>, temp: NodeId, tempLevel: nat,
                     expected: nat)
    requires Serving(r, g, node, level0, level, groups, top, remaining, temp, tempLevel) && expected in remaining
    ensures expected in groups && expected < tempLevel <= top
    ensures Chained(r, g, node, level0, top, top - tempLevel, UsersServed(g, node, level0, top, remaining))
    ensures temp == ChainNode(node, |g.operands|, top - tempLevel) && Live(r, temp)
    ensures ChainLevels(level, level0, |g.operands|, top, top - tempLevel)
    ensures forall l: nat :: l in remaining ==> l in groups
    ensures forall l: nat :: l in groups ==> tempLevel <= l <= top || l in remaining
  {
  }

  lemma ServingStep(r: Graph, g: Graph, node: NodeId, level0: LevelMap, level: LevelMap,
                    groups: map<nat, seq<NodeId>>, top: nat, remaining: set<nat>, expected: nat, temp: NodeId)
    requires GroupsUses(g, node, level0, groups) && expected in remaining && expected in groups && expected < top
    requires forall k: nat :: k in remaining ==> k <= expected
    requires forall l: nat :: l in remaining ==> l in groups
    requires forall l: nat :: l in groups ==> expected <= l <= top || l in remaining
    requires Chained(r, g, node, level0, top, top - expected,
                     UsersServed(g, node, level0, top, remaining) + Elems(groups[expected]))
    requires temp == ChainNode(node, |g.operands|, top - expected) && Live(r, temp)
    requires ChainLevels(level, level0, |g.operands|, top, top - expected)
    ensures Serving(r, g, node, level0, level, groups, top, remaining - {expected}, temp, expected)
  {
    ServedStep(g, node, level0, groups, top, remaining, expected);
  }

  lemma ServingEnd(r: Graph, g: Graph, node: NodeId, level0: LevelMap, level: LevelMap,
                   groups: map<nat, seq<NodeId>>, top: nat, temp: NodeId, low: nat)
    requires Serving(r, g, node, level0, level, groups, top, {}, temp, low) && GroupsUses(g, node, level0, groups)
    ensures Switched(r, g, node, level0, low, top)
  {
    ChainedTop(r, g, node, level0, low, top, UsersServed(g, node, level0, top, {}));
  }

  lemma VisitEnd(r: Graph, g: Graph, node: NodeId, level0: LevelMap, level: LevelMap,
                 groups: map<nat, seq<NodeId>>, low: nat, top: nat)
    requires GroupsUses(g, node, level0, groups) && low in groups && top in groups && low <= top
    requires node < |g.op| && |g.op| == |g.operands|
    requires Switched(r, g, node, level0, low, top)
    requires ChainLevels(level, level0, |g.operands|, top, top - low)
    ensures Extremes(g, node, level0, low, top)
    ensures var level' := level[node := top + if g.op[node].Rescale? then 1 else 0];
            VisitLevels(level', level0, g, node, low, top)
            && forall x: NodeId :: x in level' ==> x < |r.operands|
  {
    var level' := level[node := top + if g.op[node].Rescale? then 1 else 0];
    assert forall x: NodeId :: x != node ==> LevelAt(level', x) == LevelAt(level, x);
    GroupsAttained(g, node, level0, groups, low);
    GroupsAttained(g, node, level0, groups, top);
  }

  ghost predicate Skipped(g: Graph, types: TypeMap, node: NodeId)
  {
    Users(g, node) == {} || TypeAt(types, node) == Raw
  }

  /** low and top are the least and greatest levels among the uses of n. */
  ghost predicate Extremes(g: Graph, n: NodeId, level: LevelMap, low: nat, top: nat)
  {
    && low <= top && UserLevelsWithin(g, n, level, low, top)
    && (exists u: NodeId :: u in Users(g, n) && LevelAt(level, u) == low)
    && (exists u: NodeId :: u in Users(g, n) && LevelAt(level, u) == top)
  }

  ghost predicate VisitLevels(level': LevelMap, level: LevelMap, g: Graph, n: NodeId, low: nat, top: nat)
    requires n < |g.op| && low <= top
  {
    && (forall x: NodeId :: x < |g.operands| && x != n ==> LevelAt(level', x) == LevelAt(level, x))
    && (forall x: NodeId :: |g.operands| <= x < |g.operands| + (top - low) ==>
          LevelAt(level', x) == top - (x - |g.operands|))
    && LevelAt(level', n) == top + if g.op[n].Rescale? then 1 else 0
  }

  lemma NoUsers(g: Graph, uses: seq<seq<NodeId>>, node: NodeId)
    requires UsesInverse(g.operands, uses) && node < |g.operands| && uses[node] == []
    ensures Users(g, node) == {}
  {
    forall u: NodeId | u < |g.operands|
      ensures node !in g.operands[u]
    {
      UsersAreUses(g.operands, uses, node, u);
    }
  }

  lemma SomeGroup(g: Graph, node: NodeId, level: LevelMap, groups: map<nat, seq<NodeId>>)
    requires GroupsUses(g, node, level, groups) && Users(g, node) != {}
    ensures groups != map[]
  {
    var u :| u in Users(g, node);
    assert LevelAt(level, u) in groups;
  }

  lemma UsedIsLive(g: Graph, n: NodeId)
    requires WellFormed(g) && Users(g, n) != {}
    ensures Live(g, n)
  {
    var u :| u in Users(g, n);
    var i :| 0 <= i < |g.operands[u]| && g.operands[u][i] == n;
    assert Live(g, g.operands[u][i]);
  }

  lemma GroupInRange(g: Graph, node: NodeId, level: LevelMap, groups: map<nat, seq<NodeId>>, l: nat)
    requires GroupsUses(g, node, level, groups) && l in groups
    ensures forall i: nat :: i < |groups[l]| ==> groups[l][i] < |g.operands| && LevelAt(level, groups[l][i]) == l
  {
    forall i: nat | i < |groups[l]|
      ensures groups[l][i] < |g.operands|
    {
      assert groups[l][i] in Users(g, node);
    }
  }

  lemma ServedStep(g: Graph, node: NodeId, level: LevelMap, groups: map<nat, seq<NodeId>>, top: nat,
                   remaining: set<nat>, expected: nat)
    requires GroupsUses(g, node, level, groups) && expected in groups && expected in remaining && expected < top
    ensures UsersServed(g, node, level, top, remaining) + Elems(groups[expected])
         == UsersServed(g, node, level, top, remaining - {expected})
  {
    forall u: NodeId | u in Elems(groups[expected])
      ensures u in Users(g, node) && LevelAt(level, u) == expected
    {
      var i :| 0 <= i < |groups[expected]| && groups[expected][i] == u;
    }
    forall u: NodeId | u in Users(g, node) && LevelAt(level, u) == expected
      ensures u in Elems(groups[expected])
    {
      var i :| 0 <= i < |groups[expected]| && groups[expected][i] == u;
    }
  }

  lemma GroupsCover(g: Graph, uses: seq<seq<NodeId>>, node: NodeId, level: LevelMap, groups: map<nat, seq<NodeId>>)
    requires UsesInverse(g.operands, uses) && node < |g.operands|
    requires forall l: nat :: l in groups ==> groups[l] != []
    requires forall l: nat, i: nat :: l in groups && i < |groups[l]| ==>
      groups[l][i] in uses[node] && LevelAt(level, groups[l][i]) == l
    requires forall u: NodeId :: u in uses[node] ==> LevelAt(level, u) in groups && u in groups[LevelAt(level, u)]
    ensures GroupsUses(g, node, level, groups)
  {
    forall u: NodeId
      ensures u in Users(g, node) <==> u in uses[node]
    {
      UsersAreUses(g.operands, uses, node, u);
    }
  }

  lemma GroupsAttained(g: Graph, node: NodeId, level: LevelMap, groups: map<nat, seq<NodeId>>, l: nat)
    requires GroupsUses(g, node, level, groups) && l in groups
    ensures exists u: NodeId :: u in Users(g, node) && LevelAt(level, u) == l
  {
    assert groups[l][0] in Users(g, node);
  }
}
