/** Balanced binary trees in place of additions and multiplications of many operands,
    ReductionLogExpander in iyfc/daghandler/reduction_handler.cpp. */
module LogExpander {
  import opened Graphs
  import opened Dags
  import opened Semantics
  import opened Reassociation
  import opened Reductions
  import opened Usage
  import Types

  // ----- trees -----

  function TwoTo(k: nat): (r: nat)
    ensures r > 0
  {
    if k == 0 then 1 else 2 * TwoTo(k - 1)
  }

  /** The largest power of two below n. */
  function SplitAt(n: nat): (k: nat)
    requires n > 1
    ensures 0 < k < n <= 2 * k
  {
    if n == 2 then 1 else 2 * SplitAt((n + 1) / 2)
  }

  lemma {:induction false} SplitIs(n: nat, h: nat)
    requires TwoTo(h) < n <= 2 * TwoTo(h)
    ensures SplitAt(n) == TwoTo(h)
  {
    if h > 0 {
      SplitIs((n + 1) / 2, h - 1);
    }
  }

  /** x is the root of a binary tree of nodes from base on, of height at most h, over the leaves s in their
      order; on the left of every fork are as many leaves as the largest power of two below their number. */
  ghost predicate IsTree(g: Graph, base: nat, op: Op, x: NodeId, s: seq<NodeId>, h: nat)
    decreases h, 1
  {
    || s == [x]
    || (h > 0 && base <= x < |g.operands| && x < |g.op| && g.op[x] == op && |g.operands[x]| == 2
        && |s| > 1 && IsFork(g, base, op, x, s, h, SplitAt(|s|)))
  }

  ghost predicate IsFork(g: Graph, base: nat, op: Op, x: NodeId, s: seq<NodeId>, h: nat, k: nat)
    requires h > 0 && x < |g.operands| && |g.operands[x]| == 2 && k < |s|
    decreases h, 0
  {
    && IsTree(g, base, op, g.operands[x][0], s[..k], h - 1)
    && IsTree(g, base, op, g.operands[x][1], s[k..], h - 1)
  }

  lemma {:induction false} TreeHigher(g: Graph, base: nat, op: Op, x: NodeId, s: seq<NodeId>, h: nat, h': nat)
    requires IsTree(g, base, op, x, s, h) && h <= h'
    ensures IsTree(g, base, op, x, s, h')
    decreases h
  {
    if s != [x] {
      var k := SplitAt(|s|);
      TreeHigher(g, base, op, g.operands[x][0], s[..k], h - 1, h' - 1);
      TreeHigher(g, base, op, g.operands[x][1], s[k..], h - 1, h' - 1);
      assert IsFork(g, base, op, x, s, h', k);
    }
  }

  /** Nodes from base on are the same in g'. */
  ghost predicate SameFrom(g: Graph, g': Graph, base: nat)
  {
    && |g.op| == |g.operands| && |g'.op| == |g'.operands| && |g.operands| <= |g'.operands|
    && forall x: NodeId :: base <= x < |g.operands| ==> g'.op[x] == g.op[x] && g'.operands[x] == g.operands[x]
  }

  lemma {:induction false} TreeKept(g: Graph, g': Graph, base: nat, op: Op, x: NodeId, s: seq<NodeId>, h: nat)
    requires IsTree(g, base, op, x, s, h) && SameFrom(g, g', base)
    ensures IsTree(g', base, op, x, s, h)
    decreases h
  {
    if s != [x] {
      var k := SplitAt(|s|);
      TreeKept(g, g', base, op, g.operands[x][0], s[..k], h - 1);
      TreeKept(g, g', base, op, g.operands[x][1], s[k..], h - 1);
      assert IsFork(g', base, op, x, s, h, k);
    }
  }

  // ----- values of trees -----

  /** New nodes hold the meaning of op on their two operands. */
  ghost predicate NewMeanings<T(!new)>(g: Graph, sem: (NodeId, Op, seq<T>) -> T, v: seq<T>, base: nat)
  {
    && |v| == |g.operands| == |g.op|
    && forall x: NodeId :: base <= x < |g.operands| && |g.operands[x]| == 2 ==>
         g.operands[x][0] < |v| && g.operands[x][1] < |v|
         && v[x] == sem(x, g.op[x], [v[g.operands[x][0]], v[g.operands[x][1]]])
  }

  ghost predicate Within(s: seq<NodeId>, n: nat)
  {
    forall i: nat :: i < |s| ==> s[i] < n
  }

  lemma WithinParts(s: seq<NodeId>, n: nat, k: nat)
    requires Within(s, n) && k <= |s|
    ensures Within(s[..k], n) && Within(s[k..], n)
  {
  }

  lemma Swapped<T(!new)>(sem: (NodeId, Op, seq<T>) -> T, op: Op, m: NodeId, xs: seq<T>, ys: seq<T>, zs: seq<T>)
    requires Regroups(sem, op)
    ensures sem(m, op, xs + (ys + zs)) == sem(m, op, ys + (xs + zs))
  {
    assert multiset(xs + (ys + zs)) == multiset(ys + (xs + zs));
    RegroupPermuted(sem, op, m, m, xs + (ys + zs), ys + (xs + zs));
  }

  lemma Flat<T(!new)>(sem: (NodeId, Op, seq<T>) -> T, op: Op, m: NodeId, x: NodeId, a: T, b: T, zs: seq<T>)
    requires Regroups(sem, op)
    ensures sem(m, op, [sem(x, op, [a, b])] + zs) == sem(m, op, [a] + ([b] + zs))
  {
    hide Regroups;
    RegroupFlat(sem, op, m, x, [a, b], zs);
    assert [a, b] + zs == [a] + ([b] + zs);
  }

  /** The root of a tree can be replaced by its leaves. */
  lemma {:induction false} TreeValue<T(!new)>(g: Graph, sem: (NodeId, Op, seq<T>) -> T, v: seq<T>, base: nat, op: Op,
                                              x: NodeId, s: seq<NodeId>, h: nat, m: NodeId, zs: seq<T>)
    requires Regroups(sem, op) && NewMeanings(g, sem, v, base) && IsTree(g, base, op, x, s, h) && Within(s, |v|)
    ensures x < |v| && sem(m, op, [v[x]] + zs) == sem(m, op, Vals(v, s) + zs)
    decreases h
  {
    hide Regroups;
    if s == [x] {
      assert s[0] == x;
      assert Vals(v, s) == [v[x]];
    } else {
      var k := SplitAt(|s|);
      var l, r, s1, s2 := g.operands[x][0], g.operands[x][1], s[..k], s[k..];
      WithinParts(s, |v|, k);
      assert v[x] == sem(x, op, [v[l], v[r]]);
      ForkValues(v, s, k);
      hide IsTree, IsFork, NewMeanings, Vals, Within;
      TreeValue(g, sem, v, base, op, l, s1, h - 1, m, [v[r]] + zs);
      TreeValue(g, sem, v, base, op, r, s2, h - 1, m, Vals(v, s1) + zs);
      ForkValue(sem, op, m, x, v[l], v[r], Vals(v, s1), Vals(v, s2), zs);
      assert Vals(v, s1) + (Vals(v, s2) + zs) == Vals(v, s) + zs;
    }
  }

  lemma ForkValues<T>(v: seq<T>, s: seq<NodeId>, k: nat)
    requires Within(s, |v|) && k <= |s|
    ensures Within(s[..k], |v|) && Within(s[k..], |v|) && Vals(v, s) == Vals(v, s[..k]) + Vals(v, s[k..])
  {
    assert s == s[..k] + s[k..];
  }

  lemma ForkValue<T(!new)>(sem: (NodeId, Op, seq<T>) -> T, op: Op, m: NodeId, x: NodeId, a: T, b: T, xs: seq<T>,
                           ys: seq<T>, zs: seq<T>)
    requires Regroups(sem, op)
    requires sem(m, op, [a] + ([b] + zs)) == sem(m, op, xs + ([b] + zs))
    requires sem(m, op, [b] + (xs + zs)) == sem(m, op, ys + (xs + zs))
    ensures sem(m, op, [sem(x, op, [a, b])] + zs) == sem(m, op, xs + (ys + zs))
  {
    hide Regroups;
    Flat(sem, op, m, x, a, b, zs);
    Swapped(sem, op, m, xs, [b], zs);
    Swapped(sem, op, m, ys, xs, zs);
  }

  // ----- sorting -----

  /** The place of an operand: plaintexts come before ciphertexts, and these by scale. */
  function SortKey(types: Types.TypeMap, scale: map<NodeId, nat>, o: NodeId): nat
    requires o in scale
  {
    match Types.TypeAt(types, o)
    case Plain => 1
    case Raw => 1
    case Cipher => 2 + scale[o]
    case Undef => 0
  }

  predicate HaveScales(scale: map<NodeId, nat>, s: seq<NodeId>)
  {
    forall i: nat :: i < |s| ==> s[i] in scale
  }

  predicate SortedBy(types: Types.TypeMap, scale: map<NodeId, nat>, s: seq<NodeId>)
    requires HaveScales(scale, s)
  {
    forall i: nat, j: nat :: i < j < |s| ==> SortKey(types, scale, s[i]) <= SortKey(types, scale, s[j])
  }

  lemma InsertedMembers(s: seq<NodeId>, i: nat, o: NodeId)
    requires i <= |s|
    ensures multiset(s[..i] + [o] + s[i..]) == multiset(s) + multiset{o}
  {
    assert s == s[..i] + s[i..];
  }

  /** Where an operand goes: behind those of the same place. */
  method PlaceOf(types: Types.TypeMap, scale: map<NodeId, nat>, sorted: seq<NodeId>, o: NodeId) returns (i: nat)
    requires HaveScales(scale, sorted) && o in scale
    ensures i <= |sorted| && (i > 0 ==> SortKey(types, scale, sorted[i - 1]) <= SortKey(types, scale, o))
    ensures forall j: nat :: i <= j < |sorted| ==> SortKey(types, scale, sorted[j]) > SortKey(types, scale, o)
  {
    i := |sorted|;
    while i > 0 && SortKey(types, scale, sorted[i - 1]) > SortKey(types, scale, o)
      invariant i <= |sorted|
      invariant forall j: nat :: i <= j < |sorted| ==> SortKey(types, scale, sorted[j]) > SortKey(types, scale, o)
    {
      i := i - 1;
    }
  }

  /** The buckets of m_sorted_operands, kept one behind the other: equal keys stay in order. */
  method SortOperands(types: Types.TypeMap, scale: map<NodeId, nat>,
                      operands: seq<NodeId>) returns (sorted: seq<NodeId>)
    requires HaveScales(scale, operands)
    ensures multiset(sorted) == multiset(operands) && |sorted| == |operands|
    ensures HaveScales(scale, sorted) && SortedBy(types, scale, sorted)
  {
    hide SortKey, SortedBy;
    sorted := [];
    assert SortedBy(types, scale, sorted) by { NothingSorted(types, scale); }
    for k := 0 to |operands|
      invariant multiset(sorted) == multiset(operands[..k]) && |sorted| == k
      invariant HaveScales(scale, sorted) && SortedBy(types, scale, sorted)
    {
      var o := operands[k];
      var i := PlaceOf(types, scale, sorted, o);
      InsertedMembers(sorted, i, o);
      InsertedSorted(types, scale, sorted, i, o);
      assert operands[..k + 1] == operands[..k] + [o];
      sorted := sorted[..i] + [o] + sorted[i..];
    }
    assert operands[..|operands|] == operands;
  }

  lemma NothingSorted(types: Types.TypeMap, scale: map<NodeId, nat>)
    ensures HaveScales(scale, []) && SortedBy(types, scale, [])
  {
  }

  lemma InsertedSorted(types: Types.TypeMap, scale: map<NodeId, nat>, s: seq<NodeId>, i: nat, o: NodeId)
    requires HaveScales(scale, s) && SortedBy(types, scale, s) && i <= |s| && o in scale
    requires i > 0 ==> SortKey(types, scale, s[i - 1]) <= SortKey(types, scale, o)
    requires forall j: nat :: i <= j < |s| ==> SortKey(types, scale, s[j]) > SortKey(types, scale, o)
    ensures HaveScales(scale, s[..i] + [o] + s[i..]) && SortedBy(types, scale, s[..i] + [o] + s[i..])
  {
    hide SortKey;
    var s' := s[..i] + [o] + s[i..];
    forall j: nat | j < |s'|
      ensures s'[j] == if j < i then s[j] else if j == i then o else s[j - 1]
    {
    }
    forall j: nat, k: nat | j < k < |s'|
      ensures SortKey(types, scale, s'[j]) <= SortKey(types, scale, s'[k])
    {
      if j < i && i <= k {
        assert SortKey(types, scale, s[j]) <= SortKey(types, scale, s[i - 1]);
      }
    }
  }

  // ----- building a tree -----

  /** What stays fixed while the tree of n is built: the graph g before, where new nodes start,
      the operation and the leaves. */
  datatype Build = Build(size: nat, g: Graph, base: nat, n: NodeId, op: Op, leaves: seq<NodeId>)

  ghost predicate NewNode(b: Build, g: Graph, x: NodeId)
    requires |g.op| == |g.operands| && x < |g.op|
  {
    && g.op[x] == b.op && |g.operands[x]| == 2
    && forall i: nat :: i < 2 ==> g.operands[x][i] in b.leaves || g.operands[x][i] >= |b.g.operands|
  }

  /** g is b.g and new nodes of the operation behind it. */
  ghost predicate Building(b: Build, g: Graph, rank: seq<nat>)
  {
    && WellFormed(b.g) && WellFormed(g) && Ranked(g, rank) && Refines(b.size, b.g, g)
    && |b.g.op| == |b.g.operands| && b.base <= |b.g.operands| && b.n < |b.g.operands|
    && b.g.op <= g.op && b.g.operands <= g.operands && g.sources == b.g.sources
    && forall x: NodeId :: |b.g.operands| <= x < |g.operands| ==> NewNode(b, g, x)
  }

  /** A node that may become an operand on the way to n. */
  ghost predicate Usable(b: Build, g: Graph, rank: seq<nat>, x: NodeId)
  {
    && x < |rank| && b.n < |rank| && rank[x] < rank[b.n] && Live(g, x)
    && (x in b.leaves || x >= |b.g.operands|)
  }

  ghost predicate AllUsable(b: Build, g: Graph, rank: seq<nat>, xs: seq<NodeId>)
  {
    forall i: nat :: i < |xs| ==> Usable(b, g, rank, xs[i])
  }

  function RankOver(rank: seq<nat>, l: NodeId, r: NodeId): seq<nat>
    requires l < |rank| && r < |rank|
  {
    NewRank(rank, if rank[l] > rank[r] then rank[l] else rank[r])
  }

  lemma PairMade(b: Build, g: Graph, rank: seq<nat>, l: NodeId, r: NodeId)
    requires Building(b, g, rank) && Usable(b, g, rank, l) && Usable(b, g, rank, r) && IsReductionOp(b.op)
    ensures var g' := AddNode(g, b.op, [l, r]);
      Building(b, g', RankOver(rank, l, r)) && Usable(b, g', RankOver(rank, l, r), |g.operands|)
        && SameFrom(g, g', b.base)
  {
    var g' := AddNode(g, b.op, [l, r]);
    RankAddNode(g, rank, b.op, [l, r], if rank[l] > rank[r] then rank[l] else rank[r]);
    AddNodeWellFormed(g, b.op, [l, r]);
    AddNodeRefines(b.size, g, b.op, [l, r]);
    RefinesTransitive(b.size, b.g, g, g');
    hide Refines, Ranked, WellFormed;
    forall x: NodeId | |b.g.operands| <= x < |g'.operands|
      ensures NewNode(b, g', x)
    {
      assert x < |g.operands| ==> NewNode(b, g, x);
    }
  }

  lemma StillUsable(b: Build, g: Graph, rank: seq<nat>, l: NodeId, r: NodeId, xs: seq<NodeId>)
    requires l < |rank| && r < |rank| && AllUsable(b, g, rank, xs)
    ensures AllUsable(b, AddNode(g, b.op, [l, r]), RankOver(rank, l, r), xs)
  {
    forall i: nat | i < |xs|
      ensures Usable(b, AddNode(g, b.op, [l, r]), RankOver(rank, l, r), xs[i])
    {
      assert Usable(b, g, rank, xs[i]);
    }
  }

  /** All pieces have 2^h leaves, the last one at most as many. */
  predicate Aligned(cuts: seq<nat>, h: nat)
  {
    && (forall i: nat :: i < |cuts| - 1 ==> cuts[i] == i * TwoTo(h))
    && (|cuts| > 1 ==> cuts[|cuts| - 2] < cuts[|cuts| - 1] <= cuts[|cuts| - 2] + TwoTo(h))
  }

  /** The nodes xs are trees over consecutive pieces of s, cut at cuts. */
  ghost predicate Forest(b: Build, g: Graph, xs: seq<NodeId>, s: seq<NodeId>, cuts: seq<nat>, h: nat)
  {
    && |cuts| == |xs| + 1 && cuts[0] == 0 && cuts[|xs|] == |s| && Aligned(cuts, h)
    && forall i: nat :: i < |xs| ==> TreeBetween(b, g, xs[i], s, cuts[i], cuts[i + 1], h)
  }

  ghost predicate TreeBetween(b: Build, g: Graph, x: NodeId, s: seq<NodeId>, from: nat, to: nat, h: nat)
  {
    from <= to <= |s| && IsTree(g, b.base, b.op, x, s[from..to], h)
  }

  lemma BetweenKept(b: Build, g: Graph, g': Graph, x: NodeId, s: seq<NodeId>, from: nat, to: nat, h: nat)
    requires TreeBetween(b, g, x, s, from, to, h) && SameFrom(g, g', b.base)
    ensures TreeBetween(b, g', x, s, from, to, h)
  {
    TreeKept(g, g', b.base, b.op, x, s[from..to], h);
  }

  lemma ForestKept(b: Build, g: Graph, g': Graph, xs: seq<NodeId>, s: seq<NodeId>, cuts: seq<nat>, h: nat)
    requires Forest(b, g, xs, s, cuts, h) && SameFrom(g, g', b.base)
    ensures Forest(b, g', xs, s, cuts, h)
  {
    hide TreeBetween, SameFrom;
    forall i: nat | i < |xs|
      ensures TreeBetween(b, g', xs[i], s, cuts[i], cuts[i + 1], h)
    {
      BetweenKept(b, g, g', xs[i], s, cuts[i], cuts[i + 1], h);
    }
  }

  lemma TreeNotEmpty(g: Graph, base: nat, op: Op, x: NodeId, s: seq<NodeId>, h: nat)
    requires IsTree(g, base, op, x, s, h)
    ensures s != []
  {
  }

  /** Two neighbouring trees under one new node. */
  lemma Joined(b: Build, g: Graph, x: NodeId, l: NodeId, r: NodeId, s: seq<NodeId>, from: nat, mid: nat, to: nat,
               h: nat)
    requires TreeBetween(b, g, l, s, from, mid, h) && TreeBetween(b, g, r, s, mid, to, h)
    requires mid == from + TwoTo(h) && mid < to <= mid + TwoTo(h)
    requires b.base <= x < |g.operands| && x < |g.op| && g.op[x] == b.op && g.operands[x] == [l, r]
    ensures TreeBetween(b, g, x, s, from, to, h + 1)
  {
    SplitIs(to - from, h);
    var whole, k := s[from..to], mid - from;
    assert whole[..k] == s[from..mid] && whole[k..] == s[mid..to];
    assert IsFork(g, b.base, b.op, x, whole, h + 1, k);
  }

  /** Every leaf and every new node is used by a new node, unless it is still in rest. */
  ghost predicate Placed(b: Build, g: Graph, rest: seq<NodeId>)
  {
    forall x: NodeId :: x in b.leaves || |b.g.operands| <= x < |g.operands| ==> x in rest || UsedByNew(b, g, x)
  }

  ghost predicate UsedByNew(b: Build, g: Graph, x: NodeId)
  {
    exists u: NodeId :: |b.g.operands| <= u < |g.operands| && x in g.operands[u]
  }

  lemma PlacedNext(b: Build, g: Graph, l: NodeId, r: NodeId, rest: seq<NodeId>, rest': seq<NodeId>)
    requires Placed(b, g, rest) && |b.g.operands| <= |g.operands|
    requires |g.operands| in rest' && forall x: NodeId :: x in rest && x != l && x != r ==> x in rest'
    ensures Placed(b, AddNode(g, b.op, [l, r]), rest')
  {
    var g' := AddNode(g, b.op, [l, r]);
    assert l in g'.operands[|g.operands|] && r in g'.operands[|g.operands|];
    forall x: NodeId | x in b.leaves || |b.g.operands| <= x < |g'.operands|
      ensures x in rest' || UsedByNew(b, g', x)
    {
      if x != |g.operands| && UsedByNew(b, g, x) {
        var u: NodeId :| |b.g.operands| <= u < |g.operands| && x in g.operands[u];
        assert x in g'.operands[u];
      }
    }
  }

  /** next holds the trees of the first pairs. */
  ghost predicate PairsJoined(b: Build, g: Graph, next: seq<NodeId>, s: seq<NodeId>, cuts: seq<nat>, h: nat)
  {
    && 2 * |next| < |cuts|
    && forall j: nat :: j < |next| ==> TreeBetween(b, g, next[j], s, cuts[2 * j], cuts[2 * j + 2], h + 1)
  }

  lemma PairsKept(b: Build, g: Graph, g': Graph, next: seq<NodeId>, s: seq<NodeId>, cuts: seq<nat>, h: nat)
    requires PairsJoined(b, g, next, s, cuts, h) && SameFrom(g, g', b.base)
    ensures PairsJoined(b, g', next, s, cuts, h)
  {
    hide TreeBetween, SameFrom;
    forall j: nat | j < |next|
      ensures TreeBetween(b, g', next[j], s, cuts[2 * j], cuts[2 * j + 2], h + 1)
    {
      BetweenKept(b, g, g', next[j], s, cuts[2 * j], cuts[2 * j + 2], h + 1);
    }
  }

  /** One more pair is joined by the new node |g.operands|. */
  lemma PairJoined(b: Build, g: Graph, rank: seq<nat>, next: seq<NodeId>, xs: seq<NodeId>, s: seq<NodeId>,
                   cuts: seq<nat>, h: nat, i: nat)
    requires Building(b, g, rank) && IsReductionOp(b.op) && AllUsable(b, g, rank, xs) && AllUsable(b, g, rank, next)
    requires Forest(b, g, xs, s, cuts, h) && PairsJoined(b, g, next, s, cuts, h)
    requires i == 2 * |next| && i + 1 < |xs| && Usable(b, g, rank, xs[i]) && Usable(b, g, rank, xs[i + 1])
    ensures var g', rank', x := AddNode(g, b.op, [xs[i], xs[i + 1]]), RankOver(rank, xs[i], xs[i + 1]), |g.operands|;
      && Building(b, g', rank') && AllUsable(b, g', rank', xs) && AllUsable(b, g', rank', next + [x])
      && Forest(b, g', xs, s, cuts, h) && PairsJoined(b, g', next + [x], s, cuts, h)
  {
    var g', rank', x := AddNode(g, b.op, [xs[i], xs[i + 1]]), RankOver(rank, xs[i], xs[i + 1]), |g.operands|;
    assert b.base <= x && x < |g'.op| && g'.op[x] == b.op && x < |g'.operands| && g'.operands[x] == [xs[i], xs[i + 1]];
    hide Usable, TreeBetween, AddNode, Building, RankOver, Forest, PairsJoined;
    PairMade(b, g, rank, xs[i], xs[i + 1]);
    UsableBounds(b, g, rank, xs[i]);
    UsableBounds(b, g, rank, xs[i + 1]);
    StillUsable(b, g, rank, xs[i], xs[i + 1], xs);
    StillUsable(b, g, rank, xs[i], xs[i + 1], next);
    ForestKept(b, g, g', xs, s, cuts, h);
    PairsKept(b, g, g', next, s, cuts, h);
    OnePairMore(b, g', xs, next, s, cuts, h, i, x);
  }

  lemma OnePairMore(b: Build, g: Graph, xs: seq<NodeId>, next: seq<NodeId>, s: seq<NodeId>, cuts: seq<nat>, h: nat,
                    i: nat, x: NodeId)
    requires Forest(b, g, xs, s, cuts, h) && PairsJoined(b, g, next, s, cuts, h) && i == 2 * |next| && i + 1 < |xs|
    requires b.base <= x < |g.operands| && x < |g.op| && g.op[x] == b.op && g.operands[x] == [xs[i], xs[i + 1]]
    ensures PairsJoined(b, g, next + [x], s, cuts, h)
  {
    hide TreeBetween;
    assert TreeBetween(b, g, xs[i], s, cuts[i], cuts[i + 1], h);
    assert TreeBetween(b, g, xs[i + 1], s, cuts[i + 1], cuts[i + 2], h);
    PieceSize(cuts, h, i);
    Joined(b, g, x, xs[i], xs[i + 1], s, cuts[i], cuts[i + 1], cuts[i + 2], h);
  }

  lemma PieceSize(cuts: seq<nat>, h: nat, i: nat)
    requires Aligned(cuts, h) && i + 2 < |cuts|
    ensures cuts[i + 1] == cuts[i] + TwoTo(h) && cuts[i + 1] < cuts[i + 2] <= cuts[i + 1] + TwoTo(h)
  {
    assert (i + 1) * TwoTo(h) == i * TwoTo(h) + TwoTo(h);
    assert (i + 2) * TwoTo(h) == (i + 1) * TwoTo(h) + TwoTo(h);
  }

  lemma HalvedAligned(cuts: seq<nat>, h: nat, n: nat)
    requires Aligned(cuts, h) && (|cuts| == 2 * n + 1 || |cuts| == 2 * n) && n > 0
    ensures Aligned(HalfCuts(cuts, n), h + 1)
  {
    var cuts' := HalfCuts(cuts, n);
    forall j: nat | j < n
      ensures cuts'[j] == j * TwoTo(h + 1)
    {
      Regrouped(j, TwoTo(h));
    }
    if |cuts| == 2 * n + 1 {
      PieceSize(cuts, h, 2 * n - 2);
    }
  }

  lemma UsableBounds(b: Build, g: Graph, rank: seq<nat>, x: NodeId)
    requires Usable(b, g, rank, x)
    ensures x < |rank| && Live(g, x)
  {
  }

  function HalfCuts(cuts: seq<nat>, n: nat): (r: seq<nat>)
    requires |cuts| > 0 && 2 * n <= |cuts|
    ensures |r| == n + 1
  {
    seq(n + 1, j requires 0 <= j <= n => if 2 * j < |cuts| then cuts[2 * j] else cuts[|cuts| - 1])
  }

  /** After the last pair, and perhaps an operand left over. */
  lemma RoundDone(b: Build, g: Graph, next: seq<NodeId>, xs: seq<NodeId>, s: seq<NodeId>, cuts: seq<nat>, h: nat)
    requires Forest(b, g, xs, s, cuts, h) && PairsJoined(b, g, next, s, cuts, h)
    requires xs != [] && (|xs| == 2 * |next| || |xs| == 2 * |next| + 1)
    ensures var next' := if |xs| == 2 * |next| then next else next + [xs[|xs| - 1]];
      Forest(b, g, next', s, HalfCuts(cuts, |next'|), h + 1)
  {
    var next' := if |xs| == 2 * |next| then next else next + [xs[|xs| - 1]];
    var cuts' := HalfCuts(cuts, |next'|);
    HalvedAligned(cuts, h, |next'|);
    hide TreeBetween, Aligned;
    forall j: nat | j < |next'|
      ensures TreeBetween(b, g, next'[j], s, cuts'[j], cuts'[j + 1], h + 1)
    {
      if j < |next| {
        assert cuts'[j] == cuts[2 * j] && cuts'[j + 1] == cuts[2 * j + 2];
      } else {
        var i: nat := |xs| - 1;
        assert cuts'[j] == cuts[i] && cuts'[j + 1] == cuts[i + 1];
        assert TreeBetween(b, g, xs[i], s, cuts[i], cuts[i + 1], h);
        BetweenHigher(b, g, xs[i], s, cuts[i], cuts[i + 1], h);
      }
    }
  }

  lemma BetweenHigher(b: Build, g: Graph, x: NodeId, s: seq<NodeId>, from: nat, to: nat, h: nat)
    requires TreeBetween(b, g, x, s, from, to, h)
    ensures TreeBetween(b, g, x, s, from, to, h + 1)
  {
    TreeHigher(g, b.base, b.op, x, s[from..to], h, h + 1);
  }

  /** One round of the pairing loop. */
  method PairOperands(d: Dag, op: Op, operands: seq<NodeId>, ghost b: Build, ghost rank: seq<nat>, ghost s: seq<NodeId>,
                      ghost cuts: seq<nat>, ghost h: nat)
    returns (next: seq<NodeId>, ghost rank': seq<nat>, ghost cuts': seq<nat>)
    requires d.Valid() && op == b.op && IsReductionOp(op) && |operands| > 2
    requires Building(b, d.G(), rank) && AllUsable(b, d.G(), rank, operands) && Forest(b, d.G(), operands, s, cuts, h)
    requires Placed(b, d.G(), operands)
    modifies d
    ensures d.Valid() && Building(b, d.G(), rank') && AllUsable(b, d.G(), rank', next) && Placed(b, d.G(), next)
    ensures Forest(b, d.G(), next, s, cuts', h + 1) && |next| == (|operands| + 1) / 2
  {
    hide Building, Forest, PairsJoined, AllUsable, WellFormed, UsesInverse, SinksMatch, Erased, Placed;
    next := [];
    assert next + operands[0..] == operands;
    rank' := rank;
    NoPairs(b, d.G(), rank, operands, s, cuts, h);
    var i := 0;
    while i + 1 < |operands|
      invariant i == 2 * |next| && i <= |operands| && d.Valid()
      invariant Building(b, d.G(), rank') && AllUsable(b, d.G(), rank', operands) && AllUsable(b, d.G(), rank', next)
      invariant Forest(b, d.G(), operands, s, cuts, h) && PairsJoined(b, d.G(), next, s, cuts, h)
      invariant Placed(b, d.G(), next + operands[i..])
    {
      var left, right := operands[i], operands[i + 1];
      OperandsUsable(b, d.G(), rank', operands, i);
      OperandsUsable(b, d.G(), rank', operands, i + 1);
      PairJoined(b, d.G(), rank', next, operands, s, cuts, h, i);
      PairTaken(b, d.G(), rank', next, operands, i);
      rank' := RankOver(rank', left, right);
      var x := d.MakeNode(op, [left, right]);
      next := next + [x];
      i := i + 2;
    }
    RoundDone(b, d.G(), next, operands, s, cuts, h);
    if i < |operands| {
      assert i + 1 == |operands|;
      LastUsable(b, d.G(), rank', next, operands);
      assert operands[i..] == [operands[i]];
      next := next + [operands[i]];
    } else {
      assert next + operands[i..] == next;
    }
    ForestLength(b, d.G(), operands, s, cuts, h);
    cuts' := HalfCuts(cuts, |next|);
  }

  lemma PairTaken(b: Build, g: Graph, rank: seq<nat>, next: seq<NodeId>, xs: seq<NodeId>, i: nat)
    requires Building(b, g, rank) && i + 1 < |xs| && Placed(b, g, next + xs[i..])
    ensures Placed(b, AddNode(g, b.op, [xs[i], xs[i + 1]]), next + [|g.operands|] + xs[i + 2..])
  {
    hide Building, Placed;
    assert xs[i..] == [xs[i], xs[i + 1]] + xs[i + 2..];
    BuildingLength(b, g, rank);
    PlacedNext(b, g, xs[i], xs[i + 1], next + xs[i..], next + [|g.operands|] + xs[i + 2..]);
  }

  lemma BuildingLength(b: Build, g: Graph, rank: seq<nat>)
    requires Building(b, g, rank)
    ensures |b.g.operands| <= |g.operands|
  {
  }

  lemma NoPairs(b: Build, g: Graph, rank: seq<nat>, xs: seq<NodeId>, s: seq<NodeId>, cuts: seq<nat>, h: nat)
    requires Forest(b, g, xs, s, cuts, h)
    ensures PairsJoined(b, g, [], s, cuts, h) && AllUsable(b, g, rank, [])
  {
  }

  lemma OperandsUsable(b: Build, g: Graph, rank: seq<nat>, xs: seq<NodeId>, i: nat)
    requires AllUsable(b, g, rank, xs) && i < |xs|
    ensures Usable(b, g, rank, xs[i]) && xs[i] < |rank| && Live(g, xs[i])
  {
  }

  lemma LastUsable(b: Build, g: Graph, rank: seq<nat>, next: seq<NodeId>, xs: seq<NodeId>)
    requires AllUsable(b, g, rank, xs) && AllUsable(b, g, rank, next) && xs != []
    ensures AllUsable(b, g, rank, next + [xs[|xs| - 1]])
  {
    hide Usable;
  }

  lemma ForestLength(b: Build, g: Graph, xs: seq<NodeId>, s: seq<NodeId>, cuts: seq<nat>, h: nat)
    requires Forest(b, g, xs, s, cuts, h)
    ensures |cuts| == |xs| + 1
  {
  }

  // ----- the root -----

  /** The two operands of the root are trees over the halves of s, and h is the logarithm of |s|. */
  ghost predicate RootOf(b: Build, g: Graph, pair: seq<NodeId>, s: seq<NodeId>, c: nat, h: nat)
  {
    && |pair| == 2 && h > 0 && c < |s| && TwoTo(h - 1) < |s| <= TwoTo(h) && c == TwoTo(h - 1)
    && IsTree(g, b.base, b.op, pair[0], s[..c], h - 1) && IsTree(g, b.base, b.op, pair[1], s[c..], h - 1)
  }

  /** k leaves make l trees of height h. */
  predicate Heights(k: nat, l: nat, h: nat)
  {
    (l - 1) * TwoTo(h) < k <= l * TwoTo(h)
  }

  lemma HeightsNext(k: nat, l: nat, h: nat)
    requires Heights(k, l, h)
    ensures Heights(k, (l + 1) / 2, h + 1)
  {
    var m, t := (l + 1) / 2, TwoTo(h);
    assert TwoTo(h + 1) == 2 * t;
    hide TwoTo;
    Scaled(l, 2 * m, t);
    Scaled(2 * (m - 1), l - 1, t);
    Regrouped(m, t);
    Regrouped(m - 1, t);
  }

  lemma Regrouped(a: int, t: nat)
    ensures a * (2 * t) == (2 * a) * t
  {
  }

  lemma Scaled(a: int, b: int, t: nat)
    requires a <= b
    ensures a * t <= b * t
  {
  }

  lemma Leaves(b: Build, g: Graph, s: seq<NodeId>)
    ensures Forest(b, g, s, s, seq(|s| + 1, i => i), 0) && Heights(|s|, |s|, 0)
  {
    var cuts: seq<nat> := seq(|s| + 1, i => i);
    forall i: nat | i < |s|
      ensures TreeBetween(b, g, s[i], s, cuts[i], cuts[i + 1], 0)
    {
      assert s[cuts[i]..cuts[i + 1]] == [s[i]];
    }
  }

  lemma RootFound(b: Build, g: Graph, pair: seq<NodeId>, s: seq<NodeId>, cuts: seq<nat>, h: nat)
    requires Forest(b, g, pair, s, cuts, h) && |pair| == 2 && Heights(|s|, 2, h)
    ensures |cuts| == 3 && RootOf(b, g, pair, s, cuts[1], h + 1)
  {
    assert TreeBetween(b, g, pair[0], s, cuts[0], cuts[1], h) && TreeBetween(b, g, pair[1], s, cuts[1], cuts[2], h);
    TreeNotEmpty(g, b.base, b.op, pair[1], s[cuts[1]..cuts[2]], h);
    assert s[cuts[0]..cuts[1]] == s[..cuts[1]] && s[cuts[1]..cuts[2]] == s[cuts[1]..];
  }

  /** The loop over the rounds. */
  method CombineOperands(d: Dag, op: Op, sorted: seq<NodeId>, ghost b: Build, ghost rank: seq<nat>)
    returns (operands: seq<NodeId>, ghost rank': seq<nat>, ghost c: nat, ghost h: nat)
    requires d.Valid() && op == b.op && IsReductionOp(op) && |sorted| > 2
    requires Building(b, d.G(), rank) && AllUsable(b, d.G(), rank, sorted) && Placed(b, d.G(), sorted)
    modifies d
    ensures d.Valid() && Building(b, d.G(), rank') && AllUsable(b, d.G(), rank', operands) && Placed(b, d.G(), operands)
    ensures RootOf(b, d.G(), operands, sorted, c, h)
  {
    hide Building, Forest, AllUsable, WellFormed, UsesInverse, SinksMatch, Erased, Heights, RootOf, Placed;
    operands, rank', h := sorted, rank, 0;
    ghost var cuts: seq<nat> := seq(|sorted| + 1, i => i);
    Leaves(b, d.G(), sorted);
    while |operands| > 2
      invariant d.Valid() && |operands| >= 2
      invariant Building(b, d.G(), rank') && AllUsable(b, d.G(), rank', operands) && Placed(b, d.G(), operands)
      invariant Forest(b, d.G(), operands, sorted, cuts, h) && Heights(|sorted|, |operands|, h)
      decreases |operands|
    {
      HeightsNext(|sorted|, |operands|, h);
      operands, rank', cuts := PairOperands(d, op, operands, b, rank', sorted, cuts, h);
      h := h + 1;
    }
    assert |operands| == 2;
    RootFound(b, d.G(), operands, sorted, cuts, h);
    c, h := cuts[1], h + 1;
  }

  lemma RootValue<T(!new)>(b: Build, g: Graph, sem: (NodeId, Op, seq<T>) -> T, v: seq<T>, pair: seq<NodeId>,
                           s: seq<NodeId>, c: nat, h: nat, m: NodeId)
    requires Regroups(sem, b.op) && NewMeanings(g, sem, v, b.base) && RootOf(b, g, pair, s, c, h) && Within(s, |v|)
    ensures pair[0] < |v| && pair[1] < |v| && sem(m, b.op, [v[pair[0]], v[pair[1]]]) == sem(m, b.op, Vals(v, s))
  {
    hide Regroups;
    var l, r := pair[0], pair[1];
    ForkValues(v, s, c);
    var xs, ys := Vals(v, s[..c]), Vals(v, s[c..]);
    TreeValue(g, sem, v, b.base, b.op, r, s[c..], h - 1, m, xs);
    TreeValue(g, sem, v, b.base, b.op, l, s[..c], h - 1, m, [v[r]]);
    hide IsTree, NewMeanings, Vals, Within, TwoTo;
    Commuted(sem, b.op, m, xs, [v[r]]);
    Commuted(sem, b.op, m, ys, xs);
    assert [v[l]] + [v[r]] == [v[l], v[r]];
  }

  lemma Commuted<T(!new)>(sem: (NodeId, Op, seq<T>) -> T, op: Op, m: NodeId, xs: seq<T>, ys: seq<T>)
    requires Regroups(sem, op)
    ensures sem(m, op, xs + ys) == sem(m, op, ys + xs)
  {
    assert multiset(xs + ys) == multiset(ys + xs);
    RegroupPermuted(sem, op, m, m, xs + ys, ys + xs);
  }

  function WithOperands(g: Graph, n: NodeId, os: seq<NodeId>): Graph
    requires n < |g.operands|
  {
    g.(operands := g.operands[n := os])
  }

  /** Everything about the root n once its operands are replaced. */
  ghost predicate Rooted(b: Build, g: Graph, rank: seq<nat>, pair: seq<NodeId>, s: seq<NodeId>, c: nat, h: nat)
  {
    && Building(b, g, rank) && AllUsable(b, g, rank, pair) && RootOf(b, g, pair, s, c, h)
    && b.n < |b.g.op| && b.g.op[b.n] == b.op && IsReductionOp(b.op) && b.g.operands[b.n] != []
    && Placed(b, g, pair) && b.leaves == s && multiset(s) == multiset(b.g.operands[b.n])
         && g.operands[b.n] == b.g.operands[b.n]
    && (forall x: NodeId :: b.base <= x < |b.g.operands| ==> |b.g.operands[x]| == 2)
  }

  lemma RootMeaning<T(!new)>(b: Build, g: Graph, rank: seq<nat>, pair: seq<NodeId>, s: seq<NodeId>, c: nat, h: nat,
                             sem: (NodeId, Op, seq<T>) -> T, v: seq<T>)
    requires Rooted(b, g, rank, pair, s, c, h) && Regroups(sem, b.op) && Interprets(g, sem, v)
    ensures pair[0] < |v| && pair[1] < |v| && v[b.n] == sem(b.n, b.op, [v[pair[0]], v[pair[1]]])
  {
    hide Regroups;
    var n := b.n;
    LeavesWithin(b, g, rank, pair, s, c, h, |v|);
    NewInterpreted(b, g, rank, pair, s, c, h, sem, v);
    RootValue(b, g, sem, v, pair, s, c, h, n);
    assert Live(g, n);
    assert v[n] == sem(n, g.op[n], Args(g, v, n));
    assert Args(g, v, n) == Vals(v, g.operands[n]);
    hide Interprets, Rooted, NewMeanings;
    ValsPermuted(v, s, g.operands[n]);
    RegroupPermuted(sem, b.op, n, n, Vals(v, s), Vals(v, g.operands[n]));
  }

  lemma LeavesWithin(b: Build, g: Graph, rank: seq<nat>, pair: seq<NodeId>, s: seq<NodeId>, c: nat, h: nat, n: nat)
    requires Rooted(b, g, rank, pair, s, c, h) && n == |g.operands|
    ensures Within(s, n) && Within(g.operands[b.n], n) && g.op[b.n] == b.op
  {
    hide IsTree;
    var os := g.operands[b.n];
    forall i: nat | i < |os|
      ensures os[i] < n
    {
      assert Live(g, g.operands[b.n][i]);
    }
    forall i: nat | i < |s|
      ensures s[i] < n
    {
      assert s[i] in multiset(s);
      assert s[i] in os;
    }
  }

  lemma NewInterpreted<T(!new)>(b: Build, g: Graph, rank: seq<nat>, pair: seq<NodeId>, s: seq<NodeId>, c: nat, h: nat,
                                sem: (NodeId, Op, seq<T>) -> T, v: seq<T>)
    requires Rooted(b, g, rank, pair, s, c, h) && Interprets(g, sem, v)
    ensures NewMeanings(g, sem, v, b.base)
  {
    hide IsTree;
    forall x: NodeId | b.base <= x < |g.operands| && |g.operands[x]| == 2
      ensures g.operands[x][0] < |v| && g.operands[x][1] < |v|
      ensures v[x] == sem(x, g.op[x], [v[g.operands[x][0]], v[g.operands[x][1]]])
    {
      assert Live(g, x) && Live(g, g.operands[x][0]) && Live(g, g.operands[x][1]);
      assert Args(g, v, x) == [v[g.operands[x][0]], v[g.operands[x][1]]];
    }
  }

  lemma RootedWellFormed(b: Build, g: Graph, rank: seq<nat>, pair: seq<NodeId>, s: seq<NodeId>, c: nat, h: nat)
    requires Rooted(b, g, rank, pair, s, c, h)
    ensures WellFormed(WithOperands(g, b.n, pair)) && Ranked(WithOperands(g, b.n, pair), rank)
    ensures forall x: NodeId :: Live(WithOperands(g, b.n, pair), x) <==> Live(g, x)
    ensures |b.g.operands| <= |g.operands| && b.n < |g.op|
  {
    hide IsTree, RootOf, Refines;
    var r := WithOperands(g, b.n, pair);
    assert |pair| == 2 by { PairLength(b, g, pair, s, c, h); }
    forall x: NodeId
      ensures Live(r, x) <==> Live(g, x)
    {
    }
    forall x: NodeId, i: nat | x < |r.operands| && i < |r.operands[x]|
      ensures Live(r, r.operands[x][i]) && r.operands[x][i] < |rank| && rank[r.operands[x][i]] < rank[x]
    {
      if x == b.n {
        assert Usable(b, g, rank, pair[i]);
      } else {
        assert Live(g, g.operands[x][i]);
      }
    }
  }

  lemma PairLength(b: Build, g: Graph, pair: seq<NodeId>, s: seq<NodeId>, c: nat, h: nat)
    requires RootOf(b, g, pair, s, c, h)
    ensures |pair| == 2
  {
  }

  lemma RootedExtends<T(!new)>(b: Build, g: Graph, rank: seq<nat>, pair: seq<NodeId>, s: seq<NodeId>, c: nat, h: nat,
                               sem: (NodeId, Op, seq<T>) -> T)
    requires Rooted(b, g, rank, pair, s, c, h) && Regroups(sem, b.op)
    ensures Extends(g, WithOperands(g, b.n, pair), sem)
  {
    hide Regroups;
    var r := WithOperands(g, b.n, pair);
    RootedWellFormed(b, g, rank, pair, s, c, h);
    PairAndOp(b, g, rank, pair, s, c, h);
    hide Rooted;
    forall v | Interprets(g, sem, v)
      ensures exists v' :: Interprets(r, sem, v') && v <= v'
    {
      RootMeaning(b, g, rank, pair, s, c, h, sem, v);
      forall x: NodeId | Live(r, x)
        ensures v[x] == sem(x, r.op[x], Args(r, v, x))
      {
        assert Live(g, x) && v[x] == sem(x, g.op[x], Args(g, v, x));
        if x == b.n {
          assert Args(r, v, x) == [v[pair[0]], v[pair[1]]];
        } else {
          assert Args(r, v, x) == Args(g, v, x);
        }
      }
      assert Interprets(r, sem, v) && v <= v;
    }
  }

  lemma PairAndOp(b: Build, g: Graph, rank: seq<nat>, pair: seq<NodeId>, s: seq<NodeId>, c: nat, h: nat)
    requires Rooted(b, g, rank, pair, s, c, h)
    ensures |pair| == 2 && b.n < |g.op| && g.op[b.n] == b.op && IsReductionOp(b.op) && Refines(b.size, b.g, g)
      && WellFormed(g)
    ensures b.n < |g.operands|
  {
  }

  /** The root with its tree computes what the many operands did. */
  lemma RootedRefines(b: Build, g: Graph, rank: seq<nat>, pair: seq<NodeId>, s: seq<NodeId>, c: nat, h: nat)
    requires Rooted(b, g, rank, pair, s, c, h)
    ensures Refines(b.size, b.g, WithOperands(g, b.n, pair))
  {
    var r := WithOperands(g, b.n, pair);
    RootedWellFormed(b, g, rank, pair, s, c, h);
    PairAndOp(b, g, rank, pair, s, c, h);
    hide Rooted, Live;
    forall env
      ensures Extends(g, r, SlotSem(b.size, env))
    {
      SlotsRegroup(b.size, env, b.op);
      RootedExtends(b, g, rank, pair, s, c, h, SlotSem(b.size, env));
    }
    FlagsRegroup(b.op);
    RootedExtends(b, g, rank, pair, s, c, h, CipherSem());
    assert Refines(b.size, g, r);
    RefinesTransitive(b.size, b.g, g, r);
  }

  lemma LeafIsOperand(b: Build, g: Graph, rank: seq<nat>, pair: seq<NodeId>, s: seq<NodeId>, c: nat, h: nat, o: NodeId)
    requires Rooted(b, g, rank, pair, s, c, h)
    ensures o in b.leaves <==> o in b.g.operands[b.n]
  {
    assert o in s <==> o in multiset(s);
    assert o in b.g.operands[b.n] <==> o in multiset(b.g.operands[b.n]);
  }

  /** The same nodes are used as before, and all new ones. */
  lemma RootedUsed(b: Build, g: Graph, rank: seq<nat>, pair: seq<NodeId>, s: seq<NodeId>, c: nat, h: nat)
    requires Rooted(b, g, rank, pair, s, c, h)
    ensures UsedKept(b.g, WithOperands(g, b.n, pair))
  {
    RootedAlone(b, g, rank, pair, s, c, h);
    hide OutputsAlone;
    var r := WithOperands(g, b.n, pair);
    BuildingLength(b, g, rank);
    forall x: NodeId | x in b.leaves || |b.g.operands| <= x < |g.operands|
      ensures IsUsed(r, x)
    {
      PlacedIsUsed(b, g, rank, pair, s, c, h, x);
    }
    forall m: NodeId | m < |b.g.operands|
      ensures IsUsed(r, m) <==> IsUsed(b.g, m)
    {
      if IsUsed(b.g, m) {
        StillUsed(b, g, rank, pair, s, c, h, m);
      }
      if IsUsed(r, m) {
        UsedBefore(b, g, rank, pair, s, c, h, m);
      }
    }
  }

  lemma RootedAlone(b: Build, g: Graph, rank: seq<nat>, pair: seq<NodeId>, s: seq<NodeId>, c: nat, h: nat)
    requires Rooted(b, g, rank, pair, s, c, h)
    ensures OutputsAlone(b.g) ==> OutputsAlone(WithOperands(g, b.n, pair))
  {
    var r := WithOperands(g, b.n, pair);
    if OutputsAlone(b.g) {
      RootedBounds(b, g, rank, pair, s, c, h);
      hide Rooted;
      forall o: NodeId, u: NodeId, p: NodeId | OutputUses(r, o, p) && u < |r.operands| && p in r.operands[u]
        ensures u == o
      {
        RootedUser(b, g, rank, pair, s, c, h, o, u, p);
      }
    }
  }

  lemma RootedBounds(b: Build, g: Graph, rank: seq<nat>, pair: seq<NodeId>, s: seq<NodeId>, c: nat, h: nat)
    requires Rooted(b, g, rank, pair, s, c, h)
    ensures b.n < |g.operands|
  {
  }

  lemma RootedUser(b: Build, g: Graph, rank: seq<nat>, pair: seq<NodeId>, s: seq<NodeId>, c: nat, h: nat, o: NodeId,
                   u: NodeId, p: NodeId)
    requires Rooted(b, g, rank, pair, s, c, h) && OutputsAlone(b.g)
    requires OutputUses(WithOperands(g, b.n, pair), o, p) && u < |g.operands|
    requires p in WithOperands(g, b.n, pair).operands[u]
    ensures u == o
  {
    hide IsTree, RootOf, Placed;
    assert o < |b.g.operands| || NewNode(b, g, o);
    assert o != b.n && OutputUses(b.g, o, p);
    WellFormedRange(b.g);
    MemberRange(b.g, o, p);
    RootedEdge(b, g, rank, pair, s, c, h, u, p);
  }

  /** Where the edges come from: they were there, lead to a leaf, or to a new node. */
  lemma RootedEdge(b: Build, g: Graph, rank: seq<nat>, pair: seq<NodeId>, s: seq<NodeId>, c: nat, h: nat, u: NodeId,
                   p: NodeId)
    requires Rooted(b, g, rank, pair, s, c, h) && u < |g.operands| && p in WithOperands(g, b.n, pair).operands[u]
    ensures || (u < |b.g.operands| && p in b.g.operands[u])
            || p in b.g.operands[b.n] || p >= |b.g.operands|
  {
    hide IsTree, RootOf, Placed;
    var r := WithOperands(g, b.n, pair);
    LeafIsOperand(b, g, rank, pair, s, c, h, p);
    var i: nat :| i < |r.operands[u]| && r.operands[u][i] == p;
    if u == b.n {
      assert Usable(b, g, rank, pair[i]);
    } else if u >= |b.g.operands| {
      assert NewNode(b, g, u);
    }
  }

  lemma PlacedIsUsed(b: Build, g: Graph, rank: seq<nat>, pair: seq<NodeId>, s: seq<NodeId>, c: nat, h: nat, x: NodeId)
    requires Rooted(b, g, rank, pair, s, c, h) && (x in b.leaves || |b.g.operands| <= x < |g.operands|)
    ensures IsUsed(WithOperands(g, b.n, pair), x)
  {
    hide IsTree, RootOf;
    var r := WithOperands(g, b.n, pair);
    if x in pair {
      assert x in r.operands[b.n];
    } else {
      var u: NodeId :| |b.g.operands| <= u < |g.operands| && x in g.operands[u];
      assert x in r.operands[u];
    }
  }

  lemma StillUsed(b: Build, g: Graph, rank: seq<nat>, pair: seq<NodeId>, s: seq<NodeId>, c: nat, h: nat, m: NodeId)
    requires Rooted(b, g, rank, pair, s, c, h) && m < |b.g.operands| && IsUsed(b.g, m)
    ensures IsUsed(WithOperands(g, b.n, pair), m)
  {
    hide IsTree, RootOf, Placed;
    var r := WithOperands(g, b.n, pair);
    var u: NodeId :| u < |b.g.operands| && m in b.g.operands[u];
    if u == b.n {
      LeafIsOperand(b, g, rank, pair, s, c, h, m);
      PlacedIsUsed(b, g, rank, pair, s, c, h, m);
    } else {
      assert r.operands[u] == b.g.operands[u];
    }
  }

  lemma UsedBefore(b: Build, g: Graph, rank: seq<nat>, pair: seq<NodeId>, s: seq<NodeId>, c: nat, h: nat, m: NodeId)
    requires Rooted(b, g, rank, pair, s, c, h) && m < |b.g.operands| && IsUsed(WithOperands(g, b.n, pair), m)
    ensures IsUsed(b.g, m)
  {
    hide IsTree, RootOf, Placed;
    var r := WithOperands(g, b.n, pair);
    var u, i := UserOf(r, m);
    LeafIsOperand(b, g, rank, pair, s, c, h, m);
    if u == b.n {
      assert Usable(b, g, rank, pair[i]);
    } else if u < |b.g.operands| {
      assert m in b.g.operands[u];
    } else {
      assert NewNode(b, g, u);
    }
  }
}
