/** The forward pass of ReductionLogExpander (iyfc/daghandler/reduction_handler.cpp). */
module ExpandPass {
  import opened Graphs
  import opened Usage
  import opened Dags
  import opened Traversals
  import opened ForwardPass
  import opened Semantics
  import opened Types
  import opened Reassociation
  import opened Reductions
  import opened LogExpander
  import opened OperandScales
  import Chains
  import Rescaling = RescalePass

  // ----- a visit -----

  function BuildAt(size: nat, g: Graph, base: nat, n: NodeId, s: seq<NodeId>): Build
    requires n < |g.op|
  {
    Build(size, g, base, n, g.op[n], s)
  }

  ghost predicate Expands(g: Graph, n: NodeId)
  {
    n < |g.op| && n < |g.operands| && IsReductionOp(g.op[n]) && |g.operands[n]| > 2
  }

  /** After the visit: r is g, or g with the tree of n over its operands. */
  ghost predicate Expanded(size: nat, keys: Keys, g: Graph, base: nat, n: NodeId, r: Graph)
  {
    if Expands(g, n) then
      exists mid, rank, pair, s, c, h ::
        IsExpansion(size, keys, g, base, n, r, mid, rank, pair, s, c, h)
    else r == g
  }

  ghost predicate IsExpansion(size: nat, keys: Keys, g: Graph, base: nat, n: NodeId, r: Graph, mid: Graph,
                              rank: seq<nat>, pair: seq<NodeId>, s: seq<NodeId>, c: nat, h: nat)
  {
    && Expands(g, n) && n < |mid.operands| && Rooted(BuildAt(size, g, base, n, s), mid, rank, pair, s, c, h)
    && r == WithOperands(mid, n, pair) && InOrder(keys, s)
  }

  /** Sums the scales of the operands. */
  function SumOfScales(scale: map<NodeId, nat>, s: seq<NodeId>): nat
    requires HaveScales(scale, s)
  {
    if s == [] then 0 else SumOfScales(scale, s[..|s| - 1]) + scale[s[|s| - 1]]
  }

  function LargestScale(scale: map<NodeId, nat>, s: seq<NodeId>): nat
    requires HaveScales(scale, s)
  {
    if s == [] then 0
    else
      var m, x := LargestScale(scale, s[..|s| - 1]), scale[s[|s| - 1]];
      if x > m then x else m
  }

  /** Encryption and scale of the operands are known. */
  predicate OperandsTold(keys: Keys, types: TypeMap, scale: map<NodeId, nat>, s: seq<NodeId>)
  {
    forall i: nat :: i < |s| ==> TypeTold(keys, types, s[i]) && ScaleHeld(keys, scale, s[i])
  }

  lemma {:induction false} SumIsTotal(keys: Keys, scale: map<NodeId, nat>, s: seq<NodeId>, xs: seq<nat>)
    requires HaveScales(scale, s) && |xs| == |s|
    requires forall i: nat :: i < |s| ==> ScaleHeld(keys, scale, s[i]) && xs[i] == keys.scale[s[i]]
    ensures SumOfScales(scale, s) == TotalOf(xs)
  {
    if s != [] {
      SumIsTotal(keys, scale, s[..|s| - 1], xs[..|xs| - 1]);
    }
  }

  lemma {:induction false} LargestBounds(scale: map<NodeId, nat>, s: seq<NodeId>)
    requires HaveScales(scale, s)
    ensures forall i: nat :: i < |s| ==> scale[s[i]] <= LargestScale(scale, s)
    ensures LargestScale(scale, s) == 0 || exists i: nat :: i < |s| && scale[s[i]] == LargestScale(scale, s)
  {
    if s != [] {
      LargestBounds(scale, s[..|s| - 1]);
      assert forall i: nat :: i < |s| - 1 ==> s[..|s| - 1][i] == s[i];
    }
  }

  lemma LargestIsMax(keys: Keys, scale: map<NodeId, nat>, s: seq<NodeId>, xs: seq<nat>)
    requires HaveScales(scale, s) && |xs| == |s|
    requires forall i: nat :: i < |s| ==> ScaleHeld(keys, scale, s[i]) && xs[i] == keys.scale[s[i]]
    ensures LargestScale(scale, s) == Chains.MaxOf(xs)
  {
    LargestBounds(scale, s);
    if Chains.MaxOf(xs) != 0 {
      var i: nat :| i < |xs| && xs[i] == Chains.MaxOf(xs);
    }
  }

  /** What SetScale writes is the scale the graph gives the node. */
  lemma ScaleSet(g: Graph, stored: map<NodeId, nat>, keys: Keys, scale: map<NodeId, nat>, n: NodeId)
    requires n < |g.operands| && n < |g.op| && ScaleFits(g, stored, keys, n)
    requires (forall i: nat :: i < |g.operands[n]| ==> ScaleHeld(keys, scale, g.operands[n][i]))
      && (g.operands[n] == [] ==> n in stored) && (IsSourceOp(g.op[n]) <==> g.operands[n] == [])
    ensures HaveScales(scale, g.operands[n]) && n < |keys.scale|
    ensures keys.scale[n] == if g.operands[n] == [] then stored[n]
                             else if g.op[n].Mul? then SumOfScales(scale, g.operands[n])
                             else LargestScale(scale, g.operands[n])
  {
    var xs := Args<nat>(g, keys.scale, n);
    SumIsTotal(keys, scale, g.operands[n], xs);
    LargestIsMax(keys, scale, g.operands[n], xs);
  }

  lemma SortedInOrder(keys: Keys, types: TypeMap, scale: map<NodeId, nat>, s: seq<NodeId>, sorted: seq<NodeId>)
    requires OperandsTold(keys, types, scale, s) && multiset(sorted) == multiset(s)
    requires HaveScales(scale, sorted) && SortedBy(types, scale, sorted)
    ensures InOrder(keys, sorted)
  {
    forall i: nat | i < |sorted|
      ensures TypeTold(keys, types, sorted[i]) && ScaleHeld(keys, scale, sorted[i])
    {
      assert sorted[i] in multiset(sorted);
      assert sorted[i] in s;
    }
    forall i: nat, j: nat | i < j < |sorted| && keys.encrypted[sorted[i]]
      ensures keys.encrypted[sorted[j]] && keys.scale[sorted[i]] <= keys.scale[sorted[j]]
    {
      assert SortKey(types, scale, sorted[i]) <= SortKey(types, scale, sorted[j]);
    }
  }

  class ReductionLogExpander {
    const types: TypeMap
    /** EncodeAtScaleAttr of the nodes without operands. */
    const stored: map<NodeId, nat>
    var scale: map<NodeId, nat>

    constructor (types: TypeMap, stored: map<NodeId, nat>)
      ensures this.types == types && this.stored == stored && scale == map[]
    {
      this.types, this.stored, scale := types, stored, map[];
    }

    /** The scale a node gets: its own, the sum of those multiplied, or else the largest. */
    method SetScale(d: Dag, n: NodeId)
      requires d.Valid() && n < |d.operands|
      requires HaveScales(scale, d.operands[n]) && (d.operands[n] == [] ==> n in stored)
      modifies this
      ensures scale == old(scale)[n := if d.operands[n] == [] then stored[n]
                                       else if d.op[n].Mul? then SumOfScales(old(scale), d.operands[n])
                                       else LargestScale(old(scale), d.operands[n])]
    {
      var os := d.operands[n];
      if os == [] {
        scale := scale[n := stored[n]];
        return;
      }
      var total: nat, largest: nat := 0, 0;
      for i := 0 to |os|
        invariant total == SumOfScales(scale, os[..i]) && largest == LargestScale(scale, os[..i])
      {
        assert os[..i + 1][..i] == os[..i];
        total := total + scale[os[i]];
        if scale[os[i]] > largest {
          largest := scale[os[i]];
        }
      }
      assert os[..|os|] == os;
      scale := scale[n := if d.op[n].Mul? then total else largest];
    }

    method Visit(d: Dag, n: NodeId, ghost base: nat, ghost size: nat, ghost keys: Keys)
      requires d.Valid() && Acyclic(d.G()) && n < |d.operands| && Live(d.G(), n) && base <= |d.operands|
      requires !d.op[n].Rescale? && !d.op[n].ModSwitch?
      requires OperandsTold(keys, types, scale, d.operands[n]) && (d.operands[n] == [] ==> n in stored)
      requires IsSourceOp(d.op[n]) <==> d.operands[n] == []
      requires ScaleFits(d.G(), stored, keys, n)
      requires forall x: NodeId :: base <= x < |d.operands| ==> |d.operands[x]| == 2
      modifies d, this
      ensures d.Valid() && ScalesGrow(keys, old(scale), scale, n)
      ensures Expanded(size, keys, old(d.G()), base, n, d.G())
    {
      hide UsesInverse, SinksMatch, Erased, Acyclic, IsExpansion, ScaleFits, SumOfScales, LargestScale, SortedBy,
           InOrder;
      ScaleSet(d.G(), stored, keys, scale, n);
      SetScale(d, n);
      if IsReductionOp(d.op[n]) && |d.operands[n]| > 2 {
        var sorted := SortOperands(types, scale, d.operands[n]);
        SortedInOrder(keys, types, scale, d.operands[n], sorted);
        Expand(d, n, sorted, base, size, keys);
      }
    }

    method Expand(d: Dag, n: NodeId, sorted: seq<NodeId>, ghost base: nat, ghost size: nat, ghost keys: Keys)
      requires d.Valid() && Acyclic(d.G()) && Live(d.G(), n) && base <= |d.operands| && Expands(d.G(), n)
      requires multiset(sorted) == multiset(d.operands[n]) && |sorted| == |d.operands[n]| && InOrder(keys, sorted)
      requires forall x: NodeId :: base <= x < |d.operands| ==> |d.operands[x]| == 2
      modifies d
      ensures d.Valid() && Expanded(size, keys, old(d.G()), base, n, d.G())
    {
      ghost var g := d.G();
      ghost var b := BuildAt(size, g, base, n, sorted);
      ghost var rank := BuildStart(b, g, n, sorted);
      var operands;
      ghost var c, h;
      hide Building, AllUsable, RootOf, UsesInverse, SinksMatch, Erased, WellFormed, Placed, Rooted, Acyclic, InOrder;
      operands, rank, c, h := CombineOperands(d, d.op[n], sorted, b, rank);
      ghost var mid := d.G();
      RootReady(b, mid, rank, operands, sorted, c, h);
      d.SetOperands(n, operands);
      assert IsExpansion(size, keys, g, base, n, d.G(), mid, rank, operands, sorted, c, h);
    }
  }

  lemma BuildStart(b: Build, g: Graph, n: NodeId, s: seq<NodeId>) returns (rank: seq<nat>)
    requires WellFormed(g) && Acyclic(g) && Expands(g, n) && b.g == g && b.n == n && b.op == g.op[n] && b.leaves == s
      && b.base <= |g.operands|
    requires multiset(s) == multiset(g.operands[n])
    ensures Building(b, g, rank) && AllUsable(b, g, rank, s) && Placed(b, g, s)
  {
    rank :| Ranked(g, rank);
    RefinesReflexive(b.size, g);
    forall i: nat | i < |s|
      ensures Usable(b, g, rank, s[i])
    {
      assert s[i] in multiset(s);
      assert s[i] in g.operands[n];
      var k: nat :| k < |g.operands[n]| && g.operands[n][k] == s[i];
      assert Live(g, g.operands[n][k]);
    }
  }

  lemma RootReady(b: Build, g: Graph, rank: seq<nat>, pair: seq<NodeId>, s: seq<NodeId>, c: nat, h: nat)
    requires Building(b, g, rank) && AllUsable(b, g, rank, pair) && RootOf(b, g, pair, s, c, h) && Placed(b, g, pair)
    requires b.n < |b.g.op| && b.g.op[b.n] == b.op && IsReductionOp(b.op) && b.g.operands[b.n] != []
    requires b.leaves == s && multiset(s) == multiset(b.g.operands[b.n])
    requires forall x: NodeId :: b.base <= x < |b.g.operands| ==> |b.g.operands[x]| == 2
    ensures Rooted(b, g, rank, pair, s, c, h) && Live(g, b.n) && |pair| == 2
    ensures forall i: nat :: i < |pair| ==> Live(g, pair[i])
  {
    assert |pair| == 2 by { PairLength(b, g, pair, s, c, h); }
    hide RootOf, IsTree, Placed;
    forall i: nat | i < |pair|
      ensures Live(g, pair[i])
    {
      assert Usable(b, g, rank, pair[i]);
    }
  }

  // ----- the state of the pass -----

  /** The node is a root over exactly its former operands, plaintexts first and then by scale, at a height that
      is the logarithm of their number. */
  ghost predicate Balanced(keys: Keys, g0: Graph, g: Graph, m: NodeId)
    requires m < |g0.operands| && m < |g0.op|
  {
    exists b: Build, s: seq<NodeId>, c: nat, h: nat ::
      && b.base == |g0.operands| && b.op == g0.op[m] && m < |g.operands| && RootOf(b, g, g.operands[m], s, c, h)
      && multiset(s) == multiset(g0.operands[m]) && InOrder(keys, s)
  }

  ghost predicate DoneAt(keys: Keys, g0: Graph, g: Graph, m: NodeId)
  {
    && m < |g0.operands| && m < |g.operands|
    && if Expands(g0, m) then Balanced(keys, g0, g, m) else g.operands[m] == g0.operands[m]
  }

  ghost predicate NewNodes(g0: Graph, g: Graph, processed: set<NodeId>, exempt: set<NodeId>)
  {
    && (forall x: NodeId :: x in exempt <==> |g0.operands| <= x < |g.operands|)
    && forall x: NodeId :: |g0.operands| <= x < |g.operands| ==> NewNodeFits(g0, g, processed, x)
  }

  ghost predicate NewNodeFits(g0: Graph, g: Graph, processed: set<NodeId>, x: NodeId)
    requires x < |g.operands|
  {
    && x < |g.op| && IsReductionOp(g.op[x]) && |g.operands[x]| == 2
    && forall i: nat :: i < 2 ==> g.operands[x][i] in processed || g.operands[x][i] >= |g0.operands|
  }

  ghost predicate ExpandShape(size: nat, g0: Graph, g: Graph)
  {
    && WellFormed(g0) && Acyclic(g) && Refines(size, g0, g) && UsedKept(g0, g)
    && |g0.op| == |g0.operands| && g0.op <= g.op && g.sources == g0.sources
  }

  ghost predicate ExpandInv(size: nat, keys: Keys, g0: Graph, g: Graph, scale: map<NodeId, nat>, processed: set<NodeId>,
                            exempt: set<NodeId>)
  {
    && ExpandShape(size, g0, g) && NewNodes(g0, g, processed, exempt)
    && (forall m: NodeId :: m in processed ==> DoneAt(keys, g0, g, m) && ScaleHeld(keys, scale, m))
    && forall m: NodeId :: m < |g0.operands| && m !in processed ==> g.operands[m] == g0.operands[m]
  }

  lemma ExpandStart(size: nat, keys: Keys, g: Graph)
    requires WellFormed(g) && Acyclic(g)
    ensures ExpandInv(size, keys, g, g, map[], {}, {})
  {
    RefinesReflexive(size, g);
    UsedReflexive(g);
  }

  /** The facts about r after an expansion that later steps need. */
  lemma ExpansionShape(size: nat, keys: Keys, g: Graph, base: nat, n: NodeId, r: Graph, mid: Graph, rank: seq<nat>,
                       pair: seq<NodeId>, s: seq<NodeId>, c: nat, h: nat)
    requires IsExpansion(size, keys, g, base, n, r, mid, rank, pair, s, c, h)
    ensures WellFormed(r) && Acyclic(r) && Refines(size, g, r) && UsedKept(g, r)
    ensures |g.operands| <= |r.operands| && |r.op| == |r.operands| && g.op <= r.op && r.sources == g.sources
    ensures forall m: NodeId :: m < |g.operands| && m != n ==> r.operands[m] == g.operands[m]
    ensures n < |r.operands| && r.operands[n] == pair && |pair| == 2
  {
    var b := BuildAt(size, g, base, n, s);
    RootedWellFormed(b, mid, rank, pair, s, c, h);
    RootedRefines(b, mid, rank, pair, s, c, h);
    RootedUsed(b, mid, rank, pair, s, c, h);
    PairAndOp(b, mid, rank, pair, s, c, h);
    assert Ranked(r, rank);
    BuildingShape(b, mid, rank, pair, s, c, h);
  }

  lemma BuildingShape(b: Build, g: Graph, rank: seq<nat>, pair: seq<NodeId>, s: seq<NodeId>, c: nat, h: nat)
    requires Rooted(b, g, rank, pair, s, c, h)
    ensures b.g.op <= g.op && b.g.operands <= g.operands && g.sources == b.g.sources
    ensures |g.op| == |g.operands|
    ensures forall x: NodeId :: |b.g.operands| <= x < |g.operands| ==> NewNode(b, g, x)
  {
  }

  /** New nodes use operands of n or other new nodes. */
  lemma ExpansionNew(size: nat, keys: Keys, g: Graph, base: nat, n: NodeId, r: Graph, mid: Graph, rank: seq<nat>,
                     pair: seq<NodeId>, s: seq<NodeId>, c: nat, h: nat, x: NodeId)
    requires IsExpansion(size, keys, g, base, n, r, mid, rank, pair, s, c, h) && |g.operands| <= x < |r.operands|
      && n < |g.operands|
    ensures x < |r.op| && r.op[x] == g.op[n] && |r.operands[x]| == 2
    ensures forall i: nat :: i < 2 ==> r.operands[x][i] in g.operands[n] || r.operands[x][i] >= |g.operands|
  {
    var b := BuildAt(size, g, base, n, s);
    BuildingShape(b, mid, rank, pair, s, c, h);
    assert NewNode(b, mid, x);
    forall i: nat | i < 2
      ensures r.operands[x][i] in g.operands[n] || r.operands[x][i] >= |g.operands|
    {
      LeafIsOperand(b, mid, rank, pair, s, c, h, r.operands[x][i]);
    }
  }

  /** The root of the visited node. */
  lemma ExpansionBalanced(size: nat, keys: Keys, g0: Graph, g: Graph, n: NodeId, r: Graph, mid: Graph, rank: seq<nat>,
                          pair: seq<NodeId>, s: seq<NodeId>, c: nat, h: nat)
    requires IsExpansion(size, keys, g, |g0.operands|, n, r, mid, rank, pair, s, c, h)
    requires n < |g0.operands| <= |g.operands| && |g0.op| == |g0.operands| && g0.op <= g.op
      && g.operands[n] == g0.operands[n]
    ensures Balanced(keys, g0, r, n)
  {
    var b := BuildAt(size, g, |g0.operands|, n, s);
    ExpansionShape(size, keys, g, |g0.operands|, n, r, mid, rank, pair, s, c, h);
    BuildingShape(b, mid, rank, pair, s, c, h);
    assert SameFrom(mid, r, |g0.operands|);
    RootKept(b, mid, r, pair, s, c, h);
  }

  lemma RootKept(b: Build, g: Graph, g': Graph, pair: seq<NodeId>, s: seq<NodeId>, c: nat, h: nat)
    requires RootOf(b, g, pair, s, c, h) && SameFrom(g, g', b.base)
    ensures RootOf(b, g', pair, s, c, h)
  {
    TreeKept(g, g', b.base, b.op, pair[0], s[..c], h - 1);
    TreeKept(g, g', b.base, b.op, pair[1], s[c..], h - 1);
  }

  lemma DoneKept(keys: Keys, g0: Graph, g: Graph, r: Graph, m: NodeId)
    requires DoneAt(keys, g0, g, m) && SameFrom(g, r, |g0.operands|) && r.operands[m] == g.operands[m]
    ensures DoneAt(keys, g0, r, m)
  {
    if Expands(g0, m) {
      var b: Build, s: seq<NodeId>, c: nat, h: nat :| b.base == |g0.operands| && b.op == g0.op[m] && m < |g.operands|
        && RootOf(b, g, g.operands[m], s, c, h) && multiset(s) == multiset(g0.operands[m]) && InOrder(keys, s);
      RootKept(b, g, r, g.operands[m], s, c, h);
    }
  }

  // ----- a step of the pass -----

  ghost function NewOnes(g: Graph, r: Graph): (s: set<NodeId>)
    ensures forall x: NodeId :: x in s <==> |g.operands| <= x < |r.operands|
  {
    AllNodes(r) - AllNodes(g)
  }

  /** What is known of the visited node. */
  ghost predicate Visitable(size: nat, keys: Keys, g0: Graph, g: Graph, scale: map<NodeId, nat>, processed: set<NodeId>,
                            exempt: set<NodeId>, n: NodeId)
  {
    && ExpandInv(size, keys, g0, g, scale, processed, exempt) && WellFormed(g)
    && Live(g, n) && n < |g0.operands| && n !in processed && Unblocked(g.operands, processed, n)
  }

  lemma VisitFacts(size: nat, keys: Keys, g0: Graph, g: Graph, scale: map<NodeId, nat>, processed: set<NodeId>,
                   exempt: set<NodeId>, n: NodeId)
    requires Visitable(size, keys, g0, g, scale, processed, exempt, n)
    ensures Acyclic(g) && |g.op| == |g.operands| && |g0.operands| <= |g.operands| && n < |g0.op| && g.op[n] == g0.op[n]
    ensures g.operands[n] == g0.operands[n]
    ensures forall i: nat :: i < |g.operands[n]| ==> ScaleHeld(keys, scale, g.operands[n][i])
    ensures g.operands[n] == [] ==> n in g0.sources
    ensures forall x: NodeId :: |g0.operands| <= x < |g.operands| ==> |g.operands[x]| == 2
  {
    hide Acyclic, Refines, UsedKept, DoneAt, ScaleHeld;
    forall x: NodeId | |g0.operands| <= x < |g.operands|
      ensures |g.operands[x]| == 2
    {
      assert NewNodeFits(g0, g, processed, x);
    }
  }

  /** What the visit is given. */
  lemma VisitKeys(size: nat, keys: Keys, g0: Graph, g: Graph, stored: map<NodeId, nat>, types: TypeMap,
                  scale: map<NodeId, nat>, processed: set<NodeId>, exempt: set<NodeId>, n: NodeId)
    requires Visitable(size, keys, g0, g, scale, processed, exempt, n) && Expandable(g0, stored)
    requires KeysOf(g0, stored, keys) && TypesTold(g0, keys, types)
    ensures n < |g.operands| && n < |g.op| && OperandsTold(keys, types, scale, g.operands[n])
    ensures ScaleFits(g, stored, keys, n) && (g.operands[n] == [] ==> n in stored)
    ensures IsSourceOp(g.op[n]) <==> g.operands[n] == []
  {
    VisitFacts(size, keys, g0, g, scale, processed, exempt, n);
    hide ExpandInv, TypeTold, ScaleHeld, Acyclic, Refines;
    assert Live(g0, n) by { OldLive(size, keys, g0, g, scale, processed, exempt, n); }
    forall i: nat | i < |g.operands[n]|
      ensures TypeTold(keys, types, g.operands[n][i]) && g.operands[n][i] < |keys.scale|
    {
      assert Live(g0, g0.operands[n][i]);
    }
    assert Args<nat>(g, keys.scale, n) == Args<nat>(g0, keys.scale, n);
  }

  lemma ExpandedNew(size: nat, keys: Keys, g0: Graph, g: Graph, scale: map<NodeId, nat>, processed: set<NodeId>,
                    exempt: set<NodeId>, n: NodeId, r: Graph, mid: Graph, rank: seq<nat>, pair: seq<NodeId>,
                    s: seq<NodeId>, c: nat, h: nat)
    requires Visitable(size, keys, g0, g, scale, processed, exempt, n)
    requires IsExpansion(size, keys, g, |g0.operands|, n, r, mid, rank, pair, s, c, h)
    ensures NewNodes(g0, r, processed + {n}, exempt + NewOnes(g, r))
  {
    hide OutputsAlone;
    VisitFacts(size, keys, g0, g, scale, processed, exempt, n);
    ExpansionShape(size, keys, g, |g0.operands|, n, r, mid, rank, pair, s, c, h);
    assert IsReductionOp(g.op[n]);
    hide IsExpansion, ExpandShape, DoneAt;
    forall x: NodeId | |g0.operands| <= x < |r.operands|
      ensures NewNodeFits(g0, r, processed + {n}, x)
    {
      if x < |g.operands| {
        assert NewNodeFits(g0, g, processed, x);
      } else {
        ExpansionNew(size, keys, g, |g0.operands|, n, r, mid, rank, pair, s, c, h, x);
      }
    }
  }

  lemma ExpandedSame(size: nat, keys: Keys, g0: Graph, g: Graph, n: NodeId, r: Graph, mid: Graph, rank: seq<nat>,
                     pair: seq<NodeId>, s: seq<NodeId>, c: nat, h: nat)
    requires IsExpansion(size, keys, g, |g0.operands|, n, r, mid, rank, pair, s, c, h) && n < |g0.operands|
    ensures SameFrom(g, r, |g0.operands|)
  {
    ExpansionShape(size, keys, g, |g0.operands|, n, r, mid, rank, pair, s, c, h);
  }

  /** Nodes visited before stay done, and n is done now. */
  lemma ExpandedDone(keys: Keys, g0: Graph, g: Graph, processed: set<NodeId>, n: NodeId, r: Graph)
    requires forall m: NodeId :: m in processed ==> DoneAt(keys, g0, g, m)
    requires SameFrom(g, r, |g0.operands|) && Expands(g0, n) && Balanced(keys, g0, r, n) && n < |g0.operands|
      && n < |r.operands|
    requires forall m: NodeId :: m < |g.operands| && m != n ==> r.operands[m] == g.operands[m]
    ensures forall m: NodeId :: m in processed + {n} ==> DoneAt(keys, g0, r, m)
  {
    hide Expands, Balanced, SameFrom;
    forall m: NodeId | m in processed + {n}
      ensures DoneAt(keys, g0, r, m)
    {
      if m != n {
        assert DoneAt(keys, g0, g, m);
        DoneKept(keys, g0, g, r, m);
      }
    }
  }

  lemma ExpandedInv(size: nat, keys: Keys, g0: Graph, g: Graph, scale: map<NodeId, nat>, processed: set<NodeId>,
                    exempt: set<NodeId>, n: NodeId, r: Graph, mid: Graph, rank: seq<nat>, pair: seq<NodeId>,
                    s: seq<NodeId>, c: nat, h: nat, scale': map<NodeId, nat>)
    requires Visitable(size, keys, g0, g, scale, processed, exempt, n) && ScalesGrow(keys, scale, scale', n)
    requires IsExpansion(size, keys, g, |g0.operands|, n, r, mid, rank, pair, s, c, h)
    ensures ExpandInv(size, keys, g0, r, scale', processed + {n}, exempt + NewOnes(g, r))
  {
    hide OutputsAlone, Acyclic, Refines, UsedKept, NewNodes, Balanced, SameFrom, DoneAt, HaveScales;
    VisitFacts(size, keys, g0, g, scale, processed, exempt, n);
    ExpansionShape(size, keys, g, |g0.operands|, n, r, mid, rank, pair, s, c, h);
    ExpandedNew(size, keys, g0, g, scale, processed, exempt, n, r, mid, rank, pair, s, c, h);
    ExpansionBalanced(size, keys, g0, g, n, r, mid, rank, pair, s, c, h);
    assert Expands(g0, n);
    RefinesTransitive(size, g0, g, r);
    UsedTransitive(g0, g, r);
    ExpandedSame(size, keys, g0, g, n, r, mid, rank, pair, s, c, h);
    hide IsExpansion, Expands, WellFormed;
    ExpandedDone(keys, g0, g, processed, n, r);
  }

  lemma ExpandedLocal(size: nat, keys: Keys, g0: Graph, g: Graph, scale: map<NodeId, nat>, processed: set<NodeId>,
                      exempt: set<NodeId>, n: NodeId, r: Graph, mid: Graph, rank: seq<nat>, pair: seq<NodeId>,
                      s: seq<NodeId>, c: nat, h: nat)
    requires Visitable(size, keys, g0, g, scale, processed, exempt, n)
    requires IsExpansion(size, keys, g, |g0.operands|, n, r, mid, rank, pair, s, c, h)
    ensures LocalRewrite(g, r, processed, n, exempt + NewOnes(g, r))
  {
    hide OutputsAlone;
    VisitFacts(size, keys, g0, g, scale, processed, exempt, n);
    ExpansionShape(size, keys, g, |g0.operands|, n, r, mid, rank, pair, s, c, h);
    hide IsExpansion, Acyclic, Refines, UsedKept;
    forall m: NodeId, i: nat | m < |g0.operands| && m !in processed && m != n && i < |r.operands[m]|
      ensures r.operands[m][i] < |g0.operands|
    {
      assert r.operands[m] == g0.operands[m] && Live(g0, g0.operands[m][i]);
    }
  }

  /** The whole visit. */
  lemma VisitKeeps(size: nat, keys: Keys, g0: Graph, g: Graph, scale: map<NodeId, nat>, processed: set<NodeId>,
                   exempt: set<NodeId>, n: NodeId, r: Graph, scale': map<NodeId, nat>)
    requires Visitable(size, keys, g0, g, scale, processed, exempt, n) && ScalesGrow(keys, scale, scale', n)
    requires Expanded(size, keys, g, |g0.operands|, n, r)
    ensures ExpandInv(size, keys, g0, r, scale', processed + {n}, exempt + NewOnes(g, r))
    ensures LocalRewrite(g, r, processed, n, exempt + NewOnes(g, r))
  {
    hide ExpandInv, LocalRewrite, IsExpansion;
    if Expands(g, n) {
      var mid, rank, pair, s, c, h :| IsExpansion(size, keys, g, |g0.operands|, n, r, mid, rank, pair, s, c, h);
      ExpandedInv(size, keys, g0, g, scale, processed, exempt, n, r, mid, rank, pair, s, c, h, scale');
      ExpandedLocal(size, keys, g0, g, scale, processed, exempt, n, r, mid, rank, pair, s, c, h);
    } else {
      NothingExpanded(size, keys, g0, g, scale, processed, exempt, n, scale');
      assert NewOnes(g, g) == {};
      assert exempt + NewOnes(g, g) == exempt;
    }
  }

  lemma NothingExpanded(size: nat, keys: Keys, g0: Graph, g: Graph, scale: map<NodeId, nat>, processed: set<NodeId>,
                        exempt: set<NodeId>, n: NodeId, scale': map<NodeId, nat>)
    requires Visitable(size, keys, g0, g, scale, processed, exempt, n) && ScalesGrow(keys, scale, scale', n)
    requires !Expands(g, n)
    ensures ExpandInv(size, keys, g0, g, scale', processed + {n}, exempt) && LocalRewrite(g, g, processed, n, exempt)
  {
    hide Acyclic, Refines, UsedKept, Balanced;
    forall x: NodeId | |g0.operands| <= x < |g.operands|
      ensures NewNodeFits(g0, g, processed + {n}, x)
    {
      assert NewNodeFits(g0, g, processed, x);
    }
    forall m: NodeId, i: nat | m < |g0.operands| && m !in processed && i < |g.operands[m]|
      ensures g.operands[m][i] < |g0.operands|
    {
      assert g.operands[m] == g0.operands[m] && Live(g0, g0.operands[m][i]);
    }
  }

  /** New nodes do not use n, and are no sources. */
  lemma ExemptApart(size: nat, keys: Keys, g0: Graph, g: Graph, scale: map<NodeId, nat>, processed: set<NodeId>,
                    exempt: set<NodeId>, n: NodeId)
    requires ExpandInv(size, keys, g0, g, scale, processed, exempt) && n !in processed && n < |g0.operands|
    ensures g.sources !! exempt
    ensures forall m: NodeId :: m < |g.operands| && n in g.operands[m] ==> m !in exempt
  {
    hide Acyclic, Refines, UsedKept, DoneAt;
    forall m: NodeId | |g0.operands| <= m < |g.operands|
      ensures n !in g.operands[m]
    {
      assert NewNodeFits(g0, g, processed, m);
    }
  }

  lemma ExemptAfter(size: nat, keys: Keys, g0: Graph, g: Graph, scale: map<NodeId, nat>, processed: set<NodeId>,
                    exempt: set<NodeId>, n: NodeId, r: Graph)
    requires Visitable(size, keys, g0, g, scale, processed, exempt, n) && Expanded(size, keys, g, |g0.operands|, n, r)
    ensures r.sources !! exempt + NewOnes(g, r) && |g.operands| <= |r.operands|
    ensures forall m: NodeId :: m < |r.operands| && n in r.operands[m] ==> m !in exempt + NewOnes(g, r)
  {
    VisitFacts(size, keys, g0, g, scale, processed, exempt, n);
    ExemptApart(size, keys, g0, g, scale, processed, exempt, n);
    hide ExpandInv, IsExpansion, WellFormed;
    if Expands(g, n) {
      var mid, rank, pair, s, c, h :| IsExpansion(size, keys, g, |g0.operands|, n, r, mid, rank, pair, s, c, h);
      ExpansionShape(size, keys, g, |g0.operands|, n, r, mid, rank, pair, s, c, h);
      SourcesOld(g);
      forall m: NodeId | |g.operands| <= m < |r.operands|
        ensures n !in r.operands[m]
      {
        ExpansionNew(size, keys, g, |g0.operands|, n, r, mid, rank, pair, s, c, h, m);
        NoSelf(g, n);
      }
    }
  }

  lemma SourcesOld(g: Graph)
    requires WellFormed(g)
    ensures forall s: NodeId :: s in g.sources ==> s < |g.operands|
  {
  }

  /** The opcodes and scales the pass expects. */
  ghost predicate Expandable(g: Graph, stored: map<NodeId, nat>)
  {
    && (forall s: NodeId :: s in g.sources ==> s in stored)
    && |g.op| == |g.operands| && (forall n: NodeId :: Live(g, n) ==> (IsSourceOp(g.op[n]) <==> g.operands[n] == []))
    && forall n: NodeId :: n < |g.op| ==> !g.op[n].Rescale? && !g.op[n].ModSwitch?
  }

  lemma ToVisit(size: nat, keys: Keys, g0: Graph, g: Graph, scale: map<NodeId, nat>, processed: set<NodeId>,
                exempt: set<NodeId>, n: NodeId)
    requires ExpandInv(size, keys, g0, g, scale, processed, exempt) && WellFormed(g)
    requires Live(g, n) && n < |g.operands| && n !in processed && n !in exempt && Unblocked(g.operands, processed, n)
    ensures Visitable(size, keys, g0, g, scale, processed, exempt, n)
  {
  }

  method ExpandStep(d: Dag, h: ReductionLogExpander, t: DagTraversal, ghost g0: Graph, ghost exempt: set<NodeId>,
                    ghost size: nat, ghost keys: Keys)
    returns (n: NodeId, ghost exempt': set<NodeId>)
    requires d.Valid() && t.Consistent({}) && t.work != [] && Expandable(g0, h.stored)
    requires KeysOf(g0, h.stored, keys) && TypesTold(g0, keys, h.types)
    requires ExpandInv(size, keys, g0, d.G(), h.scale, t.processed, exempt)
    requires FwdInv(d.G(), t.ready, t.processed, Elems(t.work), exempt)
    modifies d, h, t
    ensures d.Valid() && t.Consistent({})
    ensures ExpandInv(size, keys, g0, d.G(), h.scale, t.processed, exempt')
    ensures FwdInv(d.G(), t.ready, t.processed, Elems(t.work), exempt')
    ensures n < |g0.operands| && n !in old(t.processed) && t.processed == old(t.processed) + {n}
  {
    hide ExpandInv, FwdInv, Frontier, WellFormed, UsesInverse, SinksMatch, LocalRewrite, Unblocked, Live, Erased,
         Acyclic, Expanded, KeysOf, TypesTold, ScaleFits, OperandsTold, ScalesGrow;
    ghost var g, processed, scale := d.G(), t.processed, h.scale;
    FwdPop(g, t.ready, t.processed, t.work, exempt);
    n := t.Pop({});
    ToVisit(size, keys, g0, g, scale, processed, exempt, n);
    VisitFacts(size, keys, g0, g, scale, processed, exempt, n);
    VisitKeys(size, keys, g0, g, h.stored, h.types, scale, processed, exempt, n);
    Rescaling.UsersOf(g, d.uses, n);
    VisitableBound(size, keys, g0, g, scale, processed, exempt, n);
    ExemptApart(size, keys, g0, g, scale, processed, exempt, n);
    var cands := d.uses[n];
    h.Visit(d, n, |g0.operands|, size, keys);
    exempt' := exempt + NewOnes(g, d.G());
    VisitKeeps(size, keys, g0, g, scale, processed, exempt, n, d.G(), h.scale);
    ExemptAfter(size, keys, g0, g, scale, processed, exempt, n, d.G());
    FwdFinish(d, t, n, cands, g, processed, exempt, exempt');
  }

  lemma VisitableBound(size: nat, keys: Keys, g0: Graph, g: Graph, scale: map<NodeId, nat>, processed: set<NodeId>,
                       exempt: set<NodeId>, n: NodeId)
    requires Visitable(size, keys, g0, g, scale, processed, exempt, n)
    ensures n < |g0.operands| && n !in processed && n !in exempt && Unblocked(g.operands, processed, n)
  {
  }

  /** The result: every large addition or multiplication is the root of a balanced tree. */
  ghost predicate AllBalanced(keys: Keys, g0: Graph, g: Graph)
  {
    && (forall m: NodeId :: Live(g0, m) ==> DoneAt(keys, g0, g, m))
    && forall x: NodeId :: |g0.operands| <= x < |g.operands| ==>
         x < |g.op| && IsReductionOp(g.op[x]) && |g.operands[x]| == 2
  }

  lemma ExpandEnd(size: nat, keys: Keys, g0: Graph, g: Graph, scale: map<NodeId, nat>, processed: set<NodeId>,
                  exempt: set<NodeId>)
    requires WellFormed(g) && ExpandInv(size, keys, g0, g, scale, processed, exempt)
      && FwdInv(g, processed, processed, {}, exempt)
    ensures ExpandShape(size, g0, g) && AllBalanced(keys, g0, g)
    ensures forall m: NodeId :: m < |g0.operands| ==> (Live(g, m) <==> Live(g0, m))
  {
    var rank :| Ranked(g, rank);
    forall m: NodeId | m < |g0.operands|
      ensures Live(g, m) <==> Live(g0, m)
    {
      OldLive(size, keys, g0, g, scale, processed, exempt, m);
    }
    hide ExpandShape, DoneAt, Ranked;
    forall m: NodeId | Live(g0, m)
      ensures DoneAt(keys, g0, g, m)
    {
      FwdEnd(g, rank, processed, exempt, m);
    }
    forall x: NodeId | |g0.operands| <= x < |g.operands|
      ensures x < |g.op| && IsReductionOp(g.op[x]) && |g.operands[x]| == 2
    {
      assert NewNodeFits(g0, g, processed, x);
    }
  }

  lemma DoneLength(keys: Keys, g0: Graph, g: Graph, m: NodeId)
    requires DoneAt(keys, g0, g, m)
    ensures m < |g0.operands| && m < |g.operands|
    ensures |g.operands[m]| == if Expands(g0, m) then 2 else |g0.operands[m]|
  {
    if Expands(g0, m) {
      var b: Build, s: seq<NodeId>, c: nat, h: nat :| b.base == |g0.operands| && b.op == g0.op[m] && m < |g.operands|
        && RootOf(b, g, g.operands[m], s, c, h) && multiset(s) == multiset(g0.operands[m]) && InOrder(keys, s);
      PairLength(b, g, g.operands[m], s, c, h);
    }
  }

  lemma OldLive(size: nat, keys: Keys, g0: Graph, g: Graph, scale: map<NodeId, nat>, processed: set<NodeId>,
                exempt: set<NodeId>, m: NodeId)
    requires ExpandInv(size, keys, g0, g, scale, processed, exempt) && m < |g0.operands|
    ensures Live(g, m) <==> Live(g0, m)
  {
    hide Refines, Acyclic, NewNodes, DoneAt;
    if m in processed {
      DoneLength(keys, g0, g, m);
    }
  }

  /** Two operands for every addition and multiplication again. */
  lemma BalancedArity(size: nat, keys: Keys, g0: Graph, g: Graph)
    requires WideArity(g0) && ExpandShape(size, g0, g) && AllBalanced(keys, g0, g) && |g.op| == |g.operands|
    requires forall m: NodeId :: m < |g0.operands| ==> (Live(g, m) <==> Live(g0, m))
    ensures Arity(g)
  {
    hide Refines, UsedKept, Acyclic, DoneAt;
    forall m: NodeId | Live(g, m)
      ensures |g.operands[m]| == if IsSourceOp(g.op[m]) then 0 else if IsBinaryOp(g.op[m]) then 2 else 1
    {
      if m < |g0.operands| {
        assert DoneAt(keys, g0, g, m) && WideAt(g0, m);
        DoneLength(keys, g0, g, m);
      }
    }
  }

  /** The forward pass of ReductionLogExpander; keys tell encryption and scale of every node of the graph before. */
  method ExpandReductions(d: Dag, types: TypeMap, stored: map<NodeId, nat>, ghost size: nat, ghost keys: Keys)
    requires d.Valid() && Acyclic(d.G()) && WideArity(d.G()) && Expandable(d.G(), stored)
    requires KeysOf(d.G(), stored, keys) && TypesTold(d.G(), keys, types)
    modifies d
    ensures d.Valid() && Acyclic(d.G()) && Arity(d.G())
    ensures ExpandShape(size, old(d.G()), d.G()) && AllBalanced(keys, old(d.G()), d.G())
    ensures forall m: NodeId :: m < old(|d.operands|) ==> (Live(d.G(), m) <==> Live(old(d.G()), m))
  {
    ghost var g0 := d.G();
    ExpandStart(size, keys, g0);
    FwdStart(g0, d.sources);
    hide ExpandInv, FwdInv, ExpandShape, AllBalanced, WideArity, Arity, Acyclic, Refines, UsesInverse, SinksMatch,
         Erased, Live, Expandable, KeysOf, TypesTold;
    var h := new ReductionLogExpander(types, stored);
    var t := new DagTraversal();
    t.Begin(d.sources);
    ghost var exempt := {};
    while t.work != []
      invariant d.Valid() && t.Consistent({}) && h.stored == stored && h.types == types
      invariant ExpandInv(size, keys, g0, d.G(), h.scale, t.processed, exempt)
      invariant FwdInv(d.G(), t.ready, t.processed, Elems(t.work), exempt)
      decreases AllNodes(g0) - t.processed
    {
      hide *;
      var n;
      n, exempt := ExpandStep(d, h, t, g0, exempt, size, keys);
      InAllNodes(g0, n);
    }
    assert Elems(t.work) == {} && t.ready == t.processed;
    ExpandEnd(size, keys, g0, d.G(), h.scale, t.processed, exempt);
    BalancedArity(size, keys, g0, d.G());
    assert Acyclic(d.G()) by { ShapeAcyclic(size, g0, d.G()); }
  }

  lemma ShapeAcyclic(size: nat, g0: Graph, g: Graph)
    requires ExpandShape(size, g0, g)
    ensures Acyclic(g)
  {
  }
}
