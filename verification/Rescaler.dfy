/** The eager waterline rescaler, iyfc/seal/alo/eager_waterline_rescaler.cpp and rescaler.h. */
module Rescalers {
  import opened Graphs
  import opened Dags
  import opened Traversals
  import opened Semantics
  import opened Types
  import opened ModSwitchers
  import opened RescaleSpec

  ghost predicate IsMaxScale(operands: seq<NodeId>, scale: ScaleMap, max: nat)
  {
    && (forall i: nat :: i < |operands| ==> ScaleAt(scale, operands[i]) <= max)
    && (max == 0 || exists i: nat :: i < |operands| && ScaleAt(scale, operands[i]) == max)
  }

  /** What is left of sum after k rescales. */
  function Drop(sum: nat, amount: nat, k: nat): int
  {
    if k == 0 then sum else Drop(sum, amount, k - 1) - amount
  }

  /** State after k rescales behind n, a node of scale sum. */
  ghost predicate RescaleState(r: Graph, types: TypeMap, scale: ScaleMap, g: Graph, types0: TypeMap, scale0: ScaleMap,
                               n: NodeId, sum: nat, amount: nat, k: nat)
  {
    && r == RescaleChain(g, n, amount, k)
    && Drop(sum, amount, k) >= 0
    && ChainTypes(types, types0, g, n, k)
    && ChainScales(scale, scale0, g, n, sum, amount, k)
  }

  ghost predicate ChainTypes(types: TypeMap, types0: TypeMap, g: Graph, n: NodeId, k: nat)
  {
    && (forall p: NodeId :: p < |g.operands| || p >= |g.operands| + k ==> TypeAt(types, p) == TypeAt(types0, p))
    && (forall j: nat :: 0 < j <= k ==> TypeAt(types, ChainEnd(g, n, j)) == TypeAt(types0, n))
  }

  ghost predicate ChainScales(scale: ScaleMap, scale0: ScaleMap, g: Graph, n: NodeId, sum: nat, amount: nat, k: nat)
  {
    && (forall p: NodeId :: p < |g.operands| && p != n ==> ScaleAt(scale, p) == ScaleAt(scale0, p))
    && (forall j: nat :: j <= k ==> ScaleAt(scale, ChainEnd(g, n, j)) == Drop(sum, amount, j))
  }

  class EagerWaterlineRescaler {
    var types: TypeMap
    var scale: ScaleMap
    var minScale: nat
    var fixedRescale: nat

    function B(): Bits
      reads this
    {
      Bits(fixedRescale, minScale)
    }

    /** The waterline is the greatest scale of a source. */
    constructor (sources: set<NodeId>, types0: TypeMap, scale0: ScaleMap, fixed: nat)
      ensures types == types0 && scale == scale0 && fixedRescale == fixed
      ensures forall s: NodeId :: s in sources ==> ScaleAt(scale0, s) <= minScale
      ensures minScale == 0 || exists s: NodeId :: s in sources && ScaleAt(scale0, s) == minScale
    {
      types, scale, fixedRescale := types0, scale0, fixed;
      minScale := 0;
      new;
      var todo := sources;
      while todo != {}
        invariant todo <= sources && types == types0 && scale == scale0 && fixedRescale == fixed
        invariant forall s: NodeId :: s in sources - todo ==> ScaleAt(scale0, s) <= minScale
        invariant minScale == 0 || exists s: NodeId :: s in sources && ScaleAt(scale0, s) == minScale
        decreases todo
      {
        var s :| s in todo;
        if ScaleAt(scale, s) > minScale {
          minScale := ScaleAt(scale, s);
        }
        todo := todo - {s};
      }
    }

    method InsertRescale(d: Dag, node: NodeId, amount: nat) returns (x: NodeId)
      requires d.Valid() && Live(d.G(), node) && ScaleAt(scale, node) >= amount
      modifies this`types, this`scale, d
      ensures d.Valid() && x == old(|d.operands|)
      ensures d.G() == InsertAfter(old(d.G()), node, Rescale(amount))
      ensures types == old(types)[x := TypeAt(old(types), node)]
      ensures scale == old(scale)[x := ScaleAt(old(scale), node) - amount]
    {
      ghost var g := d.G();
      x := d.MakeNode(Rescale(amount), [node]);
      types := types[x := TypeAt(types, node)];
      scale := scale[x := ScaleAt(scale, node) - amount];
      d.ReplaceOtherUsesWith(node, x);
      RedirectSame(AddNode(g, Rescale(amount), [node]), node, x, m => m != x, m => m != |g.operands|);
    }

    /** A raw node takes the greatest scale of its operands. */
    method HandleRawScale(d: Dag, n: NodeId)
      requires n < |d.operands| && d.operands[n] != []
      modifies this`scale
      ensures exists max: nat :: IsMaxScale(d.operands[n], old(scale), max) && scale == old(scale)[n := max]
    {
      var max := 0;
      for i := 0 to |d.operands[n]|
        invariant forall j: nat :: j < i ==> ScaleAt(scale, d.operands[n][j]) <= max
        invariant max == 0 || exists j: nat :: j < i && ScaleAt(scale, d.operands[n][j]) == max
      {
        if ScaleAt(scale, d.operands[n][i]) > max {
          max := ScaleAt(scale, d.operands[n][i]);
        }
      }
      assert IsMaxScale(d.operands[n], scale, max);
      scale := scale[n := max];
    }

    /** Multiplies operand o of n by 1 at the scale that is missing. */
    method ScaleUp(d: Dag, n: NodeId, o: NodeId, max: nat)
      requires d.Valid() && n < |d.operands| && Live(d.G(), o) && ScaleAt(scale, o) <= max
      modifies this`scale, d
      ensures d.Valid() && WellFormed(d.G()) && d.G() == ScaledUp(old(d.G()), n, o)
      ensures scale == ScaledUpScales(old(scale), old(|d.operands|), o, max)
    {
      var c := d.MakeNode(Constant([1.0]), []);
      scale := scale[c := max - ScaleAt(scale, o)];
      ScaledUpWellFormed(old(d.G()), n, o);
      var m := d.MakeNode(Mul, [o, c]);
      scale := scale[m := max];
      var _ := d.ReplaceOperand(n, o, m);
    }

    method SumOperands(d: Dag, n: NodeId) returns (sum: nat)
      requires n < |d.operands|
      ensures sum == SumScale(d.operands[n], scale)
    {
      sum := 0;
      var operands := d.operands[n];
      assert operands[0..] == operands;
      for i := 0 to |operands|
        invariant sum + SumScale(operands[i..], scale) == SumScale(operands, scale)
      {
        sum := sum + ScaleAt(scale, operands[i]);
      }
    }

    /** One turn of the loop of RescaleDown. */
    method RescaleOnce(d: Dag, n: NodeId, ghost sum: nat, temp: NodeId, multScale: nat, ghost g: Graph,
                       ghost types0: TypeMap, ghost scale0: ScaleMap, ghost k: nat, ghost size: nat)
      returns (x: NodeId)
      requires d.Valid() && WellFormed(g) && Acyclic(g) && Live(g, n) && n < |g.operands|
      requires temp == ChainEnd(g, n, k) && Live(d.G(), temp) && multScale == Drop(sum, fixedRescale, k) >= fixedRescale
      requires RescaleState(d.G(), types, scale, g, types0, scale0, n, sum, fixedRescale, k)
      modifies this`types, this`scale, d
      ensures d.Valid() && x == ChainEnd(g, n, k + 1) && Live(d.G(), x)
      ensures ScaleAt(scale, x) == multScale - fixedRescale
      ensures RescaleState(d.G(), types, scale, g, types0, scale0, n, sum, fixedRescale, k + 1)
    {
      hide RescaleState, Acyclic, WellFormed, UsesInverse, SinksMatch, Live, RescaleChain;
      RescaleStateStep(d.G(), types, scale, g, types0, scale0, n, sum, fixedRescale, k, temp, |d.operands|);
      RescaleChainKeeps(size, g, n, fixedRescale, k + 1);
      x := InsertRescale(d, temp, fixedRescale);
      RescaledLive(d.G(), types, scale, g, types0, scale0, n, sum, fixedRescale, k + 1);
    }

    /** Rescales behind n as long as the scale does not fall below the waterline. */
    method RescaleDown(d: Dag, n: NodeId, sum: nat, ghost size: nat) returns (ghost k: nat)
      requires d.Valid() && Live(d.G(), n) && Acyclic(d.G()) && fixedRescale > 0 && ScaleAt(scale, n) == sum
      modifies this`types, this`scale, d
      ensures d.Valid()
      ensures RescaleState(d.G(), types, scale, old(d.G()), old(types), old(scale), n, sum, fixedRescale, k)
      ensures Drop(sum, fixedRescale, k) < B().Limit()
      ensures forall j: nat :: j < k ==> Drop(sum, fixedRescale, j) >= B().Limit()
    {
      var temp, multScale := n, sum;
      k := 0;
      ghost var g, types0, scale0 := d.G(), types, scale;
      while multScale >= fixedRescale + minScale
        invariant d.Valid() && multScale == Drop(sum, fixedRescale, k)
        invariant temp == ChainEnd(g, n, k) && Live(d.G(), temp)
        invariant RescaleState(d.G(), types, scale, g, types0, scale0, n, sum, fixedRescale, k)
        invariant forall j: nat :: j < k ==> Drop(sum, fixedRescale, j) >= B().Limit()
        decreases multScale
      {
        hide *;
        temp := RescaleOnce(d, n, sum, temp, multScale, g, types0, scale0, k, size);
        multScale := multScale - fixedRescale;
        assert multScale == ScaleAt(scale, temp);
        DropsOnce(sum, fixedRescale, k);
        k := k + 1;
      }
    }
  }

  lemma DropsOnce(sum: nat, amount: nat, k: nat)
    ensures Drop(sum, amount, k + 1) == Drop(sum, amount, k) - amount
  {
  }

  lemma RescaledLive(r: Graph, types: TypeMap, scale: ScaleMap, g: Graph, types0: TypeMap, scale0: ScaleMap,
                     n: NodeId, sum: nat, amount: nat, k: nat)
    requires RescaleState(r, types, scale, g, types0, scale0, n, sum, amount, k)
    ensures r == RescaleChain(g, n, amount, k) && ScaleAt(scale, ChainEnd(g, n, k)) == Drop(sum, amount, k)
  {
  }

  lemma RescaleStateStep(r: Graph, types: TypeMap, scale: ScaleMap, g: Graph, types0: TypeMap, scale0: ScaleMap,
                         n: NodeId, sum: nat, amount: nat, k: nat, a: NodeId, x: NodeId)
    requires WellFormed(g) && n < |g.operands| && a == ChainEnd(g, n, k) && x == |r.operands|
    requires RescaleState(r, types, scale, g, types0, scale0, n, sum, amount, k) && Drop(sum, amount, k) >= amount
    ensures x == ChainEnd(g, n, k + 1) && ScaleAt(scale, a) == Drop(sum, amount, k)
    ensures RescaleState(InsertAfter(r, a, Rescale(amount)), types[x := TypeAt(types, a)],
      scale[x := ScaleAt(scale, a) - amount], g, types0, scale0, n, sum, amount, k + 1)
  {
    RescaleChainLength(g, n, amount, k);
    hide InsertAfter, WellFormed, ChainTypes, ChainScales;
    ChainTypesStep(types, types0, g, n, k, a, x);
    ChainScalesStep(scale, scale0, g, n, sum, amount, k, a, x);
  }

  lemma ChainTypesStep(types: TypeMap, types0: TypeMap, g: Graph, n: NodeId, k: nat, a: NodeId, x: NodeId)
    requires n < |g.operands| && ChainTypes(types, types0, g, n, k) && a == ChainEnd(g, n, k) && x == |g.operands| + k
    ensures ChainTypes(types[x := TypeAt(types, a)], types0, g, n, k + 1)
  {
    assert ChainEnd(g, n, k + 1) == x;
  }

  lemma ChainScalesStep(scale: ScaleMap, scale0: ScaleMap, g: Graph, n: NodeId, sum: nat, amount: nat, k: nat,
                        a: NodeId, x: NodeId)
    requires n < |g.operands| && ChainScales(scale, scale0, g, n, sum, amount, k) && Drop(sum, amount, k) >= amount
    requires a == ChainEnd(g, n, k) && x == |g.operands| + k
    ensures ScaleAt(scale, a) == Drop(sum, amount, k)
    ensures ChainScales(scale[x := ScaleAt(scale, a) - amount], scale0, g, n, sum, amount, k + 1)
  {
    assert ChainEnd(g, n, k + 1) == x;
  }
}
