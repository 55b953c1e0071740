/** Rescale chains: how many rescales lie on the way to a node, at most. */
module Chains {
  import opened Graphs
  import opened Semantics

  function MaxOf(xs: seq<nat>): (max: nat)
    ensures forall i: nat :: i < |xs| ==> xs[i] <= max
    ensures max == 0 || max in xs
  {
    if xs == [] then 0
    else
      var rest := MaxOf(xs[1..]);
      assert forall i: nat :: 0 < i < |xs| ==> xs[i] == xs[1..][i - 1];
      if rest < xs[0] then xs[0] else rest
  }

  lemma MaxIs(xs: seq<nat>, max: nat)
    requires forall i: nat :: i < |xs| ==> xs[i] <= max
    requires max == 0 || max in xs
    ensures MaxOf(xs) == max
  {
  }

  function ChainOf(op: Op, args: seq<nat>): nat
  {
    MaxOf(args) + if op.Rescale? then 1 else 0
  }

  ghost function ChainSem(): (NodeId, Op, seq<nat>) -> nat
  {
    (n: NodeId, op: Op, args: seq<nat>) => ChainOf(op, args)
  }

  /** Old nodes keep the length of their chain. */
  ghost predicate ChainsKept(g: Graph, r: Graph)
  {
    Extends<nat>(g, r, ChainSem())
  }

  lemma ChainsReflexive(g: Graph)
    ensures ChainsKept(g, g)
  {
    ExtendsReflexive<nat>(g, ChainSem());
  }

  lemma ChainsTransitive(g: Graph, g': Graph, g'': Graph)
    requires ChainsKept(g, g') && ChainsKept(g', g'')
    ensures ChainsKept(g, g'')
  {
    ExtendsTransitive<nat>(g, g', g'', ChainSem());
  }

  lemma PassesChain(op: Op)
    requires !op.Rescale?
    ensures PassesThrough<nat>(ChainSem(), op)
  {
    forall n: NodeId, m: NodeId, op', args
      ensures ChainSem()(n, op, [ChainSem()(m, op', args)]) == ChainSem()(m, op', args)
    {
      var x := ChainSem()(m, op', args);
      MaxIs([x], x);
    }
  }

  lemma InsertAfterChains(g: Graph, a: NodeId, op: Op)
    requires Live(g, a) && !op.Rescale?
    ensures ChainsKept(g, InsertAfter(g, a, op))
  {
    PassesChain(op);
    InsertAfterExtends<nat>(g, ChainSem(), a, op);
  }

  // ----- multiplication depth -----

  /** What MultDepthCnt counts at a node, and whether the node is encrypted. */
  datatype Depth = Depth(cipher: bool, count: nat)

  function Counts(args: seq<Depth>): (counts: seq<nat>)
    ensures |counts| == |args|
  {
    seq(|args|, i requires 0 <= i < |args| => args[i].count)
  }

  function Flagged(args: seq<Depth>): (flags: seq<bool>)
    ensures |flags| == |args|
  {
    seq(|args|, i requires 0 <= i < |args| => args[i].cipher)
  }

  function DepthOf(op: Op, args: seq<Depth>): Depth
  {
    Depth(Encrypted(op, Flagged(args)), MaxOf(Counts(args)) + if op.Mul? && true in Flagged(args) then 1 else 0)
  }

  ghost function DepthSem(): (NodeId, Op, seq<Depth>) -> Depth
  {
    (n: NodeId, op: Op, args: seq<Depth>) => DepthOf(op, args)
  }

  /** Old nodes keep their multiplication depth. */
  ghost predicate DepthsKept(g: Graph, r: Graph)
  {
    Extends<Depth>(g, r, DepthSem())
  }

  lemma DepthsReflexive(g: Graph)
    ensures DepthsKept(g, g)
  {
    ExtendsReflexive<Depth>(g, DepthSem());
  }

  lemma DepthsTransitive(g: Graph, g': Graph, g'': Graph)
    requires DepthsKept(g, g') && DepthsKept(g', g'')
    ensures DepthsKept(g, g'')
  {
    ExtendsTransitive<Depth>(g, g', g'', DepthSem());
  }

  lemma TransparentDepth(op: Op)
    requires IsTransparent(op)
    ensures PassesThrough<Depth>(DepthSem(), op)
  {
    forall n: NodeId, m: NodeId, op', args: seq<Depth>
      ensures DepthSem()(n, op, [DepthSem()(m, op', args)]) == DepthSem()(m, op', args)
    {
      var x := DepthSem()(m, op', args);
      assert Counts([x]) == [x.count] && Flagged([x]) == [x.cipher];
      MaxIs([x.count], x.count);
      assert true in [x.cipher] <==> x.cipher;
    }
  }

  lemma InsertAfterDepths(g: Graph, a: NodeId, op: Op)
    requires Live(g, a) && IsTransparent(op)
    ensures DepthsKept(g, InsertAfter(g, a, op))
  {
    TransparentDepth(op);
    InsertAfterExtends<Depth>(g, DepthSem(), a, op);
  }
}
