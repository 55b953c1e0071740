/** What the passes have in common: how a graph grows, and what retyping it changes. */
module Stages {
  import opened Graphs
  import opened Usage
  import opened Semantics
  import opened Types
  import opened ModSwitchSpec
  import opened ModSwitchers
  import opened ModSwitchPass
  import opened RescaleSpec
  import opened EncodePass
  import opened Threads
  import Rescaling = RescalePass
  import Relinearizing = RelinPass

  function OpArity(op: Op): nat
  {
    if IsSourceOp(op) then 0 else if IsBinaryOp(op) then 2 else 1
  }

  /** Nodes are added with as many operands as their opcode takes; old nodes keep their number. */
  ghost predicate Grows(g: Graph, r: Graph)
  {
    && |g.op| == |g.operands| && |r.op| == |r.operands| && g.op <= r.op && g.sources <= r.sources
    && (forall u: NodeId :: u < |g.operands| ==> |r.operands[u]| == |g.operands[u]|)
    && (forall s: NodeId :: s in r.sources && s < |g.operands| ==> s in g.sources)
    && (forall x: NodeId :: |g.operands| <= x < |r.operands| ==> |r.operands[x]| == OpArity(r.op[x]))
  }

  lemma GrowsTransitive(g: Graph, g': Graph, g'': Graph)
    requires Grows(g, g') && Grows(g', g'')
    ensures Grows(g, g'')
  {
    forall x: NodeId | |g.operands| <= x < |g''.operands|
      ensures |g''.operands[x]| == OpArity(g''.op[x])
    {
      if x < |g'.operands| {
        assert g'.op[x] == g''.op[x];
      }
    }
  }

  lemma GrowsLive(g: Graph, r: Graph, n: NodeId)
    requires Grows(g, r) && n < |g.operands|
    ensures Live(r, n) <==> Live(g, n)
    ensures n < |g.op| && n < |r.op| && r.op[n] == g.op[n]
  {
    assert |r.operands[n]| == |g.operands[n]|;
  }

  lemma GrowsArity(g: Graph, r: Graph)
    requires Grows(g, r) && Arity(g) && SourceArity(g)
    ensures Arity(r) && SourceArity(r)
  {
    forall n: NodeId | Live(r, n)
      ensures |r.operands[n]| == OpArity(r.op[n]) && (IsSourceOp(r.op[n]) <==> r.operands[n] == [])
    {
      if n < |g.operands| {
        GrowsLive(g, r, n);
        assert |r.operands[n]| == |g.operands[n]|;
      }
    }
  }

  lemma ThreadsGrow(g: Graph, r: Graph)
    requires ThreadedInto(g, r)
    ensures Grows(g, r)
  {
    var origin :| Threaded(g, r, origin);
  }

  /** A node of the old graph has the same type before and after. */
  lemma TypesKept(size: nat, g: Graph, types: TypeMap, r: Graph, types': TypeMap, n: NodeId)
    requires WellFormed(g) && SourceArity(g) && Typed(g, types)
    requires WellFormed(r) && SourceArity(r) && Typed(r, types') && Acyclic(r)
    requires Refines(size, g, r) && Grows(g, r) && n < |g.operands| && Live(r, n)
    ensures TypeAt(types', n) == TypeAt(types, n) && Live(g, n)
  {
    GrowsLive(g, r, n);
    hide Refines, Grows, WellFormed, SourceArity, Typed, Acyclic;
    TypesStable(size, g, types, r, types', n);
  }

  /** Whatever is raw for the first map is raw for the second. */
  ghost predicate NoLessRaw(g: Graph, types: TypeMap, types': TypeMap)
  {
    forall n: NodeId :: Live(g, n) && TypeAt(types, n) == Raw ==> TypeAt(types', n) == Raw
  }

  ghost predicate SameTypes(g: Graph, types: TypeMap, types': TypeMap)
  {
    forall n: NodeId :: Live(g, n) ==> TypeAt(types', n) == TypeAt(types, n)
  }

  lemma RetypedSame(g: Graph, types: TypeMap, types': TypeMap)
    requires WellFormed(g) && Acyclic(g) && SourceArity(g) && Typed(g, types) && Typed(g, types')
    ensures SameTypes(g, types, types') && NoLessRaw(g, types, types')
  {
    forall n: NodeId | Live(g, n)
      ensures TypeAt(types', n) == TypeAt(types, n)
    {
      TypedUnique(g, types, types', n);
    }
  }

  lemma RetypedFit(g: Graph, types: TypeMap, types': TypeMap, scale: ScaleMap, b: Bits)
    requires WellFormed(g) && Rescaling.ScalesFit(g, types, scale, b) && NoLessRaw(g, types, types')
    ensures Rescaling.ScalesFit(g, types', scale, b)
  {
    forall p: NodeId | Live(g, p)
      ensures ScaleAt(scale, p) > 0 && ScaleRule(g, types', scale, b, p)
    {
      assert ScaleRule(g, types, scale, b, p);
      forall i: nat | i < |g.operands[p]|
        ensures TypeAt(types, g.operands[p][i]) == Raw ==> TypeAt(types', g.operands[p][i]) == Raw
      {
        assert Live(g, g.operands[p][i]);
      }
    }
  }

  lemma RetypedExact(g: Graph, types: TypeMap, types': TypeMap, scale: ScaleMap)
    requires WellFormed(g) && ScalesExact(g, types, scale) && SameTypes(g, types, types')
    ensures ScalesExact(g, types', scale)
  {
    forall p: NodeId | Live(g, p)
      ensures ScaleAt(scale, p) > 0 && ScaleExact(g, types', scale, p)
    {
      assert ScaleExact(g, types, scale, p);
      forall i: nat | i < |g.operands[p]|
        ensures TypeAt(types', g.operands[p][i]) == TypeAt(types, g.operands[p][i])
      {
        assert Live(g, g.operands[p][i]);
      }
    }
  }

  lemma RetypedLevels(g: Graph, types: TypeMap, types': TypeMap, level: LevelMap)
    requires WellFormed(g) && EdgesLevelled(g, types, level) && NoLessRaw(g, types, types')
    ensures EdgesLevelled(g, types', level)
  {
    forall u: NodeId, i: nat | u < |g.operands| && i < |g.operands[u]|
      ensures g.operands[u][i] < |g.op|
        && (TypeAt(types', g.operands[u][i]) != Raw ==> EdgeLevel(g, level, u, g.operands[u][i]))
    {
      assert Live(g, g.operands[u][i]);
    }
  }

  /** Every computed ciphertext stays used. */
  lemma CiphersStayUsed(size: nat, g: Graph, types: TypeMap, r: Graph, types': TypeMap)
    requires WellFormed(g) && SourceArity(g) && Typed(g, types)
    requires WellFormed(r) && SourceArity(r) && Typed(r, types') && Acyclic(r)
    requires Refines(size, g, r) && Grows(g, r) && UsedKept(g, r) && Relinearizing.CiphersUsed(g, types)
    ensures Relinearizing.CiphersUsed(r, types')
  {
    forall n: NodeId | n < |r.op| && n < |r.operands| && r.operands[n] != [] && TypeAt(types', n) == Cipher
      && !r.op[n].Output?
      ensures IsUsed(r, n)
    {
      if n < |g.operands| {
        TypesKept(size, g, types, r, types', n);
        GrowsLive(g, r, n);
        assert |r.operands[n]| == |g.operands[n]|;
      }
    }
  }
}
