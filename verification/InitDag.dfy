/** What happens to a program before a library is chosen, InitDagForDecision in
    iyfc/decision/alo_decision.cpp: dead code is removed, nested additions and multiplications are
    merged, and the merged ones become balanced trees. */
module InitDags {
  import opened Graphs
  import opened Usage
  import opened Dags
  import opened Traversals
  import opened Semantics
  import opened Types
  import opened ModSwitchers
  import opened ConstantFolding
  import opened Exprs
  import opened CleanNodes
  import opened Reassociation
  import opened Reductions
  import opened OperandScales
  import opened ExpandPass
  import opened Uniform
  import opened Decision
  import opened Pipeline
  import opened Compilation
  import Folding = FoldingPass

  /** A program as the frontend leaves it: well-typed opcodes, positive scales, constants that fill
      the slots, outputs that are not used any further, and something to compute. */
  ghost predicate Program(g: Graph, scale: ScaleMap, size: nat)
  {
    && Acyclic(g) && Arity(g) && SourceArity(g) && size > 0 && ConstantsFit(g, size)
    && OutputsUnused(g) && Folding.FoldScales(g, scale) && (forall n: NodeId :: n < |g.op| ==> IsUserOp(g.op[n]))
    && exists n: NodeId :: IsAnchor(g, n)
  }

  /** Inputs and outputs are what cleaning starts from. */
  predicate IsAnchor(g: Graph, n: NodeId)
  {
    Live(g, n) && n < |g.op| && IsEnd(g.op[n])
  }

  lemma {:induction false} SomeSource(g: Graph, rank: seq<nat>, n: NodeId)
    requires WellFormed(g) && Ranked(g, rank) && Live(g, n)
    ensures g.sources != {}
    decreases rank[n]
  {
    if g.operands[n] != [] {
      SomeSource(g, rank, g.operands[n][0]);
    }
  }

  lemma StaysUsed(g0: Graph, g: Graph, n: NodeId)
    requires CleanResult(g0, g) && IsUsed(g, n)
    ensures IsUsed(g0, n)
  {
    var u, i := UserOf(g, n);
    assert Live(g, u) && g.operands[u] == g0.operands[u];
    UsedBy(g0, u, i);
  }

  /** A cleaned program is what the compiler expects. */
  lemma CleanedCompiles(g0: Graph, g: Graph, scale: ScaleMap, size: nat)
    requires WellFormed(g0) && WellFormed(g) && Acyclic(g) && Program(g0, scale, size) && CleanResult(g0, g)
      && Cleaned(g)
    ensures Compilable(g, scale, size) && g.sources <= g0.sources
  {
    forall n: NodeId | n < |g.op| && g.op[n].Output?
      ensures !IsUsed(g, n)
    {
      if IsUsed(g, n) {
        StaysUsed(g0, g, n);
      }
    }
    hide IsUsed, ReachesOutput;
    assert Arity(g) && SourceArity(g);
    var n: NodeId :| IsAnchor(g0, n);
    AnchorStays(g0, g, n);
    var rank :| Ranked(g, rank);
    SomeSource(g, rank, n);
  }

  lemma AnchorStays(g0: Graph, g: Graph, n: NodeId)
    requires CleanResult(g0, g) && IsAnchor(g0, n)
    ensures Live(g, n)
  {
    if g0.op[n].Output? {
      OutputReaches(g0, n);
    }
  }

  lemma CleanKeepsEnds(g0: Graph, g: Graph)
    requires CleanResult(g0, g)
    ensures SameEnds(g0, g)
  {
    forall o: NodeId | Live(g0, o) && o < |g0.op| && IsEnd(g0.op[o])
      ensures Live(g, o)
    {
      AnchorStays(g0, g, o);
    }
  }

  lemma TransitiveOutputs(g0: Graph, g1: Graph, g: Graph, size: nat)
    requires SameEnds(g0, g1) && SameEnds(g1, g) && Refines(size, g0, g1) && Refines(size, g1, g)
    ensures SameEnds(g0, g) && Refines(size, g0, g)
  {
    hide SameEnds, Refines;
    SameEndsTransitive(g0, g1, g);
    RefinesTransitive(size, g0, g1, g);
  }

  lemma ProgramShape(g: Graph, scale: ScaleMap, size: nat)
    requires Program(g, scale, size)
    ensures Acyclic(g) && SourceArity(g) && size > 0
  {
  }

  lemma CleanedIs(g: Graph)
    requires forall n: NodeId :: n < |g.op| && n < |g.operands| && g.operands[n] != [] && !g.op[n].Output? ==>
      IsUsed(g, n)
    ensures Cleaned(g)
  {
  }

  // ----- merged and expanded programs -----

  /** Like Compilable, while additions and multiplications may have more than two operands. */
  ghost predicate Merging(g: Graph, scale: ScaleMap, size: nat)
  {
    && Acyclic(g) && WideArity(g) && size > 0 && ConstantsFit(g, size)
    && Cleaned(g) && OutputsUnused(g) && g.sources != {} && Folding.FoldScales(g, scale)
    && forall n: NodeId :: n < |g.op| ==> IsUserOp(g.op[n])
  }

  lemma ReducedProgram(g0: Graph, g: Graph, scale: ScaleMap, size: nat)
    requires WellFormed(g0) && WellFormed(g) && Compilable(g0, scale, size)
    requires Acyclic(g) && WideArity(g) && Reduced(g0, g)
    ensures Merging(g, scale, size) && SameEnds(g0, g) && g.sources == g0.sources && AloneKept(g0, g)
  {
    hide Acyclic, IsUsed, Reducible;
    forall n: NodeId | n < |g.op| && n < |g.operands| && g.operands[n] != [] && !g.op[n].Output?
      ensures IsUsed(g, n)
    {
      assert Live(g, n) && WideAt(g, n) && Live(g0, n);
      assert g0.operands[n] != [];
    }
  }

  lemma ProgramToExpand(g: Graph, scale: ScaleMap, size: nat)
    requires Merging(g, scale, size)
    ensures Expandable(g, scale)
  {
  }

  lemma ExpandedProgram(g0: Graph, g: Graph, scale: ScaleMap, size: nat, keys: Keys)
    requires WellFormed(g0) && WellFormed(g) && Merging(g0, scale, size) && Acyclic(g) && Arity(g)
    requires ExpandShape(size, g0, g) && AllBalanced(keys, g0, g)
    requires forall m: NodeId :: m < |g0.operands| ==> (Live(g, m) <==> Live(g0, m))
    ensures Compilable(g, scale, size) && SameEnds(g0, g) && g.sources == g0.sources
  {
    hide Acyclic, IsUsed, Refines, DoneAt;
    forall n: NodeId | n < |g.op| && n < |g.operands| && g.operands[n] != [] && !g.op[n].Output?
      ensures IsUsed(g, n)
    {
      if n < |g0.operands| {
        assert Live(g, n) && Live(g0, n) && DoneAt(keys, g0, g, n);
        DoneLength(keys, g0, g, n);
      }
    }
  }

  /** The types inferred are those that the graph gives. */
  lemma TypedKeys(g: Graph, types: TypeMap, stored: ScaleMap) returns (keys: Keys)
    requires WellFormed(g) && Acyclic(g) && SourceArity(g) && Typed(g, types)
    ensures KeysOf(g, stored, keys) && TypesTold(g, keys, types)
  {
    TypedInterprets(g, types);
    var scale := InterpretationExists<nat>(g, ScaleSem(stored));
    keys := Keys(Flags(g, types), scale);
    forall n: NodeId | Live(g, n)
      ensures TypeTold(keys, types, n)
    {
      TypeDetermined(g, types, n);
    }
  }

  lemma MergedTold(g0: Graph, g: Graph, keys: Keys, types: TypeMap)
    requires Reduced(g0, g) && TypesTold(g0, keys, types)
    ensures TypesTold(g, keys, types)
  {
  }

  /** How the graph came about: g1 is the program without dead nodes, g2 with its additions and
      multiplications merged, which leaves encryption and scales as they are, and g with each merged one
      a balanced tree over its operands, in the order of encryption and scale that keys tell. */
  ghost predicate PreparedBy(g0: Graph, stored: ScaleMap, g1: Graph, g2: Graph, keys: Keys, g: Graph)
  {
    && CleanResult(g0, g1) && Reduced(g1, g2) && MergedAll(g1, g2) && KeysOf(g1, stored, keys)
    && KeysOf(g2, stored, keys) && AllBalanced(keys, g2, g)
    && Acyclic(g1) && Acyclic(g2) && WideArity(g2) && g2.op <= g.op && g2.sources == g.sources
    && WellFormed(g) && Acyclic(g)
    && forall m: NodeId :: m < |g2.operands| ==> (Live(g, m) <==> Live(g2, m))
  }

  ghost predicate Prepared(g0: Graph, stored: ScaleMap, g: Graph)
  {
    exists g1, g2, keys :: PreparedBy(g0, stored, g1, g2, keys, g)
  }

  /** InitDagForDecision, once the scales of the sources are set. */
  method InitDagForDecision(d: Dag, stored: ScaleMap, outputs: seq<NodeId>, ghost size: nat) returns (depth: nat)
    requires d.Valid() && Program(d.G(), stored, size) && OutputsOf(d.G(), outputs)
    modifies d
    ensures d.Valid() && Compilable(d.G(), stored, size)
    ensures Refines(size, old(d.G()), d.G()) && SameEnds(old(d.G()), d.G())
    ensures Prepared(old(d.G()), stored, d.G())
    ensures LargestDepth(d.G(), depth) && d.sources <= old(d.sources) && AloneKept(old(d.G()), d.G())
  {
    hide Program, Compilable, Merging, CleanResult, Reduced, ExpandShape, AllBalanced, Refines, SameEnds, OutputsOf,
         WellFormed, UsesInverse, SinksMatch, Erased, Live, Acyclic, SourceArity, WideArity, Arity, Cleaned, Typed,
         LargestDepth, KeysOf, TypesTold, Prepared, MergedAll;
    ghost var g0 := d.G();
    ProgramShape(g0, stored, size);
    CleanDeadNodes(d, size);
    ghost var g1 := d.G();
    CleanedIs(g1);
    CleanedCompiles(g0, g1, stored, size);
    CleanKeepsEnds(g0, g1);
    CleanedAlone(g0, g1);
    var types := InferTypes(d, map[]);
    CompilableShape(g1, stored, size);
    ghost var keys := TypedKeys(g1, types, stored);
    ReduceNodes(d, size, stored, keys);
    ghost var g2 := d.G();
    ReducedProgram(g1, g2, stored, size);
    TransitiveOutputs(g0, g1, g2, size);
    ProgramToExpand(g2, stored, size);
    MergedTold(g1, g2, keys, types);
    ExpandReductions(d, types, stored, size, keys);
    ghost var g3 := d.G();
    ExpandedProgram(g2, g3, stored, size, keys);
    ExpandedRefines(size, g2, g3);
    IsPrepared(g0, stored, g1, g2, keys, g3);
    AloneTransitive(g0, g1, g2);
    AloneTransitive(g0, g2, g3);
    TransitiveOutputs(g0, g2, g3, size);
    SameEndsOf(g0, g3, outputs);
    CompilableShape(g3, stored, size);
    types := InferTypes(d, types);
    depth := MultDepth(d, types, outputs);
  }

  lemma CompilableShape(g: Graph, scale: ScaleMap, size: nat)
    requires Compilable(g, scale, size)
    ensures Acyclic(g) && WideArity(g) && SourceArity(g)
  {
  }

  lemma ExpandedRefines(size: nat, g0: Graph, g: Graph)
    requires ExpandShape(size, g0, g)
    ensures Refines(size, g0, g) && AloneKept(g0, g) && g0.op <= g.op && g0.sources == g.sources
  {
  }

  lemma IsPrepared(g0: Graph, stored: ScaleMap, g1: Graph, g2: Graph, keys: Keys, g: Graph)
    requires CleanResult(g0, g1) && Reduced(g1, g2) && MergedAll(g1, g2) && KeysOf(g1, stored, keys)
    requires KeysOf(g2, stored, keys) && AllBalanced(keys, g2, g) && WellFormed(g) && Acyclic(g)
    requires Acyclic(g1) && Acyclic(g2) && WideArity(g2) && g2.op <= g.op && g2.sources == g.sources
    requires forall m: NodeId :: m < |g2.operands| ==> (Live(g, m) <==> Live(g2, m))
    ensures Prepared(g0, stored, g)
  {
    assert PreparedBy(g0, stored, g1, g2, keys, g);
  }
}
