/** The SEAL-CKKS pipeline, iyfc/seal/alo/seal_ckks_handler.cpp:31-65: the passes of transform in
    their order, and what holds between them. */
module Pipeline {
  import opened Exprs
  import opened Graphs
  import opened Usage
  import opened Dags
  import opened Traversals
  import opened Semantics
  import opened Types
  import opened ModSwitchSpec
  import opened ModSwitchers
  import opened ModSwitchPass
  import opened RescaleSpec
  import opened EncodePass
  import opened Threads
  import opened Stages
  import opened Levels
  import opened ScalesCheckers
  import opened ConstantFolding
  import opened Chains
  import opened ChainLevels
  import opened Kinds
  import opened Sizes
  import opened Uniform
  import Folding = FoldingPass
  import Rescaling = RescalePass
  import Relinearizing = RelinPass
  import Low = Lowering
  import LoweringPass
  import ThreadedScales

  /** Dead code has been removed: what is computed is used, unless it is an output. */
  ghost predicate Cleaned(g: Graph)
  {
    forall n: NodeId :: n < |g.op| && n < |g.operands| && g.operands[n] != [] && !g.op[n].Output? ==> IsUsed(g, n)
  }

  ghost predicate OutputsUnused(g: Graph)
  {
    forall n: NodeId :: n < |g.op| && g.op[n].Output? ==> !IsUsed(g, n)
  }

  /** What transform starts from. */
  ghost predicate Compilable(g: Graph, scale: ScaleMap, size: nat)
  {
    && Acyclic(g) && Arity(g) && SourceArity(g) && size > 0 && ConstantsFit(g, size)
    && Cleaned(g) && OutputsUnused(g) && g.sources != {} && Folding.FoldScales(g, scale)
    && forall n: NodeId :: n < |g.op| ==> IsUserOp(g.op[n])
  }

  ghost predicate NotRawBeyond(g: Graph, types: TypeMap)
  {
    forall x: NodeId :: x >= |g.operands| ==> TypeAt(types, x) != Raw
  }

  ghost predicate Sound(size: nat, g0: Graph, g: Graph)
  {
    Acyclic(g) && Refines(size, g0, g) && Arity(g) && SourceArity(g) && Grows(g0, g) && OutputsUnused(g)
      && ConstantsFit(g, size) && AloneKept(g0, g)
  }

  /** No pass adds a constant that does not fit. */
  lemma ConstantsStay(g: Graph, r: Graph, size: nat)
    requires ConstantsFit(g, size) && g.op <= r.op
    requires forall x: NodeId :: |g.op| <= x < |r.op| ==> !r.op[x].Constant? || r.op[x] == Constant([1.0])
    ensures ConstantsFit(r, size)
  {
    forall n: NodeId | n < |r.op| && r.op[n].Constant?
      ensures r.op[n].values != [] && size % |r.op[n].values| == 0
    {
      if n < |g.op| {
        assert r.op[n] == g.op[n];
      }
    }
  }

  // ----- after folding -----

  ghost predicate AfterFolding(size: nat, g0: Graph, g: Graph, types: TypeMap, typing: TypeMap, scale: ScaleMap)
  {
    && Sound(size, g0, g)
    && Typed(g0, types) && NotRawBeyond(g0, types) && Rescaling.ProductsUsed(g, types)
    && Typed(g, typing) && Relinearizing.CiphersUsed(g, typing)
    && g.sources != {} && Folding.FoldScales(g, scale)
    && (forall n: NodeId :: n < |g.op| ==> IsUserOp(g.op[n]))
    && (forall x: NodeId :: |g0.op| <= x < |g.op| ==> g.op[x].Constant?)
  }

  lemma FoldingGrows(g0: Graph, g: Graph)
    requires Folding.Grown(g0, g)
    ensures Grows(g0, g)
  {
  }

  lemma FoldedUsed(g0: Graph, types: TypeMap, g: Graph, typing: TypeMap)
    requires Cleaned(g0) && OutputsUnused(g0) && Typed(g0, types) && Arity(g) && SourceArity(g)
    requires Folding.FoldTypes(g0, types, g, typing) && Grows(g0, g) && Folding.Grown(g0, g)
    requires forall n: NodeId :: n < |g0.op| ==> IsUserOp(g0.op[n])
    ensures Rescaling.ProductsUsed(g, types) && Relinearizing.CiphersUsed(g, typing) && OutputsUnused(g)
  {
    forall n: NodeId | n < |g.op| && Live(g, n) && g.op[n].Mul? && TypeAt(types, n) != Raw
      ensures IsUsed(g, n)
    {
      assert n < |g0.operands| && |g.operands[n]| == |g0.operands[n]| && g0.op[n] == g.op[n];
      assert TypeAt(types, n) == Inferred(g0, types, n);
    }
    forall n: NodeId | n < |g.op| && n < |g.operands| && g.operands[n] != [] && TypeAt(typing, n) == Cipher
      && !g.op[n].Output?
      ensures IsUsed(g, n)
    {
      assert n < |g0.operands| && |g.operands[n]| == |g0.operands[n]| && g0.op[n] == g.op[n];
    }
    forall n: NodeId | n < |g.op| && g.op[n].Output?
      ensures !IsUsed(g, n)
    {
      assert n < |g0.operands| && g0.op[n] == g.op[n];
    }
  }

  lemma FoldedScales(g0: Graph, scale0: ScaleMap, g: Graph, scale: ScaleMap)
    requires Folding.ScalesFrom(g0, scale0, g, scale) && Folding.FoldScales(g0, scale0)
    ensures Folding.FoldScales(g, scale)
  {
    forall s: NodeId | s in g.sources
      ensures ScaleAt(scale, s) > 0
    {
      assert Folding.FromSource(g0, scale0, ScaleAt(scale, s));
    }
  }

  lemma FoldingDone(size: nat, g0: Graph, types: TypeMap, g: Graph, typing: TypeMap, scale: ScaleMap, scale0: ScaleMap)
    requires Compilable(g0, scale0, size) && WellFormed(g)
    requires Typed(g0, types) && NotRawBeyond(g0, types)
    requires Acyclic(g) && Refines(size, g0, g) && Arity(g) && SourceArity(g) && Folding.Grown(g0, g)
      && ConstantsFit(g, size) && AloneKept(g0, g)
    requires Folding.FoldTypes(g0, types, g, typing) && Folding.ScalesFrom(g0, scale0, g, scale)
    ensures AfterFolding(size, g0, g, types, typing, scale)
  {
    hide Acyclic, Refines, Arity, SourceArity, Typed, Cleaned, OutputsUnused, IsUsed, Grows, WellFormed, ConstantsFit,
         Rescaling.ProductsUsed, Relinearizing.CiphersUsed, AloneKept;
    FoldingGrows(g0, g);
    FoldedUsed(g0, types, g, typing);
    FoldedScales(g0, scale0, g, scale);
    forall n: NodeId | n < |g.op|
      ensures IsUserOp(g.op[n])
    {
      if n < |g0.op| {
        assert g.op[n] == g0.op[n];
      }
    }
  }

  method FoldStage(d: Dag, scale: ScaleMap, vecSize: nat)
    returns (types: TypeMap, scale': ScaleMap, ghost typing: TypeMap)
    requires d.Valid() && Compilable(d.G(), scale, vecSize)
    modifies d
    ensures d.Valid() && AfterFolding(vecSize, old(d.G()), d.G(), types, typing, scale')
    ensures Folding.ScalesFrom(old(d.G()), scale, d.G(), scale') && DepthsKept(old(d.G()), d.G())
      && SameEnds(old(d.G()), d.G())
  {
    ghost var g0 := d.G();
    types := InferTypes(d, map[]);
    assert NotRawBeyond(g0, types);
    hide Acyclic, Refines, Arity, SourceArity, Typed, Cleaned, OutputsUnused, ConstantsFit, UsesInverse, SinksMatch,
         Erased, AloneKept;
    var h;
    h, typing := Folding.FoldConstants(d, scale, vecSize, types);
    scale' := h.scale;
    FoldingDone(vecSize, g0, types, d.G(), typing, scale', scale);
    FoldedOutputs(vecSize, g0, types, d.G(), typing, scale');
  }

  lemma FoldedOutputs(size: nat, g0: Graph, types: TypeMap, g: Graph, typing: TypeMap, scale: ScaleMap)
    requires AfterFolding(size, g0, g, types, typing, scale)
    ensures SameEnds(g0, g)
  {
    GrowsSameEnds(g0, g);
  }

  /** Passes that add no inputs and outputs keep them. */
  lemma GrowsSameEnds(g: Graph, r: Graph)
    requires Grows(g, r) && forall x: NodeId :: |g.op| <= x < |r.op| ==> !IsEnd(r.op[x])
    ensures SameEnds(g, r)
  {
    forall o: NodeId
      ensures (Live(g, o) && o < |g.op| && IsEnd(g.op[o])) <==> (Live(r, o) && o < |r.op| && IsEnd(r.op[o]))
    {
      if o < |g.operands| {
        GrowsLive(g, r, o);
      }
    }
  }

  // ----- after rescaling -----

  ghost predicate AfterRescaling(size: nat, g0: Graph, g: Graph, types: TypeMap, scale: ScaleMap, b: Bits)
  {
    && Sound(size, g0, g) && Typed(g, types) && NotRawBeyond(g, types)
    && Rescaling.ScalesFit(g, types, scale, b) && Relinearizing.CiphersUsed(g, types)
    && RescalesCipher(g, types) && RescalesBy(g, b.fixed)
    && forall n: NodeId :: n < |g.op| ==> !g.op[n].Encode? && !g.op[n].Relinearize? && !g.op[n].ModSwitch?
  }

  lemma RescalingGrows(g0: Graph, g: Graph)
    requires Rescaling.Grown(g0, g)
    ensures Grows(g0, g)
  {
  }

  lemma OutputsStayUnused(g: Graph, r: Graph)
    requires Grows(g, r) && UsedKept(g, r) && OutputsUnused(g)
    requires forall x: NodeId :: |g.op| <= x < |r.op| ==> !r.op[x].Output?
    ensures OutputsUnused(r)
  {
    forall n: NodeId | n < |r.op| && r.op[n].Output?
      ensures !IsUsed(r, n)
    {
      assert n < |g.op| && g.op[n] == r.op[n];
    }
  }

  /** The types the rescaler leaves behind are raw only where the graph's types are. */
  lemma RescalerTypes(size: nat, g0: Graph, types: TypeMap, g: Graph, r: Graph, left: TypeMap, types': TypeMap)
    requires WellFormed(g0) && SourceArity(g0) && Typed(g0, types) && NotRawBeyond(g0, types)
    requires WellFormed(r) && SourceArity(r) && Acyclic(r) && Typed(r, types')
    requires Refines(size, g0, r) && Grows(g0, r) && |g0.operands| <= |g.operands|
    requires NotRawBeyond(g, left) && forall n: NodeId :: n < |g.operands| ==> TypeAt(left, n) == TypeAt(types, n)
    ensures NoLessRaw(r, left, types')
  {
    forall n: NodeId | Live(r, n) && TypeAt(left, n) == Raw
      ensures TypeAt(types', n) == Raw
    {
      if n < |g0.operands| {
        TypesKept(size, g0, types, r, types', n);
      }
    }
  }

  lemma RescalesFixed(r: Graph, left: TypeMap, scale: ScaleMap, b: Bits)
    requires Rescaling.ScalesFit(r, left, scale, b) && Arity(r)
    ensures RescalesBy(r, b.fixed)
  {
    forall n: NodeId | Live(r, n) && n < |r.op| && r.op[n].Rescale?
      ensures r.op[n].divisor == b.fixed
    {
      assert ScaleRule(r, left, scale, b, n) && |r.operands[n]| == 1;
    }
  }

  lemma ProductsAreCiphers(size: nat, g0: Graph, types: TypeMap, g: Graph, typing: TypeMap, scale0: ScaleMap,
                           r: Graph, left: TypeMap, types': TypeMap)
    requires WellFormed(g0) && SourceArity(g0) && WellFormed(r) && AfterFolding(size, g0, g, types, typing, scale0)
    requires Acyclic(r) && Arity(r) && SourceArity(r) && Refines(size, g0, r) && Grows(g0, r) && Typed(r, types')
    requires Rescaling.Grown(g, r)
    requires forall n: NodeId :: n < |g.operands| ==> TypeAt(left, n) == TypeAt(types, n)
    ensures forall p: NodeId :: p < |g.operands| && Live(r, p) && r.op[p].Mul? && TypeAt(left, p) != Raw ==>
      TypeAt(types', p) == Cipher
  {
    hide Refines, OutputsUnused, Folding.FoldScales;
    forall p: NodeId | p < |g.operands| && Live(r, p) && r.op[p].Mul? && TypeAt(left, p) != Raw
      ensures TypeAt(types', p) == Cipher
    {
      assert r.op[p] == g.op[p] && p < |g0.op|;
      TypesKept(size, g0, types, r, types', p);
      GrowsLive(g0, r, p);
      TypeDetermined(g0, types, p);
    }
  }

  lemma RescaledCiphers(size: nat, g0: Graph, types: TypeMap, g: Graph, typing: TypeMap, scale0: ScaleMap, r: Graph,
                        left: TypeMap, types': TypeMap)
    requires WellFormed(g0) && SourceArity(g0) && WellFormed(r) && AfterFolding(size, g0, g, types, typing, scale0)
    requires Acyclic(r) && Arity(r) && SourceArity(r) && Refines(size, g0, r) && Grows(g0, r) && Typed(r, types')
    requires Rescaling.Grown(g, r) && Rescaling.RescaleSources(g, r, left)
    requires forall n: NodeId :: n < |g.operands| ==> TypeAt(left, n) == TypeAt(types, n)
    ensures RescalesCipher(r, types')
  {
    ProductsAreCiphers(size, g0, types, g, typing, scale0, r, left, types');
    var rank :| Ranked(r, rank);
    hide Refines, Rescaling.RescaleSources, OutputsUnused, Folding.FoldScales;
    forall n: NodeId | Live(r, n) && n < |r.op| && r.op[n].Rescale?
      ensures TypeAt(types', n) == Cipher
    {
      RescaleIsCipher(g, r, rank, left, types', n);
    }
  }

  lemma RescalingDone(size: nat, g0: Graph, types: TypeMap, g: Graph, typing: TypeMap, r: Graph, left: TypeMap,
                      types': TypeMap, scale: ScaleMap, b: Bits, scale0: ScaleMap)
    requires WellFormed(g0) && SourceArity(g0) && WellFormed(g) && WellFormed(r)
    requires AfterFolding(size, g0, g, types, typing, scale0)
    requires Acyclic(r) && Refines(size, g, r) && Rescaling.Grown(g, r) && UsedKept(g, r)
    requires Rescaling.ScalesFit(r, left, scale, b) && NotRawBeyond(g, left) && Rescaling.RescaleSources(g, r, left)
    requires forall n: NodeId :: n < |g.operands| ==> TypeAt(left, n) == TypeAt(types, n)
    requires Typed(r, types') && forall x: NodeId :: x >= |r.operands| ==> TypeAt(types', x) == TypeAt(left, x)
    ensures AfterRescaling(size, g0, r, types', scale, b)
  {
    hide Acyclic, Refines, Arity, SourceArity, Typed, OutputsUnused, WellFormed, UsedKept, Rescaling.ScalesFit,
         Relinearizing.CiphersUsed, Rescaling.ProductsUsed, Grows, RescalesCipher, RescalesBy, Rescaling.RescaleSources,
         AloneKept;
    UsedAlone(g, r);
    AloneTransitive(g0, g, r);
    RescalingGrows(g, r);
    GrowsArity(g, r);
    ConstantsStay(g, r, size);
    RefinesTransitive(size, g0, g, r);
    GrowsTransitive(g0, g, r);
    OutputsStayUnused(g, r);
    GrownCount(g0, g);
    RescalerTypes(size, g0, types, g, r, left, types');
    RescaledCiphers(size, g0, types, g, typing, scale0, r, left, types');
    RescalesFixed(r, left, scale, b);
    RetypedFit(r, left, types', scale, b);
    CiphersStayUsed(size, g, typing, r, types');
    forall n: NodeId | n < |r.op|
      ensures !r.op[n].Encode? && !r.op[n].Relinearize? && !r.op[n].ModSwitch?
    {
      if n < |g.op| {
        assert r.op[n] == g.op[n];
      }
    }
  }

  lemma GrownCount(g: Graph, r: Graph)
    requires Grows(g, r)
    ensures |g.operands| <= |r.operands| && |g.op| == |g.operands| && |r.op| == |r.operands|
  {
  }

  method RescaleStage(d: Dag, types: TypeMap, scale: ScaleMap, fixed: nat, ghost typing: TypeMap, ghost g0: Graph,
                      ghost size: nat)
    returns (types': TypeMap, scale': ScaleMap, ghost b: Bits)
    requires d.Valid() && WellFormed(g0) && SourceArity(g0) && AfterFolding(size, g0, d.G(), types, typing, scale)
      && fixed > 0
    modifies d
    ensures d.Valid() && AfterRescaling(size, g0, d.G(), types', scale', b) && b.fixed == fixed
    ensures exists n: NodeId :: n in old(d.sources) && ScaleAt(scale, n) == b.waterline
    ensures forall n: NodeId :: n in old(d.sources) ==> ScaleAt(scale, n) <= b.waterline
    ensures SameEnds(old(d.G()), d.G()) && Rescaling.SourcesKept(old(d.G()), scale, scale')
    ensures Rescaling.UniformStart(old(d.G()), scale, b) ==>
      UniformlyRescaled(d.G(), types', scale', fixed) && DepthsKept(old(d.G()), d.G())
  {
    ghost var g := d.G();
    FoldedReady(size, g0, g, types, typing, scale);
    hide Acyclic, Refines, Arity, SourceArity, Typed, OutputsUnused, WellFormed, UsedKept, Rescaling.ScalesFit,
         Relinearizing.CiphersUsed, Rescaling.ProductsUsed, Grows, UsesInverse, SinksMatch, Erased, AfterFolding,
         Rescaling.Grown,
         Rescaling.RescaleSources, Rescaling.UniformStart, Rescaling.UniformResult;
    var s := Rescaling.RescaleEagerly(d, types, scale, fixed, size);
    b := s.B();
    scale' := s.scale;
    types' := InferTypes(d, s.types);
    NotLive(d.G());
    RescalingDone(size, g0, types, g, typing, d.G(), s.types, types', scale', b, scale);
    RescaledOutputs(g, d.G());
    UniformlyDone(size, g0, types, g, typing, d.G(), s.types, types', scale', b, scale);
  }

  lemma RescaledOutputs(g: Graph, r: Graph)
    requires Rescaling.Grown(g, r)
    ensures SameEnds(g, r)
  {
    RescalingGrows(g, r);
    GrowsSameEnds(g, r);
  }

  lemma UniformlyDone(size: nat, g0: Graph, types: TypeMap, g: Graph, typing: TypeMap, r: Graph, left: TypeMap,
                      types': TypeMap, scale: ScaleMap, b: Bits, scale0: ScaleMap)
    requires WellFormed(g0) && SourceArity(g0) && WellFormed(r) && b.fixed > 0
    requires AfterFolding(size, g0, g, types, typing, scale0) && AfterRescaling(size, g0, r, types', scale, b)
      && Rescaling.Grown(g, r)
    requires forall n: NodeId :: n < |g.operands| ==> TypeAt(left, n) == TypeAt(types, n)
    requires Rescaling.UniformStart(g, scale0, b) ==> Rescaling.UniformResult(g, r, left, scale, b)
    ensures Rescaling.UniformStart(g, scale0, b) ==> UniformlyRescaled(r, types', scale, b.fixed) && DepthsKept(g, r)
  {
    if Rescaling.UniformStart(g, scale0, b) {
      SoundParts(size, g0, r);
      ProductsAreCiphers(size, g0, types, g, typing, scale0, r, left, types');
      hide Typed, Arity, SourceArity, WellFormed, Rescaling.ScalesFit, RescalesCipher, Sound, DepthsKept, AfterFolding;
      UniformlyScaled(g, r, left, types', scale, b);
      assert b == Bits(b.fixed, b.fixed);
    }
  }

  lemma SoundParts(size: nat, g0: Graph, g: Graph)
    requires Sound(size, g0, g)
    ensures Acyclic(g) && Refines(size, g0, g) && Arity(g) && SourceArity(g) && Grows(g0, g)
  {
  }

  lemma UniformlyScaled(g: Graph, r: Graph, left: TypeMap, types: TypeMap, scale: ScaleMap, b: Bits)
    requires b.fixed == b.waterline && |g.op| == |g.operands| && |r.op| == |r.operands|
      && Rescaling.UniformResult(g, r, left, scale, b)
    requires forall p: NodeId :: p < |g.operands| && Live(r, p) && r.op[p].Mul? && TypeAt(left, p) != Raw ==>
      TypeAt(types, p) == Cipher
    ensures UniformGraph(r, types, scale, b.fixed)
  {
    forall p: NodeId | Live(r, p) && p < |r.op|
      ensures ScaleAt(scale, p) == b.fixed
        || (r.op[p].Mul? && TypeAt(types, p) == Cipher && ScaleAt(scale, p) == 2 * b.fixed)
    {
      assert Rescaling.AtUniform(r, left, scale, b, p);
    }
  }

  lemma FoldedReady(size: nat, g0: Graph, g: Graph, types: TypeMap, typing: TypeMap, scale: ScaleMap)
    requires AfterFolding(size, g0, g, types, typing, scale)
    ensures Acyclic(g) && Rescaling.NewNotRaw(g, types) && g.sources != {} && Rescaling.ProductsUsed(g, types)
    ensures forall s: NodeId :: s in g.sources ==> ScaleAt(scale, s) > 0
    ensures forall n: NodeId :: n < |g.op| ==> !g.op[n].Rescale?
  {
  }

  lemma NotLive(g: Graph)
    ensures forall x: NodeId :: x >= |g.operands| ==> !Live(g, x)
  {
  }

  /** What the passes after the rescaler leave alone: chains, and the divisors of the rescales. */
  ghost predicate RescalesKept(g: Graph, r: Graph)
  {
    ChainsKept(g, r) && forall fixed: nat :: RescalesBy(g, fixed) ==> RescalesBy(r, fixed)
  }

  lemma RescalesKeptIf(g: Graph, r: Graph)
    requires ChainsKept(g, r) && Grows(g, r) && forall x: NodeId :: |g.op| <= x < |r.op| ==> !r.op[x].Rescale?
    ensures RescalesKept(g, r)
  {
    forall fixed: nat | RescalesBy(g, fixed)
      ensures RescalesBy(r, fixed)
    {
      forall n: NodeId | n < |g.operands| && Live(r, n)
        ensures Live(g, n)
      {
        GrowsLive(g, r, n);
      }
      RescalesStayBy(g, r, fixed);
    }
  }

  lemma RescalesKeptTransitive(g: Graph, g': Graph, g'': Graph)
    requires RescalesKept(g, g') && RescalesKept(g', g'')
    ensures RescalesKept(g, g'')
  {
    ChainsTransitive(g, g', g'');
  }

  // ----- after encoding -----

  ghost predicate AfterEncoding(size: nat, g0: Graph, g: Graph, types: TypeMap, scale: ScaleMap)
  {
    && Sound(size, g0, g) && Typed(g, types) && NotRawBeyond(g, types)
    && ScalesExact(g, types, scale) && Relinearizing.CiphersUsed(g, types) && Relinearizing.EncodesRaw(g, types)
    && EncodesOnce(g) && EncodesUsed(g) && RescalesCipher(g, types) && KindsFit(g, types)
    && forall n: NodeId :: n < |g.op| ==> !g.op[n].Relinearize? && !g.op[n].ModSwitch?
  }

  lemma EncodingGrows(g0: Graph, g: Graph)
    requires Grown(g0, g)
    ensures Grows(g0, g)
  {
  }

  lemma EncodesAreRaw(g: Graph, r: Graph, left: TypeMap, types: TypeMap)
    requires Grown(g, r) && WellFormed(r) && SameTypes(r, left, types)
    requires forall n: NodeId :: n < |g.op| ==> !g.op[n].Encode?
    requires forall x: NodeId, i: nat :: |g.operands| <= x < |r.operands| && i < |r.operands[x]| ==>
      TypeAt(left, r.operands[x][i]) == Raw
    ensures Relinearizing.EncodesRaw(r, types)
  {
    assert forall n: NodeId :: n < |g.op| ==> r.op[n] == g.op[n];
    forall n: NodeId, i: nat | |g.op| <= n < |r.operands| && n < |r.op| && r.op[n].Encode? && i < |r.operands[n]|
      ensures TypeAt(types, r.operands[n][i]) != Cipher
    {
      assert Live(r, r.operands[n][i]);
    }
  }

  lemma NewEncodesUsed(g: Graph, r: Graph)
    requires Grown(g, r) && UsedKept(g, r) && forall n: NodeId :: n < |g.op| ==> !g.op[n].Encode?
    ensures EncodesUsed(r)
  {
    assert forall n: NodeId :: n < |g.op| ==> r.op[n] == g.op[n];
  }

  lemma EncodingDone(size: nat, g0: Graph, g: Graph, types: TypeMap, scale0: ScaleMap, b: Bits, r: Graph, left: TypeMap,
                     types': TypeMap, scale: ScaleMap)
    requires WellFormed(g) && WellFormed(r) && AfterRescaling(size, g0, g, types, scale0, b)
    requires Acyclic(r) && Refines(size, g, r) && Grown(g, r) && UsedKept(g, r) && Typed(r, left) && SourceArity(r)
      && Arity(r)
    requires ScalesExact(r, left, scale) && EncodesOnce(r)
    requires forall x: NodeId, i: nat :: |g.operands| <= x < |r.operands| && i < |r.operands[x]| ==>
      TypeAt(left, r.operands[x][i]) == Raw
    requires forall x: NodeId :: x >= |r.operands| ==> TypeAt(left, x) == TypeAt(types, x)
    requires Typed(r, types') && forall x: NodeId :: x >= |r.operands| ==> TypeAt(types', x) == TypeAt(left, x)
    requires ChainsKept(g, r) && EncodesMeetCiphers(r, left) && forall p: NodeId :: Live(r, p) ==>
      MeetsNoRaw(r, left, p)
    ensures AfterEncoding(size, g0, r, types', scale) && RescalesKept(g, r) && SameEnds(g, r)
  {
    hide Acyclic, Refines, Arity, SourceArity, Typed, OutputsUnused, WellFormed, UsedKept, Rescaling.ScalesFit,
         Relinearizing.CiphersUsed, Relinearizing.EncodesRaw, EncodesOnce, ScalesExact, Grows, SameTypes, ChainsKept,
         RescalesBy, MeetsNoRaw, EncodesMeetCiphers,
         KindsFit, SameEnds, AloneKept;
    UsedAlone(g, r);
    AloneTransitive(g0, g, r);
    EncodingGrows(g, r);
    ConstantsStay(g, r, size);
    GrowsSameEnds(g, r);
    RefinesTransitive(size, g0, g, r);
    GrowsTransitive(g0, g, r);
    OutputsStayUnused(g, r);
    RetypedSame(r, left, types');
    RetypedExact(r, left, types', scale);
    EncodesAreRaw(g, r, left, types');
    CiphersStayUsed(size, g, types, r, types');
    NewEncodesUsed(g, r);
    RescalesStayCipher(size, g, types, r, types');
    RescalesKeptIf(g, r);
    EncodedKinds(size, g0, g, types, scale0, b, r, left, types');
    hide EncodesUsed, RescalesKept, RescalesCipher;
    forall n: NodeId | n < |r.op|
      ensures !r.op[n].Relinearize? && !r.op[n].ModSwitch?
    {
      if n < |g.op| {
        assert r.op[n] == g.op[n];
      }
    }
  }

  /** The kinds of data fit once raw operands of ciphertexts have been encoded. */
  lemma EncodedKinds(size: nat, g0: Graph, g: Graph, types: TypeMap, scale0: ScaleMap, b: Bits, r: Graph,
                     left: TypeMap, types': TypeMap)
    requires WellFormed(r) && AfterRescaling(size, g0, g, types, scale0, b) && Grown(g, r)
    requires Typed(r, types') && SourceArity(r) && Arity(r) && SameTypes(r, left, types') && RescalesCipher(r, types')
    requires EncodesMeetCiphers(r, left) && forall p: NodeId :: Live(r, p) ==> MeetsNoRaw(r, left, p)
    requires forall x: NodeId, i: nat :: |g.operands| <= x < |r.operands| && i < |r.operands[x]| ==>
      TypeAt(left, r.operands[x][i]) == Raw
    ensures KindsFit(r, types')
  {
    forall m: NodeId | m < |g.op|
      ensures r.op[m] == g.op[m] && !r.op[m].Encode? && !r.op[m].Relinearize? && !r.op[m].ModSwitch?
    {
    }
    hide Typed, SourceArity, Arity, AfterRescaling;
    forall n: NodeId, i: nat | Live(r, n) && i < |r.operands[n]|
      ensures TypeAt(types', r.operands[n][i]) == TypeAt(left, r.operands[n][i]) && TypeAt(types', n) == TypeAt(left, n)
    {
      assert Live(r, r.operands[n][i]);
    }
    forall n: NodeId, i: nat | Live(r, n) && TypeAt(types', n) == Cipher && i < |r.operands[n]|
      ensures TypeAt(types', r.operands[n][i]) != Raw
    {
      assert MeetsNoRaw(r, left, n);
    }
    KindsFitAfterEncoding(r, types');
  }

  method EncodeStage(d: Dag, types: TypeMap, scale: ScaleMap, ghost b: Bits, ghost g0: Graph, ghost size: nat)
    returns (types': TypeMap, scale': ScaleMap)
    requires d.Valid() && AfterRescaling(size, g0, d.G(), types, scale, b)
    modifies d
    ensures d.Valid() && AfterEncoding(size, g0, d.G(), types', scale') && RescalesKept(old(d.G()), d.G())
    ensures SameEnds(old(d.G()), d.G())
    ensures forall n: NodeId :: n < old(|d.operands|) ==> ScaleAt(scale', n) == ScaleAt(scale, n)
  {
    ghost var g := d.G();
    RescaledReady(size, g0, g, types, scale, b);
    hide Acyclic, Refines, Arity, SourceArity, Typed, WellFormed, UsedKept, Rescaling.ScalesFit, EncodesOnce,
         ScalesExact, Grows, UsesInverse, SinksMatch, Erased, AfterRescaling, Grown, MeetsNoRaw, ChainsKept,
         RescalesKept, EncodesMeetCiphers,
         SameEnds;
    var e := InsertEncodes(d, types, scale, b, size);
    scale' := e.scale;
    types' := InferTypes(d, e.types);
    NotLive(d.G());
    EncodingDone(size, g0, g, types, scale, b, d.G(), e.types, types', scale');
  }

  lemma RescaledReady(size: nat, g0: Graph, g: Graph, types: TypeMap, scale: ScaleMap, b: Bits)
    requires AfterRescaling(size, g0, g, types, scale, b)
    ensures Acyclic(g) && Typed(g, types) && SourceArity(g) && Arity(g) && Rescaling.ScalesFit(g, types, scale, b)
    ensures forall m: NodeId :: m < |g.op| ==> !g.op[m].Encode?
  {
  }

  // ----- after relinearization -----

  ghost predicate AfterRelinearizing(size: nat, g0: Graph, gE: Graph, g: Graph, types: TypeMap)
  {
    && Sound(size, g0, g) && Typed(g, types) && NotRawBeyond(g, types) && EncodesOnce(g) && EncodesUsed(g)
    && Refines(size, gE, g) && ThreadedInto(gE, g)
    && RescalesCipher(g, types) && Relinearizing.EncodesRaw(g, types) && Relinearizing.CiphersUsed(g, types)
    && KindsFit(g, types) && OutputsFit(g)
    && forall n: NodeId :: n < |g.op| ==> !g.op[n].ModSwitch?
  }

  lemma ThreadsKeepOutputs(g: Graph, r: Graph)
    requires ThreadedInto(g, r) && Grows(g, r) && OutputsUnused(g)
    requires forall x: NodeId :: |g.op| <= x < |r.op| ==> !r.op[x].Output?
    ensures OutputsUnused(r)
  {
    forall n: NodeId | n < |r.op| && r.op[n].Output?
      ensures !IsUsed(r, n)
    {
      assert n < |g.op| && g.op[n] == r.op[n];
      if IsUsed(r, n) {
        UsedBeforeThreads(g, r, n);
      }
    }
  }

  lemma RelinearizationsUsed(g: Graph, r: Graph, types: TypeMap)
    requires WellFormed(r) && ThreadedInto(g, r) && Relinearizing.CiphersUsed(r, types)
    requires forall x: NodeId :: |g.operands| <= x < |r.operands| ==> TypeAt(types, x) == Cipher
    ensures NewUsed(g, r)
  {
    hide IsUsed;
    var origin :| Threaded(g, r, origin);
    forall x: NodeId | |g.operands| <= x < |r.operands|
      ensures IsUsed(r, x)
    {
      NewThread(g, r, origin, x);
    }
  }

  lemma ArityOfOutputs(g: Graph)
    requires WellFormed(g) && Arity(g)
    ensures OneOperandOutputs(g)
  {
    forall o: NodeId | o < |g.op| && o < |g.operands| && g.op[o].Output?
      ensures |g.operands[o]| <= 1
    {
      assert g.operands[o] != [] ==> Live(g, o);
    }
  }

  lemma RelinearizingDone(size: nat, g0: Graph, gE: Graph, typesE: TypeMap, scale: ScaleMap, g: Graph, left: TypeMap,
                          types: TypeMap, pending: set<NodeId>)
    requires WellFormed(gE) && WellFormed(g) && AfterEncoding(size, g0, gE, typesE, scale)
    requires Refines(size, gE, g) && Acyclic(g) && ThreadedInto(gE, g) && Typed(g, types) && SourceArity(g)
    requires Relinearizing.Grown(gE, g) && ChainsKept(gE, g)
    requires Relinearizing.EncodesRaw(g, types) && Relinearizing.CiphersUsed(g, types)
    requires forall x: NodeId :: x >= |g.operands| ==> TypeAt(left, x) == TypeAt(typesE, x)
    requires forall x: NodeId :: x >= |g.operands| ==> TypeAt(types, x) == TypeAt(left, x)
    requires Relinearizing.Relaxed(g, types, pending)
    requires forall x: NodeId :: |gE.operands| <= x < |g.operands| ==> TypeAt(types, x) == Cipher
    ensures AfterRelinearizing(size, g0, gE, g, types) && RescalesKept(gE, g) && SameEnds(gE, g)
  {
    hide Acyclic, Refines, Arity, SourceArity, Typed, OutputsUnused, WellFormed, EncodesOnce, ScalesExact, Grows,
         ThreadedInto, Relinearizing.CiphersUsed, Relinearizing.EncodesRaw, EncodesUsed, RescalesKept, RescalesCipher,
         ChainsKept, KindsFit, OutputsFit,
         Relinearizing.Relaxed, SameEnds, AloneKept;
    RelinearizationsUsed(gE, g, types);
    ArityOfOutputs(gE);
    ThreadedAlone(gE, g);
    AloneTransitive(g0, gE, g);
    EncodesStayUsed(gE, g);
    ConstantsStay(gE, g, size);
    ThreadsGrow(gE, g);
    GrowsArity(gE, g);
    GrownCount(gE, g);
    GrowsTransitive(g0, gE, g);
    RefinesTransitive(size, g0, gE, g);
    EncodesStayOnce(gE, g);
    ThreadsKeepOutputs(gE, g);
    RescalesStayCipher(size, gE, typesE, g, types);
    RescalesKeptIf(gE, g);
    GrowsSameEnds(gE, g);
    KindsThroughThreads(size, gE, typesE, g, types);
    RelaxedOutputsFit(g, types, pending);
    forall n: NodeId | n < |g.op|
      ensures !g.op[n].ModSwitch?
    {
      if n < |gE.op| {
        assert g.op[n] == gE.op[n];
      }
    }
  }

  method RelinearizeStage(d: Dag, types: TypeMap, scale: ScaleMap, ghost g0: Graph, ghost size: nat)
    returns (types': TypeMap, ok: bool, ghost pending: set<NodeId>)
    requires d.Valid() && AfterEncoding(size, g0, d.G(), types, scale)
    modifies d
    ensures d.Valid() && ok && AfterRelinearizing(size, g0, old(d.G()), d.G(), types')
    ensures RescalesKept(old(d.G()), d.G()) && SameEnds(old(d.G()), d.G())
  {
    ghost var g := d.G();
    EncodedReady(size, g0, g, types, scale);
    hide Acyclic, Refines, Arity, SourceArity, Typed, WellFormed, EncodesOnce, ScalesExact, Grows, ThreadedInto,
         AfterEncoding, UsesInverse, SinksMatch, Erased, Relinearizing.CiphersUsed, Relinearizing.EncodesRaw,
         Relinearizing.Relaxed, Relinearizing.Grown,
         Relinearizing.NewCiphers, ChainsKept, RescalesKept, SameEnds;
    var l;
    l, ok := Relinearizing.RelinearizeLazily(d, types, scale, size);
    pending := l.pending;
    types' := InferTypes(d, l.types);
    NotLive(d.G());
    RetypedSame(d.G(), l.types, types');
    RetypedRelaxed(d.G(), l.types, types', pending);
    NewCiphersTyped(g, d.G(), l.types, types');
    RelinearizingDone(size, g0, g, types, scale, d.G(), l.types, types', pending);
  }

  lemma EncodedReady(size: nat, g0: Graph, g: Graph, types: TypeMap, scale: ScaleMap)
    requires AfterEncoding(size, g0, g, types, scale)
    ensures Acyclic(g) && Typed(g, types) && SourceArity(g)
    ensures Relinearizing.CiphersUsed(g, types) && Relinearizing.EncodesRaw(g, types)
    ensures forall n: NodeId :: n < |g.op| ==> !g.op[n].Relinearize?
  {
  }

  lemma NewCiphersTyped(g: Graph, r: Graph, left: TypeMap, types: TypeMap)
    requires WellFormed(r) && Relinearizing.Grown(g, r) && Relinearizing.NewCiphers(g, r, left)
      && SameTypes(r, left, types)
    ensures forall x: NodeId :: |g.operands| <= x < |r.operands| ==> TypeAt(types, x) == Cipher
  {
    forall x: NodeId | |g.operands| <= x < |r.operands|
      ensures TypeAt(types, x) == Cipher
    {
      assert |r.operands[x]| == 1 && Live(r, x);
    }
  }

  lemma RetypedRelaxed(g: Graph, types: TypeMap, types': TypeMap, pending: set<NodeId>)
    requires WellFormed(g) && SameTypes(g, types, types') && Relinearizing.Relaxed(g, types, pending)
    requires Relinearizing.EncodesRaw(g, types) && Relinearizing.CiphersUsed(g, types)
    ensures Relinearizing.Relaxed(g, types', pending) && Relinearizing.EncodesRaw(g, types')
      && Relinearizing.CiphersUsed(g, types')
  {
    forall n: NodeId | n < |g.operands| && g.operands[n] != []
      ensures TypeAt(types', n) == TypeAt(types, n)
    {
      assert Live(g, n);
    }
    forall n: NodeId, i: nat | n < |g.operands| && i < |g.operands[n]|
      ensures TypeAt(types', g.operands[n][i]) == TypeAt(types, g.operands[n][i])
    {
      assert Live(g, g.operands[n][i]);
    }
    forall u: NodeId | u in pending
      ensures TypeAt(types', u) == TypeAt(types, u)
    {
      assert Live(g, u);
    }
  }

  // ----- after mod-switching -----

  /** Levels written to sources and encodings by the destructor of the mod switcher. */
  ghost predicate LevelsAssigned(g: Graph, level: LevelMap, attr: LevelAttr, max: nat)
  {
    && IsMaxSourceLevel(g.sources, level, max)
    && (forall s: NodeId :: s in g.sources ==> AttrAt(attr, s) == max - LevelAt(level, s))
    && (forall e: NodeId :: Live(g, e) && e < |g.op| && g.op[e].Encode? ==> AttrAt(attr, e) == max - LevelAt(level, e))
    && (forall n: NodeId :: n < |g.op| && n < |g.operands| && g.op[n].Output? ==> LevelAt(level, n) == 0)
  }

  ghost predicate AfterSwitching(size: nat, g0: Graph, gE: Graph, g: Graph, types: TypeMap, level: LevelMap,
                                 attr: LevelAttr, max: nat)
  {
    && Sound(size, g0, g) && Typed(g, types)
    && Refines(size, gE, g) && ThreadedInto(gE, g)
    && EdgesLevelled(g, types, level) && LevelsAssigned(g, level, attr, max)
    && LongestChain(g, max) && KindsFit(g, types) && OutputsFit(g)
  }

  /** Mod-switches stand on ciphertexts. */
  lemma SwitchesAreCiphers(size: nat, g: Graph, types: TypeMap, r: Graph, types': TypeMap)
    requires WellFormed(g) && SourceArity(g) && Typed(g, types)
    requires WellFormed(r) && SourceArity(r) && Typed(r, types') && Acyclic(r) && Refines(size, g, r)
      && ThreadedInto(g, r)
    requires HeadsNotRaw(g, types, r)
    ensures forall x: NodeId :: |g.operands| <= x < |r.operands| ==> TypeAt(types', x) == Cipher
  {
    ThreadsGrow(g, r);
    var origin :| Threaded(g, r, origin);
    var rank :| Ranked(r, rank);
    hide Threaded, Typed, SourceArity, WellFormed, Refines, Grows, Ranked, HeadsNotRaw;
    forall x: NodeId | |g.operands| <= x < |r.operands|
      ensures TypeAt(types', x) == Cipher
    {
      SwitchIsCipher(size, g, types, r, types', origin, rank, x);
    }
  }

  lemma {:induction false} SwitchIsCipher(size: nat, g: Graph, types: TypeMap, r: Graph, types': TypeMap,
                                          origin: seq<NodeId>, rank: seq<nat>, x: NodeId)
    requires WellFormed(g) && SourceArity(g) && Typed(g, types) && Grows(g, r) && HeadsNotRaw(g, types, r)
    requires WellFormed(r) && SourceArity(r) && Typed(r, types') && Ranked(r, rank) && Refines(size, g, r)
      && Threaded(g, r, origin)
    requires |g.operands| <= x < |r.operands|
    ensures TypeAt(types', x) == Cipher
    decreases rank[x]
  {
    ThreadedScales.ThreadNode(g, r, origin, x);
    var q := r.operands[x][0];
    if q < |g.operands| {
      HeadNotEncode(g, types, r, origin, x);
      hide Threaded, HeadsNotRaw, WellFormed, Ranked;
      TypesKept(size, g, types, r, types', q);
      TypeDetermined(g, types, q);
    } else {
      hide Threaded, HeadsNotRaw, WellFormed, Typed, Refines, Grows;
      SwitchIsCipher(size, g, types, r, types', origin, rank, q);
    }
    ThreadedScales.ThreadType(r, types', x);
  }

  lemma HeadNotEncode(g: Graph, types: TypeMap, r: Graph, origin: seq<NodeId>, x: NodeId)
    requires Threaded(g, r, origin) && HeadsNotRaw(g, types, r)
    requires |g.operands| <= x < |r.operands| && |r.operands[x]| == 1 && r.operands[x][0] < |g.operands|
    ensures r.operands[x][0] < |g.op| && !g.op[r.operands[x][0]].Encode? && TypeAt(types, r.operands[x][0]) != Raw
  {
  }

  lemma UsedHasUsers(g: Graph, n: NodeId)
    ensures IsUsed(g, n) <==> Users(g, n) != {}
  {
    if IsUsed(g, n) {
      var u: NodeId :| u < |g.operands| && n in g.operands[u];
      assert u in Users(g, n);
    }
  }

  lemma AssignedLevels(g: Graph, types: TypeMap, level: LevelMap, attr: LevelAttr, max: nat, encodeNodes: seq<NodeId>)
    requires OutputsUnused(g) && EncodesUsed(g) && Levelled(g, types, level) && IsMaxSourceLevel(g.sources, level, max)
    requires forall n: NodeId :: n in g.sources || n in encodeNodes ==> AttrAt(attr, n) == max - LevelAt(level, n)
    requires forall e: NodeId :: Live(g, e) && e < |g.op| && g.op[e].Encode? && Users(g, e) != {} ==> e in encodeNodes
    ensures LevelsAssigned(g, level, attr, max)
  {
    forall n: NodeId
      ensures IsUsed(g, n) <==> Users(g, n) != {}
    {
      UsedHasUsers(g, n);
    }
  }

  lemma SwitchingTypes(size: nat, g: Graph, types: TypeMap, r: Graph, types': TypeMap)
    requires WellFormed(g) && SourceArity(g) && Typed(g, types) && NotRawBeyond(g, types)
    requires WellFormed(r) && SourceArity(r) && Acyclic(r) && Typed(r, types')
    requires Refines(size, g, r) && Grows(g, r)
    requires forall x: NodeId :: |g.op| <= x < |r.op| ==> r.op[x].ModSwitch?
    ensures NoLessRaw(r, types, types') && SameButSwitches(r, types, types')
    ensures forall e: NodeId :: Live(r, e) && e < |r.op| && r.op[e].Encode? ==> TypeAt(types, e) != Raw
  {
    forall n: NodeId | Live(r, n) && n < |g.operands|
      ensures TypeAt(types', n) == TypeAt(types, n)
    {
      TypesKept(size, g, types, r, types', n);
    }
    forall e: NodeId | Live(r, e) && e < |r.op| && r.op[e].Encode?
      ensures TypeAt(types, e) != Raw
    {
      TypeDetermined(r, types', e);
    }
  }

  lemma SoundConstants(size: nat, g0: Graph, g: Graph)
    requires Sound(size, g0, g)
    ensures ConstantsFit(g, size)
  {
  }

  lemma ThreadsKeepConstants(g: Graph, r: Graph, size: nat)
    requires ConstantsFit(g, size) && ThreadedInto(g, r)
    ensures ConstantsFit(r, size)
  {
    var origin :| Threaded(g, r, origin);
    hide IsUsed;
    ConstantsStay(g, r, size);
  }

  lemma SwitchesUsed(g: Graph, r: Graph)
    requires forall x: NodeId :: |g.operands| <= x < |r.operands| ==> Users(r, x) != {}
    ensures NewUsed(g, r)
  {
    forall x: NodeId | |g.operands| <= x < |r.operands|
      ensures IsUsed(r, x)
    {
      var u :| u in Users(r, x);
    }
  }

  lemma SoundAlone(size: nat, g0: Graph, g: Graph)
    requires WellFormed(g) && Sound(size, g0, g)
    ensures AloneKept(g0, g) && OneOperandOutputs(g)
  {
    ArityOfOutputs(g);
  }

  lemma SwitchingDone(size: nat, g0: Graph, gE: Graph, gR: Graph, types: TypeMap, g: Graph, types': TypeMap,
                      level: LevelMap)
    requires WellFormed(gR) && WellFormed(g) && AfterRelinearizing(size, g0, gE, gR, types)
    requires Acyclic(g) && Refines(size, gR, g) && ThreadedInto(gR, g) && Typed(g, types') && ChainsKept(gR, g)
    requires forall x: NodeId :: |gR.operands| <= x < |g.operands| ==> Users(g, x) != {}
    ensures EncodesUsed(g) && RescalesKept(gR, g) && SameButSwitches(g, types, types')
    ensures RescalesCipher(g, types') && Relinearizing.EncodesRaw(g, types') && Relinearizing.CiphersUsed(g, types')
    requires EdgesLevelled(g, types, level) && |gR.op| <= |g.op| && forall x: NodeId :: |gR.op| <= x < |g.op| ==>
      g.op[x].ModSwitch?
    requires HeadsNotRaw(gR, types, g) && SizesKept(gR, g)
    ensures KindsFit(g, types') && OutputsFit(g) && SameEnds(gR, g)
    ensures Sound(size, g0, g) && Refines(size, gE, g) && ThreadedInto(gE, g) && EdgesLevelled(g, types', level)
    ensures forall e: NodeId :: Live(g, e) && e < |g.op| && g.op[e].Encode? ==> TypeAt(types, e) != Raw
  {
    hide Acyclic, Refines, Arity, SourceArity, Typed, OutputsUnused, WellFormed, EncodesOnce, Grows, ThreadedInto,
         EdgesLevelled, EncodesUsed, RescalesCipher, RescalesKept, ChainsKept, Relinearizing.EncodesRaw,
         Relinearizing.CiphersUsed, NoLessRaw, SameButSwitches,
         HeadsNotRaw, SizesKept, KindsFit, OutputsFit, SameEnds, AloneKept;
    SwitchesUsed(gR, g);
    SoundAlone(size, g0, gR);
    ThreadedAlone(gR, g);
    AloneTransitive(g0, gR, g);
    EncodesStayUsed(gR, g);
    ThreadsGrow(gR, g);
    SoundConstants(size, g0, gR);
    ThreadsKeepConstants(gR, g, size);
    GrowsArity(gR, g);
    GrownCount(gR, g);
    GrowsTransitive(g0, gR, g);
    RefinesTransitive(size, g0, gR, g);
    RefinesTransitive(size, gE, gR, g);
    ThreadedTransitive(gE, gR, g);
    ThreadsKeepOutputs(gR, g);
    SwitchingTypes(size, gR, types, g, types');
    RetypedLevels(g, types, types', level);
    RescalesStayCipher(size, gR, types, g, types');
    RescalesKeptIf(gR, g);
    GrowsSameEnds(gR, g);
    OutputsFitKept(gR, g);
    SwitchesAreCiphers(size, gR, types, g, types');
    KindsThroughThreads(size, gR, types, g, types');
    EncodesStayRaw(size, gR, types, g, types');
    SwitchedUsed(size, gR, types, g, types');
  }

  /** The operand of an encoding stays unencrypted, whatever is threaded in. */
  lemma EncodesStayRaw(size: nat, g: Graph, types: TypeMap, r: Graph, types': TypeMap)
    requires WellFormed(g) && SourceArity(g) && Typed(g, types) && Relinearizing.EncodesRaw(g, types)
    requires WellFormed(r) && SourceArity(r) && Typed(r, types') && Acyclic(r) && Refines(size, g, r)
      && ThreadedInto(g, r)
    ensures Relinearizing.EncodesRaw(r, types')
  {
    ThreadsGrow(g, r);
    var origin :| Threaded(g, r, origin);
    var rank :| Ranked(r, rank);
    hide IsUsed, Refines, Typed, SourceArity, Threaded, WellFormed, Ranked, Live, Grows;
    forall n: NodeId, i: nat | n < |r.operands| && n < |r.op| && r.op[n].Encode? && i < |r.operands[n]|
      ensures TypeAt(types', r.operands[n][i]) != Cipher
    {
      EncodeOrigin(g, types, r, origin, n, i);
      OriginNotCipher(size, g, types, r, types', rank, origin, r.operands[n][i]);
    }
  }

  lemma EncodeOrigin(g: Graph, types: TypeMap, r: Graph, origin: seq<NodeId>, n: NodeId, i: nat)
    requires Relinearizing.EncodesRaw(g, types) && WellFormed(r) && Threaded(g, r, origin)
    requires n < |r.operands| && n < |r.op| && r.op[n].Encode? && i < |r.operands[n]|
    ensures Live(r, r.operands[n][i]) && r.operands[n][i] < |origin|
      && TypeAt(types, origin[r.operands[n][i]]) != Cipher
  {
    assert n < |g.operands| && g.op[n] == r.op[n];
    assert Live(r, r.operands[n][i]);
    assert TypeAt(types, g.operands[n][i]) != Cipher && origin[r.operands[n][i]] == g.operands[n][i];
  }

  lemma {:induction false} OriginNotCipher(size: nat, g: Graph, types: TypeMap, r: Graph, types': TypeMap,
                                           rank: seq<nat>, origin: seq<NodeId>, q: NodeId)
    requires WellFormed(g) && SourceArity(g) && Typed(g, types) && Grows(g, r)
    requires WellFormed(r) && SourceArity(r) && Typed(r, types') && Ranked(r, rank) && Refines(size, g, r)
      && Threaded(g, r, origin)
    requires Live(r, q) && TypeAt(types, origin[q]) != Cipher
    ensures TypeAt(types', q) != Cipher
    decreases rank[q]
  {
    if q < |g.operands| {
      TypesKept(size, g, types, r, types', q);
    } else {
      ThreadedScales.ThreadNode(g, r, origin, q);
      ThreadedScales.ThreadType(r, types', q);
      hide Threaded, Typed, Refines, Grows;
      OriginNotCipher(size, g, types, r, types', rank, origin, r.operands[q][0]);
    }
  }

  lemma SwitchedUsed(size: nat, g: Graph, types: TypeMap, r: Graph, types': TypeMap)
    requires WellFormed(g) && SourceArity(g) && Typed(g, types) && Relinearizing.CiphersUsed(g, types)
    requires WellFormed(r) && SourceArity(r) && Typed(r, types') && Acyclic(r) && Refines(size, g, r)
      && ThreadedInto(g, r)
    requires forall x: NodeId :: |g.operands| <= x < |r.operands| ==> Users(r, x) != {}
    ensures Relinearizing.CiphersUsed(r, types')
  {
    ThreadsGrow(g, r);
    forall n: NodeId | n < |r.op| && n < |r.operands| && r.operands[n] != [] && TypeAt(types', n) == Cipher
      && !r.op[n].Output?
      ensures IsUsed(r, n)
    {
      if n < |g.operands| {
        GrowsLive(g, r, n);
        TypesKept(size, g, types, r, types', n);
        assert |r.operands[n]| == |g.operands[n]|;
        UsedThroughThreads(g, r, n);
      } else {
        UsedHasUsers(r, n);
      }
    }
  }

  /** A node stays used when threads are put in: the last thread of each of its edges leads back. */
  lemma UsedThroughThreads(g: Graph, r: Graph, n: NodeId)
    requires ThreadedInto(g, r) && WellFormed(r) && Acyclic(r) && IsUsed(g, n)
    ensures IsUsed(r, n)
  {
    var origin :| Threaded(g, r, origin);
    var rank :| Ranked(r, rank);
    var u, i := UserOf(g, n);
    hide IsUsed;
    assert origin[r.operands[u][i]] == n;
    LeadsBack(g, r, rank, origin, u, i, n);
  }

  lemma {:induction false} LeadsBack(g: Graph, r: Graph, rank: seq<nat>, origin: seq<NodeId>, u: NodeId, i: nat,
                                     n: NodeId)
    requires Threaded(g, r, origin) && WellFormed(r) && Ranked(r, rank) && n < |g.operands|
    requires u < |r.operands| && i < |r.operands[u]| && r.operands[u][i] < |origin| && origin[r.operands[u][i]] == n
    ensures IsUsed(r, n)
    decreases rank[u]
  {
    var q := r.operands[u][i];
    if q < |g.operands| {
      hide Threaded;
      UsedBy(r, u, i);
    } else {
      hide IsUsed;
      assert Live(r, r.operands[u][i]);
      ThreadedScales.ThreadNode(g, r, origin, q);
      assert rank[r.operands[u][i]] < rank[u];
      hide Threaded;
      LeadsBack(g, r, rank, origin, q, 0, n);
    }
  }

  method SwitchStage(d: Dag, types: TypeMap, scale: ScaleMap, attr0: LevelAttr, ghost g0: Graph, ghost gE: Graph,
                     ghost size: nat)
    returns (types': TypeMap, attr: LevelAttr, max: nat, ghost level: LevelMap)
    requires d.Valid() && AfterRelinearizing(size, g0, gE, d.G(), types)
    modifies d
    ensures d.Valid() && AfterSwitching(size, g0, gE, d.G(), types', level, attr, max)
      && RescalesKept(old(d.G()), d.G())
    ensures SameEnds(old(d.G()), d.G())
  {
    ghost var g := d.G();
    RelinearizedReady(size, g0, gE, g, types);
    hide Acyclic, Refines, Arity, SourceArity, Typed, WellFormed, EncodesOnce, Grows, ThreadedInto,
         AfterRelinearizing, EdgesLevelled, UsesInverse, SinksMatch, Erased, BeforeSwitching, OutputsUnused,
         IsMaxSourceLevel, DirectlyUsed, LevelsAssigned, Sound, EncodesUsed,
         RescalesCipher, RescalesKept, ChainsKept, Relinearizing.EncodesRaw, Relinearizing.CiphersUsed,
           SameButSwitches, LongestChain, Levelled, AfterSwitches, HeadsNotRaw, SizesKept, KindsFit, OutputsFit,
           SameEnds;
    var m := SwitchModuli(d, types, scale, size);
    attr, max := AssignLevels(d.sources, m.encodeNodes, m.level, attr0);
    level := m.level;
    types' := InferTypes(d, types);
    LevelledEdges(d.G(), types, level);
    SwitchingDone(size, g0, gE, g, types, d.G(), types', level);
    SoundOutputs(size, g0, d.G());
    AssignedLevels(d.G(), types, level, attr, max, m.encodeNodes);
    SoundShape(size, g0, d.G());
    SwitchedAll(d.G(), types', types, level, max, attr);
    LongestChainIsMaxLevel(d.G(), types', types, level, max);
  }

  lemma SoundShape(size: nat, g0: Graph, g: Graph)
    requires Sound(size, g0, g)
    ensures Acyclic(g) && SourceArity(g)
  {
  }

  lemma SwitchedAll(g: Graph, types: TypeMap, left: TypeMap, level: LevelMap, max: nat, attr: LevelAttr)
    requires WellFormed(g) && Acyclic(g) && SourceArity(g) && Typed(g, types)
    requires EdgesLevelled(g, types, level) && Levelled(g, left, level) && DirectlyUsed(g, left, level)
      && SameButSwitches(g, left, types)
    requires RescalesCipher(g, types) && Relinearizing.EncodesRaw(g, types) && Relinearizing.CiphersUsed(g, types)
    requires LevelsAssigned(g, level, attr, max)
    ensures AfterSwitches(g, types, left, level, max)
  {
  }

  lemma SoundOutputs(size: nat, g0: Graph, g: Graph)
    requires Sound(size, g0, g)
    ensures OutputsUnused(g)
  {
  }

  lemma LevelledEdges(g: Graph, types: TypeMap, level: LevelMap)
    requires Levelled(g, types, level)
    ensures EdgesLevelled(g, types, level)
  {
  }

  lemma RelinearizedReady(size: nat, g0: Graph, gE: Graph, g: Graph, types: TypeMap)
    requires AfterRelinearizing(size, g0, gE, g, types)
    ensures Acyclic(g) && BeforeSwitching(g, types)
  {
  }

  // ----- after lowering -----

  ghost predicate AfterLowering(size: nat, g0: Graph, g: Graph, f: Low.Facts, attr: LevelAttr, max: nat)
  {
    && Acyclic(g) && Refines(size, g0, g) && Typed(g, f.types) && SourceArity(g) && Arity(g)
    && EdgesLevelled(g, f.types, f.level) && ScalesExact(g, f.types, f.scale)
    && LevelsHold(g0, g, f.level, attr, max)
    && KindsFit(g, f.types) && OutputsFit(g) && OutputsUnused(g) && LongestChain(g, max) && SameEnds(g0, g)
    && ConstantsFit(g, size) && AloneKept(g0, g)
  }

  /** The assigned levels, and the outputs of the program at reverse level zero. */
  ghost predicate LevelsHold(g0: Graph, g: Graph, level: LevelMap, attr: LevelAttr, max: nat)
  {
    && IsMaxSourceLevel(g.sources, level, max)
    && (forall s: NodeId :: s in g.sources ==> AttrAt(attr, s) == max - LevelAt(level, s))
    && (forall e: NodeId :: Live(g, e) && e < |g.op| && g.op[e].Encode? ==> AttrAt(attr, e) == max - LevelAt(level, e))
    && (forall n: NodeId :: n < |g0.op| && g0.op[n].Output? ==> LevelAt(level, n) == 0)
  }

  lemma LoweringLevels(g0: Graph, gM: Graph, types: TypeMap, level: LevelMap, attr: LevelAttr, max: nat, r: Graph,
                       level': LevelMap)
    requires WellFormed(gM) && LevelsAssigned(gM, level, attr, max) && Grows(g0, gM)
    requires |gM.op| == |gM.operands| && gM.op <= r.op && r.sources == gM.sources
    requires forall x: NodeId :: |gM.op| <= x < |r.op| ==> !r.op[x].Encode?
    requires forall u: NodeId :: Live(r, u) && u < |gM.operands| ==> Live(gM, u)
    requires forall p: NodeId :: p < |gM.operands| ==> LevelAt(level', p) == LevelAt(level, p)
    ensures LevelsHold(g0, r, level', attr, max)
  {
    forall e: NodeId | Live(r, e) && e < |r.op| && r.op[e].Encode?
      ensures AttrAt(attr, e) == max - LevelAt(level', e)
    {
      assert e < |gM.op| && gM.op[e] == r.op[e];
    }
    forall n: NodeId | n < |g0.op| && g0.op[n].Output?
      ensures LevelAt(level', n) == 0
    {
      assert gM.op[n] == g0.op[n];
    }
    SourceLevels(gM, level, level', max);
  }

  lemma SourceLevels(g: Graph, level: LevelMap, level': LevelMap, max: nat)
    requires WellFormed(g) && IsMaxSourceLevel(g.sources, level, max)
    requires forall p: NodeId :: p < |g.operands| ==> LevelAt(level', p) == LevelAt(level, p)
    ensures IsMaxSourceLevel(g.sources, level', max)
  {
    if max != 0 {
      var s: NodeId :| s in g.sources && LevelAt(level, s) == max;
      assert LevelAt(level', s) == max;
    }
  }

  lemma LoweringDone(size: nat, g0: Graph, gE: Graph, gM: Graph, types: TypeMap, level: LevelMap, scale: ScaleMap,
                     attr: LevelAttr, max: nat, r: Graph, f: Low.Facts)
    requires WellFormed(gM) && WellFormed(r) && AfterSwitching(size, g0, gE, gM, types, level, attr, max)
    requires Acyclic(r) && Refines(size, gM, r) && Typed(r, f.types) && SourceArity(r) && Arity(r)
    requires EdgesLevelled(r, f.types, f.level) && ScalesExact(r, f.types, f.scale)
    requires LoweringPass.Agree(Low.Facts(types, level, scale), f, |gM.operands|) && r.sources == gM.sources
    requires |gM.op| == |gM.operands| <= |r.operands| && gM.op <= r.op
    requires forall x: NodeId :: |gM.op| <= x < |r.op| ==> r.op[x].Negate? || r.op[x].Add?
    requires forall u: NodeId :: u < |gM.operands| ==> |r.operands[u]| == |gM.operands[u]|
    requires ChainsKept(gM, r) && SizesKept(gM, r) && KindsFit(r, f.types) && LoweringPass.NoNewUses(gM, r)
      && SameEnds(g0, gM)
    ensures AfterLowering(size, g0, r, f, attr, max) && RescalesKept(gM, r) && SameEnds(gM, r)
  {
    hide Acyclic, Refines, Arity, SourceArity, Typed, OutputsUnused, Grows, ThreadedInto, EdgesLevelled,
         ScalesExact, LevelsAssigned, LevelsHold, KindsFit, OutputsFit, LongestChain, SameEnds, ChainsKept, SizesKept,
         RescalesKept, AloneKept, ConstantsFit, AfterSwitching, LoweringPass.NoNewUses;
    SwitchedReady(size, g0, gE, gM, types, level, attr, max);
    SwitchedFrom(size, g0, gE, gM, types, level, attr, max);
    SwitchedAlone(size, g0, gE, gM, types, level, attr, max, r);
    LoweringShape(gM, r);
    LoweredOutputs(gM, r);
    StillLive(gM, r);
    ConstantsStay(gM, r, size);
    hide WellFormed;
    RefinesTransitive(size, g0, gM, r);
    LoweringLevels(g0, gM, types, level, attr, max, r, f.level);
    SameEndsTransitive(g0, gM, r);
    OutputsFitKept(gM, r);
    LongestChainKept(gM, max, r);
  }

  lemma StillLive(g: Graph, r: Graph)
    requires r.sources == g.sources && |g.operands| <= |r.operands|
    requires forall u: NodeId :: u < |g.operands| ==> |r.operands[u]| == |g.operands[u]|
    ensures forall u: NodeId :: Live(r, u) && u < |g.operands| ==> Live(g, u)
  {
    forall u: NodeId | Live(r, u) && u < |g.operands|
      ensures Live(g, u)
    {
      assert |r.operands[u]| == |g.operands[u]|;
    }
  }

  lemma SwitchedFrom(size: nat, g0: Graph, gE: Graph, g: Graph, types: TypeMap, level: LevelMap, attr: LevelAttr,
                     max: nat)
    requires AfterSwitching(size, g0, gE, g, types, level, attr, max)
    ensures Refines(size, g0, g) && Grows(g0, g) && LevelsAssigned(g, level, attr, max)
  {
  }

  lemma SwitchedAlone(size: nat, g0: Graph, gE: Graph, g: Graph, types: TypeMap, level: LevelMap, attr: LevelAttr,
                      max: nat, r: Graph)
    requires AfterSwitching(size, g0, gE, g, types, level, attr, max) && LoweringPass.NoNewUses(g, r)
    ensures AloneKept(g0, r)
  {
  }

  lemma LoweringShape(g: Graph, r: Graph)
    requires |g.op| == |g.operands| <= |r.operands| == |r.op| && g.op <= r.op && r.sources == g.sources
      && ChainsKept(g, r)
    requires forall x: NodeId :: |g.op| <= x < |r.op| ==> r.op[x].Negate? || r.op[x].Add?
    requires forall u: NodeId :: u < |g.operands| ==> |r.operands[u]| == |g.operands[u]|
    ensures SameEnds(g, r) && RescalesKept(g, r)
  {
    forall u: NodeId | u < |g.operands|
      ensures Live(r, u) <==> Live(g, u)
    {
      assert |r.operands[u]| == |g.operands[u]|;
    }
    forall fixed: nat | RescalesBy(g, fixed)
      ensures RescalesBy(r, fixed)
    {
      RescalesStayBy(g, r, fixed);
    }
  }

  lemma LoweredOutputs(g: Graph, r: Graph)
    requires |g.op| == |g.operands| && g.op <= r.op && OutputsUnused(g) && LoweringPass.NoNewUses(g, r)
    requires forall x: NodeId :: |g.op| <= x < |r.op| ==> r.op[x].Negate? || r.op[x].Add?
    ensures OutputsUnused(r)
  {
    forall n: NodeId | n < |r.op| && r.op[n].Output?
      ensures !IsUsed(r, n)
    {
      assert n < |g.op| && g.op[n] == r.op[n];
    }
  }

  method LowerStage(d: Dag, types: TypeMap, ghost level: LevelMap, ghost attr: LevelAttr, ghost max: nat,
                    ghost g0: Graph, ghost gE: Graph, ghost typesE: TypeMap, ghost scale: ScaleMap, ghost size: nat)
    returns (ghost f: Low.Facts)
    requires d.Valid() && AfterSwitching(size, g0, gE, d.G(), types, level, attr, max) && SameEnds(g0, d.G())
    requires WellFormed(gE) && AfterEncoding(size, g0, gE, typesE, scale)
    modifies d
    ensures d.Valid() && AfterLowering(size, g0, d.G(), f, attr, max)
    ensures RescalesKept(old(d.G()), d.G()) && SameEnds(old(d.G()), d.G())
    ensures forall n: NodeId :: n < |gE.operands| ==> ScaleAt(f.scale, n) == ScaleAt(scale, n)
    ensures |gE.op| == |gE.operands| && gE.op <= d.op && forall x: NodeId :: |gE.op| <= x < |d.op| ==>
      !d.op[x].Input? && !d.op[x].Encode? && !d.op[x].Output?
  {
    ghost var g := d.G();
    SwitchedReady(size, g0, gE, g, types, level, attr, max);
    hide Acyclic, Refines, Arity, SourceArity, Typed, OutputsUnused, WellFormed, Grows, ThreadedInto, EdgesLevelled,
         ScalesExact, LevelsAssigned, LevelsHold, AfterSwitching, AfterEncoding, AfterLowering, UsesInverse,
         SinksMatch, Erased, KindsFit, OutputsFit,
         LongestChain, SameEnds, ChainsKept, SizesKept, RescalesKept, LoweringPass.NoNewUses;
    ghost var scale' := ExactAfterSwitching(size, g0, gE, typesE, scale, g, types, level, attr, max);
    ghost var lowered, visited;
    f, lowered, visited := LoweringPass.LowerSubtractions(d, types, level, scale', size);
    LoweringDone(size, g0, gE, g, types, level, scale', attr, max, d.G(), f);
    ScalesFromEncoding(gE, g, d.G(), scale, scale', types, level, f);
  }

  lemma ScalesFromEncoding(gE: Graph, g: Graph, r: Graph, scale: ScaleMap, scale': ScaleMap, types: TypeMap,
                           level: LevelMap, f: Low.Facts)
    requires ThreadedInto(gE, g) && |g.op| == |g.operands| && g.op <= r.op
    requires forall x: NodeId :: |g.op| <= x < |r.op| ==> r.op[x].Negate? || r.op[x].Add?
    requires forall n: NodeId :: n < |gE.operands| ==> ScaleAt(scale', n) == ScaleAt(scale, n)
    requires LoweringPass.Agree(Low.Facts(types, level, scale'), f, |g.operands|)
    ensures forall n: NodeId :: n < |gE.operands| ==> ScaleAt(f.scale, n) == ScaleAt(scale, n)
    ensures |gE.op| == |gE.operands| && gE.op <= r.op && forall x: NodeId :: |gE.op| <= x < |r.op| ==>
      !r.op[x].Input? && !r.op[x].Encode? && !r.op[x].Output?
  {
    var origin :| Threaded(gE, g, origin);
    hide IsUsed;
    forall x: NodeId | |gE.op| <= x < |r.op|
      ensures !r.op[x].Input? && !r.op[x].Encode? && !r.op[x].Output?
    {
      if x < |g.op| {
        assert r.op[x] == g.op[x];
      }
    }
  }

  lemma SwitchedReady(size: nat, g0: Graph, gE: Graph, g: Graph, types: TypeMap, level: LevelMap, attr: LevelAttr,
                      max: nat)
    requires AfterSwitching(size, g0, gE, g, types, level, attr, max)
    ensures Acyclic(g) && Typed(g, types) && SourceArity(g) && Arity(g) && EdgesLevelled(g, types, level)
      && ThreadedInto(gE, g)
    ensures KindsFit(g, types) && OutputsFit(g) && OutputsUnused(g) && LongestChain(g, max) && ConstantsFit(g, size)
  {
  }

  lemma ExactAfterSwitching(size: nat, g0: Graph, gE: Graph, typesE: TypeMap, scale: ScaleMap, g: Graph, types: TypeMap,
                            level: LevelMap, attr: LevelAttr, max: nat)
    returns (scale': ScaleMap)
    requires WellFormed(gE) && WellFormed(g) && AfterEncoding(size, g0, gE, typesE, scale)
    requires AfterSwitching(size, g0, gE, g, types, level, attr, max)
    ensures ScalesExact(g, types, scale')
    ensures forall n: NodeId :: n < |gE.operands| ==> ScaleAt(scale', n) == ScaleAt(scale, n)
  {
    ThreadsGrow(gE, g);
    hide Refines, Grows, ThreadedInto, OutputsUnused, EdgesLevelled, LevelsAssigned, ScalesExact, EncodesOnce,
         EncodesUsed;
    forall n: NodeId | Live(gE, n) && Live(g, n)
      ensures TypeAt(types, n) == TypeAt(typesE, n)
    {
      TypesKept(size, gE, typesE, g, types, n);
    }
    scale' := ThreadedScales.ThreadsKeepScales(gE, typesE, scale, g, types);
  }
}
