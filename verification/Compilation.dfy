/** Compilation for SEAL-CKKS, iyfc/seal/alo/seal_ckks_handler.cpp: transform, validate and the choice
    of the encryption parameters. */
module Compilation {
  import opened Graphs
  import opened Usage
  import opened Dags
  import opened Traversals
  import opened Semantics
  import opened Types
  import opened ModSwitchSpec
  import opened ModSwitchers
  import opened ModSwitchPass
  import opened RescaleSpec
  import opened EncodePass
  import opened Stages
  import opened Levels
  import opened ScalesCheckers
  import opened ParameterCheckers
  import opened Chains
  import opened ChainLevels
  import opened ConstantFolding
  import opened Kinds
  import opened Sizes
  import opened Uniform
  import opened Selectors
  import opened PrimeLists
  import opened Decision
  import opened Pipeline
  import Folding = FoldingPass
  import Rescaling = RescalePass
  import Relinearizing = RelinPass
  import Low = Lowering

  // ----- transform -----

  ghost predicate OutputsAt(g: Graph, scale: ScaleMap, s: nat)
  {
    forall o: NodeId :: Live(g, o) && o < |g.op| && g.op[o].Output? ==> ScaleAt(scale, o) == s
  }

  /** In the uniform setting the maximum level is the multiplication depth of the program, and all
      outputs are at the one scale. */
  ghost predicate UniformOutcome(g0: Graph, scale0: ScaleMap, fixed: nat, g: Graph, scale: ScaleMap, max: nat)
  {
    SourcesAt(g0, scale0, fixed) ==> LargestDepth(g0, max) && OutputsAt(g, scale, fixed)
  }

  /** What transform leaves behind; scale holds the scales that inputs and encodings were given and those that
      outputs have. */
  ghost predicate Transformed(size: nat, g0: Graph, scale0: ScaleMap, fixed: nat, g: Graph, f: Low.Facts,
                              attr: LevelAttr, max: nat, scale: ScaleMap)
  {
    && AfterLowering(size, g0, g, f, attr, max) && RescalesBy(g, fixed)
    && StoredScalesOf(g, f.scale, scale)
    && (forall s: NodeId :: s in g0.sources ==> ScaleAt(scale, s) == ScaleAt(scale0, s))
    && UniformOutcome(g0, scale0, fixed, g, scale, max)
  }

  ghost predicate StoredScalesOf(g: Graph, exact: ScaleMap, scale: ScaleMap)
  {
    forall n: NodeId :: n < |g.op| && (g.op[n].Input? || g.op[n].Encode? || g.op[n].Output?) ==>
      ScaleAt(scale, n) == ScaleAt(exact, n)
  }

  lemma StoredIsExact(gE: Graph, g: Graph, exact: ScaleMap, scale: ScaleMap)
    requires |gE.op| == |gE.operands| && gE.op <= g.op
    requires forall n: NodeId :: n < |gE.operands| ==> ScaleAt(exact, n) == ScaleAt(scale, n)
    requires forall x: NodeId :: |gE.op| <= x < |g.op| ==> !g.op[x].Input? && !g.op[x].Encode? && !g.op[x].Output?
    ensures StoredScalesOf(g, exact, scale)
  {
  }

  /** The scales the sources were given are still those they were given. */
  lemma SourcesStored(g0: Graph, scale0: ScaleMap, gF: Graph, scaleF: ScaleMap, gR: Graph, scaleR: ScaleMap,
                      scaleE: ScaleMap)
    requires WellFormed(g0) && WellFormed(gF) && g0.sources <= gF.sources && |gF.operands| <= |gR.operands|
    requires Folding.ScalesFrom(g0, scale0, gF, scaleF) && Rescaling.SourcesKept(gF, scaleF, scaleR)
    requires forall n: NodeId :: n < |gR.operands| ==> ScaleAt(scaleE, n) == ScaleAt(scaleR, n)
    ensures forall s: NodeId :: s in g0.sources ==> ScaleAt(scaleE, s) == ScaleAt(scale0, s)
  {
  }

  lemma UniformFolded(g0: Graph, scale0: ScaleMap, gF: Graph, scaleF: ScaleMap, b: Bits)
    requires Folding.ScalesFrom(g0, scale0, gF, scaleF) && SourcesAt(g0, scale0, b.fixed) && Arity(gF)
    requires exists n: NodeId :: n in gF.sources && ScaleAt(scaleF, n) == b.waterline
    ensures Rescaling.UniformStart(gF, scaleF, b)
  {
    forall s: NodeId | s in gF.sources
      ensures ScaleAt(scaleF, s) == b.fixed
    {
      assert Folding.FromSource(g0, scale0, ScaleAt(scaleF, s));
    }
  }

  lemma UniformTransformed(g0: Graph, gF: Graph, gR: Graph, g: Graph, types: TypeMap, scaleR: ScaleMap,
                           scale: ScaleMap, fixed: nat, max: nat)
    requires UniformlyRescaled(gR, types, scaleR, fixed) && Acyclic(gR)
    requires DepthsKept(g0, gF) && DepthsKept(gF, gR) && ChainsKept(gR, g) && LongestChain(g, max)
    requires SameEnds(g0, gF) && SameEnds(gF, gR) && SameEnds(gR, g)
    requires forall n: NodeId :: n < |gR.operands| ==> ScaleAt(scale, n) == ScaleAt(scaleR, n)
    ensures LargestDepth(g0, max) && OutputsAt(g, scale, fixed)
  {
    hide DepthsKept, ChainsKept, LongestChain, LargestDepth, Acyclic;
    forall o: NodeId | Live(g, o) && o < |g.op| && g.op[o].Output?
      ensures ScaleAt(scale, o) == fixed
    {
      OutputScale(gR, types, scaleR, fixed, o);
    }
    hide UniformlyRescaled, OutputsAt;
    SameEndsTransitive(g0, gF, gR);
    DepthsTransitive(g0, gF, gR);
    hide SameEnds;
    ChainsReachDepth(g0, gR, g, types, scaleR, fixed, max);
  }

  lemma OutcomeMade(g0: Graph, scale0: ScaleMap, gF: Graph, scaleF: ScaleMap, b: Bits, gR: Graph, types: TypeMap,
                    scaleR: ScaleMap, g: Graph, scale: ScaleMap, max: nat)
    requires Folding.ScalesFrom(g0, scale0, gF, scaleF) && Arity(gF) && exists n: NodeId ::
      n in gF.sources && ScaleAt(scaleF, n) == b.waterline
    requires Rescaling.UniformStart(gF, scaleF, b) ==>
      UniformlyRescaled(gR, types, scaleR, b.fixed) && DepthsKept(gF, gR)
    requires Acyclic(gR) && DepthsKept(g0, gF) && ChainsKept(gR, g) && LongestChain(g, max)
    requires SameEnds(g0, gF) && SameEnds(gF, gR) && SameEnds(gR, g)
    requires forall n: NodeId :: n < |gR.operands| ==> ScaleAt(scale, n) == ScaleAt(scaleR, n)
    ensures UniformOutcome(g0, scale0, b.fixed, g, scale, max)
  {
    hide Folding.ScalesFrom, UniformlyRescaled, DepthsKept, ChainsKept, LongestChain, SameEnds, Acyclic, LargestDepth,
         OutputsAt, SourcesAt, Arity;
    if SourcesAt(g0, scale0, b.fixed) {
      UniformFolded(g0, scale0, gF, scaleF, b);
      UniformTransformed(g0, gF, gR, g, types, scaleR, scale, b.fixed, max);
    }
  }

  lemma FoldedFacts(size: nat, g0: Graph, g: Graph, types: TypeMap, typing: TypeMap, scale: ScaleMap)
    requires AfterFolding(size, g0, g, types, typing, scale)
    ensures Arity(g) && g0.sources <= g.sources
  {
  }

  lemma RescaledFacts(size: nat, g0: Graph, g: Graph, types: TypeMap, scale: ScaleMap, b: Bits)
    requires AfterRescaling(size, g0, g, types, scale, b)
    ensures Acyclic(g) && RescalesBy(g, b.fixed)
  {
  }

  lemma LoweredFacts(size: nat, g0: Graph, g: Graph, f: Low.Facts, attr: LevelAttr, max: nat)
    requires AfterLowering(size, g0, g, f, attr, max)
    ensures LongestChain(g, max)
  {
  }

  lemma StartFacts(g: Graph, scale: ScaleMap, size: nat)
    requires Compilable(g, scale, size)
    ensures SourceArity(g)
  {
  }

  lemma CountGrows(g: Graph, r: Graph)
    requires SameEnds(g, r)
    ensures |g.operands| <= |r.operands|
  {
  }

  lemma RescalesKeptFacts(g: Graph, r: Graph, fixed: nat)
    requires RescalesKept(g, r) && RescalesBy(g, fixed)
    ensures ChainsKept(g, r) && RescalesBy(r, fixed)
  {
  }

  lemma TransformedMade(size: nat, g0: Graph, scale0: ScaleMap, fixed: nat, g: Graph, f: Low.Facts, attr: LevelAttr,
                        max: nat, scale: ScaleMap)
    requires AfterLowering(size, g0, g, f, attr, max) && RescalesBy(g, fixed) && StoredScalesOf(g, f.scale, scale)
    requires forall s: NodeId :: s in g0.sources ==> ScaleAt(scale, s) == ScaleAt(scale0, s)
    requires UniformOutcome(g0, scale0, fixed, g, scale, max)
    ensures Transformed(size, g0, scale0, fixed, g, f, attr, max, scale)
  {
  }

  /** transform, iyfc/seal/alo/seal_ckks_handler.cpp:31-65; ok tells whether the assertions of the
      relinearization held. */
  method Transform(d: Dag, scale0: ScaleMap, fixed: nat, vecSize: nat, attr0: LevelAttr)
    returns (ok: bool, scale: ScaleMap, attr: LevelAttr, max: nat, ghost f: Low.Facts)
    requires d.Valid() && Compilable(d.G(), scale0, vecSize) && fixed > 0
    modifies d
    ensures d.Valid() && ok && Transformed(vecSize, old(d.G()), scale0, fixed, d.G(), f, attr, max, scale)
  {
    hide Compilable, AfterFolding, AfterRescaling, AfterEncoding, AfterRelinearizing, AfterSwitching, AfterLowering,
         Transformed, WellFormed, SourceArity, UsesInverse, SinksMatch, Erased, Folding.ScalesFrom,
         Rescaling.SourcesKept, Rescaling.UniformStart,
         UniformlyRescaled, DepthsKept, ChainsKept, RescalesKept, RescalesBy, SameEnds, LongestChain, UniformOutcome,
           StoredScalesOf, Acyclic, Arity;
    ghost var g0 := d.G();
    StartFacts(g0, scale0, vecSize);
    var types;
    ghost var typing;
    types, scale, typing := FoldStage(d, scale0, vecSize);
    ghost var gF, scaleF := d.G(), scale;
    FoldedFacts(vecSize, g0, gF, types, typing, scaleF);
    ghost var b;
    types, scale, b := RescaleStage(d, types, scale, fixed, typing, g0, vecSize);
    ghost var gR, typesR, scaleR := d.G(), types, scale;
    RescaledFacts(vecSize, g0, gR, types, scale, b);
    types, scale := EncodeStage(d, types, scale, b, g0, vecSize);
    ghost var gE, typesE := d.G(), types;
    ghost var pending;
    types, ok, pending := RelinearizeStage(d, types, scale, g0, vecSize);
    ghost var gL := d.G();
    ghost var level;
    types, attr, max, level := SwitchStage(d, types, scale, attr0, g0, gE, vecSize);
    ghost var gM := d.G();
    SameEndsChain(g0, gF, gR, gE, gL, gM);
    f := LowerStage(d, types, level, attr, max, g0, gE, typesE, scale, vecSize);
    LoweredFacts(vecSize, g0, d.G(), f, attr, max);
    RescalesKeptChain(gR, gE, gL, gM, d.G());
    RescalesKeptFacts(gR, d.G(), fixed);
    StoredIsExact(gE, d.G(), f.scale, scale);
    CountGrows(gF, gR);
    SourcesStored(g0, scale0, gF, scaleF, gR, scaleR, scale);
    SameEndsLater(gR, gE, gL, gM, d.G());
    OutcomeMade(g0, scale0, gF, scaleF, b, gR, typesR, scaleR, d.G(), scale, max);
    TransformedMade(vecSize, g0, scale0, fixed, d.G(), f, attr, max, scale);
  }

  lemma SameEndsChain(g0: Graph, gF: Graph, gR: Graph, gE: Graph, gL: Graph, gM: Graph)
    requires SameEnds(g0, gF) && SameEnds(gF, gR) && SameEnds(gR, gE) && SameEnds(gE, gL) && SameEnds(gL, gM)
    ensures SameEnds(g0, gM)
  {
    hide SameEnds;
    SameEndsTransitive(g0, gF, gR);
    SameEndsTransitive(g0, gR, gE);
    SameEndsTransitive(g0, gE, gL);
    SameEndsTransitive(g0, gL, gM);
  }

  lemma SameEndsLater(gR: Graph, gE: Graph, gL: Graph, gM: Graph, g: Graph)
    requires SameEnds(gR, gE) && SameEnds(gE, gL) && SameEnds(gL, gM) && SameEnds(gM, g)
    ensures SameEnds(gR, g)
  {
    hide SameEnds;
    SameEndsTransitive(gR, gE, gL);
    SameEndsTransitive(gR, gL, gM);
    SameEndsTransitive(gR, gM, g);
  }

  lemma RescalesKeptChain(gR: Graph, gE: Graph, gL: Graph, gM: Graph, g: Graph)
    requires RescalesKept(gR, gE) && RescalesKept(gE, gL) && RescalesKept(gL, gM) && RescalesKept(gM, g)
    ensures RescalesKept(gR, g)
  {
    hide RescalesKept;
    RescalesKeptTransitive(gR, gE, gL);
    RescalesKeptTransitive(gR, gL, gM);
    RescalesKeptTransitive(gR, gM, g);
  }

  // ----- validate -----

  lemma LevelsFine(size: nat, g0: Graph, g: Graph, f: Low.Facts, attr: LevelAttr, max: nat, types: TypeMap,
                   levels: LevelAttr)
    requires WellFormed(g) && AfterLowering(size, g0, g, f, attr, max) && Typed(g, types)
      && Checked(g, types, attr, levels)
    ensures forall n: NodeId :: Live(g, n) ==> LevelsMatch(g, types, levels, n)
  {
    RetypedLowered(size, g0, g, f, attr, max, types);
    forall n: NodeId | Live(g, n)
      ensures LevelsMatch(g, types, levels, n)
    {
      LevelsNeverMismatch(g, types, f.level, max, attr, levels, n);
    }
  }

  lemma RetypedLowered(size: nat, g0: Graph, g: Graph, f: Low.Facts, attr: LevelAttr, max: nat, types: TypeMap)
    requires WellFormed(g) && AfterLowering(size, g0, g, f, attr, max) && Typed(g, types)
    ensures Acyclic(g) && SourceArity(g) && Arity(g) && EdgesLevelled(g, types, f.level)
      && ScalesExact(g, types, f.scale)
    ensures KindsFit(g, types) && LevelsHold(g0, g, f.level, attr, max) && SameEnds(g0, g) && LongestChain(g, max)
  {
    RetypedSame(g, f.types, types);
    RetypedLevels(g, f.types, types, f.level);
    RetypedExact(g, f.types, types, f.scale);
    RetypedKinds(g, f.types, types);
  }

  lemma RetypedKinds(g: Graph, types: TypeMap, types': TypeMap)
    requires WellFormed(g) && KindsFit(g, types) && SameTypes(g, types, types')
    ensures KindsFit(g, types')
  {
    forall n: NodeId, i: nat | n < |g.operands| && i < |g.operands[n]|
      ensures KindFits(g.op[n], TypeAt(types', n), TypeAt(types', g.operands[n][i]))
    {
      assert Live(g, n) && Live(g, g.operands[n][i]);
      assert KindFits(g.op[n], TypeAt(types, n), TypeAt(types, g.operands[n][i]));
    }
  }

  /** Sources start within the maximum level, encrypted outputs end at it, and an encoding is made at
      the level of the ciphertext it meets. No level is negative. */
  ghost predicate LevelsRight(g: Graph, types: TypeMap, attr: LevelAttr, levels: LevelAttr, max: nat)
  {
    && |g.op| == |g.operands|
    && (forall s: NodeId :: s in g.sources ==> 0 <= AttrAt(attr, s) <= max)
    && (forall o: NodeId :: Live(g, o) && g.op[o].Output? && TypeAt(types, o) == Cipher ==> AttrAt(levels, o) == max)
    && (forall u: NodeId, i: nat, j: nat :: u < |g.operands| && i < |g.operands[u]| && j < |g.operands[u]| ==>
          EncodedRight(g, types, attr, levels, g.operands[u][i], g.operands[u][j]))
  }

  predicate EncodedRight(g: Graph, types: TypeMap, attr: LevelAttr, levels: LevelAttr, e: NodeId, c: NodeId)
  {
    e < |g.op| && g.op[e].Encode? && TypeAt(types, c) == Cipher ==> 0 <= AttrAt(attr, e) == AttrAt(levels, c)
  }

  lemma LevelsAreRight(size: nat, g0: Graph, g: Graph, f: Low.Facts, attr: LevelAttr, max: nat, types: TypeMap,
                       levels: LevelAttr)
    requires WellFormed(g) && AfterLowering(size, g0, g, f, attr, max) && Typed(g, types)
      && Checked(g, types, attr, levels)
    ensures LevelsRight(g, types, attr, levels, max)
  {
    RetypedLowered(size, g0, g, f, attr, max, types);
    hide AfterLowering, ScalesExact, KindsFit, LongestChain;
    forall o: NodeId | Live(g, o) && g.op[o].Output? && TypeAt(types, o) == Cipher
      ensures AttrAt(levels, o) == max
    {
      assert g0.op[o].Output?;
      SinksAtMaxLevel(g, types, f.level, max, attr, levels, o);
    }
    forall u: NodeId, i: nat, j: nat | u < |g.operands| && i < |g.operands[u]| && j < |g.operands[u]|
      ensures EncodedRight(g, types, attr, levels, g.operands[u][i], g.operands[u][j])
    {
      EncodingIsRight(g0, g, types, f.level, attr, levels, max, u, i, j);
    }
  }

  lemma EncodingIsRight(g0: Graph, g: Graph, types: TypeMap, level: LevelMap, attr: LevelAttr, levels: LevelAttr,
                        max: nat, u: NodeId, i: nat, j: nat)
    requires WellFormed(g) && Acyclic(g) && SourceArity(g) && Typed(g, types) && EdgesLevelled(g, types, level)
    requires LevelsHold(g0, g, level, attr, max) && Checked(g, types, attr, levels)
    requires u < |g.operands| && i < |g.operands[u]| && j < |g.operands[u]|
    ensures EncodedRight(g, types, attr, levels, g.operands[u][i], g.operands[u][j])
  {
    var e, c := g.operands[u][i], g.operands[u][j];
    assert Live(g, e) && Live(g, c);
    if g.op[e].Encode? && TypeAt(types, c) == Cipher {
      EncodeType(g, types, e);
      EncodeMeetsCipher(g, types, level, max, attr, levels, e, u, i, j);
      EncodeNotNegative(g, types, level, max, attr, e, u, i, j);
    }
  }

  lemma EncodeType(g: Graph, types: TypeMap, e: NodeId)
    requires SourceArity(g) && Typed(g, types) && Live(g, e) && g.op[e].Encode?
    ensures TypeAt(types, e) == Plain
  {
    TypeDetermined(g, types, e);
  }

  /** The level of an encoding does not underflow. */
  lemma EncodeNotNegative(g: Graph, types: TypeMap, level: LevelMap, max: nat, attr: LevelAttr, e: NodeId, u: NodeId,
                          i: nat, j: nat)
    requires WellFormed(g) && Acyclic(g) && SourceArity(g) && Typed(g, types) && EdgesLevelled(g, types, level)
    requires IsMaxSourceLevel(g.sources, level, max) && AttrAt(attr, e) == max - LevelAt(level, e)
    requires u < |g.operands| && i < |g.operands[u]| && j < |g.operands[u]|
    requires g.operands[u][i] == e && e < |g.op| && g.op[e].Encode? && TypeAt(types, e) == Plain
      && TypeAt(types, g.operands[u][j]) == Cipher
    ensures AttrAt(attr, e) >= 0
  {
    var rank :| Ranked(g, rank);
    assert Live(g, u) && Live(g, e);
    TypeDetermined(g, types, u);
    assert TypeAt(types, u) == Inferred(g, types, u);
    CipherUser(g, types, u, j);
    CipherLevelBounded(g, rank, types, level, max, g.operands[u][j]);
    assert EdgeLevel(g, level, u, g.operands[u][i]) && EdgeLevel(g, level, u, g.operands[u][j]);
  }

  lemma CipherUser(g: Graph, types: TypeMap, u: NodeId, j: nat)
    requires WellFormed(g) && u < |g.operands| && j < |g.operands[u]|
    ensures Live(g, g.operands[u][j])
  {
  }

  lemma ScalesFine(size: nat, g0: Graph, g: Graph, f: Low.Facts, attr: LevelAttr, max: nat, types: TypeMap,
                   scale: ScaleMap, scales: Computed)
    requires WellFormed(g) && AfterLowering(size, g0, g, f, attr, max) && Typed(g, types)
    requires StoredScales(g, types, f.scale, scale) && Recomputed(g, types, scale, scales)
    ensures NoWarnings(g, types, scale, scales)
  {
    RetypedLowered(size, g0, g, f, attr, max, types);
    hide AfterLowering;
    ScalesNeverWarn(g, types, f.scale, scale, scales);
  }

  lemma ParametersFine(size: nat, g0: Graph, g: Graph, f: Low.Facts, attr: LevelAttr, max: nat, fixed: nat,
                       types: TypeMap, levels: LevelAttr, lists: PrimeMap)
    requires WellFormed(g) && AfterLowering(size, g0, g, f, attr, max) && Typed(g, types) && RescalesBy(g, fixed)
    requires Checked(g, types, attr, levels) && ParmsComputed(g, types, attr, lists)
    requires forall n: NodeId :: Live(g, n) ==> LevelsMatch(g, types, levels, n)
    ensures AllAgree(g, types, lists)
    ensures forall n: NodeId :: Live(g, n) && TypeAt(types, n) == Cipher ==> |PrimesAt(lists, n)| == AttrAt(levels, n)
  {
    RetypedLowered(size, g0, g, f, attr, max, types);
    hide AfterLowering, EdgesLevelled, ScalesExact, LongestChain, SameEnds;
    ParametersNeverWarn(g, types, attr, levels, fixed, lists);
  }

  lemma TransformedFacts(size: nat, g0: Graph, scale0: ScaleMap, fixed: nat, g: Graph, f: Low.Facts, attr: LevelAttr,
                         max: nat, scale: ScaleMap)
    requires Transformed(size, g0, scale0, fixed, g, f, attr, max, scale)
    ensures Acyclic(g) && Arity(g) && AfterLowering(size, g0, g, f, attr, max) && RescalesBy(g, fixed)
      && Refines(size, g0, g)
    ensures forall types: TypeMap :: StoredScales(g, types, f.scale, scale)
  {
  }

  lemma PositiveRescales(size: nat, g0: Graph, scale0: ScaleMap, fixed: nat, g: Graph, f: Low.Facts, attr: LevelAttr,
                         max: nat, scale: ScaleMap)
    requires Transformed(size, g0, scale0, fixed, g, f, attr, max, scale) && fixed > 0
    ensures DivisorsPositive(g)
  {
  }

  /** validate, iyfc/seal/alo/seal_ckks_handler.cpp:67-87: on a transformed graph the assertion of the
      levels checker holds, and neither the parameter checker nor the scales checker gives a warning. */
  method Validate(d: Dag, scale: ScaleMap, attr: LevelAttr, ghost max: nat, ghost f: Low.Facts, ghost g0: Graph,
                  ghost scale0: ScaleMap, ghost fixed: nat, ghost size: nat)
    returns (types: TypeMap, levels: LevelAttr, levelsMatch: bool, primesAgree: bool, quiet: bool)
    requires d.Valid() && fixed > 0 && Transformed(size, g0, scale0, fixed, d.G(), f, attr, max, scale)
    ensures levelsMatch && primesAgree && quiet && Typed(d.G(), types)
    ensures LevelsRight(d.G(), types, attr, levels, max)
  {
    ghost var g := d.G();
    hide Transformed, AfterLowering, Acyclic, Typed, UsesInverse, SinksMatch, Erased, Checked, LevelsMatch,
         NoWarnings, Recomputed, ParmsComputed, AllAgree, RescalesBy, WellFormed, LevelsRight, StoredScales,
         DivisorsPositive, Arity;
    PositiveRescales(size, g0, scale0, fixed, g, f, attr, max, scale);
    TransformedFacts(size, g0, scale0, fixed, g, f, attr, max, scale);
    types := InferTypes(d, map[]);
    levels, levelsMatch := CheckLevels(d, types, attr);
    LevelsFine(size, g0, g, f, attr, max, types, levels);
    LevelsAreRight(size, g0, g, f, attr, max, types, levels);
    var lists;
    lists, primesAgree := CheckParameters(d, types, attr);
    ParametersFine(size, g0, g, f, attr, max, fixed, types, levels, lists);
    var scales;
    scales, quiet := CheckScales(d, types, scale);
    ScalesFine(size, g0, g, f, attr, max, types, scale, scales);
  }

  // ----- the encryption parameters -----

  /** The list of primes: some that hold every output, one for every level, and the key prime, which
      is the largest of them except in one case. */
  ghost predicate ParametersRight(outputs: seq<NodeId>, ranges: RangeMap, scale: ScaleMap, fixed: nat, max: nat,
                                  parms: seq<nat>)
  {
    fixed > 0 && exists head: seq<nat>, key: nat, bits: nat ::
      ListRight(outputs, ranges, scale, fixed, max, parms, head, key, bits)
  }

  ghost predicate ListRight(outputs: seq<NodeId>, ranges: RangeMap, scale: ScaleMap, fixed: nat, max: nat,
                            parms: seq<nat>, head: seq<nat>, key: nat, bits: nat)
    requires fixed > 0
  {
    && parms == head + Repeat(fixed, max) + [key]
    && IsLargestBits(outputs, ranges, scale, bits) && TotalBits(head) >= bits
    && (if bits > fixed then key == fixed && HeadFits(bits, fixed, head)
        else head == [key] && key == if max > 0 then fixed else bits)
    && (bits == 2 * fixed ==> parms == Repeat(fixed, max + 3))
    && (AllAtMost(parms, key) <==> !KeyMayBeSmall(bits, fixed))
  }

  /** All that is asked of the graph by the choice of the parameters. */
  ghost predicate Selectable(g: Graph, types: TypeMap, fixed: nat, max: nat)
  {
    && WellFormed(g) && Acyclic(g) && Typed(g, types) && SourceArity(g) && KindsFit(g, types) && RescalesBy(g, fixed)
    && LongestChain(g, max)
  }

  lemma OutputPrimes(g: Graph, types: TypeMap, fixed: nat, max: nat, primes: PrimeMap, outputs: seq<NodeId>,
                     c: seq<nat>)
    requires Selectable(g, types, fixed, max) && Selected(g, types, primes) && OutputsOf(g, outputs)
      && Interprets<nat>(g, ChainSem(), c)
    ensures forall i: nat :: i < |outputs| ==>
      outputs[i] < |c| && PrimesAt(primes, outputs[i]) == Repeat(fixed, c[outputs[i]])
  {
    var rank :| Ranked(g, rank);
    forall i: nat | i < |outputs|
      ensures outputs[i] < |c| && PrimesAt(primes, outputs[i]) == Repeat(fixed, c[outputs[i]])
    {
      PrimesAreChain(g, rank, types, fixed, primes, c, outputs[i]);
    }
  }

  /** The longest list of an output holds one divisor for each level. */
  lemma MiddleIs(g: Graph, types: TypeMap, fixed: nat, max: nat, primes: PrimeMap, outputs: seq<NodeId>,
                 middle: seq<nat>)
    requires Selectable(g, types, fixed, max) && Selected(g, types, primes) && OutputsOf(g, outputs)
      && IsLongest(outputs, primes, middle)
    ensures middle == Repeat(fixed, max)
    ensures forall i: nat :: i < |outputs| ==> OnlyPrime(PrimesAt(primes, outputs[i]), fixed)
  {
    hide Selectable, Selected, Interprets, OutputsOf, ChainsReach, IsLongest;
    var c := SomeChains(g, types, fixed, max);
    OutputPrimes(g, types, fixed, max, primes, outputs, c);
    MiddleReaches(g, fixed, max, primes, outputs, middle, c);
  }

  predicate OnlyPrime(list: seq<nat>, prime: nat)
  {
    forall i: nat :: i < |list| ==> list[i] == prime
  }

  /** With one divisor throughout, that is the largest prime, if there is any. */
  lemma LargestIs(fixed: nat, max: nat, primes: PrimeMap, outputs: seq<NodeId>, largest: nat)
    requires IsLargestPrime(outputs, primes, largest) && IsLongest(outputs, primes, Repeat(fixed, max))
    requires forall i: nat :: i < |outputs| ==> OnlyPrime(PrimesAt(primes, outputs[i]), fixed)
    ensures largest == if max > 0 then fixed else 0
  {
    if max > 0 {
      var i: nat :| i < |outputs| && PrimesAt(primes, outputs[i]) == Repeat(fixed, max);
      assert AllAtMost(PrimesAt(primes, outputs[i]), largest);
      assert fixed == PrimesAt(primes, outputs[i])[0];
    }
    if largest != 0 {
      var i: nat :| i < |outputs| && largest in PrimesAt(primes, outputs[i]);
      assert OnlyPrime(PrimesAt(primes, outputs[i]), fixed);
      assert |PrimesAt(primes, outputs[i])| <= max;
    }
  }

  lemma SomeChains(g: Graph, types: TypeMap, fixed: nat, max: nat) returns (c: seq<nat>)
    requires Selectable(g, types, fixed, max)
    ensures Interprets<nat>(g, ChainSem(), c) && |c| == |g.operands| && ChainsReach(g, c, max)
  {
    c := InterpretationExists<nat>(g, ChainSem());
  }

  lemma MiddleReaches(g: Graph, fixed: nat, max: nat, primes: PrimeMap, outputs: seq<NodeId>, middle: seq<nat>,
                      c: seq<nat>)
    requires |c| == |g.operands| && ChainsReach(g, c, max) && OutputsOf(g, outputs)
      && IsLongest(outputs, primes, middle)
    requires forall i: nat :: i < |outputs| ==>
      outputs[i] < |c| && PrimesAt(primes, outputs[i]) == Repeat(fixed, c[outputs[i]])
    ensures middle == Repeat(fixed, max)
  {
    if max > 0 {
      var o: NodeId :| Live(g, o) && o < |g.op| && g.op[o].Output? && c[o] == max;
      var i :| 0 <= i < |outputs| && outputs[i] == o;
      assert |PrimesAt(primes, outputs[i])| == max;
    }
    if middle != [] {
      var i: nat :| i < |outputs| && PrimesAt(primes, outputs[i]) == middle;
      assert Live(g, outputs[i]) && c[outputs[i]] <= max;
    }
  }

  lemma ParametersMade(g: Graph, types: TypeMap, fixed: nat, max: nat, primes: PrimeMap, outputs: seq<NodeId>,
                       ranges: RangeMap, scale: ScaleMap, parms: seq<nat>, head: seq<nat>, middle: seq<nat>, key: nat,
                       bits: nat)
    requires Selectable(g, types, fixed, max) && Selected(g, types, primes) && OutputsOf(g, outputs) && fixed > 0
    requires IsLargestBits(outputs, ranges, scale, bits) && IsLongest(outputs, primes, middle)
    requires parms == head + BackToFront(middle) + [key]
    requires exists largest: nat ::
      IsLargestPrime(outputs, primes, largest) && HeadAndKey(bits, fixed, largest, head, key)
    ensures ParametersRight(outputs, ranges, scale, fixed, max, parms)
  {
    hide Selectable, Selected, OutputsOf, IsLargestBits, IsLargestPrime, IsLongest, HeadAndKey, KeyMayBeSmall,
         AllAtMost, TotalBits, HeadFits;
    MiddleIs(g, types, fixed, max, primes, outputs, middle);
    var largest: nat :| IsLargestPrime(outputs, primes, largest) && HeadAndKey(bits, fixed, largest, head, key);
    HeadHolds(bits, fixed, largest, head, key);
    LargestIs(fixed, max, primes, outputs, largest);
    HeadIs(bits, fixed, largest, max, head, key);
    KeyIsLargest(bits, fixed, fixed, head, middle, key, outputs, primes, largest);
    if bits == 2 * fixed {
      UniformList(fixed, max, head, middle, key, largest);
    }
    assert BackToFront(middle) == Repeat(fixed, max);
    assert ListRight(outputs, ranges, scale, fixed, max, parms, head, key, bits);
  }

  lemma HeadIs(bits: nat, fixed: nat, largest: nat, max: nat, head: seq<nat>, key: nat)
    requires fixed > 0 && HeadAndKey(bits, fixed, largest, head, key) && largest == if max > 0 then fixed else 0
    ensures if bits > fixed then key == fixed && HeadFits(bits, fixed, head)
      else head == [key] && key == if max > 0 then fixed else bits
  {
  }

  method SumBits(parms: seq<nat>) returns (bits: nat)
    ensures bits == TotalBits(parms)
  {
    bits := 0;
    for i := 0 to |parms|
      invariant bits == TotalBits(parms[..i])
    {
      assert parms[..i+1] == parms[..i] + [parms[i]];
      SumAppend(parms[..i], [parms[i]]);
      bits := bits + parms[i];
    }
    assert parms[..|parms|] == parms;
  }

  /** determineEncryptionParameters, iyfc/seal/alo/seal_ckks_handler.cpp:126-195, without the rotation
      keys; table is the one of SEAL's that belongs to the security level asked for. */
  method DetermineParameters(d: Dag, types: TypeMap, scale: ScaleMap, fixed: nat, ghost max: nat,
                             outputs: seq<NodeId>, ranges: RangeMap, vecSize: nat, table: nat -> nat, ghost end: nat)
    returns (ok: bool, parms: seq<nat>, found: Found)
    requires d.Valid() && Selectable(d.G(), types, fixed, max) && OutputsOf(d.G(), outputs) && fixed > 0
      && table(Degree(end)) == 0
    ensures ok <==> exists i: nat :: i < |outputs| && OutputBits(ranges, scale, outputs[i]) > 0
    ensures ok ==>
      ParametersRight(outputs, ranges, scale, fixed, max, parms) && DegreeRight(table, TotalBits(parms), vecSize, found)
  {
    hide Selected, OutputsOf, ParametersRight, IsLongest, IsLargestPrime, HeadAndKey, KindsFit, RescalesBy,
         LongestChain, Typed, SourceArity, UsesInverse, SinksMatch, Erased, DivisorsPositive;
    PositiveDivisors(d.G(), fixed);
    var primes := SelectPrimes(d, types);
    ghost var head, middle, key, bits;
    ok, parms, head, middle, key, bits := GetEncryptionParameters(outputs, ranges, scale, primes, fixed);
    found := NotFound;
    if !ok { return; }
    ParametersMade(d.G(), types, fixed, max, primes, outputs, ranges, scale, parms, head, middle, key, bits);
    var bitCnt := SumBits(parms);
    found := MinDegreeForBitCount(table, bitCnt, end);
    ghost var k: nat;
    if found.Found? {
      k :| IsLeastDegree(table, bitCnt, k) && found.degree == Degree(k);
      EvenDegree(k);
    }
    if found.Found? && found.degree / 2 < vecSize {
      found := Found(2 * vecSize);
    }
    assert found.Found? ==> LeastWithSlots(Degree(k), vecSize, found.degree);
  }

  // ----- compilation -----

  /** What a compiled program can be run on: kinds of data fit at every node, and so do sizes. */
  ghost predicate Runnable(size: nat, g: Graph, types: TypeMap)
  {
    && Acyclic(g) && Typed(g, types) && SourceArity(g) && Arity(g) && KindsFit(g, types) && OutputsFit(g)
         && OutputsUnused(g)
    && ConstantsFit(g, size)
  }

  /** The scales are those of scales that are exact at every node: products add up, rescales take off their
      divisor, and other operations have operands of their own scale. */
  ghost predicate ScalesRight(g: Graph, types: TypeMap, scale: ScaleMap)
  {
    exists exact: ScaleMap :: ScalesExact(g, types, exact) && StoredScalesOf(g, exact, scale)
  }

  lemma TransformedRuns(size: nat, g0: Graph, scale0: ScaleMap, fixed: nat, g: Graph, f: Low.Facts, attr: LevelAttr,
                        max: nat, scale: ScaleMap, types: TypeMap)
    requires WellFormed(g) && Transformed(size, g0, scale0, fixed, g, f, attr, max, scale) && Typed(g, types)
    ensures Runnable(size, g, types) && Selectable(g, types, fixed, max) && Refines(size, g0, g) && SameEnds(g0, g)
    ensures AloneKept(g0, g)
    ensures UniformOutcome(g0, scale0, fixed, g, scale, max) && ScalesRight(g, types, scale)
    ensures forall s: NodeId :: s in g0.sources ==> ScaleAt(scale, s) == ScaleAt(scale0, s)
  {
    RetypedLowered(size, g0, g, f, attr, max, types);
  }

  lemma SameEndsOf(g: Graph, r: Graph, outputs: seq<NodeId>)
    requires SameEnds(g, r) && OutputsOf(g, outputs)
    ensures OutputsOf(r, outputs)
  {
  }

  /** The outcome for a program whose sources and output ranges are all at the scale of the graph,
      which is what setScaleRange sees to: the maximum level is the multiplication depth, and there
      are three primes more than that. */
  ghost predicate UniformCompiled(g0: Graph, scale0: ScaleMap, fixed: nat, outputs: seq<NodeId>, ranges: RangeMap,
                                  max: nat, parms: seq<nat>)
  {
    SourcesAt(g0, scale0, fixed) && (forall i: nat :: i < |outputs| ==> RangeAt(ranges, outputs[i]) == fixed) ==>
      LargestDepth(g0, max) && parms == Repeat(fixed, max + 3)
  }

  lemma UniformlyCompiled(g0: Graph, scale0: ScaleMap, fixed: nat, g: Graph, scale: ScaleMap, outputs: seq<NodeId>,
                          ranges: RangeMap, max: nat, parms: seq<nat>)
    requires UniformOutcome(g0, scale0, fixed, g, scale, max) && OutputsOf(g, outputs) && outputs != []
    requires ParametersRight(outputs, ranges, scale, fixed, max, parms)
    ensures UniformCompiled(g0, scale0, fixed, outputs, ranges, max, parms)
  {
    if SourcesAt(g0, scale0, fixed) && (forall i: nat :: i < |outputs| ==> RangeAt(ranges, outputs[i]) == fixed) {
      var head: seq<nat>, key: nat, bits: nat :| ListRight(outputs, ranges, scale, fixed, max, parms, head, key, bits);
      assert OutputBits(ranges, scale, outputs[0]) == 2 * fixed;
      assert forall i: nat :: i < |outputs| ==> OutputBits(ranges, scale, outputs[i]) == 2 * fixed;
    }
  }

  /** transpile, iyfc/seal/alo/seal_ckks_handler.cpp:236-286, from the point where the scales of the
      sources have been read: no assertion fails and no warning is given. */
  method Compile(d: Dag, scale0: ScaleMap, fixed: nat, vecSize: nat, attr0: LevelAttr, outputs: seq<NodeId>,
                 ranges: RangeMap, table: nat -> nat, ghost end: nat)
    returns (ok: bool, types: TypeMap, scale: ScaleMap, attr: LevelAttr, levels: LevelAttr, max: nat, parms: seq<nat>,
             found: Found)
    requires d.Valid() && Compilable(d.G(), scale0, vecSize) && fixed > 0 && OutputsOf(d.G(), outputs)
      && table(Degree(end)) == 0
    modifies d
    ensures d.Valid() && Runnable(vecSize, d.G(), types) && Refines(vecSize, old(d.G()), d.G())
      && SameEnds(old(d.G()), d.G())
    ensures LevelsRight(d.G(), types, attr, levels, max) && AloneKept(old(d.G()), d.G())
    ensures forall s: NodeId :: s in old(d.sources) ==> ScaleAt(scale, s) == ScaleAt(scale0, s)
    ensures ScalesRight(d.G(), types, scale)
    ensures ok <==> exists i: nat :: i < |outputs| && OutputBits(ranges, scale, outputs[i]) > 0
    ensures ok ==>
      ParametersRight(outputs, ranges, scale, fixed, max, parms) && DegreeRight(table, TotalBits(parms), vecSize, found)
    ensures ok ==> UniformCompiled(old(d.G()), scale0, fixed, outputs, ranges, max, parms)
  {
    ghost var g0 := d.G();
    hide AloneKept;
    hide Compilable, Transformed, WellFormed, UsesInverse, SinksMatch, Erased, Refines, Runnable, Selectable,
         OutputsOf, LevelsRight, SameEnds, ParametersRight, DegreeRight, UniformCompiled, UniformOutcome, Typed,
         ScalesRight;
    var held;
    ghost var f;
    held, scale, attr, max, f := Transform(d, scale0, fixed, vecSize, attr0);
    var levelsMatch, primesAgree, quiet;
    types, levels, levelsMatch, primesAgree, quiet := Validate(d, scale, attr, max, f, g0, scale0, fixed, vecSize);
    TransformedRuns(vecSize, g0, scale0, fixed, d.G(), f, attr, max, scale, types);
    SameEndsOf(g0, d.G(), outputs);
    var enough;
    enough, parms, found := DetermineParameters(d, types, scale, fixed, max, outputs, ranges, vecSize, table, end);
    ok := held && levelsMatch && primesAgree && quiet && enough;
    if ok {
      UniformlyCompiled(g0, scale0, fixed, d.G(), scale, outputs, ranges, max, parms);
    }
  }

  /** The compiled graph gives every output the value it has in the source program. */
  lemma CompiledOutputs(size: nat, g0: Graph, g: Graph, types: TypeMap, env: NodeId -> Slots, v: seq<Slots>,
                        w: seq<Slots>, n: NodeId)
    requires Refines(size, g0, g) && Runnable(size, g, types)
    requires Interprets(g0, SlotSem(size, env), v) && Interprets(g, SlotSem(size, env), w)
    requires Live(g0, n) && g0.op[n].Output?
    ensures Live(g, n) && n < |g.op| && g.op[n].Output? && w[n] == v[n]
  {
    RefinesOutputs(size, g0, g, env, v, w, n);
  }

  /** Whenever the decision keeps a program of this depth on SEAL, at a scale of at most 293 bits, the
      parameters exist: the primes have (depth + 3) * scale bits, no more than 881, and the degree
      search finds the least degree that has as many. */
  lemma SealParametersExist(g0: Graph, scale0: ScaleMap, scale: nat, outputs: seq<NodeId>, ranges: RangeMap, max: nat,
                            parms: seq<nat>, table: nat -> nat, last: nat, vecSize: nat, depth: nat, found: Found)
    requires WellFormed(g0) && Acyclic(g0) && 0 < scale <= 293 && ChooseLibrary(depth, scale).SealCkks?
    requires LargestDepth(g0, depth) && SourcesAt(g0, scale0, scale) && forall i: nat :: i < |outputs| ==>
      RangeAt(ranges, outputs[i]) == scale
    requires UniformCompiled(g0, scale0, scale, outputs, ranges, max, parms)
    requires TableWithCapacity(table, last, MAX_SEAL_BITS) && DegreeRight(table, TotalBits(parms), vecSize, found)
    ensures |parms| == depth + 3 && TotalBits(parms) == (depth + 3) * scale <= MAX_SEAL_BITS
    ensures found.Found?
    ensures exists k: nat ::
      && IsLeastDegree(table, (depth + 3) * scale, k) && found.degree >= Degree(k) && found.degree / 2 >= vecSize
      && (Degree(k) / 2 >= vecSize ==> found.degree == Degree(k))
  {
    LargestDepthUnique(g0, depth, max);
    SumRepeat(scale, max + 3);
    DegreeExists(table, last, MAX_SEAL_BITS, TotalBits(parms), vecSize, found);
  }
}
