/** The scales checker, iyfc/seal/alo/scales_checker.cpp: it recomputes every scale front to back
    from the scales stored at inputs and encodings. */
module ScalesCheckers {
  import opened Graphs
  import opened Dags
  import opened Traversals
  import opened Types
  import opened ModSwitchers
  import opened RescaleSpec
  import opened EncodePass

  /** m_scales: entries exist only once written; differences are kept as integers. */
  type Computed = map<NodeId, int>

  function ValueAt(scales: Computed, n: NodeId): int
  {
    if n in scales then scales[n] else 0
  }

  function SumOf(operands: seq<NodeId>, scales: Computed): int
  {
    if operands == [] then 0 else ValueAt(scales, operands[0]) + SumOf(operands[1..], scales)
  }

  /** The loop over the operands of an addition: the first scale that is not zero. */
  function FirstScale(operands: seq<NodeId>, scales: Computed, acc: int): int
  {
    if operands == [] then acc
    else FirstScale(operands[1..], scales, if acc == 0 then ValueAt(scales, operands[0]) else acc)
  }

  predicate NoneDiffers(operands: seq<NodeId>, scales: Computed, acc: int)
  {
    operands == [] ||
    ((acc == 0 || acc == ValueAt(scales, operands[0]))
     && NoneDiffers(operands[1..], scales, if acc == 0 then ValueAt(scales, operands[0]) else acc))
  }

  function NodeScale(g: Graph, stored: ScaleMap, scales: Computed, n: NodeId): int
    requires n < |g.operands| && n < |g.op|
  {
    if g.op[n].Input? || g.op[n].Encode? then ScaleAt(stored, n)
    else if g.op[n].Mul? then SumOf(g.operands[n], scales)
    else if g.operands[n] == [] then 0
    else if g.op[n].Rescale? then ValueAt(scales, g.operands[n][0]) - g.op[n].divisor
    else if g.op[n].Add? || g.op[n].Sub? then FirstScale(g.operands[n], scales, 0)
    else ValueAt(scales, g.operands[n][0])
  }

  /** The visit of n reads only entries that exist and gives no warning. */
  ghost predicate NodeQuiet(g: Graph, stored: ScaleMap, scales: Computed, n: NodeId)
    requires n < |g.operands| && n < |g.op|
  {
    && NodeScale(g, stored, scales, n) != 0
    && (g.op[n].Input? || g.op[n].Encode? || OperandsKnown(g.operands[n], scales))
    && (g.op[n].Add? || g.op[n].Sub? ==> NoneDiffers(g.operands[n], scales, 0))
  }

  predicate OperandsKnown(operands: seq<NodeId>, scales: Computed)
  {
    operands != [] && forall i: nat :: i < |operands| ==> operands[i] in scales
  }

  /** What a run of the checker has computed. */
  ghost predicate Recomputed(g: Graph, types: TypeMap, stored: ScaleMap, scales: Computed)
  {
    && |g.op| == |g.operands|
    && forall n: NodeId :: Live(g, n) ==> Entry(g, types, stored, scales, n)
  }

  ghost predicate Entry(g: Graph, types: TypeMap, stored: ScaleMap, scales: Computed, n: NodeId)
    requires n < |g.operands| && n < |g.op|
  {
    if TypeAt(types, n) == Raw then n !in scales
    else n in scales && scales[n] == NodeScale(g, stored, scales, n)
  }

  // ----- no warning -----

  /** Encrypted inputs and encodings store their scale. */
  ghost predicate StoredScales(g: Graph, types: TypeMap, scale: ScaleMap, stored: ScaleMap)
  {
    |g.op| == |g.operands| && forall n: NodeId ::
      Live(g, n) && TypeAt(types, n) != Raw && (g.op[n].Input? || g.op[n].Encode?) ==>
      ScaleAt(stored, n) == ScaleAt(scale, n)
  }

  lemma {:induction false} SumSame(operands: seq<NodeId>, scales: Computed, scale: ScaleMap)
    requires forall i: nat :: i < |operands| ==> ValueAt(scales, operands[i]) == ScaleAt(scale, operands[i])
    ensures SumOf(operands, scales) == SumScale(operands, scale)
  {
    if operands != [] {
      SumSame(operands[1..], scales, scale);
    }
  }

  lemma {:induction false} FirstSame(operands: seq<NodeId>, scales: Computed, acc: int, s: int)
    requires s != 0 && (acc == s || (acc == 0 && operands != []))
    requires forall i: nat :: i < |operands| ==> ValueAt(scales, operands[i]) == s
    ensures FirstScale(operands, scales, acc) == s && NoneDiffers(operands, scales, acc)
  {
    if operands != [] {
      FirstSame(operands[1..], scales, s, s);
    }
  }

  /** On exact scales the checker finds the scale of every node and has nothing to warn of. */
  lemma {:induction false} RecomputedScale(g: Graph, rank: seq<nat>, types: TypeMap, scale: ScaleMap, stored: ScaleMap,
                                           scales: Computed, n: NodeId)
    requires WellFormed(g) && Ranked(g, rank) && Typed(g, types) && SourceArity(g)
    requires ScalesExact(g, types, scale) && StoredScales(g, types, scale, stored)
    requires Recomputed(g, types, stored, scales)
    requires Live(g, n) && TypeAt(types, n) != Raw
    ensures n in scales && scales[n] == ScaleAt(scale, n) && NodeQuiet(g, stored, scales, n)
    decreases rank[n]
  {
    assert Entry(g, types, stored, scales, n) && ScaleExact(g, types, scale, n) && ScaleAt(scale, n) > 0;
    if g.operands[n] == [] || g.op[n].Encode? {
      assert TypeAt(types, n) == Inferred(g, types, n);
    } else {
      OperandsNotRaw(g, types, scale, n);
      forall i: nat | i < |g.operands[n]|
        ensures g.operands[n][i] in scales && scales[g.operands[n][i]] == ScaleAt(scale, g.operands[n][i])
      {
        RecomputedScale(g, rank, types, scale, stored, scales, g.operands[n][i]);
      }
      RecomputedNode(g, types, scale, stored, scales, n);
    }
  }

  lemma OperandsNotRaw(g: Graph, types: TypeMap, scale: ScaleMap, n: NodeId)
    requires WellFormed(g) && Typed(g, types) && Live(g, n) && ScaleExact(g, types, scale, n)
    requires g.operands[n] != [] && !g.op[n].Encode? && TypeAt(types, n) != Raw
    ensures forall i: nat :: i < |g.operands[n]| ==> Live(g, g.operands[n][i]) && TypeAt(types, g.operands[n][i]) != Raw
  {
    assert TypeAt(types, n) == Cipher;
  }

  lemma RecomputedNode(g: Graph, types: TypeMap, scale: ScaleMap, stored: ScaleMap, scales: Computed, n: NodeId)
    requires n < |g.operands| && n < |g.op| && g.operands[n] != [] && !g.op[n].Encode? && !g.op[n].Input?
    requires TypeAt(types, n) != Raw && ScaleExact(g, types, scale, n) && ScaleAt(scale, n) > 0
    requires forall i: nat :: i < |g.operands[n]| ==>
      g.operands[n][i] in scales && scales[g.operands[n][i]] == ScaleAt(scale, g.operands[n][i])
    ensures NodeScale(g, stored, scales, n) == ScaleAt(scale, n) && NodeQuiet(g, stored, scales, n)
  {
    SumSame(g.operands[n], scales, scale);
    if g.op[n].Add? || g.op[n].Sub? {
      FirstSame(g.operands[n], scales, 0, ScaleAt(scale, n));
    }
    assert ValueAt(scales, g.operands[n][0]) == ScaleAt(scale, g.operands[n][0]);
  }

  // ----- the run -----

  method CheckNode(d: Dag, types: TypeMap, stored: ScaleMap, scales: Computed, n: NodeId) returns (s: int, quiet: bool)
    requires d.Valid() && Live(d.G(), n) && Arity(d.G())
    ensures s == NodeScale(d.G(), stored, scales, n)
    ensures quiet <==> NodeQuiet(d.G(), stored, scales, n)
  {
    var operands := d.operands[n];
    quiet := OperandsKnown(operands, scales);
    if d.op[n].Input? || d.op[n].Encode? {
      s := ScaleAt(stored, n);
      quiet := true;
    } else if d.op[n].Mul? {
      assert |operands| == 2;
      s := 0;
      assert operands[0..] == operands;
      for i := 0 to |operands|
        invariant s + SumOf(operands[i..], scales) == SumOf(operands, scales)
      {
        s := s + ValueAt(scales, operands[i]);
      }
    } else if operands == [] {
      s := 0;
    } else if d.op[n].Rescale? {
      assert |operands| == 1;
      s := ValueAt(scales, operands[0]) - d.op[n].divisor;
    } else if d.op[n].Add? || d.op[n].Sub? {
      var agree := true;
      s, agree := AddScales(operands, scales);
      quiet := quiet && agree;
    } else {
      s := ValueAt(scales, operands[0]);
    }
    quiet := quiet && s != 0;
  }

  method AddScales(operands: seq<NodeId>, scales: Computed) returns (s: int, agree: bool)
    ensures s == FirstScale(operands, scales, 0) && (agree <==> NoneDiffers(operands, scales, 0))
  {
    s, agree := 0, true;
    assert operands[0..] == operands;
    for i := 0 to |operands|
      invariant FirstScale(operands[i..], scales, s) == FirstScale(operands, scales, 0)
      invariant agree && NoneDiffers(operands[i..], scales, s) <==> NoneDiffers(operands, scales, 0)
    {
      if s == 0 {
        s := ValueAt(scales, operands[i]);
      } else if s != ValueAt(scales, operands[i]) {
        agree := false;
      }
    }
  }

  ghost predicate RecomputedUpTo(g: Graph, types: TypeMap, stored: ScaleMap, scales: Computed, order: seq<NodeId>,
                                 k: nat)
    requires k <= |order|
  {
    && (forall j: nat :: j < k ==>
          order[j] < |g.operands| && order[j] < |g.op| && Entry(g, types, stored, scales, order[j]))
    && (forall n: NodeId :: n in scales ==> n in order[..k])
  }

  ghost predicate QuietUpTo(g: Graph, types: TypeMap, stored: ScaleMap, scales: Computed, order: seq<NodeId>, k: nat)
    requires k <= |order|
  {
    forall j: nat :: j < k ==> QuietAt(g, types, stored, scales, order[j])
  }

  ghost predicate QuietAt(g: Graph, types: TypeMap, stored: ScaleMap, scales: Computed, n: NodeId)
  {
    n < |g.operands| && n < |g.op| && (TypeAt(types, n) != Raw ==> NodeQuiet(g, stored, scales, n))
  }

  lemma NotEarlier(order: seq<NodeId>, k: nat)
    requires NoDuplicates(order) && k < |order|
    ensures order[k] !in order[..k]
  {
  }

  lemma {:induction false} ScaleFrame(operands: seq<NodeId>, scales: Computed, scales': Computed, acc: int)
    requires forall i: nat :: i < |operands| ==>
      ValueAt(scales, operands[i]) == ValueAt(scales', operands[i])
        && (operands[i] in scales <==> operands[i] in scales')
    ensures SumOf(operands, scales) == SumOf(operands, scales')
    ensures FirstScale(operands, scales, acc) == FirstScale(operands, scales', acc)
    ensures NoneDiffers(operands, scales, acc) <==> NoneDiffers(operands, scales', acc)
    ensures OperandsKnown(operands, scales) <==> OperandsKnown(operands, scales')
  {
    if operands != [] {
      ScaleFrame(operands[1..], scales, scales', if acc == 0 then ValueAt(scales, operands[0]) else acc);
    }
  }

  /** Nodes already checked do not look at the one checked next. */
  lemma CheckFrame(g: Graph, stored: ScaleMap, scales: Computed, order: seq<NodeId>, k: nat, s: int, j: nat)
    requires WellFormed(g) && j <= k < |order| && TopologicalOrder(g.operands, LiveNodes(g), order)
    ensures order[j] < |g.operands| && order[j] < |g.op|
    ensures NodeScale(g, stored, scales[order[k] := s], order[j]) == NodeScale(g, stored, scales, order[j])
    ensures NodeQuiet(g, stored, scales[order[k] := s], order[j]) <==> NodeQuiet(g, stored, scales, order[j])
  {
    var scales' := scales[order[k] := s];
    forall i: nat | i < |g.operands[order[j]]|
      ensures g.operands[order[j]][i] != order[k]
    {
      assert g.operands[order[j]][i] in Elems(order[..j]);
      var m :| 0 <= m < j && order[..j][m] == g.operands[order[j]][i];
      assert order[m] != order[k];
    }
    ScaleFrame(g.operands[order[j]], scales, scales', 0);
  }

  lemma RawStep(g: Graph, types: TypeMap, stored: ScaleMap, scales: Computed, order: seq<NodeId>, k: nat)
    requires k < |order| && TopologicalOrder(g.operands, LiveNodes(g), order) && |g.op| == |g.operands|
    requires order[k] < |g.operands| && TypeAt(types, order[k]) == Raw
    requires RecomputedUpTo(g, types, stored, scales, order, k)
    ensures RecomputedUpTo(g, types, stored, scales, order, k + 1)
    ensures QuietUpTo(g, types, stored, scales, order, k) <==> QuietUpTo(g, types, stored, scales, order, k + 1)
  {
    NotEarlier(order, k);
    hide NodeScale, NodeQuiet, TopologicalOrder;
    assert order[..k+1] == order[..k] + [order[k]];
  }

  lemma EntriesStep(g: Graph, types: TypeMap, stored: ScaleMap, scales: Computed, order: seq<NodeId>, k: nat, s: int)
    requires WellFormed(g) && k < |order| && TopologicalOrder(g.operands, LiveNodes(g), order)
    requires order[k] < |g.operands| && order[k] < |g.op| && TypeAt(types, order[k]) != Raw
    requires s == NodeScale(g, stored, scales, order[k])
    requires RecomputedUpTo(g, types, stored, scales, order, k)
    ensures RecomputedUpTo(g, types, stored, scales[order[k] := s], order, k + 1)
  {
    var scales' := scales[order[k] := s];
    assert NoDuplicates(order);
    hide NodeScale, TopologicalOrder, WellFormed;
    assert order[..k+1] == order[..k] + [order[k]];
    forall j: nat | j <= k
      ensures order[j] < |g.operands| && order[j] < |g.op| && Entry(g, types, stored, scales', order[j])
    {
      CheckFrame(g, stored, scales, order, k, s, j);
      assert j < k ==> order[j] != order[k];
    }
  }

  lemma QuietStep(g: Graph, types: TypeMap, stored: ScaleMap, scales: Computed, order: seq<NodeId>, k: nat, s: int,
                  quiet: bool, quietNode: bool)
    requires WellFormed(g) && k < |order| && TopologicalOrder(g.operands, LiveNodes(g), order)
    requires order[k] < |g.operands| && order[k] < |g.op| && TypeAt(types, order[k]) != Raw
    requires quietNode <==> NodeQuiet(g, stored, scales, order[k])
    requires quiet <==> QuietUpTo(g, types, stored, scales, order, k)
    ensures quiet && quietNode <==> QuietUpTo(g, types, stored, scales[order[k] := s], order, k + 1)
  {
    var scales' := scales[order[k] := s];
    assert QuietAt(g, types, stored, scales, order[k]) <==> quietNode;
    forall j: nat | j <= k
      ensures QuietAt(g, types, stored, scales', order[j]) <==> QuietAt(g, types, stored, scales, order[j])
    {
      CheckFrame(g, stored, scales, order, k, s, j);
    }
    hide NodeQuiet, TopologicalOrder, WellFormed, QuietAt;
  }

  ghost predicate NoWarnings(g: Graph, types: TypeMap, stored: ScaleMap, scales: Computed)
  {
    |g.op| == |g.operands| && forall n: NodeId :: Live(g, n) && TypeAt(types, n) != Raw ==>
      NodeQuiet(g, stored, scales, n)
  }

  ghost predicate CheckedUpTo(g: Graph, types: TypeMap, stored: ScaleMap, scales: Computed, quiet: bool,
                              order: seq<NodeId>, k: nat)
    requires k <= |order|
  {
    RecomputedUpTo(g, types, stored, scales, order, k) && (quiet <==> QuietUpTo(g, types, stored, scales, order, k))
  }

  /** The visit of one node, raw nodes excepted. */
  method CheckVisit(d: Dag, types: TypeMap, stored: ScaleMap, scales: Computed, quiet: bool, ghost order: seq<NodeId>,
                    ghost k: nat, n: NodeId)
    returns (scales': Computed, quiet': bool)
    requires d.Valid() && Arity(d.G()) && k < |order| && TopologicalOrder(d.operands, LiveNodes(d.G()), order)
      && n == order[k]
    requires CheckedUpTo(d.G(), types, stored, scales, quiet, order, k)
    ensures CheckedUpTo(d.G(), types, stored, scales', quiet', order, k + 1)
  {
    OrderedNode(d.G(), order, k);
    hide RecomputedUpTo, QuietUpTo, NodeQuiet, NodeScale, UsesInverse, SinksMatch, Erased, TopologicalOrder,
         LiveNodes, Live;
    scales', quiet' := scales, quiet;
    if TypeAt(types, n) == Raw {
      RawStep(d.G(), types, stored, scales, order, k);
    } else {
      var s, quietNode := CheckNode(d, types, stored, scales, n);
      EntriesStep(d.G(), types, stored, scales, order, k, s);
      QuietStep(d.G(), types, stored, scales, order, k, s, quiet, quietNode);
      scales' := scales[n := s];
      quiet' := quiet && quietNode;
    }
  }

  /** The forward pass of the scales checker; quiet tells whether it gave no warning. */
  method CheckScales(d: Dag, types: TypeMap, stored: ScaleMap) returns (scales: Computed, quiet: bool)
    requires d.Valid() && Acyclic(d.G()) && Arity(d.G())
    ensures Recomputed(d.G(), types, stored, scales)
    ensures quiet <==> NoWarnings(d.G(), types, stored, scales)
  {
    hide CheckedUpTo, Recomputed, NoWarnings, TopologicalOrder, LiveNodes, WellFormed, UsesInverse, SinksMatch, Erased,
         Arity;
    scales, quiet := map[], true;
    var order := ForwardOrder(d);
    CheckStart(d.G(), types, stored, order);
    for k := 0 to |order|
      invariant CheckedUpTo(d.G(), types, stored, scales, quiet, order, k)
    {
      scales, quiet := CheckVisit(d, types, stored, scales, quiet, order, k, order[k]);
    }
    CheckEnd(d.G(), types, stored, scales, quiet, order);
  }

  lemma OrderedNode(g: Graph, order: seq<NodeId>, k: nat)
    requires WellFormed(g) && TopologicalOrder(g.operands, LiveNodes(g), order) && k < |order|
    ensures Live(g, order[k]) && order[k] < |g.operands| && |g.op| == |g.operands|
  {
    assert order[k] in Elems(order);
  }

  lemma CheckStart(g: Graph, types: TypeMap, stored: ScaleMap, order: seq<NodeId>)
    ensures CheckedUpTo(g, types, stored, map[], true, order, 0)
  {
  }

  lemma CheckEnd(g: Graph, types: TypeMap, stored: ScaleMap, scales: Computed, quiet: bool, order: seq<NodeId>)
    requires WellFormed(g) && TopologicalOrder(g.operands, LiveNodes(g), order)
    requires CheckedUpTo(g, types, stored, scales, quiet, order, |order|)
    ensures Recomputed(g, types, stored, scales) && (quiet <==> NoWarnings(g, types, stored, scales))
  {
    forall n: NodeId | Live(g, n)
      ensures exists j: nat :: j < |order| && order[j] == n
    {
      assert n in Elems(order);
    }
    forall j: nat | j < |order|
      ensures Live(g, order[j])
    {
      assert order[j] in Elems(order);
    }
  }

  /** The recomputed scales are the given ones. */
  ghost predicate ScalesFound(g: Graph, types: TypeMap, scale: ScaleMap, scales: Computed)
  {
    forall n: NodeId :: Live(g, n) && TypeAt(types, n) != Raw ==> ValueAt(scales, n) == ScaleAt(scale, n)
  }

  /** A run on exact scales gives no warning and finds those scales. */
  lemma ScalesNeverWarn(g: Graph, types: TypeMap, scale: ScaleMap, stored: ScaleMap, scales: Computed)
    requires WellFormed(g) && Acyclic(g) && Typed(g, types) && SourceArity(g)
    requires ScalesExact(g, types, scale) && StoredScales(g, types, scale, stored)
    requires Recomputed(g, types, stored, scales)
    ensures NoWarnings(g, types, stored, scales) && ScalesFound(g, types, scale, scales)
  {
    var rank :| Ranked(g, rank);
    forall n: NodeId | Live(g, n) && TypeAt(types, n) != Raw
      ensures NodeQuiet(g, stored, scales, n) && ValueAt(scales, n) == ScaleAt(scale, n)
    {
      RecomputedScale(g, rank, types, scale, stored, scales, n);
    }
  }
}
