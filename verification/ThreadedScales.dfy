/** Relinearizations and mod-switches pass the scale of their operand on, so exact scales stay
    exact, whatever the passes that thread them in do to their own scale map. */
module ThreadedScales {
  import opened Graphs
  import opened Semantics
  import opened Types
  import opened Threads
  import opened ModSwitchers
  import opened RescaleSpec
  import opened EncodePass

  function OriginScale(scale: ScaleMap, origin: seq<NodeId>): (r: ScaleMap)
    ensures forall n: NodeId :: n < |origin| ==> ScaleAt(r, n) == ScaleAt(scale, origin[n])
  {
    map n: NodeId | 0 <= n < |origin| :: ScaleAt(scale, origin[n])
  }

  /** A node that passes on a live, encrypted result holds one itself. */
  lemma {:induction false} OriginLive(g: Graph, r: Graph, rank: seq<nat>, origin: seq<NodeId>, q: NodeId)
    requires WellFormed(r) && Ranked(r, rank) && Threaded(g, r, origin) && Live(r, q)
    ensures Live(g, origin[q])
    decreases rank[q]
  {
    if q >= |g.operands| {
      assert Live(r, r.operands[q][0]);
      OriginLive(g, r, rank, origin, r.operands[q][0]);
    } else {
      assert |g.operands[q]| == |r.operands[q]|;
    }
  }

  lemma ThreadNode(g: Graph, r: Graph, origin: seq<NodeId>, x: NodeId)
    requires WellFormed(r) && Threaded(g, r, origin) && |g.operands| <= x < |r.operands|
    ensures Live(r, x) && IsThreadOp(r.op[x]) && |r.operands[x]| == 1
    ensures Live(r, r.operands[x][0]) && r.operands[x][0] < |origin| && origin[r.operands[x][0]] == origin[x]
  {
    assert Live(r, r.operands[x][0]);
  }

  lemma ThreadType(r: Graph, types: TypeMap, x: NodeId)
    requires Typed(r, types) && Live(r, x) && IsThreadOp(r.op[x]) && |r.operands[x]| == 1
    ensures TypeAt(types, x) == if TypeAt(types, r.operands[x][0]) == Cipher then Cipher else Raw
  {
    assert TypeAt(types, x) == Inferred(r, types, x);
  }

  lemma {:induction false} OriginCipher(g: Graph, types: TypeMap, r: Graph, types': TypeMap, rank: seq<nat>,
                                        origin: seq<NodeId>, q: NodeId)
    requires WellFormed(r) && Ranked(r, rank) && Threaded(g, r, origin) && Typed(r, types') && Live(r, q)
    requires forall n: NodeId :: Live(g, n) && Live(r, n) ==> TypeAt(types', n) == TypeAt(types, n)
    requires TypeAt(types, origin[q]) == Cipher
    ensures TypeAt(types', q) == Cipher
    decreases rank[q]
  {
    if q >= |g.operands| {
      ThreadNode(g, r, origin, q);
      hide Threaded, WellFormed, Typed;
      OriginCipher(g, types, r, types', rank, origin, r.operands[q][0]);
      ThreadType(r, types', q);
    } else {
      OriginLive(g, r, rank, origin, q);
    }
  }

  lemma OperandMeets(g: Graph, types: TypeMap, r: Graph, types': TypeMap, rank: seq<nat>, origin: seq<NodeId>,
                     n: NodeId)
    requires WellFormed(g) && WellFormed(r) && Ranked(r, rank) && Threaded(g, r, origin) && Typed(r, types')
      && Typed(g, types)
    requires SourceArity(g)
    requires forall n: NodeId :: Live(g, n) && Live(r, n) ==> TypeAt(types', n) == TypeAt(types, n)
    requires n < |g.operands| && MeetsNoRaw(g, types, n) && TypeAt(types', n) == TypeAt(types, n)
    ensures MeetsNoRaw(r, types', n)
  {
    if TypeAt(types, n) == Cipher {
      forall i: nat | i < |r.operands[n]|
        ensures TypeAt(types', r.operands[n][i]) != Raw
      {
        assert Live(r, r.operands[n][i]) && Live(g, g.operands[n][i]);
        assert origin[r.operands[n][i]] == g.operands[n][i];
        PassedOn(g, types, r, types', rank, origin, r.operands[n][i]);
      }
    }
  }

  lemma PassedOn(g: Graph, types: TypeMap, r: Graph, types': TypeMap, rank: seq<nat>, origin: seq<NodeId>, q: NodeId)
    requires WellFormed(g) && WellFormed(r) && Ranked(r, rank) && Threaded(g, r, origin) && Typed(r, types')
      && Typed(g, types)
    requires SourceArity(g)
    requires forall n: NodeId :: Live(g, n) && Live(r, n) ==> TypeAt(types', n) == TypeAt(types, n)
    requires Live(r, q) && Live(g, origin[q]) && TypeAt(types, origin[q]) != Raw
    ensures TypeAt(types', q) != Raw
  {
    if q >= |g.operands| {
      TypeDetermined(g, types, origin[q]);
      OriginCipher(g, types, r, types', rank, origin, q);
    }
  }

  lemma {:induction false} SumOrigins(a: seq<NodeId>, b: seq<NodeId>, scale: ScaleMap, scale': ScaleMap)
    requires |a| == |b| && forall i: nat :: i < |a| ==> ScaleAt(scale, a[i]) == ScaleAt(scale', b[i])
    ensures SumScale(a, scale) == SumScale(b, scale')
  {
    if a != [] {
      SumOrigins(a[1..], b[1..], scale, scale');
    }
  }

  lemma OldExact(g: Graph, types: TypeMap, scale: ScaleMap, r: Graph, types': TypeMap, scale': ScaleMap,
                 origin: seq<NodeId>, n: NodeId)
    requires Threaded(g, r, origin) && scale' == OriginScale(scale, origin)
    requires n < |g.operands| && ScaleExact(g, types, scale, n)
    requires TypeAt(types', n) == TypeAt(types, n) && MeetsNoRaw(r, types', n)
    ensures n < |r.op| && n < |r.operands| && ScaleExact(r, types', scale', n)
  {
    assert g.op[n] == r.op[n] && origin[n] == n;
    forall i: nat | i < |g.operands[n]|
      ensures ScaleAt(scale, g.operands[n][i]) == ScaleAt(scale', r.operands[n][i])
    {
      assert origin[r.operands[n][i]] == g.operands[n][i];
    }
    hide Threaded, OriginScale;
    SumOrigins(g.operands[n], r.operands[n], scale, scale');
  }

  lemma NewExact(g: Graph, scale: ScaleMap, r: Graph, types': TypeMap, scale': ScaleMap, origin: seq<NodeId>, x: NodeId)
    requires Threaded(g, r, origin) && scale' == OriginScale(scale, origin) && WellFormed(r) && Typed(r, types')
    requires |g.operands| <= x < |r.operands|
    ensures ScaleExact(r, types', scale', x)
  {
    ThreadNode(g, r, origin, x);
    var q := r.operands[x][0];
    assert |origin| == |r.operands|;
    assert ScaleAt(scale', x) == ScaleAt(scale, origin[x]) && ScaleAt(scale', q) == ScaleAt(scale, origin[q]);
    ThreadType(r, types', x);
    ThreadExact(r, types', scale', x);
  }

  lemma ThreadExact(r: Graph, types: TypeMap, scale: ScaleMap, x: NodeId)
    requires x < |r.operands| && x < |r.op| && IsThreadOp(r.op[x]) && |r.operands[x]| == 1
    requires ScaleAt(scale, x) == ScaleAt(scale, r.operands[x][0])
    requires TypeAt(types, x) == if TypeAt(types, r.operands[x][0]) == Cipher then Cipher else Raw
    ensures ScaleExact(r, types, scale, x)
  {
  }

  /** All scales of r are exact for some scale map that agrees with scale on the nodes of g. */
  lemma ThreadsKeepScales(g: Graph, types: TypeMap, scale: ScaleMap, r: Graph,
                          types': TypeMap) returns (scale': ScaleMap)
    requires WellFormed(g) && Typed(g, types) && SourceArity(g) && ScalesExact(g, types, scale)
    requires WellFormed(r) && Acyclic(r) && Typed(r, types') && ThreadedInto(g, r)
    requires forall n: NodeId :: Live(g, n) && Live(r, n) ==> TypeAt(types', n) == TypeAt(types, n)
    ensures ScalesExact(r, types', scale')
    ensures forall n: NodeId :: n < |g.operands| ==> ScaleAt(scale', n) == ScaleAt(scale, n)
  {
    var rank :| Ranked(r, rank);
    var origin :| Threaded(g, r, origin);
    scale' := OriginScale(scale, origin);
    forall p: NodeId | Live(r, p)
      ensures ScaleAt(scale', p) > 0 && ScaleExact(r, types', scale', p)
    {
      OriginLive(g, r, rank, origin, p);
      if p < |g.operands| {
        OldScaleKept(g, types, scale, r, types', scale', rank, origin, p);
      } else {
        NewExact(g, scale, r, types', scale', origin, p);
      }
    }
  }

  lemma OldScaleKept(g: Graph, types: TypeMap, scale: ScaleMap, r: Graph, types': TypeMap, scale': ScaleMap,
                     rank: seq<nat>, origin: seq<NodeId>, p: NodeId)
    requires WellFormed(g) && Typed(g, types) && SourceArity(g) && ScalesExact(g, types, scale)
    requires WellFormed(r) && Ranked(r, rank) && Typed(r, types') && Threaded(g, r, origin)
    requires forall n: NodeId :: Live(g, n) && Live(r, n) ==> TypeAt(types', n) == TypeAt(types, n)
    requires scale' == OriginScale(scale, origin) && p < |g.operands| && Live(g, p) && Live(r, p)
    ensures p < |r.op| && ScaleExact(r, types', scale', p)
  {
    assert ScaleExact(g, types, scale, p);
    if TypeAt(types, p) != Raw && g.operands[p] != [] && !g.op[p].Encode? {
      assert MeetsNoRaw(g, types, p);
      OperandMeets(g, types, r, types', rank, origin, p);
      hide WellFormed, Typed, SourceArity, Ranked, ScaleExact, MeetsNoRaw;
      OldExact(g, types, scale, r, types', scale', origin, p);
    } else {
      assert g.op[p] == r.op[p];
    }
  }
}
