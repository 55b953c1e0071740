/** Lowering a subtraction changes no ciphertext size. */
module LoweredSizes {
  import opened Graphs
  import opened Semantics
  import opened Sizes
  import opened Lowering

  lemma NegatedPoly(a: Poly, c: Poly)
    requires IsPoly(c)
    ensures PolyOf(Negate, [c]) == c && PolyOf(Sub, [a, c]) == PolyOf(Add, [a, c])
  {
    UnaryPoly(Negate, c);
  }

  lemma NegatingPoly(r: Graph, n: NodeId, x: NodeId)
    requires NegatingNodes(r, n, x)
    ensures SameUnder<Poly>(r, PolySem(), n, x + 1)
  {
    hide NegatingNodes, Interprets;
    forall v: seq<Poly> | Interprets<Poly>(r, PolySem(), v)
      ensures n < |v| && x + 1 < |v| && v[n] == v[x + 1]
    {
      NegatingPolyAt(r, v, n, x);
    }
  }

  lemma NodePoly(r: Graph, v: seq<Poly>, n: NodeId)
    requires Interprets<Poly>(r, PolySem(), v) && Live(r, n)
    ensures n < |v| && n < |r.op| && n < |r.operands| && IsPoly(v[n])
    ensures forall i: nat :: i < |r.operands[n]| ==> Live(r, r.operands[n][i]) && r.operands[n][i] < |v|
    ensures v[n] == PolyOf(r.op[n], Args<Poly>(r, v, n))
  {
    assert v[n] == PolyOf(r.op[n], Args<Poly>(r, v, n));
  }

  lemma NegatingPolyAt(r: Graph, v: seq<Poly>, n: NodeId, x: NodeId)
    requires NegatingNodes(r, n, x) && Interprets<Poly>(r, PolySem(), v)
    ensures n < |v| && x + 1 < |v| && v[n] == v[x + 1]
  {
    hide Interprets, PolyOf;
    NodePoly(r, v, n);
    NodePoly(r, v, x);
    NodePoly(r, v, x + 1);
    NodePoly(r, v, r.operands[n][1]);
    var a, c := v[r.operands[n][0]], v[r.operands[n][1]];
    assert Args<Poly>(r, v, n) == [a, c] && Args<Poly>(r, v, x) == [c] && Args<Poly>(r, v, x + 1) == [a, v[x]];
    NegatedPoly(a, c);
  }

  lemma NegatingKeepsSizes(g: Graph, n: NodeId)
    requires WellFormed(g) && n < |g.operands| && |g.operands[n]| == 2
    ensures SizesKept(g, Negating(g, n))
  {
    NegatingWellFormed(g, n);
    SubLive(g, n);
    hide Extends, Live, WellFormed;
    AddNodeExtends<Poly>(g, PolySem(), Negate, [g.operands[n][1]]);
    AddNodeExtends<Poly>(AddNode(g, Negate, [g.operands[n][1]]), PolySem(), Add, [g.operands[n][0], |g.operands|]);
    ExtendsTransitive<Poly>(g, AddNode(g, Negate, [g.operands[n][1]]), Negating(g, n), PolySem());
  }

  lemma LoweredKeepsSizes(g: Graph, n: NodeId)
    requires WellFormed(g) && n < |g.operands| && |g.operands[n]| == 2 && g.op[n].Sub?
    ensures SizesKept(g, Lowered(g, n))
  {
    hide SameUnder, WellFormed, Negating, RedirectAll, Lowered, Extends, NegatingNodes, SizesKept;
    NegatingReady(g, n);
    NegatingLive(g, n);
    NegatingKeepsSizes(g, n);
    NegatingPoly(Negating(g, n), n, |g.operands|);
    LoweredIs(g, n);
    RedirectedSizes(g, Negating(g, n), n, |g.operands| + 1, Lowered(g, n));
  }

  lemma NegatingLive(g: Graph, n: NodeId)
    requires n < |g.operands| && |g.operands[n]| == 2 && NegatingNodes(Negating(g, n), n, |g.operands|)
    ensures Live(Negating(g, n), |g.operands| + 1)
  {
  }

  lemma RedirectedSizes(g: Graph, g': Graph, a: NodeId, b: NodeId, r: Graph)
    requires SizesKept(g, g') && Live(g', b) && SameUnder<Poly>(g', PolySem(), a, b) && r == RedirectAll(g', a, b)
    ensures SizesKept(g, r)
  {
    hide SameUnder, Live, RedirectAll, Extends;
    RedirectAllExtends<Poly>(g', PolySem(), a, b);
    SizesTransitive(g, g', r);
  }
}
