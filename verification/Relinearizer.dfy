/** Lazy relinearization, iyfc/seal/alo/lazy_relinearizer.cpp. A product of two ciphertexts has
    three polynomials; it is reduced back to two before it reaches another such product, a
    rotation or an output, but is carried through other operations as long as it has one use. */
module Relinearizers {
  import opened Graphs
  import opened Dags
  import opened Traversals
  import opened ForwardPass
  import opened Semantics
  import opened Types
  import opened ModSwitchers

  predicate AllCipher(g: Graph, types: TypeMap, n: NodeId)
    requires n < |g.operands|
  {
    forall i: nat :: i < |g.operands[n]| ==> TypeAt(types, g.operands[n][i]) == Cipher
  }

  /** A product of ciphertexts. */
  predicate IsEncryptedMul(g: Graph, types: TypeMap, n: NodeId)
    requires n < |g.operands| && n < |g.op|
  {
    g.op[n].Mul? && AllCipher(g, types, n)
  }

  predicate IsRotation(op: Op) { op.RotateLeft? || op.RotateRight? }

  /** Operations that take only ciphertexts of two polynomials. */
  predicate NeedsSmall(g: Graph, types: TypeMap, u: NodeId)
    requires u < |g.operands| && u < |g.op|
  {
    IsEncryptedMul(g, types, u) || IsRotation(g.op[u]) || g.op[u].Output?
  }

  /** MakeNode(Relinearize), entered into the type map. */
  ghost predicate Relinearized(g: Graph, types: TypeMap, n: NodeId, r: Graph, types': TypeMap)
  {
    && r == InsertAfter(g, n, Relinearize)
    && types' == types[|g.operands| := TypeAt(types, n)]
  }

  ghost predicate Deferred(g: Graph, types: TypeMap, n: NodeId, u: NodeId)
  {
    && u < |g.operands| && u < |g.op| && !NeedsSmall(g, types, u)
    && n in g.operands[u]
    && forall w: NodeId :: w < |g.operands| && n in g.operands[w] ==> w == u
  }

  /** Some use, or a second one, keeps the relinearization from being put off. */
  ghost predicate MustBeSmall(g: Graph, types: TypeMap, n: NodeId)
  {
    forall u: NodeId :: !Deferred(g, types, n, u)
  }

  /** The three outcomes of a visit: a relinearization is inserted only where it has to be. */
  ghost predicate VisitEffect(g: Graph, types: TypeMap, pending: set<NodeId>, n: NodeId,
                              r: Graph, types': TypeMap, pending': set<NodeId>)
    requires n < |g.operands| && n < |g.op|
  {
    var concerned := g.operands[n] != [] && (IsEncryptedMul(g, types, n) || n in pending);
    if !concerned then r == g && types' == types && pending' == pending
    else
      || (MustBeSmall(g, types, n) && Relinearized(g, types, n, r, types') && pending' == pending + {n})
      || (r == g && types' == types && exists u: NodeId :: Deferred(g, types, n, u) && pending' == pending + {n, u})
  }

  lemma SingleUse(g: Graph, uses: seq<seq<NodeId>>, types: TypeMap, n: NodeId)
    requires UsesInverse(g.operands, uses) && n < |g.operands| && uses[n] != [] && Deferred(g, types, n, uses[n][0])
    ensures Elems(uses[n]) == {uses[n][0]}
  {
    forall u: NodeId | u in Elems(uses[n])
      ensures u == uses[n][0]
    {
      UsersAreUses(g.operands, uses, n, u);
    }
    assert uses[n][0] in Elems(uses[n]);
  }

  lemma NotDeferred(g: Graph, types: TypeMap, n: NodeId, first: NodeId, use: NodeId)
    requires first < |g.operands| && n in g.operands[first]
    requires use < |g.operands| && use < |g.op| && n in g.operands[use]
    requires NeedsSmall(g, types, use) || first != use
    ensures MustBeSmall(g, types, n)
  {
  }

  /** The type of every node is known. */
  ghost predicate TypesKnown(g: Graph, types: TypeMap)
  {
    forall p: NodeId :: Live(g, p) ==> TypeAt(types, p) != Undef
  }

  class LazyRelinearizer {
    var types: TypeMap
    var scale: ScaleMap
    var pending: set<NodeId>
    var count: nat
    var countTotal: nat

    constructor (types0: TypeMap, scale0: ScaleMap)
      ensures types == types0 && scale == scale0 && pending == {}
    {
      types, scale, pending, count, countTotal := types0, scale0, {}, 0, 0;
    }

    method AreAllOperandsEncrypted(d: Dag, n: NodeId) returns (all: bool)
      requires d.Valid() && n < |d.operands| && TypesKnown(d.G(), types)
      ensures all == AllCipher(d.G(), types, n)
    {
      for i := 0 to |d.operands[n]|
        invariant forall j: nat :: j < i ==> TypeAt(types, d.operands[n][j]) == Cipher
      {
        assert Live(d.G(), d.operands[n][i]) && TypeAt(types, d.operands[n][i]) != Undef;
        if TypeAt(types, d.operands[n][i]) != Cipher { return false; }
      }
      return true;
    }

    /** Whether some use of n forces a relinearization right behind n. */
    method MustInsert(d: Dag, n: NodeId) returns (must: bool)
      requires d.Valid() && n < |d.operands| && d.uses[n] != [] && TypesKnown(d.G(), types)
      ensures must <==> MustBeSmall(d.G(), types, n)
      ensures must || Deferred(d.G(), types, n, d.uses[n][0])
    {
      ghost var g := d.G();
      var firstUse := d.uses[n][0];
      must := false;
      UsersAreUses(g.operands, d.uses, n, firstUse);
      for i := 0 to |d.uses[n]|
        invariant forall j: nat :: j < i ==> d.uses[n][j] == firstUse
        invariant i > 0 ==> firstUse < |g.operands| && !NeedsSmall(g, types, firstUse)
      {
        var use := d.uses[n][i];
        UsersAreUses(g.operands, d.uses, n, use);
        var all := AreAllOperandsEncrypted(d, use);
        if (d.op[use].Mul? && all) || IsRotation(d.op[use]) || d.op[use].Output? || firstUse != use {
          NotDeferred(g, types, n, firstUse, use);
          return true;
        }
      }
      forall w: NodeId | w < |g.operands| && n in g.operands[w]
        ensures w == firstUse
      {
        UsersAreUses(g.operands, d.uses, n, w);
      }
      assert Deferred(g, types, n, firstUse);
    }

    method Relinearize(d: Dag, n: NodeId)
      requires d.Valid() && Live(d.G(), n)
      modifies this`types, this`scale, this`countTotal, d
      ensures d.Valid() && Relinearized(old(d.G()), old(types), n, d.G(), types)
    {
      ghost var g := d.G();
      var x := d.MakeNode(Op.Relinearize, [n]);
      countTotal := countTotal + 1;
      types := types[x := TypeAt(types, n)];
      scale := scale[x := ScaleAt(scale, n)];
      d.ReplaceOtherUsesWith(n, x);
      RedirectSame(AddNode(g, Op.Relinearize, [n]), n, x, m => m != x, m => m != |g.operands|);
    }

    /** ok tells whether the assertions of the visit held. */
    method Visit(d: Dag, n: NodeId) returns (ok: bool)
      requires d.Valid() && n < |d.operands| && TypesKnown(d.G(), types)
      modifies this, d
      ensures d.Valid()
      ensures VisitEffect(old(d.G()), old(types), old(pending), n, d.G(), types, pending) || !ok
      ensures ok <==> (old(d.operands[n]) == [] ||
        ((IsEncryptedMul(old(d.G()), old(types), n) ==> n !in old(pending)) &&
         (IsEncryptedMul(old(d.G()), old(types), n) || n in old(pending) ==> old(d.uses[n]) != [])))
    {
      if |d.operands[n]| == 0 { return true; }
      var delayed := false;
      ok := true;
      var all := AreAllOperandsEncrypted(d, n);
      ghost var g, pending0, types0 := d.G(), pending, types;
      if d.op[n].Mul? && all {
        ok := n !in pending;
        pending := pending + {n};
        delayed := true;
      } else if n !in pending {
        return;
      }
      if d.uses[n] == [] { return false; }
      var must := MustInsert(d, n);
      if must {
        Relinearize(d, n);
        assert pending == pending0 + {n};
      } else {
        if delayed { count := count + 1; }
        var firstUse := d.uses[n][0];
        MarkUses(d.uses[n]);
        SingleUse(g, d.uses, types, n);
        assert pending == pending0 + {n, firstUse};
      }
    }

    method MarkUses(uses: seq<NodeId>)
      modifies this`pending
      ensures pending == old(pending) + Elems(uses)
    {
      assert old(pending) + Elems(uses[..0]) == old(pending);
      for i := 0 to |uses|
        invariant pending == old(pending) + Elems(uses[..i])
      {
        assert uses[..i+1] == uses[..i] + [uses[i]];
        ElemsAppend(uses[..i], uses[i]);
        pending := pending + {uses[i]};
      }
      assert uses[..|uses|] == uses;
    }
  }
}
