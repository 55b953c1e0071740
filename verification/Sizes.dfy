/** Ciphertext sizes: how many polynomials the result of a node has, and whether every operation
    on the way to it was given ciphertexts it can take. */
module Sizes {
  import opened Graphs
  import opened Dags
  import opened Traversals
  import opened Semantics
  import opened Types
  import opened Relinearizers
  import opened RelinPass
  import opened Chains

  /** fits: no operation up to here got a ciphertext larger than it takes, or made one of more
      than three polynomials. */
  datatype Poly = Poly(cipher: bool, size: nat, fits: bool)

  function PolyFlags(args: seq<Poly>): (flags: seq<bool>)
    ensures |flags| == |args|
  {
    seq(|args|, i requires 0 <= i < |args| => args[i].cipher)
  }

  function PolySizes(args: seq<Poly>): (sizes: seq<nat>)
    ensures |sizes| == |args|
  {
    seq(|args|, i requires 0 <= i < |args| => args[i].size)
  }

  predicate AllEncrypted(args: seq<Poly>)
  {
    forall i: nat :: i < |args| ==> args[i].cipher
  }

  /** Products of ciphertexts, rotations and outputs take two polynomials. */
  predicate TakesTwo(op: Op, args: seq<Poly>)
  {
    (op.Mul? && AllEncrypted(args)) || IsRotation(op) || op.Output?
  }

  predicate ArgsSmall(args: seq<Poly>)
  {
    forall i: nat :: i < |args| && args[i].cipher ==> args[i].size == 2
  }

  predicate ArgsFit(args: seq<Poly>)
  {
    forall i: nat :: i < |args| ==> args[i].fits
  }

  /** A product of ciphertexts of k and l polynomials has k + l - 1. */
  function SizeOf(op: Op, args: seq<Poly>): nat
  {
    if args == [] || op.Relinearize? then 2
    else if op.Mul? && |args| == 2 && AllEncrypted(args)
      && args[0].size + args[1].size > 0 then args[0].size + args[1].size - 1
    else MaxOf(PolySizes(args))
  }

  function PolyOf(op: Op, args: seq<Poly>): Poly
  {
    var cipher := Encrypted(op, PolyFlags(args));
    var size := if cipher then SizeOf(op, args) else 0;
    Poly(cipher, size, size <= 3 && ArgsFit(args) && (TakesTwo(op, args) ==> ArgsSmall(args)))
  }

  ghost function PolySem(): (NodeId, Op, seq<Poly>) -> Poly
  {
    (n: NodeId, op: Op, args: seq<Poly>) => PolyOf(op, args)
  }

  /** Old nodes keep their size, and whether what leads to them fits. */
  ghost predicate SizesKept(g: Graph, r: Graph)
  {
    Extends<Poly>(g, r, PolySem())
  }

  lemma SizesReflexive(g: Graph)
    ensures SizesKept(g, g)
  {
    ExtendsReflexive<Poly>(g, PolySem());
  }

  lemma SizesTransitive(g: Graph, g': Graph, g'': Graph)
    requires SizesKept(g, g') && SizesKept(g', g'')
    ensures SizesKept(g, g'')
  {
    ExtendsTransitive<Poly>(g, g', g'', PolySem());
  }

  /** What a node can be. */
  predicate IsPoly(p: Poly)
  {
    (!p.cipher ==> p.size == 0) && (p.fits ==> p.size <= 3)
  }

  lemma UnaryPoly(op: Op, p: Poly)
    requires IsPoly(p) && (op.ModSwitch? || op.Negate?)
    ensures PolyOf(op, [p]) == p
  {
    assert PolyFlags([p]) == [p.cipher] && PolySizes([p]) == [p.size];
    assert true in [p.cipher] <==> p.cipher;
    MaxIs([p.size], p.size);
    assert ArgsFit([p]) <==> p.fits;
  }

  lemma SwitchPassesSize()
    ensures PassesThrough<Poly>(PolySem(), ModSwitch)
  {
    forall n: NodeId, m: NodeId, op', args: seq<Poly>
      ensures PolySem()(n, ModSwitch, [PolySem()(m, op', args)]) == PolySem()(m, op', args)
    {
      UnaryPoly(ModSwitch, PolyOf(op', args));
    }
  }

  /** Nothing that leads to an output is too large for what it goes into. */
  ghost predicate OutputsFit(g: Graph)
  {
    forall v: seq<Poly> :: Interprets<Poly>(g, PolySem(), v) ==> OutputsFitUnder(g, v)
  }

  ghost predicate OutputsFitUnder(g: Graph, v: seq<Poly>)
  {
    |v| == |g.operands| && forall o: NodeId :: Live(g, o) && o < |g.op| && g.op[o].Output? ==> v[o].fits
  }

  lemma OutputsFitKept(g: Graph, r: Graph)
    requires WellFormed(g) && Acyclic(g) && WellFormed(r) && Acyclic(r)
    requires OutputsFit(g) && SizesKept(g, r) && SameEnds(g, r)
    ensures OutputsFit(r)
  {
    hide OutputsFitUnder, SameEnds, Interprets;
    var v: seq<Poly> := InterpretationExists<Poly>(g, PolySem());
    var v' :| Interprets<Poly>(r, PolySem(), v') && v <= v';
    AllInterpreted(g, v);
    AllInterpreted(r, v');
    assert OutputsFitUnder(g, v);
    var rank :| Ranked(r, rank);
    forall w: seq<Poly> | Interprets<Poly>(r, PolySem(), w)
      ensures OutputsFitUnder(r, w)
    {
      forall o: NodeId | Live(r, o)
        ensures o < |w| && o < |v'| && w[o] == v'[o]
      {
        InterpretationUnique<Poly>(r, PolySem(), w, v', rank, o);
        AllInterpreted(r, w);
      }
      AllInterpreted(r, w);
      SameFits(g, r, v, v', w);
    }
  }

  lemma SameFits(g: Graph, r: Graph, v: seq<Poly>, v': seq<Poly>, w: seq<Poly>)
    requires SameEnds(g, r) && |v| == |g.operands| && |w| == |r.operands| && v <= v' && OutputsFitUnder(g, v)
    requires forall o: NodeId :: Live(r, o) ==> o < |w| && o < |v'| && w[o] == v'[o]
    ensures OutputsFitUnder(r, w)
  {
    forall o: NodeId | Live(r, o) && o < |r.op| && r.op[o].Output?
      ensures w[o].fits
    {
      assert Live(g, o) && g.op[o].Output? && v'[o] == v[o];
    }
  }

  /** What an operand of n holds fits when what n holds does. */
  lemma FitsOperand(g: Graph, v: seq<Poly>, n: NodeId, i: nat)
    requires Interprets<Poly>(g, PolySem(), v) && Live(g, n) && i < |g.operands[n]| && v[n].fits
    ensures g.operands[n][i] < |v| && v[g.operands[n][i]].fits && v[n].size <= 3
    ensures TakesTwo(g.op[n], Args<Poly>(g, v, n)) && v[g.operands[n][i]].cipher ==> v[g.operands[n][i]].size == 2
  {
    assert v[n] == PolyOf(g.op[n], Args<Poly>(g, v, n));
    assert Live(g, g.operands[n][i]) && Args<Poly>(g, v, n)[i] == v[g.operands[n][i]];
  }

  // ----- after relinearization -----

  /** Pending ciphertexts have three polynomials, all others two. */
  function RelaxedPoly(types: TypeMap, pending: set<NodeId>, n: NodeId): Poly
  {
    Poly(TypeAt(types, n) == Cipher, if TypeAt(types, n) != Cipher then 0 else if n in pending then 3 else 2, true)
  }

  ghost function RelaxedPolys(g: Graph, types: TypeMap, pending: set<NodeId>): (v: seq<Poly>)
    ensures |v| == |g.operands| && forall n: NodeId :: n < |v| ==> v[n] == RelaxedPoly(types, pending, n)
  {
    seq(|g.operands|, n requires 0 <= n < |g.operands| => RelaxedPoly(types, pending, n))
  }

  lemma RelaxedOperand(g: Graph, types: TypeMap, pending: set<NodeId>, n: NodeId, i: nat)
    requires WellFormed(g) && Relaxed(g, types, pending) && n < |g.operands| && i < |g.operands[n]|
      && g.operands[n][i] in pending
    ensures g.op[n].Relinearize? || (n in pending && !NeedsSmall(g, types, n))
  {
    assert Live(g, g.operands[n][i]);
    assert Carried(pending, LiveNodes(g), g.operands[n][i]);
  }

  lemma RelaxedArgs(g: Graph, types: TypeMap, pending: set<NodeId>, n: NodeId)
    requires WellFormed(g) && SourceArity(g) && Typed(g, types) && Live(g, n)
    ensures var args := Args<Poly>(g, RelaxedPolys(g, types, pending), n);
      && ArgsFit(args) && (TakesTwo(g.op[n], args) <==> NeedsSmall(g, types, n))
           && (AllEncrypted(args) <==> AllCipher(g, types, n))
      && Encrypted(g.op[n], PolyFlags(args)) == (TypeAt(types, n) == Cipher)
      && forall i: nat :: i < |g.operands[n]| ==> args[i] == RelaxedPoly(types, pending, g.operands[n][i])
  {
    var args := Args<Poly>(g, RelaxedPolys(g, types, pending), n);
    forall i: nat | i < |g.operands[n]|
      ensures g.operands[n][i] < |g.operands| && args[i] == RelaxedPoly(types, pending, g.operands[n][i])
    {
      assert Live(g, g.operands[n][i]);
    }
    assert TypeAt(types, n) == Inferred(g, types, n);
    assert HasCipherOperand(g, types, n) <==> true in PolyFlags(args) by {
      if HasCipherOperand(g, types, n) {
        var i: nat :| i < |g.operands[n]| && TypeAt(types, g.operands[n][i]) == Cipher;
        assert PolyFlags(args)[i];
      }
    }
  }

  lemma RelaxedSmall(g: Graph, types: TypeMap, pending: set<NodeId>, n: NodeId)
    requires WellFormed(g) && SourceArity(g) && Typed(g, types) && Relaxed(g, types, pending) && Live(g, n)
    requires NeedsSmall(g, types, n)
    ensures ArgsSmall(Args<Poly>(g, RelaxedPolys(g, types, pending), n))
  {
    RelaxedArgs(g, types, pending, n);
    var args := Args<Poly>(g, RelaxedPolys(g, types, pending), n);
    forall i: nat | i < |args| && args[i].cipher
      ensures args[i].size == 2
    {
      if g.operands[n][i] in pending {
        RelaxedOperand(g, types, pending, n, i);
      }
    }
  }

  lemma RelaxedSize(g: Graph, types: TypeMap, pending: set<NodeId>, n: NodeId)
    requires WellFormed(g) && SourceArity(g) && Arity(g) && Typed(g, types) && Relaxed(g, types, pending)
    requires Live(g, n) && TypeAt(types, n) == Cipher
    ensures SizeOf(g.op[n], Args<Poly>(g, RelaxedPolys(g, types, pending), n)) == if n in pending then 3 else 2
  {
    RelaxedArgs(g, types, pending, n);
    var args := Args<Poly>(g, RelaxedPolys(g, types, pending), n);
    if g.operands[n] == [] || g.op[n].Relinearize? {
      assert n !in pending;
    } else if IsEncryptedMul(g, types, n) {
      RelaxedSmall(g, types, pending, n);
    } else if n in pending {
      PendingMax(g, types, pending, n);
    } else {
      CarriedMax(g, types, pending, n);
    }
  }

  lemma PendingMax(g: Graph, types: TypeMap, pending: set<NodeId>, n: NodeId)
    requires WellFormed(g) && SourceArity(g) && Typed(g, types) && Relaxed(g, types, pending) && Live(g, n)
    requires n in pending && !IsEncryptedMul(g, types, n)
    ensures MaxOf(PolySizes(Args<Poly>(g, RelaxedPolys(g, types, pending), n))) == 3
  {
    RelaxedArgs(g, types, pending, n);
    var sizes := PolySizes(Args<Poly>(g, RelaxedPolys(g, types, pending), n));
    var i: nat :| i < |g.operands[n]| && Carried(pending, LiveNodes(g), g.operands[n][i]);
    assert sizes[i] == 3;
    MaxIs(sizes, 3);
  }

  lemma CarriedMax(g: Graph, types: TypeMap, pending: set<NodeId>, n: NodeId)
    requires WellFormed(g) && SourceArity(g) && Typed(g, types) && Relaxed(g, types, pending) && Live(g, n)
    requires n !in pending && g.operands[n] != [] && !g.op[n].Relinearize? && TypeAt(types, n) == Cipher
    ensures MaxOf(PolySizes(Args<Poly>(g, RelaxedPolys(g, types, pending), n))) == 2
  {
    RelaxedArgs(g, types, pending, n);
    var sizes := PolySizes(Args<Poly>(g, RelaxedPolys(g, types, pending), n));
    forall i: nat | i < |sizes|
      ensures sizes[i] <= 2
    {
      if g.operands[n][i] in pending {
        RelaxedOperand(g, types, pending, n, i);
      }
    }
    assert TypeAt(types, n) == Inferred(g, types, n);
    var i: nat :| i < |g.operands[n]| && TypeAt(types, g.operands[n][i]) == Cipher;
    assert sizes[i] == 2;
    MaxIs(sizes, 2);
  }

  lemma RelaxedNode(g: Graph, types: TypeMap, pending: set<NodeId>, n: NodeId)
    requires WellFormed(g) && SourceArity(g) && Arity(g) && Typed(g, types) && Relaxed(g, types, pending) && Live(g, n)
    ensures RelaxedPoly(types, pending, n) == PolyOf(g.op[n], Args<Poly>(g, RelaxedPolys(g, types, pending), n))
  {
    RelaxedArgs(g, types, pending, n);
    hide Relaxed, SizeOf, TakesTwo, Args, WellFormed, SourceArity, Typed;
    if NeedsSmall(g, types, n) {
      RelaxedSmall(g, types, pending, n);
    }
    if TypeAt(types, n) == Cipher {
      RelaxedSize(g, types, pending, n);
    }
  }

  /** After the pass no ciphertext has more than three polynomials, and what enters a product of
      ciphertexts, a rotation or an output has two. */
  lemma SizesAfterRelinearization(g: Graph, types: TypeMap, pending: set<NodeId>, v: seq<Poly>, n: NodeId)
    requires WellFormed(g) && Acyclic(g) && Arity(g) && SourceArity(g) && Typed(g, types)
    requires Relaxed(g, types, pending) && Interprets<Poly>(g, PolySem(), v) && Live(g, n)
    ensures n < |v| && v[n] == RelaxedPoly(types, pending, n)
  {
    var w := RelaxedPolys(g, types, pending);
    forall m: NodeId | Live(g, m)
      ensures w[m] == PolySem()(m, g.op[m], Args<Poly>(g, w, m))
    {
      RelaxedNode(g, types, pending, m);
    }
    assert Interprets<Poly>(g, PolySem(), w);
    var rank :| Ranked(g, rank);
    hide Interprets, Relaxed;
    InterpretationUnique<Poly>(g, PolySem(), v, w, rank, n);
    AllInterpreted(g, v);
  }

  lemma RelaxedOutputsFit(g: Graph, types: TypeMap, pending: set<NodeId>)
    requires WellFormed(g) && Acyclic(g) && Arity(g) && SourceArity(g) && Typed(g, types) && Relaxed(g, types, pending)
    ensures OutputsFit(g)
  {
    forall v: seq<Poly> | Interprets<Poly>(g, PolySem(), v)
      ensures OutputsFitUnder(g, v)
    {
      forall o: NodeId | Live(g, o) && o < |g.op| && g.op[o].Output?
        ensures v[o].fits
      {
        SizesAfterRelinearization(g, types, pending, v, o);
      }
    }
  }

  lemma AllInterpreted(g: Graph, v: seq<Poly>)
    requires Interprets<Poly>(g, PolySem(), v)
    ensures |v| == |g.operands|
  {
  }
}
