/** The order in which ReductionLogExpander takes operands, iyfc/daghandler/reduction_handler.cpp:78-110:
    by encryption and by scale, both told from the graph alone. */
module OperandScales {
  import opened Graphs
  import opened Semantics
  import opened Types
  import opened Chains
  import opened Reassociation

  /** Of every node whether it is encrypted, and its scale. */
  datatype Keys = Keys(encrypted: seq<bool>, scale: seq<nat>)

  function TotalOf(xs: seq<nat>): nat
  {
    if xs == [] then 0 else TotalOf(xs[..|xs| - 1]) + xs[|xs| - 1]
  }

  /** Scales before any rescaling: those stored at the sources, added up by products, the largest elsewhere. */
  function ScaleOfNode(stored: map<NodeId, nat>, n: NodeId, op: Op, args: seq<nat>): nat
  {
    if IsSourceOp(op) then if n in stored then stored[n] else 0
    else if op.Mul? then TotalOf(args) else MaxOf(args)
  }

  ghost function ScaleSem(stored: map<NodeId, nat>): (NodeId, Op, seq<nat>) -> nat
  {
    (n: NodeId, op: Op, args: seq<nat>) => ScaleOfNode(stored, n, op, args)
  }

  ghost predicate KeysOf(g: Graph, stored: map<NodeId, nat>, keys: Keys)
  {
    Interprets<bool>(g, CipherSem(), keys.encrypted) && Interprets<nat>(g, ScaleSem(stored), keys.scale)
  }

  lemma KeysExist(g: Graph, stored: map<NodeId, nat>) returns (keys: Keys)
    requires WellFormed(g) && Acyclic(g)
    ensures KeysOf(g, stored, keys)
  {
    var encrypted := InterpretationExists<bool>(g, CipherSem());
    var scale := InterpretationExists<nat>(g, ScaleSem(stored));
    keys := Keys(encrypted, scale);
  }

  /** No two ways to tell. */
  lemma KeysUnique(g: Graph, stored: map<NodeId, nat>, a: Keys, b: Keys, n: NodeId)
    requires Acyclic(g) && KeysOf(g, stored, a) && KeysOf(g, stored, b) && Live(g, n)
    ensures n < |a.encrypted| == |b.encrypted| == |a.scale| == |b.scale|
    ensures a.encrypted[n] == b.encrypted[n] && a.scale[n] == b.scale[n]
  {
    var rank :| Ranked(g, rank);
    InterpretationUnique<bool>(g, CipherSem(), a.encrypted, b.encrypted, rank, n);
    InterpretationUnique<nat>(g, ScaleSem(stored), a.scale, b.scale, rank, n);
  }

  /** Plaintexts before ciphertexts, and these by scale. */
  predicate InOrder(keys: Keys, s: seq<NodeId>)
  {
    && (forall i: nat :: i < |s| ==> s[i] < |keys.encrypted| && s[i] < |keys.scale|)
    && forall i: nat, j: nat :: i < j < |s| && keys.encrypted[s[i]] ==>
         keys.encrypted[s[j]] && keys.scale[s[i]] <= keys.scale[s[j]]
  }

  /** Types as the graph has them. */
  ghost predicate TypesTold(g: Graph, keys: Keys, types: TypeMap)
  {
    forall n: NodeId :: Live(g, n) ==> TypeTold(keys, types, n)
  }

  predicate TypeTold(keys: Keys, types: TypeMap, n: NodeId)
  {
    n < |keys.encrypted| && TypeAt(types, n) != Undef && (TypeAt(types, n) == Cipher <==> keys.encrypted[n])
  }

  predicate ScaleHeld(keys: Keys, scale: map<NodeId, nat>, n: NodeId)
  {
    n in scale && n < |keys.scale| && scale[n] == keys.scale[n]
  }

  // ----- regrouping -----

  lemma {:induction false} TotalIsSum(xs: seq<nat>, ys: seq<nat>)
    ensures TotalOf(xs + ys) == TotalOf(xs) + TotalOf(ys)
  {
    if ys == [] {
      assert xs + ys == xs;
    } else {
      assert (xs + ys)[..|xs + ys| - 1] == xs + ys[..|ys| - 1];
      TotalIsSum(xs, ys[..|ys| - 1]);
    }
  }

  lemma TotalTakenOut(ys: seq<nat>, j: nat)
    requires j < |ys|
    ensures TotalOf(ys) == TotalOf(ys[..j] + ys[j + 1..]) + ys[j]
  {
    var before, x, after := ys[..j], [ys[j]], ys[j + 1..];
    assert ys == before + (x + after);
    assert x[..0] == [] && TotalOf(x) == TotalOf([]) + ys[j];
    hide TotalOf;
    TotalIsSum(before, x + after);
    TotalIsSum(x, after);
    TotalIsSum(before, after);
    assert TotalOf([]) == 0 by { TotalOfNone(); }
  }

  lemma TotalOfNone()
    ensures TotalOf([]) == 0
  {
  }

  lemma MembersTakenOut(ys: seq<nat>, j: nat)
    requires j < |ys|
    ensures multiset(ys) == multiset(ys[..j] + ys[j + 1..]) + multiset{ys[j]}
  {
    assert ys == ys[..j] + [ys[j]] + ys[j + 1..];
  }

  lemma SameRest(a: multiset<nat>, b: multiset<nat>, x: nat)
    requires a + multiset{x} == b + multiset{x}
    ensures a == b
  {
    forall k: nat
      ensures a[k] == b[k]
    {
      assert (a + multiset{x})[k] == (b + multiset{x})[k];
    }
  }

  lemma {:induction false} TotalPermuted(xs: seq<nat>, ys: seq<nat>)
    requires multiset(xs) == multiset(ys)
    ensures TotalOf(xs) == TotalOf(ys)
  {
    if xs == [] {
      assert |multiset(ys)| == 0;
    } else {
      assert xs[0] in multiset(xs);
      assert xs[0] in ys;
      var j: nat :| j < |ys| && ys[j] == xs[0];
      var a, b := xs[..0] + xs[0 + 1..], ys[..j] + ys[j + 1..];
      TotalTakenOut(xs, 0);
      TotalTakenOut(ys, j);
      MembersTakenOut(xs, 0);
      MembersTakenOut(ys, j);
      hide TotalOf;
      SameRest(multiset(a), multiset(b), xs[0]);
      TotalPermuted(a, b);
    }
  }

  lemma MaxPermuted(xs: seq<nat>, ys: seq<nat>)
    requires multiset(xs) == multiset(ys)
    ensures MaxOf(xs) == MaxOf(ys)
  {
    forall i: nat | i < |xs|
      ensures xs[i] in ys
    {
      assert xs[i] in multiset(xs);
    }
    forall i: nat | i < |ys|
      ensures ys[i] in xs
    {
      assert ys[i] in multiset(ys);
    }
  }

  lemma MaxFlat(xs: seq<nat>, ys: seq<nat>)
    ensures MaxOf([MaxOf(xs)] + ys) == MaxOf(xs + ys)
  {
    var a, b := MaxOf([MaxOf(xs)] + ys), MaxOf(xs + ys);
    assert ([MaxOf(xs)] + ys)[0] == MaxOf(xs) <= a;
    forall i: nat | i < |ys|
      ensures ys[i] <= a && ys[i] <= b
    {
      assert ([MaxOf(xs)] + ys)[i + 1] == ys[i] && (xs + ys)[|xs| + i] == ys[i];
    }
    forall i: nat | i < |xs|
      ensures xs[i] <= b
    {
      assert (xs + ys)[i] == xs[i];
    }
  }

  /** Scales, like values, depend on how additions and multiplications are grouped no more than those do. */
  lemma ScalesRegroup(stored: map<NodeId, nat>, op: Op)
    requires IsReductionOp(op)
    ensures Regroups<nat>(ScaleSem(stored), op)
  {
    forall n: NodeId, m: NodeId, xs: seq<nat>, ys: seq<nat> | multiset(xs) == multiset(ys)
      ensures ScaleOfNode(stored, n, op, xs) == ScaleOfNode(stored, m, op, ys)
    {
      TotalPermuted(xs, ys);
      MaxPermuted(xs, ys);
    }
    forall n: NodeId, m: NodeId, xs: seq<nat>, ys: seq<nat>
      ensures ScaleOfNode(stored, n, op, [ScaleOfNode(stored, m, op, xs)] + ys) == ScaleOfNode(stored, n, op, xs + ys)
    {
      TotalIsSum([TotalOf(xs)], ys);
      TotalIsSum(xs, ys);
      assert [TotalOf(xs)][..0] == [];
      assert TotalOf([TotalOf(xs)]) == TotalOf([]) + TotalOf(xs);
      MaxFlat(xs, ys);
    }
  }

  /** What is known stays known, and the scale of n is known now. */
  ghost predicate ScalesGrow(keys: Keys, scale: map<NodeId, nat>, scale': map<NodeId, nat>, n: NodeId)
  {
    && ScaleHeld(keys, scale', n)
    && forall m: NodeId :: m != n && ScaleHeld(keys, scale, m) ==> ScaleHeld(keys, scale', m)
  }

  /** The scale of n by its operands. */
  ghost predicate ScaleFits(g: Graph, stored: map<NodeId, nat>, keys: Keys, n: NodeId)
    requires n < |g.operands| && n < |g.op|
  {
    && n < |keys.scale| && (forall i: nat :: i < |g.operands[n]| ==> g.operands[n][i] < |keys.scale|)
    && keys.scale[n] == ScaleSem(stored)(n, g.op[n], Args<nat>(g, keys.scale, n))
  }
}
