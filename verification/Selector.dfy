/** Selection of the modulus primes, iyfc/seal/alo/encryption_parameter_selector.cpp: the primes
    consumed on the way to every node, and the list made of them. */
module Selectors {
  import opened Graphs
  import opened Dags
  import opened Traversals
  import opened Types
  import opened ModSwitchers
  import opened Chains
  import opened ChainLevels
  import opened Kinds

  type PrimeMap = map<NodeId, seq<nat>>

  function PrimesAt(primes: PrimeMap, n: NodeId): seq<nat>
  {
    if n in primes then primes[n] else []
  }

  /** The first of the longest lists among those of the operands. */
  function LongestOf(operands: seq<NodeId>, primes: PrimeMap, best: seq<nat>): (longest: seq<nat>)
    ensures |longest| >= |best|
    ensures longest == best || exists i: nat :: i < |operands| && longest == PrimesAt(primes, operands[i])
    ensures forall i: nat :: i < |operands| ==> |PrimesAt(primes, operands[i])| <= |longest|
    decreases |operands|
  {
    if operands == [] then best
    else
      var first := PrimesAt(primes, operands[0]);
      var longest := LongestOf(operands[1..], primes, if |first| > |best| then first else best);
      assert forall i: nat :: 0 < i < |operands| ==> operands[i] == operands[1..][i - 1];
      longest
  }

  /** What is selected at a node from the lists of its operands. */
  function SelectedAt(g: Graph, types: TypeMap, primes: PrimeMap, n: NodeId): seq<nat>
    requires n < |g.operands| && n < |g.op|
  {
    if TypeAt(types, n) == Raw || g.op[n].Encode? || g.operands[n] == [] then []
    else LongestOf(g.operands[n], primes, []) + if g.op[n].Rescale? then [g.op[n].divisor] else []
  }

  ghost predicate Selected(g: Graph, types: TypeMap, primes: PrimeMap)
  {
    && |g.op| == |g.operands|
    && forall n: NodeId :: Live(g, n) ==> PrimesAt(primes, n) == SelectedAt(g, types, primes, n)
  }

  ghost predicate SelectedUpTo(g: Graph, types: TypeMap, primes: PrimeMap, order: seq<NodeId>, k: nat)
    requires k <= |order|
  {
    && (forall j: nat :: j < k ==>
          order[j] < |g.operands| && order[j] < |g.op|
            && PrimesAt(primes, order[j]) == SelectedAt(g, types, primes, order[j]))
    && (forall n: NodeId :: n in primes ==> n in order[..k])
  }

  lemma {:induction false} LongestFrame(operands: seq<NodeId>, primes: PrimeMap, primes': PrimeMap, best: seq<nat>)
    requires forall i: nat :: i < |operands| ==> PrimesAt(primes, operands[i]) == PrimesAt(primes', operands[i])
    ensures LongestOf(operands, primes, best) == LongestOf(operands, primes', best)
    decreases |operands|
  {
    if operands != [] {
      var first := PrimesAt(primes, operands[0]);
      LongestFrame(operands[1..], primes, primes', if |first| > |best| then first else best);
    }
  }

  lemma SelectFrame(g: Graph, types: TypeMap, primes: PrimeMap, order: seq<NodeId>, k: nat, list: seq<nat>, j: nat)
    requires WellFormed(g) && j <= k < |order| && TopologicalOrder(g.operands, LiveNodes(g), order)
    ensures order[j] < |g.operands| && order[j] < |g.op|
    ensures SelectedAt(g, types, primes[order[k] := list], order[j]) == SelectedAt(g, types, primes, order[j])
  {
    var primes' := primes[order[k] := list];
    forall i: nat | i < |g.operands[order[j]]|
      ensures g.operands[order[j]][i] != order[k]
    {
      assert g.operands[order[j]][i] in Elems(order[..j]);
      var m :| 0 <= m < j && order[..j][m] == g.operands[order[j]][i];
      assert order[m] != order[k];
    }
    LongestFrame(g.operands[order[j]], primes, primes', []);
  }

  lemma SelectStep(g: Graph, types: TypeMap, primes: PrimeMap, order: seq<NodeId>, k: nat, list: seq<nat>)
    requires WellFormed(g) && k < |order| && TopologicalOrder(g.operands, LiveNodes(g), order)
    requires order[k] < |g.operands| && order[k] < |g.op| && list == SelectedAt(g, types, primes, order[k])
    requires SelectedUpTo(g, types, primes, order, k)
    ensures SelectedUpTo(g, types, primes[order[k] := list], order, k + 1)
  {
    var primes' := primes[order[k] := list];
    assert order[..k+1] == order[..k] + [order[k]];
    assert NoDuplicates(order);
    hide TopologicalOrder, WellFormed, SelectedAt;
    forall j: nat | j <= k
      ensures order[j] < |g.operands| && order[j] < |g.op|
        && PrimesAt(primes', order[j]) == SelectedAt(g, types, primes', order[j])
    {
      SelectFrame(g, types, primes, order, k, list, j);
      assert j < k ==> order[j] != order[k];
    }
  }

  lemma SelectEnd(g: Graph, types: TypeMap, primes: PrimeMap, order: seq<NodeId>)
    requires WellFormed(g) && TopologicalOrder(g.operands, LiveNodes(g), order)
      && SelectedUpTo(g, types, primes, order, |order|)
    ensures Selected(g, types, primes)
  {
    forall n: NodeId | Live(g, n)
      ensures PrimesAt(primes, n) == SelectedAt(g, types, primes, n)
    {
      assert n in Elems(order);
      var j :| 0 <= j < |order| && order[j] == n;
    }
  }

  class EncryptionParametersSelector {
    var nodes: PrimeMap
    const types: TypeMap

    constructor (types0: TypeMap)
      ensures nodes == map[] && types == types0
    {
      nodes, types := map[], types0;
    }

    /** operator() */
    method Visit(d: Dag, node: NodeId)
      requires d.Valid() && Live(d.G(), node) && PrimesAt(nodes, node) == [] && DivisorsPositive(d.G())
      modifies this`nodes
      ensures PrimesAt(nodes, node) == SelectedAt(d.G(), types, old(nodes), node)
      ensures nodes == old(nodes) || nodes == old(nodes)[node := PrimesAt(nodes, node)]
    {
      if TypeAt(types, node) == Raw || d.op[node].Encode? { return; }
      var operands := d.operands[node];
      if |operands| > 0 {
        var parms := [];
        for i := 0 to |operands|
          invariant LongestOf(operands, nodes, []) == LongestOf(operands[i..], nodes, parms)
        {
          if |PrimesAt(nodes, operands[i])| > |parms| {
            parms := PrimesAt(nodes, operands[i]);
          }
        }
        if d.op[node].Rescale? {
          assert d.op[node].divisor != 0;
          parms := parms + [d.op[node].divisor];
        }
        nodes := nodes[node := parms];
      }
    }
  }

  lemma NotSelectedYet(g: Graph, types: TypeMap, primes: PrimeMap, order: seq<NodeId>, k: nat)
    requires TopologicalOrder(g.operands, LiveNodes(g), order) && k < |order|
      && SelectedUpTo(g, types, primes, order, k)
    ensures order[k] !in primes && Live(g, order[k])
  {
    assert order[k] in Elems(order);
    assert NoDuplicates(order);
  }

  lemma SameIfWritten(primes: PrimeMap, primes': PrimeMap, g: Graph, types: TypeMap, order: seq<NodeId>, k: nat)
    requires WellFormed(g) && k < |order| && TopologicalOrder(g.operands, LiveNodes(g), order)
    requires order[k] < |g.operands| && order[k] < |g.op| && order[k] !in primes
      && SelectedUpTo(g, types, primes, order, k)
    requires PrimesAt(primes', order[k]) == SelectedAt(g, types, primes, order[k])
    requires primes' == primes || primes' == primes[order[k] := PrimesAt(primes', order[k])]
    ensures SelectedUpTo(g, types, primes', order, k + 1)
  {
    hide SelectedAt, TopologicalOrder, WellFormed;
    if primes' == primes {
      assert order[..k+1] == order[..k] + [order[k]];
    } else {
      SelectStep(g, types, primes, order, k, PrimesAt(primes', order[k]));
    }
  }

  /** The forward pass, iyfc/seal/alo/seal_ckks_handler.cpp:129-131. */
  method SelectPrimes(d: Dag, types: TypeMap) returns (primes: PrimeMap)
    requires d.Valid() && Acyclic(d.G()) && DivisorsPositive(d.G())
    ensures Selected(d.G(), types, primes)
  {
    hide SelectedUpTo, Selected, TopologicalOrder, LiveNodes, SelectedAt, UsesInverse, SinksMatch, Erased, Acyclic,
         DivisorsPositive;
    var order := ForwardOrder(d);
    var s := new EncryptionParametersSelector(types);
    SelectStart(d.G(), types, order);
    for k := 0 to |order|
      invariant s.types == types && SelectedUpTo(d.G(), types, s.nodes, order, k)
    {
      ghost var before := s.nodes;
      NotSelectedYet(d.G(), types, s.nodes, order, k);
      s.Visit(d, order[k]);
      SameIfWritten(before, s.nodes, d.G(), types, order, k);
    }
    primes := s.nodes;
    SelectEnd(d.G(), types, primes, order);
  }

  lemma SelectStart(g: Graph, types: TypeMap, order: seq<NodeId>)
    ensures SelectedUpTo(g, types, map[], order, 0)
  {
  }

  // ----- what is selected -----

  function Repeat(x: nat, k: nat): (r: seq<nat>)
    ensures |r| == k && forall i: nat :: i < k ==> r[i] == x
  {
    seq(k, i => x)
  }

  lemma RepeatNext(x: nat, k: nat)
    ensures Repeat(x, k) + [x] == Repeat(x, k + 1)
  {
  }

  /** The primes selected at a node are as many copies of the divisor as rescales lie on its
      longest chain. */
  lemma {:induction false} PrimesAreChain(g: Graph, rank: seq<nat>, types: TypeMap, fixed: nat, primes: PrimeMap,
                                          c: seq<nat>, n: NodeId)
    requires WellFormed(g) && Ranked(g, rank) && Typed(g, types) && SourceArity(g) && KindsFit(g, types)
      && RescalesBy(g, fixed)
    requires Selected(g, types, primes) && Interprets<nat>(g, ChainSem(), c) && Live(g, n)
    ensures n < |c| && PrimesAt(primes, n) == Repeat(fixed, c[n])
    ensures TypeAt(types, n) != Cipher ==> c[n] == 0
    decreases rank[n]
  {
    hide WellFormed, Typed, SourceArity, KindsFit, RescalesBy, Selected, Interprets, SelectedAt;
    OperandsLive(g, c, n);
    forall i: nat | i < |g.operands[n]|
      ensures PrimesAt(primes, g.operands[n][i]) == Repeat(fixed, c[g.operands[n][i]])
      ensures TypeAt(types, g.operands[n][i]) != Cipher ==> c[g.operands[n][i]] == 0
    {
      PrimesAreChain(g, rank, types, fixed, primes, c, g.operands[n][i]);
    }
    NodePrimes(g, types, fixed, primes, c, n);
  }

  lemma OperandsLive(g: Graph, c: seq<nat>, n: NodeId)
    requires Interprets<nat>(g, ChainSem(), c) && Live(g, n)
    ensures n < |c| == |g.operands| == |g.op|
    ensures forall i: nat :: i < |g.operands[n]| ==> Live(g, g.operands[n][i]) && g.operands[n][i] < |c|
  {
  }

  lemma NodePrimes(g: Graph, types: TypeMap, fixed: nat, primes: PrimeMap, c: seq<nat>, n: NodeId)
    requires WellFormed(g) && Typed(g, types) && SourceArity(g) && KindsFit(g, types) && RescalesBy(g, fixed)
    requires Selected(g, types, primes) && Interprets<nat>(g, ChainSem(), c) && Live(g, n)
    requires forall i: nat :: i < |g.operands[n]| ==> g.operands[n][i] < |c|
    requires forall i: nat :: i < |g.operands[n]| ==>
      PrimesAt(primes, g.operands[n][i]) == Repeat(fixed, c[g.operands[n][i]])
    requires forall i: nat :: i < |g.operands[n]| && TypeAt(types, g.operands[n][i]) != Cipher ==>
      c[g.operands[n][i]] == 0
    ensures n < |c| && PrimesAt(primes, n) == Repeat(fixed, c[n])
    ensures TypeAt(types, n) != Cipher ==> c[n] == 0
  {
    NodeFacts(g, types, fixed, primes, c, n);
    var args := Args<nat>(g, c, n);
    if TypeAt(types, n) != Cipher {
      NoRescales(g, types, n);
      hide WellFormed, Typed, SourceArity, KindsFit, RescalesBy, Selected, Interprets, Live;
      NoPrimes(g.op[n], args);
    } else {
      hide *;
      CipherPrimes(g, types, fixed, primes, n, args);
    }
  }

  lemma CipherPrimes(g: Graph, types: TypeMap, fixed: nat, primes: PrimeMap, n: NodeId, args: seq<nat>)
    requires n < |g.op| && n < |g.operands| && TypeAt(types, n) == Cipher && !g.op[n].Encode?
    requires g.op[n].Rescale? ==> g.op[n].divisor == fixed && g.operands[n] != []
    requires |args| == |g.operands[n]| && forall i: nat :: i < |args| ==>
      PrimesAt(primes, g.operands[n][i]) == Repeat(fixed, args[i])
    ensures SelectedAt(g, types, primes, n) == Repeat(fixed, ChainOf(g.op[n], args))
  {
    if g.operands[n] != [] {
      LongestIsMax(g.operands[n], fixed, primes, args);
      hide LongestOf, MaxOf, PrimesAt;
      RepeatNext(fixed, MaxOf(args));
    }
  }

  lemma NodeFacts(g: Graph, types: TypeMap, fixed: nat, primes: PrimeMap, c: seq<nat>, n: NodeId)
    requires SourceArity(g) && Typed(g, types) && RescalesBy(g, fixed)
    requires Selected(g, types, primes) && Interprets<nat>(g, ChainSem(), c) && Live(g, n)
    ensures n < |c| && n < |g.op| && (forall i: nat :: i < |g.operands[n]| ==> g.operands[n][i] < |c|)
    ensures c[n] == ChainOf(g.op[n], Args<nat>(g, c, n)) && PrimesAt(primes, n) == SelectedAt(g, types, primes, n)
    ensures g.op[n].Rescale? ==> g.op[n].divisor == fixed
    ensures g.op[n].Encode? ==> TypeAt(types, n) == Plain
    ensures TypeAt(types, n) == Cipher ==> !g.op[n].Encode? && (g.operands[n] == [] ==> !g.op[n].Rescale?)
  {
    TypeDetermined(g, types, n);
  }

  /** Where no operand has primes and nothing is rescaled, there is no chain. */
  lemma NoPrimes(op: Op, args: seq<nat>)
    requires !op.Rescale? && forall i: nat :: i < |args| ==> args[i] == 0
    ensures ChainOf(op, args) == 0
  {
    MaxIs(args, 0);
  }

  /** Nothing encrypted goes into what is not encrypted, and no rescale stands there. */
  lemma NoRescales(g: Graph, types: TypeMap, n: NodeId)
    requires WellFormed(g) && Typed(g, types) && SourceArity(g) && KindsFit(g, types) && Live(g, n)
      && TypeAt(types, n) != Cipher
    ensures TypeAt(types, n) == Raw || g.op[n].Encode?
    ensures !g.op[n].Rescale?
    ensures forall i: nat :: i < |g.operands[n]| ==> TypeAt(types, g.operands[n][i]) != Cipher
  {
    assert TypeAt(types, n) == Inferred(g, types, n);
    if g.operands[n] != [] {
      assert KindFits(g.op[n], TypeAt(types, n), TypeAt(types, g.operands[n][0]));
    }
    forall i: nat | i < |g.operands[n]|
      ensures TypeAt(types, g.operands[n][i]) != Cipher
    {
      assert KindFits(g.op[n], TypeAt(types, n), TypeAt(types, g.operands[n][i]));
    }
  }

  lemma LongestIsMax(operands: seq<NodeId>, fixed: nat, primes: PrimeMap, args: seq<nat>)
    requires |args| == |operands| && forall i: nat :: i < |operands| ==>
      PrimesAt(primes, operands[i]) == Repeat(fixed, args[i])
    ensures LongestOf(operands, primes, []) == Repeat(fixed, MaxOf(args))
  {
    var longest := LongestOf(operands, primes, []);
    forall i: nat | i < |args|
      ensures args[i] <= |longest|
    {
      assert |PrimesAt(primes, operands[i])| == args[i];
    }
    if longest != [] {
      var i: nat :| i < |operands| && longest == PrimesAt(primes, operands[i]);
      assert args[i] == |longest|;
    }
    MaxIs(args, |longest|);
  }
}
