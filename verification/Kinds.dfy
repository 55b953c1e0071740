/** What kind of data meets at a node of a compiled graph: vectors, plaintexts and ciphertexts.
    The executor checks these kinds node by node; here they hold for whole graphs. */
module Kinds {
  import opened Graphs
  import opened Semantics
  import opened Types
  import opened EncodePass
  import opened Threads
  import opened Stages
  import opened ThreadedScales

  /** An operand of kind a suits a node of opcode op and type t. */
  predicate KindFits(op: Op, t: DataType, a: DataType)
  {
    if op.Encode? then a == Raw
    else if IsTransparent(op) then a == Cipher
    else if t == Raw then a == Raw
    else a == Cipher || (a == Plain && IsBinaryOp(op))
  }

  ghost predicate KindsFit(g: Graph, types: TypeMap)
  {
    && |g.op| == |g.operands|
    && forall n: NodeId, i: nat :: n < |g.operands| && i < |g.operands[n]| ==>
         KindFits(g.op[n], TypeAt(types, n), TypeAt(types, g.operands[n][i]))
  }

  lemma OnlyOperand(g: Graph, types: TypeMap, n: NodeId)
    requires Typed(g, types) && Live(g, n) && TypeAt(types, n) == Cipher && |g.operands[n]| == 1
    ensures TypeAt(types, g.operands[n][0]) == Cipher
  {
    assert TypeAt(types, n) == Inferred(g, types, n);
  }

  lemma KindsFitAfterEncoding(g: Graph, types: TypeMap)
    requires WellFormed(g) && Typed(g, types) && SourceArity(g) && Arity(g) && EncodesMeetCiphers(g, types)
    requires forall n: NodeId :: Live(g, n) && IsTransparent(g.op[n]) ==> TypeAt(types, n) == Cipher
    requires forall n: NodeId, i: nat :: Live(g, n) && g.op[n].Encode? && i < |g.operands[n]| ==>
      TypeAt(types, g.operands[n][i]) == Raw
    requires forall n: NodeId, i: nat :: Live(g, n) && TypeAt(types, n) == Cipher && i < |g.operands[n]| ==>
      TypeAt(types, g.operands[n][i]) != Raw
    ensures KindsFit(g, types)
  {
    forall n: NodeId, i: nat | n < |g.operands| && i < |g.operands[n]|
      ensures KindFits(g.op[n], TypeAt(types, n), TypeAt(types, g.operands[n][i]))
    {
      assert Live(g, n) && Live(g, g.operands[n][i]);
      TypeDetermined(g, types, g.operands[n][i]);
      TypeDetermined(g, types, n);
      assert TypeAt(types, n) == Inferred(g, types, n);
      if TypeAt(types, n) == Cipher && |g.operands[n]| == 1 {
        OnlyOperand(g, types, n);
      }
    }
  }

  /** Threads stand on ciphertexts, so whatever is threaded in the kinds still fit. */
  lemma KindsThroughThreads(size: nat, g: Graph, types: TypeMap, r: Graph, types': TypeMap)
    requires WellFormed(g) && SourceArity(g) && Typed(g, types) && KindsFit(g, types)
    requires WellFormed(r) && SourceArity(r) && Typed(r, types') && Acyclic(r) && Refines(size, g, r)
      && ThreadedInto(g, r)
    requires forall x: NodeId :: |g.operands| <= x < |r.operands| ==> TypeAt(types', x) == Cipher
    ensures KindsFit(r, types')
  {
    hide Typed, SourceArity, WellFormed, Refines, Grows, Threaded, Ranked, KindsFit;
    ThreadsGrow(g, r);
    var origin :| Threaded(g, r, origin);
    var rank :| Ranked(r, rank);
    ThreadsCount(g, r, origin);
    forall n: NodeId, i: nat | n < |r.operands| && i < |r.operands[n]|
      ensures KindFits(r.op[n], TypeAt(types', n), TypeAt(types', r.operands[n][i]))
    {
      EdgeFits(size, g, types, r, types', origin, rank, n, i);
    }
    AllFit(r, types');
  }

  lemma AllFit(g: Graph, types: TypeMap)
    requires |g.op| == |g.operands|
    requires forall n: NodeId, i: nat :: n < |g.operands| && i < |g.operands[n]| ==>
      KindFits(g.op[n], TypeAt(types, n), TypeAt(types, g.operands[n][i]))
    ensures KindsFit(g, types)
  {
  }

  lemma EdgeFits(size: nat, g: Graph, types: TypeMap, r: Graph, types': TypeMap, origin: seq<NodeId>, rank: seq<nat>,
                 n: NodeId, i: nat)
    requires WellFormed(g) && SourceArity(g) && Typed(g, types) && KindsFit(g, types) && Grows(g, r)
    requires WellFormed(r) && SourceArity(r) && Typed(r, types') && Ranked(r, rank) && Refines(size, g, r)
      && Threaded(g, r, origin)
    requires forall x: NodeId :: |g.operands| <= x < |r.operands| ==> TypeAt(types', x) == Cipher
    requires n < |r.operands| && i < |r.operands[n]|
    ensures n < |r.op| && KindFits(r.op[n], TypeAt(types', n), TypeAt(types', r.operands[n][i]))
  {
    hide Typed, SourceArity, WellFormed, Refines, Grows, Threaded, Ranked, KindsFit, KindFits;
    if n < |g.operands| {
      OldEdgeFits(size, g, types, r, types', origin, rank, n, i);
    } else {
      ThreadFits(g, r, types', origin, n);
    }
  }

  lemma ThreadsCount(g: Graph, r: Graph, origin: seq<NodeId>)
    requires Threaded(g, r, origin)
    ensures |r.op| == |r.operands|
  {
  }

  lemma ThreadFits(g: Graph, r: Graph, types: TypeMap, origin: seq<NodeId>, x: NodeId)
    requires Threaded(g, r, origin) && WellFormed(r) && Typed(r, types) && |g.operands| <= x < |r.operands|
      && TypeAt(types, x) == Cipher
    ensures x < |r.op| && |r.operands[x]| == 1 && KindFits(r.op[x], TypeAt(types, x), TypeAt(types, r.operands[x][0]))
  {
    ThreadNode(g, r, origin, x);
    OnlyOperand(r, types, x);
  }

  lemma OldEdgeFits(size: nat, g: Graph, types: TypeMap, r: Graph, types': TypeMap, origin: seq<NodeId>,
                    rank: seq<nat>, n: NodeId, i: nat)
    requires WellFormed(g) && SourceArity(g) && Typed(g, types) && KindsFit(g, types) && Grows(g, r)
    requires WellFormed(r) && SourceArity(r) && Typed(r, types') && Ranked(r, rank) && Refines(size, g, r)
      && Threaded(g, r, origin)
    requires forall x: NodeId :: |g.operands| <= x < |r.operands| ==> TypeAt(types', x) == Cipher
    requires n < |g.operands| && n < |r.operands| && i < |r.operands[n]|
    ensures n < |r.op| && KindFits(r.op[n], TypeAt(types', n), TypeAt(types', r.operands[n][i]))
  {
    EdgeOrigin(g, r, origin, n, i);
    var q := r.operands[n][i];
    assert KindFits(g.op[n], TypeAt(types, n), TypeAt(types, g.operands[n][i]));
    hide Threaded, KindsFit, WellFormed;
    TypesKept(size, g, types, r, types', n);
    if q < |g.operands| {
      TypesKept(size, g, types, r, types', q);
    } else {
      ThreadOrigin(size, g, types, r, types', origin, rank, q);
    }
  }

  lemma EdgeOrigin(g: Graph, r: Graph, origin: seq<NodeId>, n: NodeId, i: nat)
    requires Threaded(g, r, origin) && WellFormed(r) && n < |g.operands| && n < |r.operands| && i < |r.operands[n]|
    ensures n < |r.op| && n < |g.op| && r.op[n] == g.op[n] && i < |g.operands[n]| && Live(r, n)
      && Live(r, r.operands[n][i])
    ensures r.operands[n][i] < |origin| && origin[r.operands[n][i]] == g.operands[n][i]
    ensures r.operands[n][i] < |g.operands| ==> r.operands[n][i] == g.operands[n][i]
  {
    assert Live(r, r.operands[n][i]);
  }

  /** What a thread that holds a ciphertext passes on is a ciphertext. */
  lemma {:induction false} ThreadOrigin(size: nat, g: Graph, types: TypeMap, r: Graph, types': TypeMap,
                                        origin: seq<NodeId>, rank: seq<nat>, q: NodeId)
    requires WellFormed(g) && SourceArity(g) && Typed(g, types) && Grows(g, r)
    requires WellFormed(r) && SourceArity(r) && Typed(r, types') && Ranked(r, rank) && Refines(size, g, r)
      && Threaded(g, r, origin)
    requires Live(r, q) && TypeAt(types', q) == Cipher
    ensures q < |origin| && TypeAt(types, origin[q]) == Cipher
    decreases rank[q]
  {
    if q < |g.operands| {
      TypesKept(size, g, types, r, types', q);
    } else {
      ThreadNode(g, r, origin, q);
      OnlyOperand(r, types', q);
      hide Threaded, Typed, Refines, Grows;
      ThreadOrigin(size, g, types, r, types', origin, rank, r.operands[q][0]);
    }
  }
}
