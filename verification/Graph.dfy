/** The expression graph as a value: opcodes and operand lists of the nodes, which are
    identified with their index, and the set of source nodes a forward pass starts from. */
module Graphs {

  type NodeId = nat

  datatype DataType = Undef | Cipher | Raw | Plain

  /** Opcodes of the CKKS path, with the attributes that are fixed when a node is made. */
  datatype Op =
    | Input(encrypted: bool)
    | Output
    | Constant(values: seq<real>)
    | Negate
    | Add
    | Sub
    | Mul
    | RotateLeft(shift: int)
    | RotateRight(shift: int)
    | Relinearize
    | ModSwitch
    | Rescale(divisor: nat)
    | Encode

  predicate IsSourceOp(op: Op) { op.Input? || op.Constant? }

  predicate IsBinaryOp(op: Op) { op.Add? || op.Sub? || op.Mul? }

  datatype Graph = Graph(op: seq<Op>, operands: seq<seq<NodeId>>, sources: set<NodeId>)

  /** A node takes part in the graph when it has operands or is registered as a source. */
  predicate Live(g: Graph, n: NodeId)
  {
    n < |g.operands| && (g.operands[n] != [] || n in g.sources)
  }

  ghost predicate WellFormed(g: Graph)
  {
    && |g.op| == |g.operands|
    && (forall n: NodeId, i: nat :: n < |g.operands| && i < |g.operands[n]| ==> Live(g, g.operands[n][i]))
    && (forall s: NodeId :: s in g.sources ==> s < |g.operands| && g.operands[s] == [])
  }

  /** Acyclicity, witnessed by a rank that grows from operands to uses. */
  ghost predicate Ranked(g: Graph, rank: seq<nat>)
  {
    && |rank| == |g.operands|
    && forall n: NodeId, i: nat :: n < |g.operands| && i < |g.operands[n]| ==>
         g.operands[n][i] < |rank| && rank[g.operands[n][i]] < rank[n]
  }

  ghost predicate Acyclic(g: Graph)
  {
    exists rank :: Ranked(g, rank)
  }

  /** The nodes without operands are the inputs and constants. */
  ghost predicate SourceArity(g: Graph)
  {
    && |g.op| == |g.operands|
    && forall n: NodeId :: Live(g, n) ==> (IsSourceOp(g.op[n]) <==> g.operands[n] == [])
  }

  /** Source opcodes have no operands, additions and multiplications two, the rest one. */
  ghost predicate Arity(g: Graph)
  {
    && |g.op| == |g.operands|
    && forall n: NodeId :: Live(g, n) ==>
         |g.operands[n]| == if IsSourceOp(g.op[n]) then 0 else if IsBinaryOp(g.op[n]) then 2 else 1
  }

  // ----- edits -----

  function Subst(s: seq<NodeId>, a: NodeId, b: NodeId): (r: seq<NodeId>)
    ensures |r| == |s|
    ensures forall i :: 0 <= i < |s| ==> r[i] == if s[i] == a then b else s[i]
  {
    seq(|s|, i requires 0 <= i < |s| => if s[i] == a then b else s[i])
  }

  function AddNode(g: Graph, op: Op, operands: seq<NodeId>): Graph
  {
    Graph(g.op + [op], g.operands + [operands],
          if operands == [] then g.sources + {|g.operands|} else g.sources)
  }

  function ReplaceIn(g: Graph, n: NodeId, a: NodeId, b: NodeId): Graph
    requires n < |g.operands|
  {
    g.(operands := g.operands[n := Subst(g.operands[n], a, b)])
  }

  /** Every node accepted by `accept` that uses a is made to use b instead. */
  function RedirectIf(g: Graph, a: NodeId, b: NodeId, accept: NodeId -> bool): (r: Graph)
    ensures r.op == g.op && r.sources == g.sources && |r.operands| == |g.operands|
    ensures forall n: NodeId :: n < |g.operands| ==>
      r.operands[n] == if accept(n) then Subst(g.operands[n], a, b) else g.operands[n]
  {
    g.(operands := seq(|g.operands|, n requires 0 <= n < |g.operands| =>
                                       if accept(n) then Subst(g.operands[n], a, b) else g.operands[n]))
  }

  function RedirectAll(g: Graph, a: NodeId, b: NodeId): (r: Graph)
    ensures r.op == g.op && r.sources == g.sources && |r.operands| == |g.operands|
    ensures forall n: NodeId :: n < |g.operands| ==> r.operands[n] == Subst(g.operands[n], a, b)
  {
    RedirectIf(g, a, b, _ => true)
  }

  /** A node of op applied to a, put between a and all of its former uses. */
  function InsertAfter(g: Graph, a: NodeId, op: Op): Graph
  {
    var x := |g.operands|;
    RedirectIf(AddNode(g, op, [a]), a, x, n => n != x)
  }

  lemma RedirectSame(g: Graph, a: NodeId, b: NodeId, accept: NodeId -> bool, accept': NodeId -> bool)
    requires forall n: NodeId :: n < |g.operands| ==> accept(n) == accept'(n)
    ensures RedirectIf(g, a, b, accept) == RedirectIf(g, a, b, accept')
  {
    assert RedirectIf(g, a, b, accept).operands == RedirectIf(g, a, b, accept').operands;
  }

  lemma InsertAfterShape(g: Graph, a: NodeId, op: Op)
    requires |g.op| == |g.operands|
    ensures var r, x := InsertAfter(g, a, op), |g.operands|;
      && r.op == g.op + [op] && |r.operands| == x + 1 && r.sources == g.sources
      && r.operands[x] == [a]
      && forall u: NodeId :: u < x ==> r.operands[u] == Subst(g.operands[u], a, x)
  {
  }

  // ----- ranks under edits -----

  /** Makes room for one new rank right above `below`. */
  function NewRank(rank: seq<nat>, below: nat): seq<nat>
  {
    seq(|rank|, i requires 0 <= i < |rank| => 2 * rank[i]) + [2 * below + 1]
  }

  lemma RankAddNode(g: Graph, rank: seq<nat>, op: Op, operands: seq<NodeId>, below: nat)
    requires Ranked(g, rank) && |g.op| == |g.operands|
    requires forall i: nat :: i < |operands| ==> operands[i] < |rank| && rank[operands[i]] <= below
    ensures Ranked(AddNode(g, op, operands), NewRank(rank, below))
  {
  }

  lemma RankRedirect(g: Graph, rank: seq<nat>, a: NodeId, b: NodeId, accept: NodeId -> bool)
    requires Ranked(g, rank)
    requires b < |rank|
    requires forall n: NodeId :: n < |rank| && accept(n) && a in g.operands[n] ==> rank[b] < rank[n]
    ensures Ranked(RedirectIf(g, a, b, accept), rank)
  {
  }

  lemma SubstMembers(s: seq<NodeId>, a: NodeId, b: NodeId, o: NodeId)
    ensures o in Subst(s, a, b) <==> (o in s && o != a) || (a in s && o == b)
  {
    var r := Subst(s, a, b);
    if o in r {
      var i :| 0 <= i < |r| && r[i] == o;
      assert s[i] in s;
    }
    if o in s && o != a {
      var i :| 0 <= i < |s| && s[i] == o;
      assert r[i] == o;
    }
    if a in s && o == b {
      var i :| 0 <= i < |s| && s[i] == a;
      assert r[i] == o;
    }
  }

  lemma RankReplace(g: Graph, rank: seq<nat>, n: NodeId, a: NodeId, b: NodeId)
    requires Ranked(g, rank) && n < |rank|
    requires b < |rank| && (a in g.operands[n] ==> rank[b] < rank[n])
    ensures Ranked(ReplaceIn(g, n, a, b), rank)
  {
  }

  lemma InsertAfterAcyclic(g: Graph, a: NodeId, op: Op)
    requires Acyclic(g) && WellFormed(g) && a < |g.operands|
    ensures Acyclic(InsertAfter(g, a, op))
  {
    var rank :| Ranked(g, rank);
    var x := |g.operands|;
    RankAddNode(g, rank, op, [a], rank[a]);
    var r' := NewRank(rank, rank[a]);
    RankRedirect(AddNode(g, op, [a]), r', a, x, n => n != x);
  }

  // ----- liveness under edits -----

  lemma AddNodeWellFormed(g: Graph, op: Op, operands: seq<NodeId>)
    requires WellFormed(g)
    requires forall i: nat :: i < |operands| ==> Live(g, operands[i])
    ensures WellFormed(AddNode(g, op, operands))
    ensures forall n: NodeId :: n <= |g.operands| ==>
      (Live(AddNode(g, op, operands), n) <==> Live(g, n) || n == |g.operands|)
  {
  }

  lemma RedirectWellFormed(g: Graph, a: NodeId, b: NodeId, accept: NodeId -> bool)
    requires WellFormed(g)
    requires Live(g, b)
    ensures WellFormed(RedirectIf(g, a, b, accept))
    ensures forall n: NodeId :: Live(RedirectIf(g, a, b, accept), n) <==> Live(g, n)
  {
    var g' := RedirectIf(g, a, b, accept);
    assert forall n: NodeId :: n < |g.operands| ==> |g'.operands[n]| == |g.operands[n]|;
  }

  lemma ReplaceWellFormed(g: Graph, n: NodeId, a: NodeId, b: NodeId)
    requires WellFormed(g) && n < |g.operands|
    requires Live(g, b)
    ensures WellFormed(ReplaceIn(g, n, a, b))
    ensures forall m: NodeId :: Live(ReplaceIn(g, n, a, b), m) <==> Live(g, m)
  {
    var g' := ReplaceIn(g, n, a, b);
    assert forall m: NodeId :: m < |g.operands| ==> |g'.operands[m]| == |g.operands[m]|;
  }

  // ----- interpretations -----

  /** The operand values of node n under the assignment v. */
  function Args<T>(g: Graph, v: seq<T>, n: NodeId): (args: seq<T>)
    requires n < |g.operands|
    requires forall i: nat :: i < |g.operands[n]| ==> g.operands[n][i] < |v|
    ensures |args| == |g.operands[n]|
  {
    seq(|g.operands[n]|, i requires 0 <= i < |g.operands[n]| => v[g.operands[n][i]])
  }

  /** v assigns to every live node the meaning of its opcode applied to its operands. */
  ghost predicate Interprets<T(!new)>(g: Graph, sem: (NodeId, Op, seq<T>) -> T, v: seq<T>)
  {
    && WellFormed(g)
    && |v| == |g.operands|
    && forall n: NodeId :: Live(g, n) ==> v[n] == sem(n, g.op[n], Args(g, v, n))
  }

  /** The value of n, computed from the sources up. */
  ghost function Evaluate<T>(g: Graph, sem: (NodeId, Op, seq<T>) -> T, rank: seq<nat>, n: NodeId): T
    requires Ranked(g, rank) && |g.op| == |g.operands| && n < |g.operands|
    decreases rank[n]
  {
    sem(n, g.op[n], seq(|g.operands[n]|,
      i requires 0 <= i < |g.operands[n]| => Evaluate(g, sem, rank, g.operands[n][i])))
  }

  /** An acyclic graph has an interpretation. */
  lemma InterpretationExists<T(!new)>(g: Graph, sem: (NodeId, Op, seq<T>) -> T) returns (v: seq<T>)
    requires WellFormed(g) && Acyclic(g)
    ensures Interprets(g, sem, v)
  {
    var rank :| Ranked(g, rank);
    v := seq(|g.operands|, n requires 0 <= n < |g.operands| => Evaluate(g, sem, rank, n));
    forall n: NodeId | Live(g, n)
      ensures v[n] == sem(n, g.op[n], Args(g, v, n))
    {
      var args := seq(|g.operands[n]|, i requires 0 <= i < |g.operands[n]| => Evaluate(g, sem, rank, g.operands[n][i]));
      assert Args(g, v, n) == args;
    }
  }

  /** On an acyclic graph an interpretation is unique on the live nodes. */
  lemma {:induction false} InterpretationUnique<T(!new)>(g: Graph, sem: (NodeId, Op, seq<T>) -> T, v: seq<T>, w: seq<T>,
                                        rank: seq<nat>, n: NodeId)
    requires Ranked(g, rank)
    requires Interprets(g, sem, v) && Interprets(g, sem, w)
    requires Live(g, n)
    ensures v[n] == w[n]
    decreases rank[n]
  {
    forall i | 0 <= i < |g.operands[n]|
      ensures v[g.operands[n][i]] == w[g.operands[n][i]]
    {
      assert g.operands[n][i] in g.operands[n];
      InterpretationUnique(g, sem, v, w, rank, g.operands[n][i]);
    }
    assert Args(g, v, n) == Args(g, w, n);
  }

  /** The meaning of op on one operand is that operand, for every value a node can have. */
  ghost predicate PassesThrough<T(!new)>(sem: (NodeId, Op, seq<T>) -> T, op: Op)
  {
    forall n: NodeId, m: NodeId, op', args :: sem(n, op, [sem(m, op', args)]) == sem(m, op', args)
  }

  lemma InterpretAddNode<T(!new)>(g: Graph, sem: (NodeId, Op, seq<T>) -> T, v: seq<T>, op: Op, operands: seq<NodeId>)
    returns (v': seq<T>)
    requires Interprets(g, sem, v)
    requires forall i: nat :: i < |operands| ==> Live(g, operands[i])
    ensures Interprets(AddNode(g, op, operands), sem, v')
    ensures |v'| == |v| + 1 && v <= v'
    ensures v'[|v|] == sem(|v|, op, seq(|operands|, i requires 0 <= i < |operands| => v[operands[i]]))
  {
    var g' := AddNode(g, op, operands);
    AddNodeWellFormed(g, op, operands);
    var args := seq(|operands|, i requires 0 <= i < |operands| => v[operands[i]]);
    v' := v + [sem(|v|, op, args)];
    forall n: NodeId | Live(g', n)
      ensures v'[n] == sem(n, g'.op[n], Args(g', v', n))
    {
      if n < |g.operands| {
        assert Args(g', v', n) == Args(g, v, n);
      } else {
        assert Args(g', v', n) == args;
      }
    }
  }

  lemma InterpretRedirect<T(!new)>(g: Graph, sem: (NodeId, Op, seq<T>) -> T, v: seq<T>, a: NodeId, b: NodeId,
                                   accept: NodeId -> bool)
    requires Interprets(g, sem, v)
    requires a < |v| && Live(g, b) && v[a] == v[b]
    ensures Interprets(RedirectIf(g, a, b, accept), sem, v)
  {
    var g' := RedirectIf(g, a, b, accept);
    RedirectWellFormed(g, a, b, accept);
    forall n: NodeId | Live(g', n)
      ensures v[n] == sem(n, g'.op[n], Args(g', v, n))
    {
      assert Live(g, n);
      assert Args(g', v, n) == Args(g, v, n);
    }
  }

  lemma InterpretReplace<T(!new)>(g: Graph, sem: (NodeId, Op, seq<T>) -> T, v: seq<T>, n: NodeId, a: NodeId, b: NodeId)
    requires Interprets(g, sem, v)
    requires n < |v| && a < |v| && Live(g, b) && v[a] == v[b]
    ensures Interprets(ReplaceIn(g, n, a, b), sem, v)
  {
    var g' := ReplaceIn(g, n, a, b);
    ReplaceWellFormed(g, n, a, b);
    forall m: NodeId | Live(g', m)
      ensures v[m] == sem(m, g'.op[m], Args(g', v, m))
    {
      assert Live(g, m);
      assert Args(g', v, m) == Args(g, v, m);
    }
  }

  /** Putting a pass-through node behind a leaves all former values unchanged. */
  lemma InterpretInsertAfter<T(!new)>(g: Graph, sem: (NodeId, Op, seq<T>) -> T, v: seq<T>, a: NodeId, op: Op)
    returns (v': seq<T>)
    requires Interprets(g, sem, v) && Live(g, a)
    requires PassesThrough(sem, op)
    ensures Interprets(InsertAfter(g, a, op), sem, v')
    ensures |v'| == |v| + 1 && v <= v' && v'[|v|] == v[a]
  {
    v' := InterpretAddNode(g, sem, v, op, [a]);
    assert seq(|[a]|, i requires 0 <= i < |[a]| => v[[a][i]]) == [v[a]];
    assert v[a] == sem(a, g.op[a], Args(g, v, a));
    assert v'[|v|] == v[a];
    var x := |g.operands|;
    AddNodeWellFormed(g, op, [a]);
    InterpretRedirect(AddNode(g, op, [a]), sem, v', a, x, n => n != x);
  }
}
