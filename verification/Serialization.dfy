/** Saving the nodes of a graph as a message and loading them again, nodesSerialize and
    nodesDeserialize in iyfc/proto/iyfc_serialization.cpp. */
module Serialization {
  import opened Graphs
  import opened Dags
  import opened Traversals
  import opened Attributes
  import opened Semantics

  datatype NodeMsg = NodeMsg(code: nat, operands: seq<nat>, attributes: seq<AttributeMsg>)

  datatype NodeName = NodeName(node: nat, name: string)

  datatype DagNodes = DagNodes(nodes: seq<NodeMsg>, inputs: seq<NodeName>, outputs: seq<NodeName>)

  // ----- the stack of nodesSerialize -----

  /** An entry asks to visit the node, or to emit it. */
  datatype Work = Work(visit: bool, node: NodeId)

  /** How often the loop can still run for an entry: the size of the node's unfolding. */
  ghost function Cost(g: Graph, rank: seq<nat>, n: NodeId): nat
    requires Ranked(g, rank) && n < |g.operands|
    decreases rank[n], 1, 0
  {
    2 + OperandCost(g, rank, n, |g.operands[n]|)
  }

  ghost function OperandCost(g: Graph, rank: seq<nat>, n: NodeId, k: nat): nat
    requires Ranked(g, rank) && n < |g.operands| && k <= |g.operands[n]|
    decreases rank[n], 0, k
  {
    if k == 0 then 0 else OperandCost(g, rank, n, k - 1) + Cost(g, rank, g.operands[n][k - 1])
  }

  ghost predicate WorkWithin(g: Graph, work: seq<Work>)
  {
    forall p: nat :: p < |work| ==> work[p].node < |g.operands|
  }

  ghost function StackCost(g: Graph, rank: seq<nat>, work: seq<Work>): nat
    requires Ranked(g, rank) && WorkWithin(g, work)
  {
    if work == [] then 0
    else
      var w := work[|work| - 1];
      StackCost(g, rank, work[..|work| - 1]) + if w.visit then Cost(g, rank, w.node) else 1
  }

  lemma StackCostPush(g: Graph, rank: seq<nat>, work: seq<Work>, w: Work)
    requires Ranked(g, rank) && WorkWithin(g, work) && w.node < |g.operands|
    ensures WorkWithin(g, work + [w])
    ensures StackCost(g, rank, work + [w]) == StackCost(g, rank, work) + if w.visit then Cost(g, rank, w.node) else 1
  {
    assert (work + [w])[..|work|] == work;
  }

  function Visits(os: seq<NodeId>): (r: seq<Work>)
    ensures |r| == |os|
  {
    seq(|os|, i requires 0 <= i < |os| => Work(true, os[i]))
  }

  lemma {:induction false} StackCostVisits(g: Graph, rank: seq<nat>, work: seq<Work>, n: NodeId, k: nat)
    requires Ranked(g, rank) && WorkWithin(g, work) && n < |g.operands| && k <= |g.operands[n]|
    ensures WorkWithin(g, work + Visits(g.operands[n][..k]))
    ensures StackCost(g, rank, work + Visits(g.operands[n][..k])) == StackCost(g, rank, work) + OperandCost(g, rank,
      n, k)
  {
    if k == 0 {
      assert work + Visits(g.operands[n][..0]) == work;
    } else {
      StackCostVisits(g, rank, work, n, k - 1);
      var o := g.operands[n][k - 1];
      assert work + Visits(g.operands[n][..k]) == work + Visits(g.operands[n][..k - 1]) + [Work(true, o)];
      StackCostPush(g, rank, work + Visits(g.operands[n][..k - 1]), Work(true, o));
    }
  }

  /** An operand of a node that waits to be emitted is done, or stands above it on the stack. */
  ghost predicate OperandSeen(g: Graph, done: set<NodeId>, work: seq<Work>, p: nat, o: NodeId)
  {
    o in done || exists q: nat :: p < q < |work| && work[q].node == o
  }

  ghost predicate Covered(g: Graph, done: set<NodeId>, work: seq<Work>)
    requires WorkWithin(g, work)
  {
    forall p: nat, i: nat :: p < |work| && !work[p].visit && i < |g.operands[work[p].node]| ==>
      OperandSeen(g, done, work, p, g.operands[work[p].node][i])
  }

  ghost predicate OnStack(work: seq<Work>, n: NodeId)
  {
    exists p: nat :: p < |work| && work[p].node == n
  }

  /** Taking the top entry away once its node is done. */
  lemma CoveredPop(g: Graph, done: set<NodeId>, work: seq<Work>, done': set<NodeId>)
    requires work != [] && WorkWithin(g, work) && Covered(g, done, work)
    requires done <= done' && work[|work| - 1].node in done'
    ensures WorkWithin(g, work[..|work| - 1]) && Covered(g, done', work[..|work| - 1])
  {
    var rest := work[..|work| - 1];
    forall p: nat, i: nat | p < |rest| && !rest[p].visit && i < |g.operands[rest[p].node]|
      ensures OperandSeen(g, done', rest, p, g.operands[rest[p].node][i])
    {
      var o := g.operands[work[p].node][i];
      assert OperandSeen(g, done, work, p, o);
      if o !in done {
        var q: nat :| p < q < |work| && work[q].node == o;
        assert q < |rest| ==> rest[q].node == o;
      }
    }
  }

  function Expanded(g: Graph, work: seq<Work>): seq<Work>
    requires work != [] && work[|work| - 1].node < |g.operands|
  {
    var n := work[|work| - 1].node;
    work[..|work| - 1] + [Work(false, n)] + Visits(g.operands[n])
  }

  /** Replacing a request to visit by the node and its operands above it. */
  lemma CoveredExpand(g: Graph, done: set<NodeId>, work: seq<Work>)
    requires work != [] && WorkWithin(g, work) && Covered(g, done, work)
    requires forall n: NodeId, i: nat :: n < |g.operands| && i < |g.operands[n]| ==> g.operands[n][i] < |g.operands|
    ensures WorkWithin(g, Expanded(g, work)) && Covered(g, done, Expanded(g, work))
  {
    var work' := Expanded(g, work);
    var top: nat := |work| - 1;
    forall p: nat, i: nat | p < |work'| && !work'[p].visit && i < |g.operands[work'[p].node]|
      ensures OperandSeen(g, done, work', p, g.operands[work'[p].node][i])
    {
      var o := g.operands[work'[p].node][i];
      if p < top {
        assert OperandSeen(g, done, work, p, o);
        if o !in done {
          var q: nat :| p < q < |work| && work[q].node == o;
          assert work'[q].node == o;
        }
      } else {
        assert work'[top + 1 + i].node == o;
      }
    }
  }

  lemma StackKept(g: Graph, work: seq<Work>, n: NodeId)
    requires work != [] && work[|work| - 1].node < |g.operands| && OnStack(work, n)
    ensures OnStack(Expanded(g, work), n)
    ensures n == work[|work| - 1].node || OnStack(work[..|work| - 1], n)
  {
    var p: nat :| p < |work| && work[p].node == n;
    var work' := Expanded(g, work);
    assert work'[p].node == n;
    assert p < |work| - 1 ==> work[..|work| - 1][p].node == n;
  }

  lemma ExpandCost(g: Graph, rank: seq<nat>, work: seq<Work>)
    requires Ranked(g, rank) && WorkWithin(g, work) && work != [] && work[|work| - 1].visit
    ensures WorkWithin(g, Expanded(g, work)) && StackCost(g, rank, Expanded(g, work)) < StackCost(g, rank, work)
  {
    var rest, n := work[..|work| - 1], work[|work| - 1].node;
    StackCostPush(g, rank, rest, Work(false, n));
    StackCostVisits(g, rank, rest + [Work(false, n)], n, |g.operands[n]|);
    assert g.operands[n][..|g.operands[n]|] == g.operands[n];
  }

  lemma PopCost(g: Graph, rank: seq<nat>, work: seq<Work>)
    requires Ranked(g, rank) && WorkWithin(g, work) && work != []
    ensures WorkWithin(g, work[..|work| - 1]) && StackCost(g, rank, work[..|work| - 1]) < StackCost(g, rank, work)
  {
  }

  // ----- the order of the nodes in the message -----

  ghost predicate Emitted(g: Graph, order: seq<NodeId>)
  {
    NoDuplicates(order) && PredecessorsFirst(g.operands, order)
  }

  lemma EmitNext(g: Graph, order: seq<NodeId>, work: seq<Work>)
    requires Emitted(g, order) && work != [] && WorkWithin(g, work) && Covered(g, Elems(order), work)
    requires !work[|work| - 1].visit && work[|work| - 1].node !in Elems(order)
    ensures Emitted(g, order + [work[|work| - 1].node])
    ensures Unblocked(g.operands, Elems(order), work[|work| - 1].node)
  {
    var p: nat := |work| - 1;
    var n := work[p].node;
    var order' := order + [n];
    forall i: nat | i < |g.operands[n]|
      ensures g.operands[n][i] in Elems(order)
    {
      assert OperandSeen(g, Elems(order), work, p, g.operands[n][i]);
    }
    forall k: nat | k < |order'|
      ensures order'[k] < |g.operands| && Unblocked(g.operands, Elems(order'[..k]), order'[k])
    {
      assert order'[..k] == order[..k];
      assert k == |order| ==> order[..k] == order;
    }
  }

  /** Once every sink is emitted, so is every node. */
  lemma AllEmitted(g: Graph, uses: seq<seq<NodeId>>, sinks: set<NodeId>, rank: seq<nat>, order: seq<NodeId>, n: NodeId)
    requires WellFormed(g) && UsesInverse(g.operands, uses) && SinksMatch(uses, sinks, Erased(g)) && Ranked(g, rank)
    requires Emitted(g, order) && sinks <= Elems(order)
    requires n in LiveNodes(g) + sinks
    ensures n in Elems(order)
  {
    var nodes := LiveNodes(g) + sinks;
    var done := Elems(order);
    BackwardAdjacency(g, uses, sinks);
    BackwardOrdered(g, uses, rank);
    forall m: NodeId | m in nodes && m !in done
      ensures !Unblocked(uses, done, m)
    {
      assert uses[m] != [];
      UseWaits(g, uses, order, m);
    }
    AllVisited(uses, Reversed(rank), nodes, {}, done, n);
  }

  lemma UseWaits(g: Graph, uses: seq<seq<NodeId>>, order: seq<NodeId>, m: NodeId)
    requires UsesInverse(g.operands, uses) && Emitted(g, order) && m < |uses| && uses[m] != [] && m !in Elems(order)
    ensures !Unblocked(uses, Elems(order), m)
  {
    var u := uses[m][0];
    UsersAreUses(g.operands, uses, m, u);
    OperandsEmitted(g, order, u);
    assert u !in Elems(order);
  }

  lemma OperandsEmitted(g: Graph, order: seq<NodeId>, u: NodeId)
    requires Emitted(g, order) && u < |g.operands|
    ensures u in Elems(order) ==> forall o :: o in g.operands[u] ==> o in Elems(order)
  {
    if u in Elems(order) {
      EmittedAbove(g, order, u);
    }
  }

  lemma EmittedAbove(g: Graph, order: seq<NodeId>, u: NodeId)
    requires Emitted(g, order) && u < |g.operands| && u in Elems(order)
    ensures forall o :: o in g.operands[u] ==> o in Elems(order)
  {
    var k: nat :| k < |order| && order[k] == u;
    assert Unblocked(g.operands, Elems(order[..k]), order[k]);
    forall o | o in g.operands[u]
      ensures o in Elems(order)
    {
      var i: nat :| i < |g.operands[u]| && g.operands[u][i] == o;
      assert o in Elems(order[..k]);
      var j: nat :| j < k && order[..k][j] == o;
      assert order[j] == o;
    }
  }

  // ----- opcodes -----

  /** The numbers of the list IYFC_OPS. */
  function CodeOf(op: Op): nat
  {
    match op
    case Input(_) => 1
    case Output => 2
    case Constant(_) => 3
    case Negate => 10
    case Add => 11
    case Sub => 12
    case Mul => 13
    case RotateLeft(_) => 18
    case RotateRight(_) => 19
    case Relinearize => 50
    case ModSwitch => 51
    case Rescale(_) => 52
    case Encode => 53
  }

  /** isValidOp, without the opcodes that the SEAL-CKKS path does not have. */
  predicate IsKnownOp(code: nat)
  {
    1 <= code <= 3 || 10 <= code <= 13 || 18 <= code <= 19 || 50 <= code <= 53
  }

  function Find(s: seq<Attribute>, k: AttrKey): AttrValue
  {
    if s == [] then Monostate else if s[0].key == k then s[0].value else Find(s[1..], k)
  }

  function FindUint(s: seq<Attribute>, k: AttrKey): nat
  {
    match Find(s, k) case Uint32(u) => u case _ => 0
  }

  /** What an int32_t becomes in a RotationAttr, an uint32_t, and what it is read as. */
  function AsUint32(i: int): (u: nat)
    ensures u < 0x1_0000_0000
  {
    i % 0x1_0000_0000
  }

  function AsInt32(u: nat): (i: int)
    ensures -0x8000_0000 <= i < 0x8000_0000
  {
    var w := u % 0x1_0000_0000;
    if w < 0x8000_0000 then w else w - 0x1_0000_0000
  }

  /** Every shift that makeLeftRotation and makeRightRotation accept is described by its attribute. */
  lemma ShiftRoundTrip(shift: int)
    requires -0x8000_0000 <= shift < 0x8000_0000
    ensures AsInt32(AsUint32(shift)) == shift
    ensures OpOf(18, [Attribute(2, Uint32(AsUint32(shift)))]) == RotateLeft(shift)
    ensures OpOf(19, [Attribute(2, Uint32(AsUint32(shift)))]) == RotateRight(shift)
  {
  }

  /** The opcode with the attributes that belong to it: RescaleDivisorAttr, RotationAttr,
      ConstValueAttr and TypeAttr, as far as the list holds them. */
  function OpOf(code: nat, s: seq<Attribute>): Op
    requires IsKnownOp(code)
  {
    match code
    case 1 => Input(Find(s, 6) == DataTypeCode(1))
    case 2 => Output
    case 3 => Op.Constant(match Find(s, 3) case Constant(Dense(_, values)) => values case _ => [])
    case 10 => Negate
    case 11 => Add
    case 12 => Sub
    case 13 => Mul
    case 18 => RotateLeft(AsInt32(FindUint(s, 2)))
    case 19 => RotateRight(AsInt32(FindUint(s, 2)))
    case 50 => Relinearize
    case 51 => ModSwitch
    case 52 => Rescale(FindUint(s, 1))
    case _ => Encode
  }

  /** The attribute lists are typed and say of every node what its opcode says. */
  ghost predicate Describes(g: Graph, attrs: seq<seq<Attribute>>)
  {
    && |attrs| == |g.op| == |g.operands|
    && forall n: NodeId :: n < |g.op| ==> WellTyped(attrs[n]) && OpOf(CodeOf(g.op[n]), attrs[n]) == g.op[n]
  }

  // ----- saving -----

  ghost predicate Indexed(order: seq<NodeId>, indices: map<NodeId, nat>)
  {
    && indices.Keys == Elems(order)
    && forall n :: n in indices ==> indices[n] < |order| && order[indices[n]] == n
  }

  lemma IndexedNext(order: seq<NodeId>, indices: map<NodeId, nat>, n: NodeId)
    requires Indexed(order, indices) && n !in indices
    ensures Indexed(order + [n], indices[n := |order|])
  {
    ElemsAppend(order, n);
  }

  ghost predicate OperandsSaved(order: seq<NodeId>, os: seq<NodeId>, saved: seq<nat>)
  {
    && |saved| == |os|
    && forall i: nat :: i < |os| ==> saved[i] < |order| && order[saved[i]] == os[i]
  }

  /** Entry k of the message stands for node order[k]; its operands are earlier entries. */
  ghost predicate NodeSaved(g: Graph, attrs: seq<seq<Attribute>>, order: seq<NodeId>, k: nat, m: NodeMsg)
    requires k < |order|
  {
    && order[k] < |g.op| == |g.operands| == |attrs| && AllSaveable(attrs[order[k]])
    && m.code == CodeOf(g.op[order[k]])
    && OperandsSaved(order[..k], g.operands[order[k]], m.operands)
    && m.attributes == SavedAttrs(attrs[order[k]])
  }

  ghost predicate NodesSaved(g: Graph, attrs: seq<seq<Attribute>>, order: seq<NodeId>, nodes: seq<NodeMsg>)
  {
    && |nodes| == |order|
    && forall k: nat :: k < |order| ==> NodeSaved(g, attrs, order, k, nodes[k])
  }

  lemma SavedNext(g: Graph, attrs: seq<seq<Attribute>>, order: seq<NodeId>, nodes: seq<NodeMsg>, n: NodeId, m: NodeMsg)
    requires NodesSaved(g, attrs, order, nodes) && NodeSaved(g, attrs, order + [n], |order|, m)
    ensures NodesSaved(g, attrs, order + [n], nodes + [m])
  {
    var order' := order + [n];
    forall k: nat | k < |order'|
      ensures NodeSaved(g, attrs, order', k, (nodes + [m])[k])
    {
      if k < |order| {
        assert NodeSaved(g, attrs, order, k, nodes[k]);
        assert order'[..k] == order[..k];
      }
    }
  }

  ghost predicate ListsHold(lists: seq<AttrList>, attrs: seq<seq<Attribute>>)
    reads lists
  {
    && |lists| == |attrs|
    && forall n: nat :: n < |lists| ==> lists[n].Valid() && lists[n].entries == attrs[n] && AllSaveable(attrs[n])
  }

  method SaveOperands(os: seq<NodeId>, ghost order: seq<NodeId>, indices: map<NodeId, nat>) returns (saved: seq<nat>)
    requires Indexed(order, indices) && forall i: nat :: i < |os| ==> os[i] in Elems(order)
    ensures OperandsSaved(order, os, saved)
  {
    saved := [];
    for i := 0 to |os|
      invariant OperandsSaved(order, os[..i], saved)
    {
      saved := saved + [indices[os[i]]];
    }
    assert os[..|os|] == os;
  }

  ghost function Saved(g: Graph, sinks: set<NodeId>): set<NodeId>
  {
    LiveNodes(g) + sinks
  }

  ghost predicate SaveInv(g: Graph, sinks: set<NodeId>, order: seq<NodeId>, work: seq<Work>)
  {
    && WorkWithin(g, work) && Emitted(g, order) && Covered(g, Elems(order), work)
    && Elems(order) <= Saved(g, sinks) && (forall p: nat :: p < |work| ==> work[p].node in Saved(g, sinks))
    && forall s :: s in sinks ==> s in Elems(order) || OnStack(work, s)
  }

  lemma SkipKeeps(g: Graph, sinks: set<NodeId>, order: seq<NodeId>, work: seq<Work>)
    requires SaveInv(g, sinks, order, work) && work != [] && work[|work| - 1].node in Elems(order)
    ensures SaveInv(g, sinks, order, work[..|work| - 1])
  {
    CoveredPop(g, Elems(order), work, Elems(order));
    forall s | s in sinks
      ensures s in Elems(order) || OnStack(work[..|work| - 1], s)
    {
      if s !in Elems(order) {
        StackKept(g, work, s);
      }
    }
  }

  lemma ExpandKeeps(g: Graph, sinks: set<NodeId>, order: seq<NodeId>, work: seq<Work>)
    requires WellFormed(g) && SaveInv(g, sinks, order, work) && work != []
    ensures SaveInv(g, sinks, order, Expanded(g, work))
  {
    CoveredExpand(g, Elems(order), work);
    hide Covered, Emitted;
    var n, work' := work[|work| - 1].node, Expanded(g, work);
    forall i: nat | i < |g.operands[n]|
      ensures g.operands[n][i] in Saved(g, sinks)
    {
      assert Live(g, g.operands[n][i]);
    }
    forall s | s in sinks
      ensures s in Elems(order) || OnStack(work', s)
    {
      if s !in Elems(order) {
        StackKept(g, work, s);
      }
    }
  }

  lemma EmitKeeps(g: Graph, sinks: set<NodeId>, order: seq<NodeId>, work: seq<Work>)
    requires SaveInv(g, sinks, order, work) && work != []
    requires !work[|work| - 1].visit && work[|work| - 1].node !in Elems(order)
    ensures var n := work[|work| - 1].node;
      SaveInv(g, sinks, order + [n], work[..|work| - 1]) && Unblocked(g.operands, Elems(order), n)
  {
    var n := work[|work| - 1].node;
    EmitNext(g, order, work);
    ElemsAppend(order, n);
    CoveredPop(g, Elems(order), work, Elems(order + [n]));
    hide Covered, Emitted;
    forall s | s in sinks
      ensures s in Elems(order + [n]) || OnStack(work[..|work| - 1], s)
    {
      if s !in Elems(order) {
        StackKept(g, work, s);
      }
    }
  }

  lemma SavedAll(g: Graph, uses: seq<seq<NodeId>>, sinks: set<NodeId>, rank: seq<nat>, order: seq<NodeId>)
    requires WellFormed(g) && UsesInverse(g.operands, uses) && SinksMatch(uses, sinks, Erased(g)) && Ranked(g, rank)
    requires SaveInv(g, sinks, order, [])
    ensures TopologicalOrder(g.operands, Saved(g, sinks), order)
  {
    forall n | n in Saved(g, sinks)
      ensures n in Elems(order)
    {
      AllEmitted(g, uses, sinks, rank, order, n);
    }
  }

  method StartWork(d: Dag) returns (work: seq<Work>)
    requires d.Valid()
    ensures SaveInv(d.G(), d.sinks, [], work)
  {
    work := [];
    var rest := d.sinks;
    while rest != {}
      invariant rest <= d.sinks && forall p: nat :: p < |work| ==> work[p].visit && work[p].node in d.sinks
      invariant forall s :: s in d.sinks ==> s in rest || OnStack(work, s)
      decreases rest
    {
      var sink :| sink in rest;
      PushKeeps(work, Work(true, sink), d.sinks - rest);
      work := work + [Work(true, sink)];
      rest := rest - {sink};
    }
  }

  lemma PushKeeps(work: seq<Work>, w: Work, there: set<NodeId>)
    requires forall s :: s in there ==> OnStack(work, s)
    ensures OnStack(work + [w], w.node) && forall s :: s in there ==> OnStack(work + [w], s)
  {
    assert (work + [w])[|work|] == w;
    forall s | s in there
      ensures OnStack(work + [w], s)
    {
      var p: nat :| p < |work| && work[p].node == s;
      assert (work + [w])[p].node == s;
    }
  }

  method PushOperands(base: seq<Work>, os: seq<NodeId>) returns (work: seq<Work>)
    ensures work == base + Visits(os)
  {
    work := base;
    for i := 0 to |os|
      invariant work == base + Visits(os[..i])
    {
      work := work + [Work(true, os[i])];
      assert Visits(os[..i + 1]) == Visits(os[..i]) + [Work(true, os[i])];
    }
    assert os[..|os|] == os;
  }

  method EmitNode(d: Dag, lists: seq<AttrList>, ghost attrs: seq<seq<Attribute>>, n: NodeId, ghost order: seq<NodeId>,
                  indices: map<NodeId, nat>)
    returns (m: NodeMsg)
    requires d.Valid() && ListsHold(lists, attrs) && |lists| == |d.op| && n < |d.op|
    requires Indexed(order, indices) && Unblocked(d.operands, Elems(order), n)
    ensures NodeSaved(d.G(), attrs, order + [n], |order|, m)
  {
    var operands := SaveOperands(d.operands[n], order, indices);
    var attributes := lists[n].SerializeAttr();
    m := NodeMsg(CodeOf(d.op[n]), operands, attributes);
    assert (order + [n])[..|order|] == order;
  }

  /** The loop of nodesSerialize: every node once, after its operands, whatever the sharing. */
  method SerializeNodes(d: Dag, lists: seq<AttrList>, ghost attrs: seq<seq<Attribute>>)
    returns (nodes: seq<NodeMsg>, indices: map<NodeId, nat>, ghost order: seq<NodeId>)
    requires d.Valid() && Acyclic(d.G()) && ListsHold(lists, attrs) && |lists| == |d.op|
    ensures TopologicalOrder(d.operands, Saved(d.G(), d.sinks), order)
    ensures NodesSaved(d.G(), attrs, order, nodes) && Indexed(order, indices)
  {
    hide SaveInv, NodesSaved, NodeSaved, Acyclic, TopologicalOrder;
    ghost var g, rank := d.G(), WitnessRank(d.G());
    nodes, indices, order := [], map[], [];
    assert NodesSaved(g, attrs, order, nodes) by { NothingSaved(g, attrs); }
    var work := StartWork(d);
    assert WorkWithin(g, work) by { WithinStack(g, d.sinks, order, work); }
    while work != []
      invariant SaveInv(g, d.sinks, order, work) && WorkWithin(g, work)
      invariant NodesSaved(g, attrs, order, nodes) && Indexed(order, indices) && |nodes| == |order|
      decreases StackCost(g, rank, work)
    {
      var top := work[|work| - 1];
      var n := top.node;
      PopCost(g, rank, work);
      if n in indices {
        SkipKeeps(g, d.sinks, order, work);
        work := work[..|work| - 1];
      } else if top.visit {
        ExpandCost(g, rank, work);
        ExpandKeeps(g, d.sinks, order, work);
        work := PushOperands(work[..|work| - 1] + [Work(false, n)], d.operands[n]);
      } else {
        EmitKeeps(g, d.sinks, order, work);
        var m := EmitNode(d, lists, attrs, n, order, indices);
        SavedNext(g, attrs, order, nodes, n, m);
        IndexedNext(order, indices, n);
        indices := indices[n := |nodes|];
        nodes := nodes + [m];
        order := order + [n];
        work := work[..|work| - 1];
      }
    }
    SavedAll(g, d.uses, d.sinks, rank, order);
  }

  ghost function WitnessRank(g: Graph): (rank: seq<nat>)
    requires Acyclic(g)
    ensures Ranked(g, rank)
  {
    var rank :| Ranked(g, rank);
    rank
  }

  lemma NothingSaved(g: Graph, attrs: seq<seq<Attribute>>)
    ensures NodesSaved(g, attrs, [], [])
  {
  }

  lemma WithinStack(g: Graph, sinks: set<NodeId>, order: seq<NodeId>, work: seq<Work>)
    requires SaveInv(g, sinks, order, work)
    ensures WorkWithin(g, work)
  {
  }

  // ----- names -----

  /** Each name once, with the entry of its node. */
  ghost predicate NamesSaved(names: map<string, NodeId>, order: seq<NodeId>, saved: seq<NodeName>)
  {
    && (forall i: nat :: i < |saved| ==> NameSaved(names, order, saved[i]))
    && (forall i: nat, j: nat :: i < j < |saved| ==> saved[i].name != saved[j].name)
    && forall s :: s in names ==> s in SavedNames(saved)
  }

  ghost predicate NameSaved(names: map<string, NodeId>, order: seq<NodeId>, e: NodeName)
  {
    e.name in names && e.node < |order| && order[e.node] == names[e.name]
  }

  ghost function SavedNames(saved: seq<NodeName>): set<string>
  {
    set i | 0 <= i < |saved| :: saved[i].name
  }

  method SaveNames(names: map<string, NodeId>, ghost order: seq<NodeId>, indices: map<NodeId, nat>)
    returns (saved: seq<NodeName>)
    requires Indexed(order, indices) && forall s :: s in names ==> names[s] in Elems(order)
    ensures NamesSaved(names, order, saved)
  {
    saved := [];
    var rest := names.Keys;
    while rest != {}
      invariant rest <= names.Keys
      invariant forall i: nat :: i < |saved| ==> NameSaved(names, order, saved[i])
      invariant forall i: nat, j: nat :: i < j < |saved| ==> saved[i].name != saved[j].name
      invariant SavedNames(saved) == names.Keys - rest
      decreases rest
    {
      var name :| name in rest;
      var e := NodeName(indices[names[name]], name);
      NamesAppend(saved, e);
      saved := saved + [e];
      rest := rest - {name};
    }
  }

  lemma NamesAppend(saved: seq<NodeName>, e: NodeName)
    ensures SavedNames(saved + [e]) == SavedNames(saved) + {e.name}
    ensures forall i: nat :: i < |saved| ==> saved[i].name in SavedNames(saved)
  {
    forall s | s in SavedNames(saved) + {e.name}
      ensures s in SavedNames(saved + [e])
    {
      if s in SavedNames(saved) {
        var i :| 0 <= i < |saved| && saved[i].name == s;
        assert (saved + [e])[i].name == s;
      } else {
        assert (saved + [e])[|saved|].name == s;
      }
    }
  }

  /** emplace for each entry: the first of a name stays. */
  function NamesFrom(saved: seq<NodeName>): map<string, NodeId>
  {
    if saved == [] then map[]
    else
      var prior, e := NamesFrom(saved[..|saved| - 1]), saved[|saved| - 1];
      if e.name in prior then prior else prior[e.name := e.node]
  }

  lemma {:induction false} NamesFromAll(saved: seq<NodeName>)
    ensures NamesFrom(saved).Keys == SavedNames(saved)
  {
    if saved != [] {
      var k: nat := |saved| - 1;
      NamesFromAll(saved[..k]);
      NamesAppend(saved[..k], saved[k]);
      assert saved == saved[..k] + [saved[k]];
    }
  }

  lemma {:induction false} NamesFromEntries(names: map<string, NodeId>, order: seq<NodeId>, saved: seq<NodeName>)
    requires forall i: nat :: i < |saved| ==> NameSaved(names, order, saved[i])
    ensures forall s :: s in NamesFrom(saved) ==>
      s in names && NamesFrom(saved)[s] < |order| && order[NamesFrom(saved)[s]] == names[s]
  {
    if saved != [] {
      NamesFromEntries(names, order, saved[..|saved| - 1]);
    }
  }

  /** Loading the saved names gives the same names for the same nodes. */
  lemma NamesRoundTrip(names: map<string, NodeId>, order: seq<NodeId>, saved: seq<NodeName>)
    requires NamesSaved(names, order, saved)
    ensures NamesFrom(saved).Keys == names.Keys
    ensures forall s :: s in names ==> NamesFrom(saved)[s] < |order| && order[NamesFrom(saved)[s]] == names[s]
  {
    NamesFromAll(saved);
    NamesFromEntries(names, order, saved);
  }

  /** nodesSerialize */
  method NodesSerialize(d: Dag, lists: seq<AttrList>, ghost attrs: seq<seq<Attribute>>,
                        inputs: map<string, NodeId>, outputs: map<string, NodeId>)
    returns (msg: DagNodes, ghost order: seq<NodeId>)
    requires d.Valid() && Acyclic(d.G()) && ListsHold(lists, attrs) && |lists| == |d.op|
    requires forall s :: s in inputs ==> inputs[s] in Saved(d.G(), d.sinks)
    requires forall s :: s in outputs ==> outputs[s] in Saved(d.G(), d.sinks)
    ensures TopologicalOrder(d.operands, Saved(d.G(), d.sinks), order)
    ensures NodesSaved(d.G(), attrs, order, msg.nodes)
    ensures NamesSaved(inputs, order, msg.inputs) && NamesSaved(outputs, order, msg.outputs)
  {
    var nodes, indices;
    nodes, indices, order := SerializeNodes(d, lists, attrs);
    hide NodesSaved, Indexed;
    var savedInputs := SaveNames(inputs, order, indices);
    var savedOutputs := SaveNames(outputs, order, indices);
    msg := DagNodes(nodes, savedInputs, savedOutputs);
  }

  // ----- loading -----

  predicate LoadableNode(m: NodeMsg, k: nat)
  {
    IsKnownOp(m.code) && AllAccepted(m.attributes) && forall i: nat :: i < |m.operands| ==> m.operands[i] <= k
  }

  /** What is loaded without an exception: a node may name any entry up to its own. */
  predicate LoadableNodes(nodes: seq<NodeMsg>)
  {
    forall k: nat :: k < |nodes| ==> LoadableNode(nodes[k], k)
  }

  predicate LoadableNames(names: seq<NodeName>, n: nat)
  {
    forall i: nat :: i < |names| ==> names[i].node < n
  }

  predicate Loadable(msg: DagNodes)
  {
    && LoadableNodes(msg.nodes)
    && LoadableNames(msg.inputs, |msg.nodes|) && LoadableNames(msg.outputs, |msg.nodes|)
  }

  function LoadedOp(m: NodeMsg): Op
    requires IsKnownOp(m.code) && AllAccepted(m.attributes)
  {
    OpOf(m.code, LoadedAttrs(m.attributes))
  }

  function LoadedGraph(nodes: seq<NodeMsg>): Graph
    requires LoadableNodes(nodes)
  {
    Graph(seq(|nodes|, k requires 0 <= k < |nodes| => LoadedOp(nodes[k])),
          seq(|nodes|, k requires 0 <= k < |nodes| => nodes[k].operands),
          set k: nat | k < |nodes| && nodes[k].operands == [])
  }

  lemma LoadedSoFar(nodes: seq<NodeMsg>, n: nat)
    requires n <= |nodes| && LoadableNodes(nodes[..n])
    ensures forall k: nat :: k < n ==> Live(LoadedGraph(nodes[..n]), k)
  {
  }

  /** The operands of one node. */
  method LoadOperands(d: Dag, x: NodeId, idx: seq<nat>) returns (ok: bool)
    requires d.Valid() && x + 1 == |d.operands| && d.operands[x] == []
    requires forall k: nat :: k <= x ==> Live(d.G(), k)
    modifies d
    ensures d.Valid() && d.op == old(d.op)
    ensures ok <==> forall i: nat :: i < |idx| ==> idx[i] <= x
    ensures ok ==> d.operands == old(d.operands)[x := idx]
    ensures ok ==> d.sources == if idx == [] then old(d.sources) else old(d.sources) - {x}
  {
    for i := 0 to |idx|
      invariant d.Valid() && d.op == old(d.op) && d.operands == old(d.operands)[x := idx[..i]]
      invariant forall j: nat :: j < i ==> idx[j] <= x
      invariant d.sources == if i == 0 then old(d.sources) else old(d.sources) - {x}
      invariant forall k: nat :: k <= x ==> Live(d.G(), k)
    {
      if idx[i] > x {
        return false;
      }
      ghost var before := d.G();
      d.AddOperand(x, idx[i]);
      assert idx[..i + 1] == idx[..i] + [idx[i]];
      forall k: nat | k <= x
        ensures Live(d.G(), k)
      {
        assert Live(before, k);
      }
    }
    assert idx[..|idx|] == idx;
    ok := true;
  }

  /** The attributes of one node. */
  method LoadAttributes(msgs: seq<AttributeMsg>) returns (ok: bool, list: AttrList)
    ensures fresh(list) && list.Valid()
    ensures ok <==> AllAccepted(msgs)
    ensures ok ==> list.entries == LoadedAttrs(msgs)
  {
    hide LoadOutcome, LoadValue, IsValidAttr, Updated;
    list := new AttrList();
    for i := 0 to |msgs|
      invariant fresh(list) && list.Valid() && AllAccepted(msgs[..i]) && list.entries == LoadedAttrs(msgs[..i])
    {
      var r := list.LoadAttr(msgs[i]);
      if r != LoadOk {
        return false, list;
      }
      AcceptedNext(msgs, i);
    }
    assert msgs[..|msgs|] == msgs;
    ok := true;
  }

  lemma AcceptedNext(msgs: seq<AttributeMsg>, i: nat)
    requires i < |msgs| && AllAccepted(msgs[..i]) && LoadOutcome(msgs[i]) == LoadOk
    ensures AllAccepted(msgs[..i + 1])
    ensures LoadedAttrs(msgs[..i + 1]) == Updated(LoadedAttrs(msgs[..i]), msgs[i].key % 256, LoadValue(msgs[i].value).v)
  {
    hide LoadOutcome, LoadValue, IsValidAttr, Updated;
    assert msgs[..i + 1][..i] == msgs[..i];
  }

  lemma GraphNext(nodes: seq<NodeMsg>, k: nat)
    requires k < |nodes| && LoadableNodes(nodes[..k]) && LoadableNode(nodes[k], k)
    ensures LoadableNodes(nodes[..k + 1])
    ensures var g, m := LoadedGraph(nodes[..k]), nodes[k];
      LoadedGraph(nodes[..k + 1]) == Graph(g.op + [LoadedOp(m)], g.operands + [m.operands],
                                           if m.operands == [] then g.sources + {k} else g.sources)
  {
    hide LoadedOp;
    assert nodes[..k + 1] == nodes[..k] + [nodes[k]];
    var g', m := LoadedGraph(nodes[..k + 1]), nodes[k];
    assert g'.op == LoadedGraph(nodes[..k]).op + [LoadedOp(m)];
  }

  lemma NotLoadable(nodes: seq<NodeMsg>, k: nat)
    requires k < |nodes| && !LoadableNode(nodes[k], k)
    ensures !LoadableNodes(nodes)
  {
  }

  /** One turn of the loop of nodesDeserialize. */
  method LoadNode(d: Dag, nodes: seq<NodeMsg>, k: nat) returns (ok: bool, list: AttrList)
    requires k < |nodes| && LoadableNodes(nodes[..k]) && d.Valid() && d.G() == LoadedGraph(nodes[..k])
    modifies d
    ensures fresh(list) && list.Valid() && (ok <==> LoadableNode(nodes[k], k))
    ensures ok ==> list.entries == LoadedAttrs(nodes[k].attributes)
    ensures ok ==> LoadableNodes(nodes[..k + 1]) && d.Valid() && d.G() == LoadedGraph(nodes[..k + 1])
  {
    hide LoadedAttrs, AllAccepted, OpOf;
    var m := nodes[k];
    ghost var g := d.G();
    list := new AttrList();
    if !IsKnownOp(m.code) {
      return false, list;
    }
    assert AllAccepted([]) && LoadedAttrs([]) == [] by { NoAttributes(); }
    var x := d.MakeNode(OpOf(m.code, []), []);
    LoadedSoFar(nodes, k);
    forall j: nat | j <= x
      ensures Live(d.G(), j)
    {
      assert j < x ==> Live(g, j);
    }
    ok := LoadOperands(d, x, m.operands);
    if !ok {
      return;
    }
    ok, list := LoadAttributes(m.attributes);
    if ok {
      SetLoadedOp(d, nodes, k);
    }
  }

  lemma NoAttributes()
    ensures AllAccepted([]) && LoadedAttrs([]) == []
  {
  }

  /** The opcode of the last node is settled by the attributes that were loaded. */
  method SetLoadedOp(d: Dag, nodes: seq<NodeMsg>, k: nat)
    requires k < |nodes| && LoadableNodes(nodes[..k]) && LoadableNode(nodes[k], k)
    requires var g := LoadedGraph(nodes[..k]);
      && |d.op| == k + 1 && d.op[..k] == g.op && d.operands == g.operands + [nodes[k].operands]
      && d.sources == if nodes[k].operands == [] then g.sources + {k} else g.sources
    requires d.Valid()
    modifies d`op
    ensures LoadableNodes(nodes[..k + 1]) && d.Valid() && d.G() == LoadedGraph(nodes[..k + 1])
  {
    GraphNext(nodes, k);
    ghost var before := d.G();
    hide LoadedGraph, LoadedOp;
    d.op := d.op[k := LoadedOp(nodes[k])];
    assert d.op == d.op[..k] + [LoadedOp(nodes[k])];
    SameShape(before, d.G());
  }

  lemma SameShape(g: Graph, g': Graph)
    requires WellFormed(g) && |g'.op| == |g.op| && g'.operands == g.operands && g'.sources == g.sources
    ensures WellFormed(g') && Erased(g') == Erased(g)
  {
    forall n: NodeId
      ensures Live(g', n) <==> Live(g, n)
    {
    }
  }

  /** nodesDeserialize into a new graph; false when it throws. */
  method NodesDeserialize(msg: DagNodes)
    returns (ok: bool, d: Dag, lists: seq<AttrList>, inputs: map<string, NodeId>, outputs: map<string, NodeId>)
    ensures fresh(d) && (ok <==> Loadable(msg))
    ensures ok ==> d.Valid() && d.G() == LoadedGraph(msg.nodes)
    ensures ok ==> ListsLoaded(lists, msg.nodes)
    ensures ok ==> inputs == NamesFrom(msg.inputs) && outputs == NamesFrom(msg.outputs)
  {
    d := new Dag();
    lists, inputs, outputs := [], map[], map[];
    ok, lists := LoadNodes(d, msg.nodes);
    if !ok {
      return;
    }
    ok, inputs := LoadNames(msg.inputs, |msg.nodes|);
    if !ok {
      return;
    }
    ok, outputs := LoadNames(msg.outputs, |msg.nodes|);
  }

  ghost predicate ListsLoaded(lists: seq<AttrList>, nodes: seq<NodeMsg>)
    reads lists
  {
    && |lists| == |nodes|
    && forall k: nat :: k < |lists| ==>
         lists[k].Valid() && AllAccepted(nodes[k].attributes) && lists[k].entries == LoadedAttrs(nodes[k].attributes)
  }

  method LoadNodes(d: Dag, nodes: seq<NodeMsg>) returns (ok: bool, lists: seq<AttrList>)
    requires d.Valid() && d.G() == Graph([], [], {})
    modifies d
    ensures ok <==> LoadableNodes(nodes)
    ensures ok ==> d.Valid() && d.G() == LoadedGraph(nodes) && ListsLoaded(lists, nodes)
  {
    hide AllAccepted, LoadedAttrs, OpOf;
    lists := [];
    assert LoadedGraph(nodes[..0]) == Graph([], [], {}) by { EmptyGraph(nodes); }
    for k := 0 to |nodes|
      invariant LoadableNodes(nodes[..k]) && d.Valid() && d.G() == LoadedGraph(nodes[..k])
      invariant fresh(set l | l in lists) && ListsLoaded(lists, nodes[..k])
    {
      var more, list := LoadNode(d, nodes, k);
      if !more {
        NotLoadable(nodes, k);
        return false, lists;
      }
      assert nodes[..k + 1] == nodes[..k] + [nodes[k]];
      lists := lists + [list];
    }
    assert nodes[..|nodes|] == nodes;
    ok := true;
  }

  lemma EmptyGraph(nodes: seq<NodeMsg>)
    ensures LoadableNodes(nodes[..0]) && LoadedGraph(nodes[..0]) == Graph([], [], {})
  {
  }

  method LoadNames(saved: seq<NodeName>, n: nat) returns (ok: bool, names: map<string, NodeId>)
    ensures ok <==> LoadableNames(saved, n)
    ensures ok ==> names == NamesFrom(saved)
  {
    names := map[];
    for i := 0 to |saved|
      invariant LoadableNames(saved[..i], n) && names == NamesFrom(saved[..i])
    {
      if saved[i].node >= n {
        return false, names;
      }
      assert saved[..i + 1][..i] == saved[..i];
      if saved[i].name !in names {
        names := names[saved[i].name := saved[i].node];
      }
    }
    assert saved[..|saved|] == saved;
    ok := true;
  }

  // ----- the round trip -----

  /** The loaded graph is the saved one with its nodes renumbered: entry k is node order[k]. */
  ghost predicate Renumbered(g: Graph, attrs: seq<seq<Attribute>>, order: seq<NodeId>, nodes: seq<NodeMsg>)
    requires LoadableNodes(nodes)
  {
    var g' := LoadedGraph(nodes);
    && |g'.op| == |g'.operands| == |order| && |g.op| == |g.operands| == |attrs|
    && forall k: nat :: k < |order| ==>
         && order[k] < |g.op| && g'.op[k] == g.op[order[k]]
         && OperandsSaved(order[..k], g.operands[order[k]], g'.operands[k])
         && LoadedAttrs(nodes[k].attributes) == attrs[order[k]]
  }

  lemma NodeRoundTrip(g: Graph, attrs: seq<seq<Attribute>>, order: seq<NodeId>, k: nat, m: NodeMsg)
    requires k < |order| && Describes(g, attrs) && NodeSaved(g, attrs, order, k, m)
    ensures LoadableNode(m, k)
    ensures LoadedAttrs(m.attributes) == attrs[order[k]] && LoadedOp(m) == g.op[order[k]]
  {
    var n := order[k];
    AttributesRoundTrip(attrs[n]);
    hide LoadedAttrs, SavedAttrs, AllAccepted, OpOf;
    KnownOp(g.op[n]);
    assert OpOf(CodeOf(g.op[n]), attrs[n]) == g.op[n];
    forall i: nat | i < |m.operands|
      ensures m.operands[i] <= k
    {
    }
  }

  lemma KnownOp(op: Op)
    ensures IsKnownOp(CodeOf(op))
  {
  }

  /** What nodesSerialize saved is loaded without an exception, as the same graph. */
  lemma NodesRoundTrip(g: Graph, attrs: seq<seq<Attribute>>, order: seq<NodeId>, nodes: seq<NodeMsg>)
    requires Describes(g, attrs) && NodesSaved(g, attrs, order, nodes)
    ensures LoadableNodes(nodes) && Renumbered(g, attrs, order, nodes)
  {
    hide LoadableNode, LoadedAttrs, LoadedOp, OpOf, OperandsSaved;
    forall k: nat | k < |nodes|
      ensures LoadableNode(nodes[k], k)
    {
      NodeRoundTrip(g, attrs, order, k, nodes[k]);
    }
    var g' := LoadedGraph(nodes);
    forall k: nat | k < |order|
      ensures order[k] < |g.op| && g'.op[k] == g.op[order[k]]
      ensures OperandsSaved(order[..k], g.operands[order[k]], g'.operands[k])
      ensures LoadedAttrs(nodes[k].attributes) == attrs[order[k]]
    {
      NodeRoundTrip(g, attrs, order, k, nodes[k]);
    }
  }

  ghost predicate NoSelfUse(nodes: seq<NodeMsg>)
  {
    forall k: nat :: k < |nodes| ==> k !in nodes[k].operands
  }

  /** A message that is loaded gives a cycle exactly when a node names its own entry as an operand. */
  lemma LoadedAcyclic(nodes: seq<NodeMsg>)
    requires LoadableNodes(nodes)
    ensures Acyclic(LoadedGraph(nodes)) <==> NoSelfUse(nodes)
  {
    var g := LoadedGraph(nodes);
    if NoSelfUse(nodes) {
      var rank: seq<nat> := seq(|nodes|, k => k);
      forall n: NodeId, i: nat | n < |g.operands| && i < |g.operands[n]|
        ensures g.operands[n][i] < |rank| && rank[g.operands[n][i]] < rank[n]
      {
        assert LoadableNode(nodes[n], n) && g.operands[n][i] in nodes[n].operands;
      }
      assert Ranked(g, rank);
    } else {
      var k: nat :| k < |nodes| && k in nodes[k].operands;
      var i: nat :| i < |nodes[k].operands| && nodes[k].operands[i] == k;
      assert g.operands[k][i] == k;
    }
  }

  lemma EnvOfInput(size: nat, env: NodeId -> Slots, env': NodeId -> Slots, n: NodeId, k: NodeId, op: Op,
                   args: seq<Slots>)
    requires env(n) == env'(k)
    ensures Meaning(size, env, n, op, args) == Meaning(size, env', k, op, args)
  {
  }

  lemma LoadedOperand(g: Graph, attrs: seq<seq<Attribute>>, order: seq<NodeId>, nodes: seq<NodeMsg>, k: nat, i: nat)
    requires LoadableNodes(nodes) && Renumbered(g, attrs, order, nodes) && k < |order|
    requires i < |LoadedGraph(nodes).operands[k]|
    ensures order[k] < |g.operands| && |LoadedGraph(nodes).operands[k]| == |g.operands[order[k]]|
    ensures LoadedGraph(nodes).operands[k][i] < k
    ensures order[LoadedGraph(nodes).operands[k][i]] == g.operands[order[k]][i]
  {
    assert OperandsSaved(order[..k], g.operands[order[k]], LoadedGraph(nodes).operands[k]);
  }

  lemma LoadedLive(g: Graph, attrs: seq<seq<Attribute>>, order: seq<NodeId>, nodes: seq<NodeMsg>, k: nat)
    requires LoadableNodes(nodes) && Renumbered(g, attrs, order, nodes) && k < |order|
    ensures Live(LoadedGraph(nodes), k) && order[k] < |g.op| && LoadedGraph(nodes).op[k] == g.op[order[k]]
    ensures order[k] < |g.operands| && |LoadedGraph(nodes).operands[k]| == |g.operands[order[k]]|
  {
    assert OperandsSaved(order[..k], g.operands[order[k]], LoadedGraph(nodes).operands[k]);
  }

  /** The loaded graph computes what the saved one computes. */
  lemma {:induction false} LoadedValue(g: Graph, attrs: seq<seq<Attribute>>, order: seq<NodeId>, nodes: seq<NodeMsg>,
                                       size: nat, env: NodeId -> Slots, env': NodeId -> Slots, v: seq<Slots>,
                                         w: seq<Slots>, k: nat)
    requires LoadableNodes(nodes) && Renumbered(g, attrs, order, nodes) && k < |order| && Live(g, order[k])
    requires forall j: nat :: j < |order| ==> env'(j) == env(order[j])
    requires Interprets(g, SlotSem(size, env), v) && Interprets(LoadedGraph(nodes), SlotSem(size, env'), w)
    ensures w[k] == v[order[k]]
    decreases k
  {
    hide Renumbered, LoadedGraph, LoadableNodes, Meaning;
    var g' := LoadedGraph(nodes);
    LoadedLive(g, attrs, order, nodes, k);
    forall i: nat | i < |g'.operands[k]|
      ensures w[g'.operands[k][i]] == v[g.operands[order[k]][i]]
    {
      LoadedOperand(g, attrs, order, nodes, k, i);
      assert Live(g, g.operands[order[k]][i]);
      LoadedValue(g, attrs, order, nodes, size, env, env', v, w, g'.operands[k][i]);
    }
    assert Args(g', w, k) == Args(g, v, order[k]);
    EnvOfInput(size, env, env', order[k], k, g.op[order[k]], Args(g, v, order[k]));
  }

  /** Saving a graph and loading it again. */
  method SaveAndLoad(d: Dag, lists: seq<AttrList>, ghost attrs: seq<seq<Attribute>>,
                     inputs: map<string, NodeId>, outputs: map<string, NodeId>)
    returns (d': Dag, lists': seq<AttrList>, inputs': map<string, NodeId>, outputs': map<string, NodeId>,
             msg: DagNodes, ghost order: seq<NodeId>)
    requires d.Valid() && Acyclic(d.G()) && ListsHold(lists, attrs) && Describes(d.G(), attrs)
    requires forall s :: s in inputs ==> inputs[s] in Saved(d.G(), d.sinks)
    requires forall s :: s in outputs ==> outputs[s] in Saved(d.G(), d.sinks)
    ensures fresh(d') && d'.Valid() && Acyclic(d'.G())
    ensures TopologicalOrder(d.operands, Saved(d.G(), d.sinks), order)
    ensures LoadableNodes(msg.nodes) && d'.G() == LoadedGraph(msg.nodes)
    ensures Renumbered(d.G(), attrs, order, msg.nodes) && ListsLoaded(lists', msg.nodes)
    ensures NamesSaved(inputs, order, msg.inputs) && inputs' == NamesFrom(msg.inputs)
    ensures NamesSaved(outputs, order, msg.outputs) && outputs' == NamesFrom(msg.outputs)
  {
    hide Describes, Acyclic, NodesSaved, TopologicalOrder, LoadableNodes, LoadedGraph, Renumbered, Saved;
    assert |lists| == |d.op| by { DescribedLength(d.G(), attrs); }
    msg, order := NodesSerialize(d, lists, attrs, inputs, outputs);
    NodesRoundTrip(d.G(), attrs, order, msg.nodes);
    SavedIsAcyclic(d.G(), attrs, order, msg.nodes);
    SavedNamesLoadable(inputs, order, msg.inputs, |msg.nodes|);
    SavedNamesLoadable(outputs, order, msg.outputs, |msg.nodes|);
    var ok;
    ok, d', lists', inputs', outputs' := NodesDeserialize(msg);
  }

  lemma DescribedLength(g: Graph, attrs: seq<seq<Attribute>>)
    requires Describes(g, attrs)
    ensures |attrs| == |g.op|
  {
  }

  lemma SavedIsAcyclic(g: Graph, attrs: seq<seq<Attribute>>, order: seq<NodeId>, nodes: seq<NodeMsg>)
    requires LoadableNodes(nodes) && Renumbered(g, attrs, order, nodes)
    ensures Acyclic(LoadedGraph(nodes)) && |nodes| == |order|
  {
    forall k: nat | k < |nodes|
      ensures k !in nodes[k].operands
    {
      assert OperandsSaved(order[..k], g.operands[order[k]], LoadedGraph(nodes).operands[k]);
    }
    LoadedAcyclic(nodes);
  }

  lemma SavedNamesLoadable(names: map<string, NodeId>, order: seq<NodeId>, saved: seq<NodeName>, n: nat)
    requires NamesSaved(names, order, saved) && n == |order|
    ensures LoadableNames(saved, n)
  {
  }
}
