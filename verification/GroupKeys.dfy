/** When the key prime is the largest: for a single graph always, since setScaleRange sets scales and
    ranges alike (iyfc/dag/iyfc_dag.cpp:423-426); in a group that addDag has left with a smaller scale
    than one of its graphs, not always (iyfc/dag/iyfc_dag.cpp:672-678). */
module GroupKeys {
  import opened Graphs
  import opened Dags
  import opened Traversals
  import opened Semantics
  import opened Types
  import opened ModSwitchers
  import opened ConstantFolding
  import opened Chains
  import opened ChainLevels
  import opened Kinds
  import opened Uniform
  import opened Selectors
  import opened PrimeLists
  import opened Decision
  import opened Compilation
  import opened DagGroups

  /** The last prime of the list, and no other exceeds it. */
  predicate LargestIsKey(parms: seq<nat>)
  {
    parms != [] && AllAtMost(parms, parms[|parms| - 1])
  }

  /** For a single graph. */
  lemma UniformKeyIsLargest(g0: Graph, scale0: ScaleMap, scale: nat, outputs: seq<NodeId>, ranges: RangeMap, max: nat,
                            parms: seq<nat>)
    requires SourcesAt(g0, scale0, scale) && forall i: nat :: i < |outputs| ==> RangeAt(ranges, outputs[i]) == scale
    requires UniformCompiled(g0, scale0, scale, outputs, ranges, max, parms)
    ensures LargestIsKey(parms)
  {
  }

  /** For outputs whose range and scale are those of a child, selected at the scale of the group. */
  lemma KeyInGroup(outputs: seq<NodeId>, ranges: RangeMap, scale: ScaleMap, child: nat, group: nat, max: nat,
                   parms: seq<nat>)
    requires outputs != [] && ParametersRight(outputs, ranges, scale, group, max, parms)
    requires forall i: nat :: i < |outputs| ==> OutputBits(ranges, scale, outputs[i]) == 2 * child
    ensures LargestIsKey(parms) <==> !KeyMayBeSmall(2 * child, group)
    ensures parms != [] && (child == group ==> LargestIsKey(parms))
  {
    var head: seq<nat>, key: nat, bits: nat :| ListRight(outputs, ranges, scale, group, max, parms, head, key, bits);
    assert bits == 2 * child by {
      assert OutputBits(ranges, scale, outputs[0]) == 2 * child;
    }
    assert parms[|parms| - 1] == key;
    if child == group {
      Remainder(2 * group, group, 2, 0);
    }
  }

  // ----- a graph without products -----

  /** An encrypted input that is an output as it is. */
  function Echo(): (g: Graph)
    ensures |g.op| == |g.operands| == 2 && g.op[0] == Input(true) && g.op[1] == Output
    ensures g.operands[0] == [] && g.operands[1] == [0] && g.sources == {0}
  {
    Graph([Input(true), Output], [[], [0]], {0})
  }

  lemma EchoLive()
    ensures forall n: NodeId :: Live(Echo(), n) <==> n < 2
  {
  }

  lemma EchoShape()
    ensures WellFormed(Echo()) && Acyclic(Echo())
    ensures forall n: NodeId :: Live(Echo(), n) <==> n < 2
  {
    EchoLive();
    hide Echo, Live;
    var g, rank := Echo(), seq<nat>(2, i requires 0 <= i < 2 => i);
    forall n: NodeId, i: nat | n < 2 && i < |g.operands[n]|
      ensures n == 1 && g.operands[n][i] == 0
    {
    }
    assert Ranked(g, rank);
  }

  lemma EchoOps()
    ensures SourceArity(Echo()) && OutputsOf(Echo(), [1])
  {
    EchoLive();
    hide Echo, Live;
    assert [1][0] == 1;
  }

  lemma EchoKinds(types: TypeMap)
    requires Typed(Echo(), types)
    ensures KindsFit(Echo(), types)
  {
    EchoShape();
    hide Echo, WellFormed, Acyclic;
    assert TypeAt(types, 0) == Inferred(Echo(), types, 0) == Cipher;
  }

  lemma EchoChain()
    ensures LongestChain(Echo(), 0)
  {
    EchoShape();
    hide Echo, WellFormed, Acyclic;
    forall c: seq<nat> | Interprets<nat>(Echo(), ChainSem(), c)
      ensures ChainsReach(Echo(), c, 0)
    {
      EchoChainAt(c);
    }
  }

  lemma EchoChainAt(c: seq<nat>)
    requires Interprets<nat>(Echo(), ChainSem(), c)
    ensures |c| == 2 && c[0] == c[1] == 0
  {
    EchoLive();
    hide Echo, WellFormed;
    assert Live(Echo(), 0) && Live(Echo(), 1);
    assert c[0] == ChainOf(Input(true), Args<nat>(Echo(), c, 0));
    var args := Args<nat>(Echo(), c, 1);
    assert args == [c[0]] && c[1] == ChainOf(Output, args);
  }

  method MakeEcho() returns (d: Dag)
    ensures fresh(d) && d.Valid() && d.G() == Echo()
  {
    d := new Dag();
    var x := d.MakeNode(Input(true), []);
    assert Live(d.G(), x);
    var o := d.MakeNode(Output, [x]);
    assert d.G() == Echo();
  }

  /** Only a scale of the group that is below 20 and below the child's, and does not divide what the
      output needs, makes the key prime too small. */
  predicate ChildNeedsMore(group: nat, child: nat)
    requires group > 0
  {
    group < 20 && group < child && 2 * child % group != 0
  }

  lemma WhenChildNeedsMore(group: nat, child: nat)
    requires 0 < group && 0 < child
    ensures KeyMayBeSmall(2 * child, if child < group then child else group) <==> ChildNeedsMore(group, child)
  {
    if child <= group {
      Remainder(2 * child, child, 2, 0);
    }
  }

  /** determineEncryptionParameters for a group to which a child with this graph has been added: sources
      and output ranges are at the scale of the child, the rest goes by the scale of the group. */
  method SelectAfterAdd(g: Group, name: string, child: DagState, table: nat -> nat, ghost end: nat)
    returns (ok: bool, parms: seq<nat>, found: Found)
    requires 0 < child.scale && 0 < g.own.scale && table(Degree(end)) == 0
    ensures ok && parms != [] && (LargestIsKey(parms) <==> !ChildNeedsMore(g.own.scale, child.scale))
  {
    var after := AfterAdd(g, name, child);
    var group, scale := after.own.scale, after.children[name].scale;
    WhenChildNeedsMore(g.own.scale, child.scale);
    var d := MakeEcho();
    EchoShape();
    EchoOps();
    var types := InferTypes(d, map[]);
    EchoKinds(types);
    EchoChain();
    var ranges, scales: ScaleMap := map[1 := scale], map[0 := scale, 1 := scale];
    assert OutputBits(ranges, scales, [1][0]) == 2 * scale > 0;
    hide Echo, AfterAdd, KeyMayBeSmall, ChildNeedsMore, SourceArity, OutputsOf;
    ok, parms, found := DetermineParameters(d, types, scales, group, 0, [1], ranges, 1, table, end);
    KeyInGroup([1], ranges, scales, scale, group, 0, parms);
  }

  /** A child at scale 20 in a group at scale 19: the key prime is not the largest. */
  method SelectSmallKey(table: nat -> nat, ghost end: nat) returns (ok: bool, parms: seq<nat>)
    requires table(Degree(end)) == 0
    ensures ok && parms != [] && !LargestIsKey(parms)
  {
    hide LargestIsKey;
    var group := Group(DagState(0, NO_INDEX, [], 19, 1, 0, 0), map[]);
    var child := DagState(2, 0, [0, 1], 20, 1, 1, 1);
    var found;
    ok, parms, found := SelectAfterAdd(group, "child", child, table, end);
  }
}
