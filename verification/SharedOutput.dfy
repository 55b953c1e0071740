/** A program on which the executor is right in one order and wrong in another: a value that is both
    an output and used further, iyfc/seal/comm/seal_executor.h:718. */
module SharedOutput {
  import opened Graphs
  import opened Dags
  import opened Traversals
  import opened Semantics
  import opened Types
  import opened Replication
  import opened ExecutorSpec
  import opened ExecutorSafety

  /** x is negated twice; both negations are outputs. */
  function Program(): Graph
  {
    Graph([Input(true), Negate, Negate, Output, Output], [[], [0], [1], [1], [2]], {0})
  }

  function Uses(): seq<seq<NodeId>>
  {
    [[1], [2, 3], [4], [], []]
  }

  function AllEncrypted(): TypeMap
  {
    map[0 := Cipher, 1 := Cipher, 2 := Cipher, 3 := Cipher, 4 := Cipher]
  }

  /** The first output is executed before, and after, the second negation. */
  function OutputFirst(): seq<NodeId> { [0, 1, 3, 2, 4] }
  function OutputLater(): seq<NodeId> { [0, 1, 2, 3, 4] }

  lemma ProgramShape()
    ensures var g := Program();
      && |g.op| == |g.operands| == 5 && g.sources == {0}
      && g.op[0] == Input(true) && g.op[1] == g.op[2] == Negate && g.op[3] == g.op[4] == Output
      && g.operands[0] == [] && g.operands[1] == [0] && g.operands[2] == g.operands[3] == [1] && g.operands[4] == [2]
  {
  }

  lemma ProgramIsWellFormed()
    ensures WellFormed(Program()) && LiveNodes(Program()) == {0, 1, 2, 3, 4}
    ensures SourceArity(Program()) && OutputsAreSinks(Program())
  {
    ProgramShape();
    hide Program;
    var g := Program();
    forall n: NodeId
      ensures Live(g, n) <==> n < 5
    {
      assert n < 5 ==> n == 0 || n == 1 || n == 2 || n == 3 || n == 4;
    }
    forall n: NodeId, i: nat | n < 5 && i < |g.operands[n]|
      ensures g.operands[n][i] < 3
    {
      assert n == 0 || n == 1 || n == 2 || n == 3 || n == 4;
    }
  }

  lemma NodeIsExecutable(n: NodeId)
    requires 0 < n < 5
    ensures ResultKind(Program().op[n], TypesOf(AllEncrypted(), Program().operands[n])) == Yields(Cipher)
  {
    ProgramShape();
    hide Program;
    var args := Program().operands[n];
    assert n == 1 || n == 2 || n == 3 || n == 4;
    assert |args| == 1 && args[0] < 3;
    assert TypesOf(AllEncrypted(), args) == [Cipher];
  }

  lemma ProgramIsExecutable()
    ensures Executable(Program(), AllEncrypted())
  {
    ProgramShape();
    ProgramIsWellFormed();
    hide Program, ResultKind, SourceArity, WellFormed, OutputsAreSinks, LiveNodes;
    forall n: NodeId | Live(Program(), n) && !Program().op[n].Input?
      ensures ResultKind(Program().op[n],
        TypesOf(AllEncrypted(), Program().operands[n])) == Yields(TypeAt(AllEncrypted(), n))
    {
      assert n != 0;
      NodeIsExecutable(n);
    }
  }

  lemma UsesAreInverse()
    ensures UsesInverse(Program().operands, Uses())
  {
    var operands, uses := Program().operands, Uses();
    forall a: NodeId, u: NodeId | a < |uses|
      ensures Balanced(operands, uses, a, u)
    {
      var none: seq<NodeId> := [];
      assert multiset(none) == multiset{};
      assert multiset([0]) == multiset{0} && multiset([1]) == multiset{1} && multiset([2]) == multiset{2}
        && multiset([4]) == multiset{4};
      assert multiset([2, 3]) == multiset{2, 3};
    }
  }

  lemma BothOrdersAreTopological()
    ensures Schedule(Program(), Uses(), AllEncrypted(), OutputFirst())
    ensures Schedule(Program(), Uses(), AllEncrypted(), OutputLater())
  {
    hide Program, Executable, UsesInverse, WellFormed, OutputsAreSinks, LiveNodes, TopologicalOrder, SourceArity;
    ProgramIsWellFormed();
    ProgramIsExecutable();
    UsesAreInverse();
    OrderIsTopological(OutputFirst());
    OrderIsTopological(OutputLater());
  }

  lemma OrderIsTopological(order: seq<NodeId>)
    requires order == OutputFirst() || order == OutputLater()
    requires LiveNodes(Program()) == {0, 1, 2, 3, 4}
    ensures TopologicalOrder(Program().operands, LiveNodes(Program()), order)
  {
    assert order[0] == 0 && order[1] == 1 && order[4] == 4;
    assert order[2] == 3 || order[2] == 2;
    assert order[3] == 2 || order[3] == 3;
    forall n: NodeId
      ensures n in Elems(order) <==> n in {0, 1, 2, 3, 4}
    {
    }
    forall k: nat | k < |order|
      ensures order[k] < 5 && Unblocked(Program().operands, Elems(order[..k]), order[k])
    {
      if k > 0 {
        assert order[..k][0] == 0;
      }
      if k > 1 {
        assert order[..k][1] == 1;
      }
      if k == 4 {
        assert order[..k][2] == order[2] && order[..k][3] == order[3];
      }
    }
  }

  /** The same program, the same inputs: one order reads an object that has been moved away, the
      other does not. */
  lemma OrderMatters(dims: Dims, env: NodeId -> Slots, v: seq<Slots>, m: Memory)
    requires Interprets(Program(), MixedSem(AllEncrypted(), dims.vec, dims.slots, env), v)
      && Started(Program(), Uses(), AllEncrypted(), v, m)
    ensures Run(Program(), dims, m, OutputFirst(), 5).misread
    ensures !Run(Program(), dims, m, OutputLater(), 5).misread
  {
    hide Program, Schedule, Started, Interprets, Run, OutputsLast;
    BothOrdersAreTopological();
    ProgramShape();
    SafeExactlyWhenOutputsLast(Program(), dims, env, Uses(), AllEncrypted(), v, m, OutputFirst());
    SafeExactlyWhenOutputsLast(Program(), dims, env, Uses(), AllEncrypted(), v, m, OutputLater());
    FirstIsNotLast();
    LaterIsLast();
  }

  lemma FirstIsNotLast()
    ensures !OutputsLast(Program(), OutputFirst())
  {
    ProgramShape();
    hide Program;
    var g := Program();
    assert g.operands[3][0] == 1 && 1 in g.operands[2];
    assert SharesOperand(g, OutputFirst()[2], OutputFirst()[3]);
  }

  lemma LaterIsLast()
    ensures OutputsLast(Program(), OutputLater())
  {
    ProgramShape();
    hide Program;
    var g := Program();
    forall a: nat, b: nat | a < b < 5
      ensures !SharesOperand(g, OutputLater()[a], OutputLater()[b])
    {
      assert OutputLater()[a] == a && OutputLater()[b] == b;
      assert a < 3 ==> !g.op[a].Output? by {
        assert a < 3 ==> a == 0 || a == 1 || a == 2;
      }
      assert a >= 3 ==> a == 3 && b == 4;
    }
  }

  /** Inputs and memory to start from exist. */
  lemma Start(dims: Dims, env: NodeId -> Slots) returns (v: seq<Slots>, m: Memory)
    ensures Interprets(Program(), MixedSem(AllEncrypted(), dims.vec, dims.slots, env), v)
      && Started(Program(), Uses(), AllEncrypted(), v, m)
  {
    ProgramIsWellFormed();
    ProgramIsAcyclic();
    ProgramShape();
    hide Program, WellFormed, Interprets, Acyclic, LiveNodes, SourceArity, OutputsAreSinks;
    v := InterpretationExists(Program(), MixedSem(AllEncrypted(), dims.vec, dims.slots, env));
    ValuesCount(dims, env, v);
    m := Memory(map[0 := Held(Cipher, v[0])], map[0 := 1, 1 := 2, 2 := 1], false, false);
    forall p: NodeId | p < 5
      ensures OutAt(m.out, p) == |Uses()[p]|
      ensures Program().op[p].Input? ==> p == 0
    {
      assert p == 0 || p == 1 || p == 2 || p == 3 || p == 4;
    }
  }

  lemma ProgramIsAcyclic()
    ensures Acyclic(Program())
  {
    ProgramShape();
    hide Program;
    var g, rank: seq<nat> := Program(), [0, 1, 2, 3, 3];
    forall n: NodeId, i: nat | n < 5 && i < |g.operands[n]|
      ensures g.operands[n][i] < 3 && rank[g.operands[n][i]] < rank[n]
    {
      assert n == 0 || n == 1 || n == 2 || n == 3 || n == 4;
    }
    assert Ranked(g, rank);
  }

  lemma ValuesCount(dims: Dims, env: NodeId -> Slots, v: seq<Slots>)
    requires Interprets(Program(), MixedSem(AllEncrypted(), dims.vec, dims.slots, env), v)
    ensures |v| == 5
  {
  }
}
