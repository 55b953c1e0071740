/** The SEAL executor with its objects and out-degrees as fields, iyfc/seal/comm/seal_executor.h
    and iyfc/daghandler/node_degree_cnt.cpp. */
module Executors {
  import opened Graphs
  import opened Dags
  import opened Traversals
  import opened Semantics
  import opened Types
  import opened ConstantFolding
  import opened Replication
  import opened ExecutorSpec
  import opened ExecutorSafety

  /** Vectors have vec values, ciphertexts and plaintexts one value per slot. */
  ghost predicate Sized(objects: Objects, dims: Dims)
  {
    forall n: NodeId :: CellAt(objects, n).Held? ==> |CellAt(objects, n).slots| == Length(dims, CellAt(objects, n).kind)
  }

  function Length(dims: Dims, kind: DataType): nat
  {
    if kind == Raw then dims.vec else dims.slots
  }

  ghost predicate DimsFit(dims: Dims)
  {
    Divides(dims.vec, dims.slots)
  }

  lemma ResultLength(dims: Dims, n: NodeId, op: Op, kind: DataType, args: seq<Slots>)
    ensures |ValueOf(dims, n, op, kind, args)| == Length(dims, kind)
  {
  }

  lemma {:induction false} DecrementLast(out: Degrees, args: seq<NodeId>, a: NodeId)
    ensures Decrement(out, args + [a]) == Decrement(out, args)[a := OutAt(Decrement(out, args), a) - 1]
    decreases |args|
  {
    if args == [] {
      assert ([] + [a])[1..] == [];
    } else {
      assert (args + [a])[1..] == args[1..] + [a];
      DecrementLast(out[args[0] := OutAt(out, args[0]) - 1], args[1..], a);
    }
  }

  lemma LastFlag(out: Degrees, args: seq<NodeId>, i: nat)
    requires i < |args|
    ensures OutAt(Decrement(out, args[..i+1]), args[i]) == 0 <==> IsLast(out, args, i)
  {
    DecrementAt(out, args[..i+1], args[i]);
  }

  class SealExecutor {
    var objects: Objects
    var index2out: Degrees
    var hasErr: bool
    var misread: bool

    function Mem(): Memory
      reads this
    {
      Memory(objects, index2out, hasErr, misread)
    }

    /** The forward pass of NodeDegreeCnt: every node's number of uses. */
    constructor (d: Dag, inputs: Objects)
      requires d.Valid() && Acyclic(d.G())
      ensures objects == inputs && !hasErr && !misread
      ensures forall p: NodeId :: p < |d.operands| ==> p < |d.uses| && OutAt(index2out, p) == |d.uses[p]|
    {
      objects, index2out, hasErr, misread := inputs, map[], false, false;
      new;
      var order := ForwardOrder(d);
      OrderBounds(d.G(), order);
      for k := 0 to |order|
        invariant objects == inputs && !hasErr && !misread
        invariant forall p: NodeId :: p < |d.operands| ==> OutAt(index2out, p) == Occurrences(d.operands, order[..k], p)
      {
        ghost var before := index2out;
        CountOperands(d.operands[order[k]]);
        forall p: NodeId | p < |d.operands|
          ensures OutAt(index2out, p) == Occurrences(d.operands, order[..k+1], p)
        {
          OccurrencesStep(d.operands, order, k, p);
        }
      }
      assert order[..|order|] == order;
      forall p: NodeId | p < |d.operands|
        ensures p < |d.uses| && OutAt(index2out, p) == |d.uses[p]|
      {
        AllCounted(d.G(), d.uses, order, p);
      }
    }

    method CountOperands(args: seq<NodeId>)
      modifies this`index2out
      ensures forall p: NodeId :: OutAt(index2out, p) == OutAt(old(index2out), p) + Count(args, p)
    {
      for i := 0 to |args|
        invariant forall p: NodeId :: OutAt(index2out, p) == OutAt(old(index2out), p) + Count(args[..i], p)
      {
        assert args[..i+1] == args[..i] + [args[i]];
        index2out := index2out[args[i] := OutAt(index2out, args[i]) + 1];
      }
      assert args[..|args|] == args;
    }

    /** Counts the arguments off; the flags tell which ones have no further use. */
    method CountOff(args: seq<NodeId>) returns (last: seq<bool>)
      modifies this`index2out
      ensures index2out == Decrement(old(index2out), args)
      ensures last == Lasts(old(index2out), args)
    {
      last := [];
      for i := 0 to |args|
        invariant |last| == i && index2out == Decrement(old(index2out), args[..i])
        invariant forall j: nat :: j < i ==> last[j] == IsLast(old(index2out), args, j)
      {
        assert args[..i+1] == args[..i] + [args[i]];
        DecrementLast(old(index2out), args[..i], args[i]);
        index2out := index2out[args[i] := OutAt(index2out, args[i]) - 1];
        LastFlag(old(index2out), args, i);
        last := last + [OutAt(index2out, args[i]) == 0];
      }
      assert args[..|args|] == args;
    }

    /** The value of a node: vectors are computed here and replicated by encode, the rest is left to
        SEAL's evaluator. */
    method Compute(d: Dag, n: NodeId, kind: DataType, dims: Dims) returns (slots: Slots)
      requires d.Valid() && n < |d.operands| && DimsFit(dims) && Sized(objects, dims) && ConstantsFit(d.G(), dims.vec)
      requires ResultKind(d.op[n], Kinds(objects, d.operands[n])) == Yields(kind)
      ensures slots == ValueOf(dims, n, d.op[n], kind, ArgSlots(objects, d.operands[n]))
    {
      var op, args := d.op[n], ArgSlots(objects, d.operands[n]);
      if op.Constant? {
        slots := ExpandConstant(op.values, dims.vec);
      } else if ReadsEmpty(objects, d.operands[n]) {
        slots := ValueOf(dims, n, op, kind, args);
      } else if IsFoldableOp(op) && kind == Raw {
        RawArgs(objects, d.operands[n], op, dims);
        slots := ComputeRaw(op, n, args, dims.vec);
      } else if op.Encode? {
        EncodedArg(objects, d.operands[n], op, dims);
        slots := Replicate(args[0], dims.slots);
      } else {
        slots := ValueOf(dims, n, op, kind, args);
      }
    }

    /** The overwritten object of argument a becomes the result; a is left empty. */
    method MoveResult(n: NodeId, a: NodeId, kind: DataType, slots: Slots)
      requires n != a && CellAt(objects, a).kind == kind
      modifies this`objects
      ensures objects == old(objects)[a := Empty(kind)][n := Held(kind, slots)]
    {
      objects := objects[a := Held(kind, slots)];
      objects := objects[n := objects[a]];
      objects := objects[a := Empty(kind)];
    }

    /** operator() */
    method Visit(d: Dag, n: NodeId, dims: Dims)
      requires d.Valid() && n < |d.operands| && n !in d.operands[n] && DimsFit(dims) && Sized(objects, dims)
      requires ConstantsFit(d.G(), dims.vec)
      modifies this
      ensures Mem() == Exec(d.G(), dims, old(Mem()), n) && Sized(objects, dims)
    {
      if hasErr || d.op[n].Input? { return; }
      var args := d.operands[n];
      var kinds := Kinds(objects, args);
      var last := CountOff(args);
      var outcome := ResultKind(d.op[n], kinds);
      if outcome.Fails? {
        hasErr := true;
        return;
      }
      misread := misread || ReadsEmpty(objects, args);
      var slots := Compute(d, n, outcome.kind, dims);
      ResultLength(dims, n, d.op[n], outcome.kind, ArgSlots(objects, args));
      var i := Consumed(d.op[n], kinds, last);
      SizedStep(objects, args, i, n, outcome.kind, slots, dims);
      if i >= 0 {
        ConsumedKind(d.op[n], kinds, last);
        MoveResult(n, args[i], outcome.kind, slots);
      } else {
        objects := objects[n := Held(outcome.kind, slots)];
      }
    }

    /** The execution of a whole graph on the inputs in objects. */
    method Execute(d: Dag, dims: Dims, ghost types: TypeMap, ghost v: seq<Slots>, ghost env: NodeId -> Slots)
      returns (ghost order: seq<NodeId>)
      requires d.Valid() && Acyclic(d.G()) && DimsFit(dims) && ConstantsFit(d.G(), dims.vec) && Sized(objects, dims)
      requires Executable(d.G(), types) && OutputsAreSinks(d.G()) && Started(d.G(), d.uses, types, v, Mem())
      requires Interprets(d.G(), MixedSem(types, dims.vec, dims.slots, env), v)
      modifies this
      ensures TopologicalOrder(d.operands, LiveNodes(d.G()), order) && !hasErr
        && (!misread <==> OutputsLast(d.G(), order))
      ensures !misread ==>
        forall o: NodeId :: Live(d.G(), o) && d.op[o].Output? ==> CellAt(objects, o) == Held(TypeAt(types, o), v[o])
      ensures OutputsSole(d.G(), d.uses) ==> !misread
    {
      ghost var m := Mem();
      var visited := ForwardOrder(d);
      order := visited;
      OrderBounds(d.G(), order);
      hide Started, Executable, OutputsAreSinks, Interprets, TopologicalOrder, UsesInverse, SinksMatch, WellFormed,
           Erased, Exec;
      for k := 0 to |visited|
        invariant Mem() == Run(d.G(), dims, m, order, k) && Sized(objects, dims)
      {
        NotOwnOperand(d.G(), visited[k]);
        Visit(d, visited[k], dims);
      }
      ScheduleHolds(d, types, order);
      SafeExactlyWhenOutputsLast(d.G(), dims, env, d.uses, types, v, m, order);
      if OutputsSole(d.G(), d.uses) {
        SoleIsLast(d.G(), d.uses, types, order);
      }
    }
  }

  /** Nothing has been moved away from, and all arguments of an operation on vectors are vectors. */
  lemma RawArgs(objects: Objects, args: seq<NodeId>, op: Op, dims: Dims)
    requires Sized(objects, dims) && IsFoldableOp(op) && ResultKind(op, Kinds(objects, args)) == Yields(Raw)
      && !ReadsEmpty(objects, args)
    ensures |args| == if IsBinaryOp(op) then 2 else 1
    ensures forall i: nat :: i < |args| ==> |ArgSlots(objects, args)[i]| == dims.vec
  {
    forall i: nat | i < |args|
      ensures CellAt(objects, args[i]).Held? && CellAt(objects, args[i]).kind == Raw
    {
      assert Kinds(objects, args)[i] == Raw;
    }
  }

  lemma EncodedArg(objects: Objects, args: seq<NodeId>, op: Op, dims: Dims)
    requires Sized(objects, dims) && op.Encode? && ResultKind(op, Kinds(objects, args)).Yields?
      && !ReadsEmpty(objects, args)
    ensures |args| == 1 && |ArgSlots(objects, args)[0]| == dims.vec
  {
    assert Kinds(objects, args)[0] == Raw;
    assert CellAt(objects, args[0]).Held?;
  }

  lemma SizedStep(objects: Objects, args: seq<NodeId>, i: int, n: NodeId, kind: DataType, slots: Slots, dims: Dims)
    requires Sized(objects, dims) && |slots| == Length(dims, kind) && -1 <= i < |args|
    ensures Sized(MoveFrom(objects, args, i)[n := Held(kind, slots)], dims)
  {
    var r := MoveFrom(objects, args, i)[n := Held(kind, slots)];
    forall p: NodeId | CellAt(r, p).Held?
      ensures |CellAt(r, p).slots| == Length(dims, CellAt(r, p).kind)
    {
      assert p == n || CellAt(r, p) == CellAt(objects, p);
    }
  }

  lemma NotOwnOperand(g: Graph, n: NodeId)
    requires Acyclic(g) && n < |g.operands|
    ensures n !in g.operands[n]
  {
    var rank :| Ranked(g, rank);
  }

  lemma ScheduleHolds(d: Dag, types: TypeMap, order: seq<NodeId>)
    requires d.Valid() && Executable(d.G(), types) && OutputsAreSinks(d.G())
    requires TopologicalOrder(d.operands, LiveNodes(d.G()), order)
    ensures Schedule(d.G(), d.uses, types, order)
  {
  }

  lemma AllCounted(g: Graph, uses: seq<seq<NodeId>>, order: seq<NodeId>, p: NodeId)
    requires WellFormed(g) && UsesInverse(g.operands, uses) && TopologicalOrder(g.operands, LiveNodes(g), order)
      && p < |g.operands|
    requires forall j: nat :: j < |order| ==> order[j] < |g.operands|
    ensures p < |uses| && Occurrences(g.operands, order, p) == |uses[p]|
  {
    OccurrencesTally(g.operands, uses, order, p);
    forall i: nat | i < |uses[p]|
      ensures uses[p][i] in order
    {
      assert uses[p][i] in uses[p];
      UsersAreUses(g.operands, uses, p, uses[p][i]);
      assert Live(g, uses[p][i]);
      assert uses[p][i] in Elems(order);
    }
    TallyIsLength(uses[p], order);
  }

  /** A consumed argument is of the kind of the result. */
  lemma ConsumedKind(op: Op, kinds: seq<DataType>, last: seq<bool>)
    requires |kinds| == |last| && ResultKind(op, kinds).Yields? && Consumed(op, kinds, last) >= 0
    ensures kinds[Consumed(op, kinds, last)] == ResultKind(op, kinds).kind
  {
  }

  method ComputeRaw(op: Op, n: NodeId, args: seq<Slots>, vecSize: nat) returns (slots: Slots)
    requires vecSize > 0 && IsFoldableOp(op) && |args| == (if IsBinaryOp(op) then 2 else 1)
    requires |args[0]| == vecSize && (IsBinaryOp(op) ==> |args[1]| == vecSize)
    ensures slots == Meaning(vecSize, NoInput, n, op, args)
  {
    if IsBinaryOp(op) {
      assert args == [args[0], args[1]];
      if op.Add? {
        slots := AddValues(args[0], args[1]);
      } else if op.Sub? {
        slots := SubValues(args[0], args[1]);
      } else {
        slots := MulValues(args[0], args[1]);
      }
    } else if op.Negate? {
      slots := NegateValues(args[0]);
    } else {
      slots := RotateRaw(op, n, args, vecSize);
    }
  }

  /** left_rotate_raw and right_rotate_raw copy the two parts of the vector. */
  method RotateRaw(op: Op, n: NodeId, args: seq<Slots>, vecSize: nat) returns (slots: Slots)
    requires vecSize > 0 && (op.RotateLeft? || op.RotateRight?) && |args| == 1 && |args[0]| == vecSize
    ensures slots == Meaning(vecSize, NoInput, n, op, args)
  {
    var x := args[0];
    var shift := NormalShift(op.shift, vecSize);
    if op.RotateLeft? {
      slots := x[shift..] + x[..shift];
      forall k: nat | k < vecSize
        ensures slots[k] == At(x, (k + op.shift) % vecSize)
      {
        ShiftedIndex(k, op.shift, shift, vecSize);
      }
    } else {
      slots := x[vecSize-shift..] + x[..vecSize-shift];
      forall k: nat | k < vecSize
        ensures slots[k] == At(x, (k + -op.shift) % vecSize)
      {
        RightIndex(k, op.shift, shift, vecSize);
      }
    }
  }
}
