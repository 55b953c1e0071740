/** The in-place executor against plain evaluation. An output moves its operand away whether or not
    it is the last use: a run is right exactly when no operand of an output is used after it, and
    every order of execution is right exactly when outputs are the only uses of their operands. */
module ExecutorSafety {
  import opened Graphs
  import opened Dags
  import opened Traversals
  import opened Semantics
  import opened Types
  import opened ExecutorSpec
  import opened ConstantFolding
  import opened Replication

  /** The executor's own checks pass at every node. */
  ghost predicate Executable(g: Graph, types: TypeMap)
  {
    && |g.op| == |g.operands| && SourceArity(g)
    && forall n: NodeId :: Live(g, n) && !g.op[n].Input? ==>
         ResultKind(g.op[n], TypesOf(types, g.operands[n])) == Yields(TypeAt(types, n))
  }

  function TypesOf(types: TypeMap, args: seq<NodeId>): (kinds: seq<DataType>)
    ensures |kinds| == |args|
  {
    seq(|args|, i requires 0 <= i < |args| => TypeAt(types, args[i]))
  }

  /** No output shares its operand with another use. */
  ghost predicate OutputsSole(g: Graph, uses: seq<seq<NodeId>>)
    requires |uses| == |g.operands| && |g.op| == |g.operands|
  {
    forall o: NodeId, i: nat ::
      o < |g.operands| && g.op[o].Output? && i < |g.operands[o]| && g.operands[o][i] < |uses| ==>
      |uses[g.operands[o][i]]| == 1
  }

  /** o is an output and u uses its operand. */
  predicate SharesOperand(g: Graph, o: NodeId, u: NodeId)
  {
    && o < |g.operands| && o < |g.op| && u < |g.operands| && g.op[o].Output?
    && exists i: nat :: i < |g.operands[o]| && g.operands[o][i] in g.operands[u]
  }

  /** In this order no operand of an output is used after the output. */
  ghost predicate OutputsLast(g: Graph, order: seq<NodeId>)
  {
    forall a: nat, b: nat :: a < b < |order| ==> !SharesOperand(g, order[a], order[b])
  }

  /** Outputs are not used. */
  ghost predicate OutputsAreSinks(g: Graph)
    requires |g.op| == |g.operands|
  {
    forall u: NodeId, i: nat :: u < |g.operands| && i < |g.operands[u]| && g.operands[u][i] < |g.op| ==>
      !g.op[g.operands[u][i]].Output?
  }

  /** What the executor is given: a typed graph and an order that respects it. */
  ghost predicate Schedule(g: Graph, uses: seq<seq<NodeId>>, types: TypeMap, order: seq<NodeId>)
  {
    && WellFormed(g) && Executable(g, types) && UsesInverse(g.operands, uses) && OutputsAreSinks(g)
    && TopologicalOrder(g.operands, LiveNodes(g), order)
  }

  /** Inputs are set, and every node's out-degree is its number of uses. */
  ghost predicate Started(g: Graph, uses: seq<seq<NodeId>>, types: TypeMap, v: seq<Slots>, m: Memory)
    requires |uses| == |g.operands| && |g.op| == |g.operands|
  {
    && |v| == |g.operands| && !m.failed && !m.misread
    && (forall p: NodeId :: p < |g.operands| ==> OutAt(m.out, p) == |uses[p]|)
    && (forall p: NodeId :: Live(g, p) && g.op[p].Input? ==> CellAt(m.objects, p) == Held(TypeAt(types, p), v[p]))
  }

  predicate Written(g: Graph, order: seq<NodeId>, k: nat, p: NodeId)
    requires k <= |order|
  {
    p in order[..k] || (p < |g.op| && Live(g, p) && g.op[p].Input?)
  }

  /** Kinds are right, and the out-degrees count the uses still to come. */
  ghost predicate Tracked(g: Graph, uses: seq<seq<NodeId>>, types: TypeMap, order: seq<NodeId>, k: nat, m: Memory)
    requires k <= |order| && |uses| == |g.operands| && |g.op| == |g.operands|
    requires forall j: nat :: j < |order| ==> order[j] < |g.operands|
  {
    && !m.failed
    && (forall p: NodeId :: Written(g, order, k, p) ==> CellAt(m.objects, p).kind == TypeAt(types, p))
    && (forall p: NodeId :: p < |g.operands| ==> OutAt(m.out, p) == |uses[p]| - Occurrences(g.operands, order[..k], p))
  }

  /** Every object still needed holds its value. */
  ghost predicate Refined(g: Graph, types: TypeMap, v: seq<Slots>, order: seq<NodeId>, k: nat, m: Memory)
    requires k <= |order| && |v| == |g.operands| && |g.op| == |g.operands|
  {
    && !m.misread
    && (forall p: NodeId :: Written(g, order, k, p) && p < |v| ==>
          CellAt(m.objects, p) == Held(TypeAt(types, p), v[p]) || (OutAt(m.out, p) == 0 && !g.op[p].Output?))
  }

  lemma ScheduleShape(g: Graph, uses: seq<seq<NodeId>>, types: TypeMap, order: seq<NodeId>)
    requires Schedule(g, uses, types, order)
    ensures NoDuplicates(order) && |g.op| == |g.operands| == |uses|
    ensures TopologicalOrder(g.operands, LiveNodes(g), order)
  {
  }

  lemma OperandInRange(g: Graph, uses: seq<seq<NodeId>>, types: TypeMap, order: seq<NodeId>, n: NodeId, i: nat)
    requires Schedule(g, uses, types, order) && n < |g.operands| && i < |g.operands[n]|
    ensures Live(g, g.operands[n][i]) && g.operands[n][i] < |uses|
  {
  }

  lemma OrderBound(g: Graph, order: seq<NodeId>, j: nat)
    requires TopologicalOrder(g.operands, LiveNodes(g), order) && j < |order|
    ensures Live(g, order[j])
  {
    assert order[j] in Elems(order);
  }

  lemma OrderBounds(g: Graph, order: seq<NodeId>)
    requires TopologicalOrder(g.operands, LiveNodes(g), order)
    ensures forall j: nat :: j < |order| ==> order[j] < |g.operands| && Live(g, order[j])
  {
    forall j: nat | j < |order|
      ensures order[j] < |g.operands| && Live(g, order[j])
    {
      OrderBound(g, order, j);
    }
  }

  /** The arguments of the next node have been written. */
  lemma ArgsWritten(g: Graph, order: seq<NodeId>, k: nat, i: nat)
    requires TopologicalOrder(g.operands, LiveNodes(g), order) && k < |order| && order[k] < |g.operands|
    requires i < |g.operands[order[k]]|
    ensures g.operands[order[k]][i] in order[..k]
  {
    assert Unblocked(g.operands, Elems(order[..k]), order[k]);
    var j :| 0 <= j < |order[..k]| && order[..k][j] == g.operands[order[k]][i];
  }

  /** The uses of p that have been executed are among all of its uses. */
  lemma UsesTotal(g: Graph, uses: seq<seq<NodeId>>, types: TypeMap, order: seq<NodeId>, p: NodeId)
    requires Schedule(g, uses, types, order) && p < |uses|
    requires forall j: nat :: j < |order| ==> order[j] < |g.operands|
    ensures Occurrences(g.operands, order, p) == |uses[p]|
  {
    OccurrencesTally(g.operands, uses, order, p);
    forall i: nat | i < |uses[p]|
      ensures uses[p][i] in order
    {
      assert uses[p][i] in uses[p];
      UsersAreUses(g.operands, uses, p, uses[p][i]);
      assert Live(g, uses[p][i]);
      assert uses[p][i] in Elems(order);
    }
    TallyIsLength(uses[p], order);
  }

  lemma UsesLeft(g: Graph, uses: seq<seq<NodeId>>, types: TypeMap, order: seq<NodeId>, k: nat, p: NodeId)
    requires Schedule(g, uses, types, order) && p < |uses| && k < |order|
    requires forall j: nat :: j < |order| ==> order[j] < |g.operands|
    ensures Occurrences(g.operands, order[..k], p) + Count(g.operands[order[k]], p) <= |uses[p]|
  {
    UsesTotal(g, uses, types, order, p);
    OccurrencesStep(g.operands, order, k, p);
    OccurrencesGrow(g.operands, order, k + 1, p);
  }

  // ----- one visit -----

  /** The visit of n moves the object of p. */
  predicate MovedAway(g: Graph, m: Memory, n: NodeId, p: NodeId)
    requires n < |g.operands| && n < |g.op|
  {
    var args := g.operands[n];
    var i := Consumed(g.op[n], Kinds(m.objects, args), Lasts(m.out, args));
    i >= 0 && args[i] == p
  }

  function AfterMove(g: Graph, m: Memory, n: NodeId, p: NodeId): Cell
    requires n < |g.operands| && n < |g.op|
  {
    if MovedAway(g, m, n, p) then Empty(CellAt(m.objects, p).kind) else CellAt(m.objects, p)
  }

  lemma ExecIs(g: Graph, dims: Dims, m: Memory, n: NodeId, kind: DataType)
    requires n < |g.operands| && n < |g.op| && !m.failed && !g.op[n].Input?
    requires ResultKind(g.op[n], Kinds(m.objects, g.operands[n])) == Yields(kind)
    ensures var args, r := g.operands[n], Exec(g, dims, m, n);
      && !r.failed && r.misread == (m.misread || ReadsEmpty(m.objects, args)) && r.out == Decrement(m.out, args)
      && CellAt(r.objects, n) == Held(kind, ValueOf(dims, n, g.op[n], kind, ArgSlots(m.objects, args)))
    ensures forall p: NodeId :: p != n ==> CellAt(Exec(g, dims, m, n).objects, p) == AfterMove(g, m, n, p)
  {
    hide Meaning, ResultKind, ValueOf;
  }

  lemma ArgKinds(g: Graph, uses: seq<seq<NodeId>>, types: TypeMap, order: seq<NodeId>, k: nat, m: Memory)
    requires Schedule(g, uses, types, order) && k < |order|
    requires forall j: nat :: j < |order| ==> order[j] < |g.operands|
    requires Tracked(g, uses, types, order, k, m)
    ensures Kinds(m.objects, g.operands[order[k]]) == TypesOf(types, g.operands[order[k]])
    ensures Live(g, order[k])
    ensures !g.op[order[k]].Input? ==>
      ResultKind(g.op[order[k]], Kinds(m.objects, g.operands[order[k]])) == Yields(TypeAt(types, order[k]))
  {
    OrderBound(g, order, k);
    hide ResultKind;
    forall i: nat | i < |g.operands[order[k]]|
      ensures CellAt(m.objects, g.operands[order[k]][i]).kind == TypeAt(types, g.operands[order[k]][i])
    {
      ArgsWritten(g, order, k, i);
      assert Written(g, order, k, g.operands[order[k]][i]);
    }
  }

  lemma OutStep(g: Graph, uses: seq<seq<NodeId>>, types: TypeMap, order: seq<NodeId>, k: nat, m: Memory, p: NodeId)
    requires Schedule(g, uses, types, order) && k < |order| && p < |g.operands|
    requires forall j: nat :: j < |order| ==> order[j] < |g.operands|
    requires Tracked(g, uses, types, order, k, m)
    ensures var rest := OutAt(Decrement(m.out, g.operands[order[k]]), p);
      && rest == |uses[p]| - Occurrences(g.operands, order[..k+1], p)
      && rest == OutAt(m.out, p) - Count(g.operands[order[k]], p) && rest >= 0
  {
    DecrementAt(m.out, g.operands[order[k]], p);
    OccurrencesStep(g.operands, order, k, p);
    UsesLeft(g, uses, types, order, k, p);
  }

  lemma WrittenNext(g: Graph, order: seq<NodeId>, k: nat, p: NodeId)
    requires k < |order| && Written(g, order, k + 1, p)
    ensures p == order[k] || Written(g, order, k, p)
  {
    assert order[..k+1] == order[..k] + [order[k]];
  }

  lemma InputRuns(g: Graph, dims: Dims, m: Memory, n: NodeId)
    requires n < |g.operands| && n < |g.op| && g.op[n].Input? && !m.failed
    ensures Exec(g, dims, m, n) == m
  {
  }

  lemma TrackedStep(g: Graph, dims: Dims, uses: seq<seq<NodeId>>, types: TypeMap, order: seq<NodeId>, k: nat, m: Memory)
    requires Schedule(g, uses, types, order) && k < |order|
    requires forall j: nat :: j < |order| ==> order[j] < |g.operands|
    requires Tracked(g, uses, types, order, k, m)
    ensures Tracked(g, uses, types, order, k + 1, Exec(g, dims, m, order[k]))
  {
    hide Exec, Consumed, ResultKind, Schedule, Occurrences, OutAt;
    var n := order[k];
    ScheduleShape(g, uses, types, order);
    ArgKinds(g, uses, types, order, k, m);
    if g.op[n].Input? {
      InputTracked(g, uses, types, order, k, m);
      InputRuns(g, dims, m, n);
    } else {
      ExecIs(g, dims, m, n, TypeAt(types, n));
      var r := Exec(g, dims, m, n);
      hide Live, TopologicalOrder;
      forall p: NodeId | Written(g, order, k + 1, p)
        ensures CellAt(r.objects, p).kind == TypeAt(types, p)
      {
        WrittenNext(g, order, k, p);
      }
      forall p: NodeId | p < |g.operands|
        ensures OutAt(r.out, p) == |uses[p]| - Occurrences(g.operands, order[..k+1], p)
      {
        OutStep(g, uses, types, order, k, m, p);
      }
    }
  }

  lemma InputTracked(g: Graph, uses: seq<seq<NodeId>>, types: TypeMap, order: seq<NodeId>, k: nat, m: Memory)
    requires Schedule(g, uses, types, order) && k < |order|
    requires forall j: nat :: j < |order| ==> order[j] < |g.operands|
    requires Tracked(g, uses, types, order, k, m) && Live(g, order[k]) && g.op[order[k]].Input?
    ensures Tracked(g, uses, types, order, k + 1, m)
    ensures forall p: NodeId :: Written(g, order, k + 1, p) ==> Written(g, order, k, p)
  {
    assert g.operands[order[k]] == [];
    forall p: NodeId | p < |g.operands|
      ensures Occurrences(g.operands, order[..k+1], p) == Occurrences(g.operands, order[..k], p)
    {
      OccurrencesStep(g.operands, order, k, p);
    }
    forall p: NodeId | Written(g, order, k + 1, p)
      ensures Written(g, order, k, p)
    {
      WrittenNext(g, order, k, p);
    }
  }

  // ----- values -----

  /** An argument of the node about to be executed still has a use, so its object is there. */
  lemma ArgHeld(g: Graph, uses: seq<seq<NodeId>>, types: TypeMap, v: seq<Slots>, order: seq<NodeId>, k: nat,
                m: Memory, i: nat)
    requires Schedule(g, uses, types, order) && k < |order| && |v| == |g.operands|
    requires forall j: nat :: j < |order| ==> order[j] < |g.operands|
    requires Tracked(g, uses, types, order, k, m) && Refined(g, types, v, order, k, m)
    requires i < |g.operands[order[k]]|
    ensures var p := g.operands[order[k]][i];
      p < |v| && CellAt(m.objects, p) == Held(TypeAt(types, p), v[p]) && !g.op[p].Output? && Live(g, p)
  {
    var p := g.operands[order[k]][i];
    assert Live(g, g.operands[order[k]][i]);
    ArgsWritten(g, order, k, i);
    UsesLeft(g, uses, types, order, k, p);
    CountPositive(g.operands[order[k]], p);
    assert Written(g, order, k, p);
  }

  lemma ArgValues(g: Graph, dims: Dims, env: NodeId -> Slots, uses: seq<seq<NodeId>>, types: TypeMap, v: seq<Slots>,
                  order: seq<NodeId>, k: nat, m: Memory)
    requires Schedule(g, uses, types, order) && k < |order|
      && Interprets(g, MixedSem(types, dims.vec, dims.slots, env), v)
    requires forall j: nat :: j < |order| ==> order[j] < |g.operands|
    requires Tracked(g, uses, types, order, k, m) && Refined(g, types, v, order, k, m)
    requires Live(g, order[k]) && !g.op[order[k]].Input?
    ensures !ReadsEmpty(m.objects, g.operands[order[k]])
    ensures ValueOf(dims, order[k], g.op[order[k]], TypeAt(types, order[k]),
      ArgSlots(m.objects, g.operands[order[k]])) == v[order[k]]
  {
    var n := order[k];
    forall i: nat | i < |g.operands[n]|
      ensures CellAt(m.objects, g.operands[n][i]).Held?
      ensures g.operands[n][i] < |v| && Read(CellAt(m.objects, g.operands[n][i])) == v[g.operands[n][i]]
    {
      ArgHeld(g, uses, types, v, order, k, m, i);
    }
    assert ArgSlots(m.objects, g.operands[n]) == Args(g, v, n);
    assert v[n] == MixedSem(types, dims.vec, dims.slots, env)(n, g.op[n], Args(g, v, n));
    hide Schedule, Tracked, Refined, Interprets, Meaning;
    EnvFree(dims.vec, env, n, g.op[n], Args(g, v, n));
  }

  lemma EnvFree(size: nat, env: NodeId -> Slots, n: NodeId, op: Op, args: seq<Slots>)
    requires !op.Input?
    ensures Meaning(size, env, n, op, args) == Meaning(size, NoInput, n, op, args)
  {
  }

  /** What a visit moves away is not used again. */
  lemma MovedIsDone(g: Graph, uses: seq<seq<NodeId>>, types: TypeMap, order: seq<NodeId>, k: nat, m: Memory, p: NodeId)
    requires Schedule(g, uses, types, order) && k < |order| && OutputsLast(g, order)
    requires forall j: nat :: j < |order| ==> order[j] < |g.operands|
    requires Tracked(g, uses, types, order, k, m) && MovedAway(g, m, order[k], p)
    ensures p < |g.operands| && p < |g.op| && !g.op[p].Output?
    ensures OutAt(Decrement(m.out, g.operands[order[k]]), p) == 0
  {
    var n := order[k];
    var args := g.operands[n];
    var i := Consumed(g.op[n], Kinds(m.objects, args), Lasts(m.out, args));
    MovedBounds(g, uses, types, order, k, m, p);
    OutStep(g, uses, types, order, k, m, p);
    hide Schedule, OutputsLast, Consumed, Kinds;
    if !g.op[n].Output? {
      LastUse(m.out, args, i, p);
    } else {
      UsedNoMore(g, uses, types, order, k, i);
    }
  }

  lemma MovedBounds(g: Graph, uses: seq<seq<NodeId>>, types: TypeMap, order: seq<NodeId>, k: nat, m: Memory, p: NodeId)
    requires Schedule(g, uses, types, order) && k < |order|
    requires forall j: nat :: j < |order| ==> order[j] < |g.operands|
    requires MovedAway(g, m, order[k], p)
    ensures |g.op| == |g.operands| && p < |g.operands| && !g.op[p].Output? && p in g.operands[order[k]]
  {
    var n := order[k];
    var i := Consumed(g.op[n], Kinds(m.objects, g.operands[n]), Lasts(m.out, g.operands[n]));
    assert Live(g, g.operands[n][i]);
  }

  lemma LastUse(out: Degrees, args: seq<NodeId>, i: nat, p: NodeId)
    requires i < |args| && args[i] == p && IsLast(out, args, i) && OutAt(Decrement(out, args), p) >= 0
    ensures OutAt(Decrement(out, args), p) == 0
  {
    DecrementAt(out, args, p);
    assert args == args[..i+1] + args[i+1..];
    CountAppend(args[..i+1], args[i+1..], p);
  }

  /** All uses of an output's operand have been executed once the output has. */
  lemma UsedNoMore(g: Graph, uses: seq<seq<NodeId>>, types: TypeMap, order: seq<NodeId>, k: nat, i: nat)
    requires Schedule(g, uses, types, order) && k < |order| && OutputsLast(g, order)
    requires forall j: nat :: j < |order| ==> order[j] < |g.operands|
    requires g.op[order[k]].Output? && i < |g.operands[order[k]]|
    ensures var p := g.operands[order[k]][i]; p < |uses| && Occurrences(g.operands, order[..k+1], p) == |uses[p]|
  {
    hide Schedule, Occurrences, Live, TopologicalOrder;
    var p := g.operands[order[k]][i];
    ScheduleShape(g, uses, types, order);
    OperandInRange(g, uses, types, order, order[k], i);
    UsesTotal(g, uses, types, order, p);
    forall j: nat | k + 1 <= j < |order|
      ensures p !in g.operands[order[j]]
    {
      assert !SharesOperand(g, order[k], order[j]);
    }
    OccurrencesNone(g.operands, order, k + 1, p);
  }

  lemma RefinedStep(g: Graph, dims: Dims, env: NodeId -> Slots, uses: seq<seq<NodeId>>, types: TypeMap, v: seq<Slots>,
                    order: seq<NodeId>, k: nat, m: Memory)
    requires Schedule(g, uses, types, order) && k < |order| && OutputsLast(g, order)
      && Interprets(g, MixedSem(types, dims.vec, dims.slots, env), v)
    requires forall j: nat :: j < |order| ==> order[j] < |g.operands|
    requires Tracked(g, uses, types, order, k, m) && Refined(g, types, v, order, k, m)
    ensures Refined(g, types, v, order, k + 1, Exec(g, dims, m, order[k]))
  {
    var n := order[k];
    ArgKinds(g, uses, types, order, k, m);
    if g.op[n].Input? {
      InputTracked(g, uses, types, order, k, m);
    } else {
      ExecIs(g, dims, m, n, TypeAt(types, n));
      ArgValues(g, dims, env, uses, types, v, order, k, m);
      var r := Exec(g, dims, m, n);
      hide Exec, Schedule, Consumed, ResultKind, OutputsLast, Interprets, MovedAway, Tracked;
      forall p: NodeId | Written(g, order, k + 1, p) && p < |v|
        ensures CellAt(r.objects, p) == Held(TypeAt(types, p), v[p]) || (OutAt(r.out, p) == 0 && !g.op[p].Output?)
      {
        WrittenNext(g, order, k, p);
        OutStep(g, uses, types, order, k, m, p);
        if p != n && MovedAway(g, m, n, p) {
          MovedIsDone(g, uses, types, order, k, m, p);
        }
      }
    }
  }

  // ----- whole runs -----

  lemma {:induction false} RunTracked(g: Graph, dims: Dims, uses: seq<seq<NodeId>>, types: TypeMap, v: seq<Slots>,
                                      m: Memory, order: seq<NodeId>, k: nat)
    requires Schedule(g, uses, types, order) && Started(g, uses, types, v, m) && k <= |order|
    requires forall j: nat :: j < |order| ==> order[j] < |g.operands|
    ensures Tracked(g, uses, types, order, k, Run(g, dims, m, order, k))
  {
    if k > 0 {
      RunTracked(g, dims, uses, types, v, m, order, k - 1);
      TrackedStep(g, dims, uses, types, order, k - 1, Run(g, dims, m, order, k-1));
    }
  }

  lemma {:induction false} RunRefined(g: Graph, dims: Dims, env: NodeId -> Slots, uses: seq<seq<NodeId>>,
                                      types: TypeMap, v: seq<Slots>, m: Memory, order: seq<NodeId>, k: nat)
    requires Schedule(g, uses, types, order) && Started(g, uses, types, v, m) && k <= |order|
    requires OutputsLast(g, order) && Interprets(g, MixedSem(types, dims.vec, dims.slots, env), v)
    requires forall j: nat :: j < |order| ==> order[j] < |g.operands|
    ensures Refined(g, types, v, order, k, Run(g, dims, m, order, k))
  {
    if k > 0 {
      RunRefined(g, dims, env, uses, types, v, m, order, k - 1);
      RunTracked(g, dims, uses, types, v, m, order, k - 1);
      RefinedStep(g, dims, env, uses, types, v, order, k - 1, Run(g, dims, m, order, k-1));
    }
  }

  /** In every order, a run of the executor ends without error, reads no object that has been moved
      away, and leaves at every output the value of plain evaluation. */
  lemma InPlaceIsSafe(g: Graph, dims: Dims, env: NodeId -> Slots, uses: seq<seq<NodeId>>, types: TypeMap,
                      v: seq<Slots>, m: Memory, order: seq<NodeId>)
    requires Schedule(g, uses, types, order) && Started(g, uses, types, v, m)
    requires OutputsLast(g, order) && Interprets(g, MixedSem(types, dims.vec, dims.slots, env), v)
    requires forall j: nat :: j < |order| ==> order[j] < |g.operands|
    ensures var r := Run(g, dims, m, order, |order|);
      && !r.failed && !r.misread
      && forall o: NodeId :: Live(g, o) && g.op[o].Output? ==> CellAt(r.objects, o) == Held(TypeAt(types, o), v[o])
  {
    RunTracked(g, dims, uses, types, v, m, order, |order|);
    RunRefined(g, dims, env, uses, types, v, m, order, |order|);
    forall o: NodeId | Live(g, o) && g.op[o].Output?
      ensures Written(g, order, |order|, o)
    {
      assert o in Elems(order);
    }
  }

  /** An output that is the only use of its operand comes last in every order. */
  lemma SoleIsLast(g: Graph, uses: seq<seq<NodeId>>, types: TypeMap, order: seq<NodeId>)
    requires Schedule(g, uses, types, order) && OutputsSole(g, uses)
    ensures OutputsLast(g, order)
  {
    ScheduleShape(g, uses, types, order);
    forall a: nat, b: nat | a < b < |order|
      ensures !SharesOperand(g, order[a], order[b])
    {
      if SharesOperand(g, order[a], order[b]) {
        var i: nat :| i < |g.operands[order[a]]| && g.operands[order[a]][i] in g.operands[order[b]];
        TwoUsers(g, uses, g.operands[order[a]][i], order[a], order[b]);
      }
    }
  }

  lemma TwoUsers(g: Graph, uses: seq<seq<NodeId>>, p: NodeId, u: NodeId, w: NodeId)
    requires UsesInverse(g.operands, uses) && WellFormed(g) && u < |g.operands| && w < |g.operands| && u != w
    requires p in g.operands[u] && p in g.operands[w]
    ensures p < |uses| && |uses[p]| > 1
  {
    var i: nat :| i < |g.operands[u]| && g.operands[u][i] == p;
    assert Live(g, g.operands[u][i]);
    UsersAreUses(g.operands, uses, p, u);
    UsersAreUses(g.operands, uses, p, w);
    var a :| 0 <= a < |uses[p]| && uses[p][a] == u;
    var b :| 0 <= b < |uses[p]| && uses[p][b] == w;
  }

  // ----- the order that breaks it -----

  /** The order with its j-th node moved up to right behind the i-th. */
  function MoveUp(order: seq<NodeId>, i: nat, j: nat): (r: seq<NodeId>)
    requires i < j < |order|
    ensures |r| == |order|
    ensures forall k: nat :: k < |order| ==>
      r[k] == if k <= i || k > j then order[k] else if k == i + 1 then order[j] else order[k - 1]
  {
    order[..i+1] + [order[j]] + order[i+1..j] + order[j+1..]
  }

  /** Where the k-th node of the new order stood. */
  function MovedFrom(i: nat, j: nat, k: nat): nat
    requires i < j
  {
    if k <= i || k > j then k else if k == i + 1 then j else k - 1
  }

  function MovedTo(i: nat, j: nat, k: nat): nat
  {
    if k <= i || k > j then k else if k == j then i + 1 else k + 1
  }

  lemma MovedAt(order: seq<NodeId>, i: nat, j: nat, k: nat)
    requires i < j < |order| && k < |order|
    ensures MovedFrom(i, j, k) < |order| && MoveUp(order, i, j)[k] == order[MovedFrom(i, j, k)]
    ensures MovedTo(i, j, k) < |order| && MoveUp(order, i, j)[MovedTo(i, j, k)] == order[k]
    ensures MovedTo(i, j, MovedFrom(i, j, k)) == k
  {
  }

  lemma MovedElems(order: seq<NodeId>, i: nat, j: nat)
    requires i < j < |order| && NoDuplicates(order)
    ensures NoDuplicates(MoveUp(order, i, j)) && Elems(MoveUp(order, i, j)) == Elems(order)
  {
    var r := MoveUp(order, i, j);
    assert |r| == |order|;
    hide MoveUp, MovedFrom, MovedTo;
    forall x: NodeId | x in Elems(order)
      ensures x in Elems(r)
    {
      var k: nat :| k < |order| && order[k] == x;
      MovedAt(order, i, j, k);
    }
    forall x: NodeId | x in Elems(r)
      ensures x in Elems(order)
    {
      var k: nat :| k < |r| && r[k] == x;
      MovedAt(order, i, j, k);
    }
    forall a: nat, b: nat | a < b < |r|
      ensures r[a] != r[b]
    {
      MovedAt(order, i, j, a);
      MovedAt(order, i, j, b);
    }
  }

  lemma MovedPrefix(order: seq<NodeId>, i: nat, j: nat, k: nat)
    requires i < j < |order| && k < |order|
    ensures Elems(order[..if i < k <= j then k - 1 else k]) <= Elems(MoveUp(order, i, j)[..k])
  {
    var r := MoveUp(order, i, j);
    var l := if i < k <= j then k - 1 else k;
    forall x: NodeId | x in Elems(order[..l])
      ensures x in Elems(r[..k])
    {
      var a :| 0 <= a < |order[..l]| && order[..l][a] == x;
      var b := if a <= i || a > j then a else if a == j then i + 1 else a + 1;
      assert r[..k][b] == x;
    }
  }

  lemma MovedTopological(g: Graph, nodes: set<NodeId>, order: seq<NodeId>, i: nat, j: nat)
    requires TopologicalOrder(g.operands, nodes, order) && i < j < |order|
    requires order[j] < |g.operands| && g.operands[order[j]] == [order[i]]
    ensures TopologicalOrder(g.operands, nodes, MoveUp(order, i, j))
  {
    MovedElems(order, i, j);
    var r := MoveUp(order, i, j);
    forall k: nat | k < |r|
      ensures r[k] < |g.operands| && Unblocked(g.operands, Elems(r[..k]), r[k])
    {
      if k == i + 1 {
        assert r[..k][i] == order[i];
      } else {
        MovedPrefix(order, i, j, k);
        var l := if i < k <= j then k - 1 else k;
        assert r[k] == order[l];
        assert Unblocked(g.operands, Elems(order[..l]), order[l]);
      }
    }
  }

  /** Another user of an output's operand. */
  lemma OtherUser(g: Graph, uses: seq<seq<NodeId>>, p: NodeId, o: NodeId) returns (u: NodeId)
    requires UsesInverse(g.operands, uses) && p < |uses| && o < |g.operands| && g.operands[o] == [p] && |uses[p]| != 1
    ensures u != o && u < |g.operands| && p in g.operands[u]
  {
    assert Balanced(g.operands, uses, p, o);
    assert Count([p], p) == 1;
    CountPositive(uses[p], o);
    if uses[p][0] != o {
      u := uses[p][0];
    } else {
      u := uses[p][1];
      CountPop(uses[p], o);
      CountPositive(uses[p][1..], o);
      assert uses[p][1..][0] == u;
    }
    assert u in uses[p];
    UsersAreUses(g.operands, uses, p, u);
  }

  lemma EmptyStep(g: Graph, dims: Dims, uses: seq<seq<NodeId>>, types: TypeMap, order: seq<NodeId>, k: nat, m: Memory,
                  p: NodeId)
    requires Schedule(g, uses, types, order) && k < |order|
    requires forall j: nat :: j < |order| ==> order[j] < |g.operands|
    requires Tracked(g, uses, types, order, k, m) && CellAt(m.objects, p).Empty? && order[k] != p
    ensures CellAt(Exec(g, dims, m, order[k]).objects, p).Empty?
    ensures p in g.operands[order[k]] ==> Exec(g, dims, m, order[k]).misread
  {
    ArgKinds(g, uses, types, order, k, m);
    if p in g.operands[order[k]] {
      ReaderIsNoInput(g, uses, types, order, order[k], p);
      ReaderReadsEmpty(g, m.objects, order[k], p);
    }
    if !g.op[order[k]].Input? {
      hide ResultKind, Consumed, Schedule, Tracked;
      ExecIs(g, dims, m, order[k], TypeAt(types, order[k]));
    }
  }

  lemma EmptyNext(g: Graph, dims: Dims, uses: seq<seq<NodeId>>, types: TypeMap, v: seq<Slots>, m: Memory,
                  order: seq<NodeId>, k: nat, p: NodeId)
    requires Schedule(g, uses, types, order) && Started(g, uses, types, v, m) && k < |order|
    requires forall j: nat :: j < |order| ==> order[j] < |g.operands|
    requires order[k] != p && CellAt(Run(g, dims, m, order, k).objects, p).Empty?
    ensures CellAt(Run(g, dims, m, order, k + 1).objects, p).Empty?
    ensures p in g.operands[order[k]] ==> Run(g, dims, m, order, k + 1).misread
  {
    RunTracked(g, dims, uses, types, v, m, order, k);
    var before := Run(g, dims, m, order, k);
    EmptyStep(g, dims, uses, types, order, k, before, p);
  }

  lemma {:induction false} StaysEmpty(g: Graph, dims: Dims, uses: seq<seq<NodeId>>, types: TypeMap, v: seq<Slots>,
                                      m: Memory, order: seq<NodeId>, from: nat, k: nat, p: NodeId, c: nat)
    requires Schedule(g, uses, types, order) && Started(g, uses, types, v, m) && from <= k <= |order|
    requires forall j: nat :: j < |order| ==> order[j] < |g.operands|
    requires c < from && order[c] == p && CellAt(Run(g, dims, m, order, from).objects, p).Empty?
    ensures CellAt(Run(g, dims, m, order, k).objects, p).Empty?
  {
    if from < k {
      assert NoDuplicates(order) && |g.op| == |g.operands| == |uses|;
      hide Exec, Run, Tracked, Schedule, Started;
      StaysEmpty(g, dims, uses, types, v, m, order, from, k - 1, p, c);
      NotRepeated(order, c, k - 1);
      EmptyNext(g, dims, uses, types, v, m, order, k - 1, p);
    }
  }

  lemma NotRepeated(order: seq<NodeId>, c: nat, k: nat)
    requires NoDuplicates(order) && c < k < |order|
    ensures order[k] != order[c]
  {
  }

  lemma {:induction false} StaysMisread(g: Graph, dims: Dims, m: Memory, order: seq<NodeId>, from: nat, k: nat)
    requires |g.op| == |g.operands| && from <= k <= |order|
    requires forall j: nat :: j < |order| ==> order[j] < |g.operands|
    requires Run(g, dims, m, order, from).misread
    ensures Run(g, dims, m, order, k).misread
  {
    if from < k {
      StaysMisread(g, dims, m, order, from, k - 1);
    }
  }

  lemma ReaderIsNoInput(g: Graph, uses: seq<seq<NodeId>>, types: TypeMap, order: seq<NodeId>, n: NodeId, p: NodeId)
    requires Schedule(g, uses, types, order) && n < |g.operands| && p in g.operands[n]
    ensures |g.op| == |g.operands| && !g.op[n].Input?
  {
    assert Live(g, n);
  }

  lemma ReaderReadsEmpty(g: Graph, objects: Objects, n: NodeId, p: NodeId)
    requires n < |g.operands| && p in g.operands[n] && CellAt(objects, p).Empty?
    ensures ReadsEmpty(objects, g.operands[n])
  {
    var i: nat :| i < |g.operands[n]| && g.operands[n][i] == p;
  }

  /** Executing o empties p, and executing u later reads it. */
  lemma MisreadsLater(g: Graph, dims: Dims, uses: seq<seq<NodeId>>, types: TypeMap, v: seq<Slots>, m: Memory,
                      order: seq<NodeId>, p: NodeId, c: nat, a: nat, b: nat)
    requires Schedule(g, uses, types, order) && Started(g, uses, types, v, m) && c < a < b < |order| && order[c] == p
    requires forall j: nat :: j < |order| ==> order[j] < |g.operands|
    requires g.op[order[a]].Output? && g.operands[order[a]] == [p] && p in g.operands[order[b]]
    ensures Run(g, dims, m, order, |order|).misread
  {
    ScheduleShape(g, uses, types, order);
    hide Exec, Tracked, Schedule, Started, NoDuplicates, TopologicalOrder, Run;
    StillEmptied(g, dims, uses, types, v, m, order, p, c, a, b);
    NotRepeated(order, c, b);
    MisreadFrom(g, dims, uses, types, v, m, order, p, b);
  }

  lemma MisreadFrom(g: Graph, dims: Dims, uses: seq<seq<NodeId>>, types: TypeMap, v: seq<Slots>, m: Memory,
                    order: seq<NodeId>, p: NodeId, b: nat)
    requires Schedule(g, uses, types, order) && Started(g, uses, types, v, m) && b < |order| && order[b] != p
    requires forall j: nat :: j < |order| ==> order[j] < |g.operands|
    requires p in g.operands[order[b]] && |g.op| == |g.operands| && CellAt(Run(g, dims, m, order, b).objects, p).Empty?
    ensures Run(g, dims, m, order, |order|).misread
  {
    EmptyNext(g, dims, uses, types, v, m, order, b, p);
    hide Schedule, Started, Run;
    StaysMisread(g, dims, m, order, b + 1, |order|);
  }

  lemma StillEmptied(g: Graph, dims: Dims, uses: seq<seq<NodeId>>, types: TypeMap, v: seq<Slots>, m: Memory,
                     order: seq<NodeId>, p: NodeId, c: nat, a: nat, b: nat)
    requires Schedule(g, uses, types, order) && Started(g, uses, types, v, m) && c < a < b < |order| && order[c] == p
    requires forall j: nat :: j < |order| ==> order[j] < |g.operands|
    requires g.op[order[a]].Output? && g.operands[order[a]] == [p]
    ensures CellAt(Run(g, dims, m, order, b).objects, p).Empty?
  {
    hide Exec, Tracked, Schedule, Started, Run;
    EmptiedByOutput(g, dims, uses, types, v, m, order, p, c, a);
    StaysEmpty(g, dims, uses, types, v, m, order, a + 1, b, p, c);
  }

  lemma EmptiedByOutput(g: Graph, dims: Dims, uses: seq<seq<NodeId>>, types: TypeMap, v: seq<Slots>, m: Memory,
                        order: seq<NodeId>, p: NodeId, c: nat, a: nat)
    requires Schedule(g, uses, types, order) && Started(g, uses, types, v, m) && c < a < |order| && order[c] == p
    requires forall j: nat :: j < |order| ==> order[j] < |g.operands|
    requires g.op[order[a]].Output? && g.operands[order[a]] == [p]
    ensures CellAt(Run(g, dims, m, order, a+1).objects, p).Empty?
  {
    RunTracked(g, dims, uses, types, v, m, order, a);
    var before := Run(g, dims, m, order, a);
    ArgKinds(g, uses, types, order, a, before);
    NotRepeated(order, c, a);
    assert MovedAway(g, before, order[a], p);
    hide Exec, Tracked, Schedule, Started, MovedAway, ResultKind;
    ExecIs(g, dims, before, order[a], TypeAt(types, order[a]));
  }

  /** A run reads an object that has been moved away exactly when some operand of an output is used
      after it; otherwise every output holds the value of plain evaluation. */
  lemma SafeExactlyWhenOutputsLast(g: Graph, dims: Dims, env: NodeId -> Slots, uses: seq<seq<NodeId>>, types: TypeMap,
                                   v: seq<Slots>, m: Memory, order: seq<NodeId>)
    requires Schedule(g, uses, types, order) && Started(g, uses, types, v, m)
      && Interprets(g, MixedSem(types, dims.vec, dims.slots, env), v)
    requires forall j: nat :: j < |order| ==> order[j] < |g.operands|
    ensures !Run(g, dims, m, order, |order|).failed
    ensures !Run(g, dims, m, order, |order|).misread <==> OutputsLast(g, order)
    ensures OutputsLast(g, order) ==> forall o: NodeId :: Live(g, o) && g.op[o].Output? ==>
      CellAt(Run(g, dims, m, order, |order|).objects, o) == Held(TypeAt(types, o), v[o])
  {
    RunTracked(g, dims, uses, types, v, m, order, |order|);
    hide Schedule, Started, Interprets, Run;
    if OutputsLast(g, order) {
      InPlaceIsSafe(g, dims, env, uses, types, v, m, order);
    } else {
      var a: nat, b: nat :| a < b < |order| && SharesOperand(g, order[a], order[b]);
      SharedIsMisread(g, dims, uses, types, v, m, order, a, b);
    }
  }

  lemma SharedIsMisread(g: Graph, dims: Dims, uses: seq<seq<NodeId>>, types: TypeMap, v: seq<Slots>, m: Memory,
                        order: seq<NodeId>, a: nat, b: nat)
    requires Schedule(g, uses, types, order) && Started(g, uses, types, v, m) && a < b < |order|
    requires forall j: nat :: j < |order| ==> order[j] < |g.operands|
    requires SharesOperand(g, order[a], order[b])
    ensures Run(g, dims, m, order, |order|).misread
  {
    ScheduleShape(g, uses, types, order);
    OutputOperand(g, uses, types, order, a);
    var p := g.operands[order[a]][0];
    hide Schedule, Started, Run;
    var c := BeforeUser(g, order, a, p);
    MisreadsLater(g, dims, uses, types, v, m, order, p, c, a, b);
  }

  lemma OutputOperand(g: Graph, uses: seq<seq<NodeId>>, types: TypeMap, order: seq<NodeId>, a: nat)
    requires Schedule(g, uses, types, order) && a < |order| && order[a] < |g.operands| && order[a] < |g.op|
      && g.op[order[a]].Output?
    ensures |g.operands[order[a]]| == 1
  {
    OrderBound(g, order, a);
  }

  /** When an output shares its operand, any order can be changed into one in which the operand is
      used after the output. */
  lemma SharedOutputComesFirst(g: Graph, uses: seq<seq<NodeId>>, types: TypeMap, order: seq<NodeId>, o: NodeId,
                               p: NodeId)
    returns (bad: seq<NodeId>)
    requires Schedule(g, uses, types, order)
    requires Live(g, o) && g.op[o].Output? && g.operands[o] == [p] && p < |uses| && |uses[p]| != 1
    ensures Schedule(g, uses, types, bad) && (forall j: nat :: j < |bad| ==> bad[j] < |g.operands|)
    ensures !OutputsLast(g, bad)
  {
    var u := OtherUser(g, uses, p, o);
    var j := IndexOf(g, order, o);
    var i := BeforeUser(g, order, j, p);
    var l := IndexOf(g, order, u);
    var i' := BeforeUser(g, order, l, p);
    SameIndex(order, i, i');
    bad := MoveUp(order, i, j);
    MovedSchedule(g, uses, types, order, i, j, bad);
    var b := MovedUser(order, i, j, l, bad);
    assert g.operands[o][0] in g.operands[u] && SharesOperand(g, bad[i + 1], bad[b]);
  }

  /** Every order is right exactly when each output is the only use of its operand. */
  lemma EveryOrderIsSafe(g: Graph, uses: seq<seq<NodeId>>, types: TypeMap, some: seq<NodeId>)
    requires Schedule(g, uses, types, some)
    ensures (forall order: seq<NodeId> :: Schedule(g, uses, types, order) ==> OutputsLast(g, order)) <==>
      OutputsSole(g, uses)
  {
    hide Schedule, OutputsSole, OutputsLast, Live;
    ScheduleShape(g, uses, types, some);
    if OutputsSole(g, uses) {
      forall order: seq<NodeId> | Schedule(g, uses, types, order)
        ensures OutputsLast(g, order)
      {
        SoleIsLast(g, uses, types, order);
      }
    } else {
      var o, p := NotSole(g, uses, types, some);
      var bad := SharedOutputComesFirst(g, uses, types, some, o, p);
    }
  }

  lemma NotSole(g: Graph, uses: seq<seq<NodeId>>, types: TypeMap, order: seq<NodeId>) returns (o: NodeId, p: NodeId)
    requires Schedule(g, uses, types, order) && |g.op| == |g.operands| == |uses| && !OutputsSole(g, uses)
    ensures Live(g, o) && o < |g.op| && g.op[o].Output? && o < |g.operands| && g.operands[o] == [p]
    ensures p < |uses| && |uses[p]| != 1
  {
    var i: nat;
    o, i :| o < |g.operands| && g.op[o].Output? && i < |g.operands[o]| && g.operands[o][i] < |uses|
      && |uses[g.operands[o][i]]| != 1;
    SoleOperand(g, uses, types, order, o);
    p := g.operands[o][i];
  }

  lemma SoleOperand(g: Graph, uses: seq<seq<NodeId>>, types: TypeMap, order: seq<NodeId>, o: NodeId)
    requires Schedule(g, uses, types, order) && o < |g.operands| && o < |g.op| && g.op[o].Output? && g.operands[o] != []
    ensures Live(g, o) && |g.operands[o]| == 1
  {
  }

  lemma MovedSchedule(g: Graph, uses: seq<seq<NodeId>>, types: TypeMap, order: seq<NodeId>, i: nat, j: nat,
                      bad: seq<NodeId>)
    requires Schedule(g, uses, types, order) && i < j < |order| && bad == MoveUp(order, i, j)
    requires order[j] < |g.operands| && g.operands[order[j]] == [order[i]]
    ensures Schedule(g, uses, types, bad) && (forall j: nat :: j < |bad| ==> bad[j] < |g.operands|)
  {
    MovedTopological(g, LiveNodes(g), order, i, j);
    OrderBounds(g, bad);
  }

  /** Where a later use of order[i] stands after the move. */
  lemma MovedUser(order: seq<NodeId>, i: nat, j: nat, l: nat, bad: seq<NodeId>) returns (b: nat)
    requires i < j < |order| && i < l < |order| && l != j && bad == MoveUp(order, i, j)
    ensures i + 1 < b < |bad| && bad[b] == order[l] && bad[i] == order[i] && bad[i + 1] == order[j]
  {
    b := if l < j then l + 1 else l;
  }

  lemma IndexOf(g: Graph, order: seq<NodeId>, n: NodeId) returns (k: nat)
    requires TopologicalOrder(g.operands, LiveNodes(g), order) && n < |g.operands| && g.operands[n] != []
    ensures k < |order| && order[k] == n
  {
    assert Live(g, n) && n in Elems(order);
    k :| 0 <= k < |order| && order[k] == n;
  }

  lemma BeforeUser(g: Graph, order: seq<NodeId>, k: nat, p: NodeId) returns (i: nat)
    requires TopologicalOrder(g.operands, LiveNodes(g), order) && k < |order| && order[k] < |g.operands|
      && p in g.operands[order[k]]
    ensures i < k && order[i] == p
  {
    var a: nat :| a < |g.operands[order[k]]| && g.operands[order[k]][a] == p;
    ArgsWritten(g, order, k, a);
    i :| 0 <= i < |order[..k]| && order[..k][i] == p;
  }

  lemma SameIndex(order: seq<NodeId>, i: nat, j: nat)
    requires NoDuplicates(order) && i < |order| && j < |order| && order[i] == order[j]
    ensures i == j
  {
  }
}
