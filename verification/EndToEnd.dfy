/** From a program to its results: it is prepared and compiled, its inputs are encrypted, the compiled
    graph is executed in place, and the outputs are decrypted. */
module EndToEnd {
  import opened Graphs
  import opened Usage
  import opened Dags
  import opened Traversals
  import opened Semantics
  import opened Types
  import opened ModSwitchers
  import opened ConstantFolding
  import opened CleanNodes
  import opened InitDags
  import opened Uniform
  import opened Threads
  import opened Reductions
  import opened Kinds
  import opened Sizes
  import opened Replication
  import opened ExecutorSpec
  import opened ExecutorSafety
  import opened Executors
  import opened PrimeLists
  import opened Decision
  import opened Levels
  import opened Pipeline
  import opened Compilation

  // ----- what is executed -----

  /** The checks the executor makes on the kinds of its arguments pass at every node. */
  lemma CompiledIsExecutable(size: nat, g: Graph, types: TypeMap)
    requires WellFormed(g) && Runnable(size, g, types)
    ensures Executable(g, types) && OutputsAreSinks(g)
  {
    forall n: NodeId | Live(g, n) && !g.op[n].Input?
      ensures ResultKind(g.op[n], TypesOf(types, g.operands[n])) == Yields(TypeAt(types, n))
    {
      NodeYields(size, g, types, n);
    }
    forall u: NodeId, i: nat | u < |g.operands| && i < |g.operands[u]| && g.operands[u][i] < |g.op|
      ensures !g.op[g.operands[u][i]].Output?
    {
      UsedBy(g, u, i);
    }
  }

  lemma NodeYields(size: nat, g: Graph, types: TypeMap, n: NodeId)
    requires WellFormed(g) && Runnable(size, g, types) && Live(g, n) && !g.op[n].Input?
    ensures ResultKind(g.op[n], TypesOf(types, g.operands[n])) == Yields(TypeAt(types, n))
  {
    var args := g.operands[n];
    TypeDetermined(g, types, n);
    NodeShapeOf(size, g, types, n);
    hide Runnable, WellFormed;
    if |args| == 1 {
      assert TypesOf(types, args) == [TypeAt(types, args[0])];
      UnaryYields(g.op[n], TypeAt(types, n), TypeAt(types, args[0]));
    } else if |args| == 2 {
      assert TypesOf(types, args) == [TypeAt(types, args[0]), TypeAt(types, args[1])];
      BinaryYields(g.op[n], TypeAt(types, n), TypeAt(types, args[0]), TypeAt(types, args[1]));
    }
  }

  lemma NodeShapeOf(size: nat, g: Graph, types: TypeMap, n: NodeId)
    requires WellFormed(g) && Runnable(size, g, types) && Live(g, n)
    ensures |g.operands[n]| == if IsSourceOp(g.op[n]) then 0 else if IsBinaryOp(g.op[n]) then 2 else 1
    ensures forall i: nat :: i < |g.operands[n]| ==>
      KindFits(g.op[n], TypeAt(types, n), TypeAt(types, g.operands[n][i]))
    ensures g.op[n].Encode? <==> TypeAt(types, n) == Plain
    ensures g.op[n].Constant? ==> TypeAt(types, n) == Raw
    ensures g.operands[n] != [] && !g.op[n].Encode? ==> (TypeAt(types, n) == Cipher <==> HasCipherOperand(g, types, n))
    ensures TypeAt(types, n) == Cipher || TypeAt(types, n) == Raw || TypeAt(types, n) == Plain
    ensures |g.operands[n]| == 1 ==> (HasCipherOperand(g, types, n) <==> TypeAt(types, g.operands[n][0]) == Cipher)
    ensures |g.operands[n]| == 2 ==>
      (HasCipherOperand(g, types, n) <==>
        TypeAt(types, g.operands[n][0]) == Cipher || TypeAt(types, g.operands[n][1]) == Cipher)
  {
    assert TypeAt(types, n) == Inferred(g, types, n);
  }

  lemma UnaryYields(op: Op, t: DataType, a: DataType)
    requires !IsSourceOp(op) && !IsBinaryOp(op) && KindFits(op, t, a)
    requires if op.Encode? then t == Plain else t == if a == Cipher then Cipher else Raw
    ensures ResultKind(op, [a]) == Yields(t)
  {
  }

  lemma BinaryYields(op: Op, t: DataType, a: DataType, b: DataType)
    requires IsBinaryOp(op) && KindFits(op, t, a) && KindFits(op, t, b)
    requires t == if a == Cipher || b == Cipher then Cipher else Raw
    ensures ResultKind(op, [a, b]) == Yields(t)
  {
  }

  /** Only encodings take vectors into ciphertexts. */
  lemma CompiledIsHomogeneous(size: nat, g: Graph, types: TypeMap)
    requires WellFormed(g) && Runnable(size, g, types)
    ensures Homogeneous(g, types)
  {
    forall n: NodeId, i: nat | Live(g, n) && n < |g.op| && i < |g.operands[n]|
      ensures TypeAt(types, g.operands[n][i]) == Raw <==> g.op[n].Encode? || TypeAt(types, n) == Raw
    {
      NodeShapeOf(size, g, types, n);
      assert KindFits(g.op[n], TypeAt(types, n), TypeAt(types, g.operands[n][i]));
    }
  }

  /** In a compiled graph no ciphertext that leads to an output has more than three polynomials, and
      what enters a product of ciphertexts, a rotation or an output has two. */
  lemma {:induction false} CompiledSizes(size: nat, g: Graph, types: TypeMap, v: seq<Poly>, n: NodeId,
                                         path: seq<NodeId>)
    requires Runnable(size, g, types) && Interprets<Poly>(g, PolySem(), v) && Live(g, n) && Leads(g, path, n)
    ensures n < |v| && n < |g.operands| && v[n].fits && v[n].size <= 3
    ensures TakesTwo(g.op[n], Args<Poly>(g, v, n)) ==> ArgsSmall(Args<Poly>(g, v, n))
    decreases |path|
  {
    if g.op[n].Output? {
      assert OutputsFitUnder(g, v);
    } else {
      var u := ReachesByUser(g, n, path);
      var i: nat :| i < |g.operands[u]| && g.operands[u][i] == n;
      hide Runnable, Leads;
      CompiledSizes(size, g, types, v, u, path[1..]);
      FitsOperand(g, v, u, i);
    }
    assert v[n] == PolyOf(g.op[n], Args<Poly>(g, v, n));
  }

  // ----- running a compiled graph -----

  /** Inputs are vectors of the program's length. */
  ghost predicate InputsFit(g: Graph, vec: nat, env: NodeId -> Slots)
  {
    forall n: NodeId :: Live(g, n) && n < |g.op| && g.op[n].Input? ==> |env(n)| == vec
  }

  /** What the executor is given for an input. */
  function InputCell(op: Op, dims: Dims, x: Slots): Cell
  {
    if op.Input? && op.encrypted then Held(Cipher, Expand(dims.slots, x)) else Held(Raw, x)
  }

  ghost predicate InputsSet(g: Graph, dims: Dims, env: NodeId -> Slots, objects: Objects, k: nat)
  {
    && (forall n: NodeId :: n < k && n < |g.op| && Live(g, n) && g.op[n].Input? ==>
          CellAt(objects, n) == InputCell(g.op[n], dims, env(n)))
    && (forall n: NodeId :: n in objects ==>
          n < k && n < |g.op| && Live(g, n) && g.op[n].Input? && objects[n] == InputCell(g.op[n], dims, env(n)))
  }

  /** encrypt: ciphertexts hold copies of their vector. */
  method EncryptInputs(d: Dag, dims: Dims, env: NodeId -> Slots) returns (objects: Objects)
    requires d.Valid() && DimsFit(dims) && InputsFit(d.G(), dims.vec, env)
    ensures InputsSet(d.G(), dims, env, objects, |d.op|) && Sized(objects, dims)
  {
    objects := map[];
    for n := 0 to |d.op|
      invariant InputsSet(d.G(), dims, env, objects, n)
    {
      if d.op[n].Input? && (d.operands[n] != [] || n in d.sources) {
        var cell := Held(Raw, env(n));
        if d.op[n].encrypted {
          var filled := Replicate(env(n), dims.slots);
          cell := Held(Cipher, filled);
        }
        objects := objects[n := cell];
      }
    }
    InputsSized(d.G(), dims, env, objects);
  }

  lemma InputsSized(g: Graph, dims: Dims, env: NodeId -> Slots, objects: Objects)
    requires InputsFit(g, dims.vec, env) && InputsSet(g, dims, env, objects, |g.op|)
    ensures Sized(objects, dims)
  {
    forall n: NodeId | CellAt(objects, n).Held?
      ensures |CellAt(objects, n).slots| == Length(dims, CellAt(objects, n).kind)
    {
      assert n in objects;
    }
  }

  lemma InputsStarted(size: nat, g: Graph, uses: seq<seq<NodeId>>, types: TypeMap, dims: Dims, env: NodeId -> Slots,
                      w: seq<Slots>, m: Memory)
    requires WellFormed(g) && Runnable(size, g, types) && UsesInverse(g.operands, uses) && InputsFit(g, dims.vec, env)
    requires Interprets(g, MixedSem(types, dims.vec, dims.slots, env), w) && InputsSet(g, dims, env, m.objects, |g.op|)
    requires !m.failed && !m.misread && forall p: NodeId :: p < |g.operands| ==> OutAt(m.out, p) == |uses[p]|
    ensures Started(g, uses, types, w, m)
  {
    forall p: NodeId | Live(g, p) && g.op[p].Input?
      ensures CellAt(m.objects, p) == Held(TypeAt(types, p), w[p])
    {
      InputTyped(size, g, types, p);
      assert |env(p)| == dims.vec && CellAt(m.objects, p) == InputCell(g.op[p], dims, env(p));
      hide Runnable, WellFormed, UsesInverse, InputsFit, InputsSet, MixedSem;
      assert w[p] == MixedSem(types, dims.vec, dims.slots, env)(p, g.op[p], Args(g, w, p));
      InputMeans(types, dims, env, p, g.op[p].encrypted, Args(g, w, p));
    }
  }

  lemma InputTyped(size: nat, g: Graph, types: TypeMap, p: NodeId)
    requires WellFormed(g) && Runnable(size, g, types) && Live(g, p) && g.op[p].Input?
    ensures TypeAt(types, p) == if g.op[p].encrypted then Cipher else Raw
  {
    NodeShapeOf(size, g, types, p);
    assert TypeAt(types, p) == Inferred(g, types, p);
  }

  lemma InputMeans(types: TypeMap, dims: Dims, env: NodeId -> Slots, p: NodeId, encrypted: bool, args: seq<Slots>)
    requires TypeAt(types, p) == (if encrypted then Cipher else Raw) && |env(p)| == dims.vec
    ensures InputCell(Input(encrypted), dims, env(p))
      == Held(TypeAt(types, p), MixedSem(types, dims.vec, dims.slots, env)(p, Input(encrypted), args))
  {
    assert Fit(dims.vec, env(p)) == env(p);
  }

  /** decrypt and truncate. */
  method DecryptOutput(cell: Cell, vec: nat) returns (x: Slots)
    ensures x == Fit(vec, Read(cell))
  {
    x := Truncate(Read(cell), vec);
  }

  ghost predicate ResultsRight(g: Graph, vec: nat, env: NodeId -> Slots, outputs: seq<NodeId>, results: seq<Slots>)
  {
    |results| == |outputs| && forall v: seq<Slots> :: Interprets(g, SlotSem(vec, env), v) ==>
      forall i: nat :: i < |outputs| ==> outputs[i] < |v| && results[i] == v[outputs[i]]
  }

  /** Encryption, execution and decryption. The results are those of plain evaluation on vectors
      exactly when no operand of an output is used after it in the order of execution. */
  method Run(d: Dag, types: TypeMap, dims: Dims, env: NodeId -> Slots, outputs: seq<NodeId>)
    returns (results: seq<Slots>, failed: bool, misread: bool, ghost order: seq<NodeId>)
    requires d.Valid() && Runnable(dims.vec, d.G(), types) && DimsFit(dims) && InputsFit(d.G(), dims.vec, env)
      && OutputsOf(d.G(), outputs)
    ensures TopologicalOrder(d.operands, LiveNodes(d.G()), order) && !failed
      && (!misread <==> OutputsLast(d.G(), order))
    ensures OutputsSole(d.G(), d.uses) ==> !misread
    ensures !misread ==> ResultsRight(d.G(), dims.vec, env, outputs, results)
  {
    hide Runnable, InputsFit, InputsSet, WellFormed, UsesInverse, SinksMatch, Erased, Interprets, OutputsOf,
         OutputsLast, TopologicalOrder, LiveNodes, ResultsRight, OutputsSole, Sized;
    var objects := EncryptInputs(d, dims, env);
    ghost var w;
    objects, failed, misread, w, order := ExecuteOn(d, types, dims, env, objects);
    results := [];
    for i := 0 to |outputs|
      invariant |results| == i && forall j: nat :: j < i ==>
        results[j] == Fit(dims.vec, Read(CellAt(objects, outputs[j])))
    {
      var x := DecryptOutput(CellAt(objects, outputs[i]), dims.vec);
      results := results + [x];
    }
    if !misread {
      ResultsAreRight(d.G(), types, dims, env, outputs, w, objects, results);
    }
  }

  ghost predicate OutputsHeld(g: Graph, types: TypeMap, w: seq<Slots>, objects: Objects)
  {
    |w| == |g.operands| == |g.op| &&
    forall o: NodeId :: Live(g, o) && g.op[o].Output? ==> CellAt(objects, o) == Held(TypeAt(types, o), w[o])
  }

  /** The executor on encrypted inputs; w is what plain evaluation on replicated slots gives. */
  method ExecuteOn(d: Dag, types: TypeMap, dims: Dims, env: NodeId -> Slots, objects: Objects)
    returns (objects': Objects, failed: bool, misread: bool, ghost w: seq<Slots>, ghost order: seq<NodeId>)
    requires d.Valid() && Runnable(dims.vec, d.G(), types) && DimsFit(dims) && InputsFit(d.G(), dims.vec, env)
    requires InputsSet(d.G(), dims, env, objects, |d.op|) && Sized(objects, dims)
    ensures TopologicalOrder(d.operands, LiveNodes(d.G()), order) && !failed
      && (!misread <==> OutputsLast(d.G(), order))
    ensures OutputsSole(d.G(), d.uses) ==> !misread
    ensures Interprets(d.G(), MixedSem(types, dims.vec, dims.slots, env), w)
      && (!misread ==> OutputsHeld(d.G(), types, w, objects'))
  {
    hide Runnable, InputsFit, InputsSet, Executable, OutputsAreSinks, WellFormed, UsesInverse, SinksMatch, Erased,
         Interprets, Started, OutputsLast, TopologicalOrder, LiveNodes, OutputsSole, ConstantsFit, Acyclic, Sized;
    RunnableShape(dims.vec, d.G(), types);
    CompiledIsExecutable(dims.vec, d.G(), types);
    w := InterpretationExists(d.G(), MixedSem(types, dims.vec, dims.slots, env));
    InterpretedCount(d.G(), types, dims, env, w);
    var e := new SealExecutor(d, objects);
    InputsStarted(dims.vec, d.G(), d.uses, types, dims, env, w, e.Mem());
    order := e.Execute(d, dims, types, w, env);
    objects', failed, misread := e.objects, e.hasErr, e.misread;
  }

  lemma InterpretedCount(g: Graph, types: TypeMap, dims: Dims, env: NodeId -> Slots, w: seq<Slots>)
    requires Interprets(g, MixedSem(types, dims.vec, dims.slots, env), w)
    ensures |w| == |g.operands| == |g.op|
  {
  }

  lemma RunnableShape(size: nat, g: Graph, types: TypeMap)
    requires Runnable(size, g, types)
    ensures Acyclic(g) && ConstantsFit(g, size)
  {
  }

  lemma ResultsAreRight(g: Graph, types: TypeMap, dims: Dims, env: NodeId -> Slots, outputs: seq<NodeId>,
                        w: seq<Slots>, objects: Objects, results: seq<Slots>)
    requires WellFormed(g) && Runnable(dims.vec, g, types) && DimsFit(dims) && OutputsOf(g, outputs)
    requires Interprets(g, MixedSem(types, dims.vec, dims.slots, env), w)
    requires OutputsHeld(g, types, w, objects)
    requires |results| == |outputs| && forall j: nat :: j < |outputs| ==>
      results[j] == Fit(dims.vec, Read(CellAt(objects, outputs[j])))
    ensures ResultsRight(g, dims.vec, env, outputs, results)
  {
    CompiledIsHomogeneous(dims.vec, g, types);
    SlotsCover(dims);
    forall v: seq<Slots> | Interprets(g, SlotSem(dims.vec, env), v)
      ensures forall i: nat :: i < |outputs| ==> outputs[i] < |v| && results[i] == v[outputs[i]]
    {
      forall i: nat | i < |outputs|
        ensures outputs[i] < |v| && results[i] == v[outputs[i]]
      {
        ReplicatedOutput(g, types, dims.vec, dims.slots, env, v, w, outputs[i]);
      }
    }
  }

  lemma SlotsCover(dims: Dims)
    requires DimsFit(dims)
    ensures dims.vec <= dims.slots
  {
    if dims.slots < dims.vec {
      CopyCount(dims.vec, dims.vec, dims.slots);
    }
  }

  // ----- all together -----

  /** The results are what the program computes on its inputs. */
  lemma ResultsOfProgram(size: nat, g0: Graph, g: Graph, types: TypeMap, env: NodeId -> Slots, outputs: seq<NodeId>,
                         results: seq<Slots>)
    requires WellFormed(g) && Runnable(size, g, types) && Refines(size, g0, g) && OutputsOf(g0, outputs)
    requires ResultsRight(g, size, env, outputs, results)
    ensures ResultsRight(g0, size, env, outputs, results)
  {
    RunnableShape(size, g, types);
    var w := InterpretationExists(g, SlotSem(size, env));
    forall v: seq<Slots> | Interprets(g0, SlotSem(size, env), v)
      ensures forall i: nat :: i < |outputs| ==> outputs[i] < |v| && results[i] == v[outputs[i]]
    {
      forall i: nat | i < |outputs|
        ensures outputs[i] < |v| && results[i] == v[outputs[i]]
      {
        CompiledOutputs(size, g0, g, types, env, v, w, outputs[i]);
      }
    }
  }

  lemma InputsStayFit(g0: Graph, g: Graph, size: nat, env: NodeId -> Slots)
    requires SameEnds(g0, g) && InputsFit(g0, size, env)
    ensures InputsFit(g, size, env)
  {
    forall n: NodeId | Live(g, n) && n < |g.op| && g.op[n].Input?
      ensures |env(n)| == size
    {
      assert IsEnd(g.op[n]) && Live(g0, n) && g0.op[n] == g.op[n];
    }
  }

  /** The slots that the chosen degree gives. */
  predicate SlotsFit(found: Found, vec: nat)
  {
    found.Found? && found.degree / 2 > 0 && vec > 0 && found.degree / 2 % vec == 0
  }

  /** A compiled graph can be run just as well once dead nodes are removed from it. */
  lemma CleanedRuns(size: nat, g0: Graph, g: Graph, types: TypeMap)
    requires WellFormed(g0) && WellFormed(g) && Acyclic(g) && Runnable(size, g0, types) && CleanResult(g0, g)
    ensures Runnable(size, g, types) && SameEnds(g0, g)
  {
    CleanKeepsEnds(g0, g);
    CleanExtends(g0, g, PolySem());
    OutputsFitKept(g0, g);
    hide OutputsFit, SizesKept, Acyclic, WellFormed, ReachesOutput;
    forall n: NodeId | n < |g.op| && g.op[n].Output?
      ensures !IsUsed(g, n)
    {
      if IsUsed(g, n) {
        StaysUsed(g0, g, n);
      }
    }
    CleanedKinds(g0, g, types);
  }

  lemma CleanedKinds(g0: Graph, g: Graph, types: TypeMap)
    requires CleanResult(g0, g) && Typed(g0, types) && KindsFit(g0, types)
    ensures Typed(g, types) && KindsFit(g, types)
  {
    hide ReachesOutput;
    forall n: NodeId | Live(g, n)
      ensures TypeAt(types, n) == Inferred(g, types, n)
    {
      assert Live(g0, n) && TypeAt(types, n) == Inferred(g0, types, n);
    }
    forall n: NodeId, i: nat | n < |g.operands| && i < |g.operands[n]|
      ensures KindFits(g.op[n], TypeAt(types, n), TypeAt(types, g.operands[n][i]))
    {
      assert Live(g, n) && g.operands[n] == g0.operands[n];
    }
  }

  /** Vectors whose length is a power of two fill the slots of any degree that is found. */
  lemma VectorsFill(table: nat -> nat, bits: nat, vec: nat, found: Found, j: nat)
    requires DegreeRight(table, bits, vec, found) && found.Found? && vec == PowerOfTwo(j)
    ensures SlotsFit(found, vec)
  {
    var k: nat :| IsLeastDegree(table, bits, k) && LeastWithSlots(Degree(k), vec, found.degree);
    RaisedIs(Degree(k), vec, found.degree);
    if Degree(k) / 2 < vec {
      Remainder(vec, vec, 1, 0);
    } else {
      SlotsOfDegree(k);
      PowersDivide(j, k + 9);
    }
  }

  /** AloDecision::executor: dead nodes go, then the graph is run. */
  method CleanAndRun(d: Dag, types: TypeMap, dims: Dims, env: NodeId -> Slots, outputs: seq<NodeId>)
    returns (results: seq<Slots>, failed: bool, misread: bool, ghost order: seq<NodeId>)
    requires d.Valid() && Runnable(dims.vec, d.G(), types) && DimsFit(dims) && InputsFit(d.G(), dims.vec, env)
      && OutputsOf(d.G(), outputs)
    modifies d
    ensures d.Valid() && Refines(dims.vec, old(d.G()), d.G())
    ensures OutputsAlone(old(d.G())) ==> !misread
    ensures TopologicalOrder(d.operands, LiveNodes(d.G()), order) && !failed
      && (!misread <==> OutputsLast(d.G(), order))
    ensures OutputsSole(d.G(), d.uses) ==> !misread
    ensures !misread ==> ResultsRight(old(d.G()), dims.vec, env, outputs, results)
  {
    hide Runnable, Refines, SameEnds, OutputsOf, InputsFit, WellFormed, UsesInverse, SinksMatch, Erased, ResultsRight,
         TopologicalOrder, LiveNodes, OutputsLast, OutputsSole, Acyclic, SourceArity, CleanResult, IsUsed,
           OutputsAlone, OneOperandOutputs;
    ghost var g0 := d.G();
    RunnableSources(dims.vec, g0, types);
    CleanDeadNodes(d, dims.vec);
    ghost var g := d.G();
    CleanedRuns(dims.vec, g0, g, types);
    SameEndsOf(g0, g, outputs);
    InputsStayFit(g0, g, dims.vec, env);
    CleanedAlone(g0, g);
    RunnableOutputs(dims.vec, g, types);
    AloneIsSole(g, d.uses);
    results, failed, misread, order := Run(d, types, dims, env, outputs);
    if !misread {
      ResultsOfProgram(dims.vec, g0, g, types, env, outputs, results);
    }
  }

  /** What the executor needs: no other use of what an output uses. */
  lemma AloneIsSole(g: Graph, uses: seq<seq<NodeId>>)
    requires WellFormed(g) && UsesInverse(g.operands, uses) && OneOperandOutputs(g)
    ensures |uses| == |g.operands| && |g.op| == |g.operands| && (OutputsAlone(g) ==> OutputsSole(g, uses))
  {
    if OutputsAlone(g) {
      forall o: NodeId, i: nat | o < |g.operands| && g.op[o].Output? && i < |g.operands[o]| && g.operands[o][i] < |uses|
        ensures |uses[g.operands[o][i]]| == 1
      {
        var p := g.operands[o][i];
        assert OutputUses(g, o, p) && g.operands[o] == [p];
        assert UsedOnceBy(g, p, o);
        OneUse(g, uses, p);
      }
    }
  }

  lemma RunnableOutputs(size: nat, g: Graph, types: TypeMap)
    requires WellFormed(g) && Runnable(size, g, types)
    ensures OneOperandOutputs(g)
  {
    ArityOfOutputs(g);
  }

  lemma RunnableSources(size: nat, g: Graph, types: TypeMap)
    requires Runnable(size, g, types)
    ensures Acyclic(g) && SourceArity(g)
  {
  }

  /** All sources and output ranges at the scale of the graph, as setScaleRange sets them, and a
      security table of SEAL's capacity. */
  ghost predicate UniformSetting(g: Graph, scale0: ScaleMap, scale: nat, outputs: seq<NodeId>, ranges: RangeMap,
                                 table: nat -> nat)
  {
    && 0 < scale <= 293 && outputs != [] && SourcesAt(g, scale0, scale)
    && (forall i: nat :: i < |outputs| ==> RangeAt(ranges, outputs[i]) == scale)
    && exists last: nat :: TableWithCapacity(table, last, MAX_SEAL_BITS)
  }

  /** What compilation ends with: the graph, its types and scales, the maximum level and the primes. */
  datatype Compiled = Compiled(graph: Graph, types: TypeMap, scale: ScaleMap, max: nat, parms: seq<nat>)

  /** The primes hold what the outputs of the compiled graph need, by scales that are exact in it and as given
      at the sources of the prepared graph g1, and the degree is the least one for them; nothing is found when
      no output needs any bits. */
  ghost predicate Chosen(g1: Graph, scale0: ScaleMap, fixed: nat, vec: nat, outputs: seq<NodeId>, ranges: RangeMap,
                         table: nat -> nat, c: Compiled, found: Found)
  {
    && Runnable(vec, c.graph, c.types) && Refines(vec, g1, c.graph) && ScalesRight(c.graph, c.types, c.scale)
    && (forall s: NodeId :: s in g1.sources ==> ScaleAt(c.scale, s) == ScaleAt(scale0, s))
    && if exists i: nat :: i < |outputs| && OutputBits(ranges, c.scale, outputs[i]) > 0 then
         && ParametersRight(outputs, ranges, c.scale, fixed, c.max, c.parms)
         && DegreeRight(table, TotalBits(c.parms), vec, found)
         && UniformCompiled(g1, scale0, fixed, outputs, ranges, c.max, c.parms)
       else found.NotFound?
  }

  /** SEAL for programs whose depth leaves room for their primes; beyond 293 bits for all. */
  predicate LibraryRight(depth: nat, scale: nat, library: Library)
  {
    && (scale <= 293 ==> (library.SealCkks? <==> (depth + 3) * scale <= MAX_SEAL_BITS))
    && (scale > 293 && depth < TWO_TO_THE_32 - 3 ==> library.SealCkks?)
  }

  /** What transpile returned for the prepared graph g1. */
  ghost predicate Transpiled(g1: Graph, scale0: ScaleMap, scale: nat, outputs: seq<NodeId>, ranges: RangeMap,
                             table: nat -> nat, compiled: ScaleMap, ok: bool, max: nat, parms: seq<nat>, vec: nat,
                             found: Found)
  {
    && (ok <==> exists i: nat :: i < |outputs| && OutputBits(ranges, compiled, outputs[i]) > 0)
    && (ok ==>
          UniformCompiled(g1, scale0, scale, outputs, ranges, max, parms)
          && DegreeRight(table, TotalBits(parms), vec, found))
  }

  /** In the uniform setting a program kept on SEAL compiles, and a degree is found. */
  lemma UniformSucceeds(g: Graph, g1: Graph, scale0: ScaleMap, scale: nat, outputs: seq<NodeId>, ranges: RangeMap,
                        table: nat -> nat, compiled: ScaleMap, ok: bool, max: nat, parms: seq<nat>, vec: nat,
                        depth: nat, found: Found)
    requires UniformSetting(g, scale0, scale, outputs, ranges, table) && g1.sources <= g.sources
    requires WellFormed(g1) && Acyclic(g1) && LargestDepth(g1, depth) && ChooseLibrary(depth, scale).SealCkks?
    requires Transpiled(g1, scale0, scale, outputs, ranges, table, compiled, ok, max, parms, vec, found)
    ensures ok && found.Found? && TotalBits(parms) == (depth + 3) * scale <= MAX_SEAL_BITS
  {
    assert OutputBits(ranges, compiled, outputs[0]) > 0;
    var last: nat :| TableWithCapacity(table, last, MAX_SEAL_BITS);
    SealParametersExist(g1, scale0, scale, outputs, ranges, max, parms, table, last, vec, depth, found);
  }

  /** Preparation, decision, compilation and a run on a context with the degree that was chosen, where
      the vectors fill its slots. The results are those of the program unless some operand of an output
      is used after it in the order of execution, which cannot be when no output of the program shares
      its operand with another use. With all scales equal, every program kept on SEAL gets its parameters. */
  method CompileAndRun(d: Dag, scale0: ScaleMap, fixed: nat, vec: nat, attr0: LevelAttr, outputs: seq<NodeId>,
                       ranges: RangeMap, table: nat -> nat, ghost end: nat, env: NodeId -> Slots)
    returns (library: Library, found: Found, ran: bool, results: seq<Slots>, failed: bool, misread: bool,
             ghost order: seq<NodeId>, ghost prepared: Graph, ghost depth: nat, ghost compiled: Compiled)
    requires d.Valid() && Program(d.G(), scale0, vec) && fixed > 0 && OutputsOf(d.G(), outputs)
      && table(Degree(end)) == 0
    requires InputsFit(d.G(), vec, env)
    modifies d
    ensures d.Valid() && Refines(vec, old(d.G()), d.G())
    ensures Prepared(old(d.G()), scale0, prepared) && LargestDepth(prepared, depth)
    ensures LibraryRight(depth, fixed, library)
    ensures if library.SealCkks? then Chosen(prepared, scale0, fixed, vec, outputs, ranges, table, compiled, found)
      else found.NotFound?
    ensures library.SealCkks? && UniformSetting(old(d.G()), scale0, fixed, outputs, ranges, table) ==> found.Found?
    ensures found.Found? && (exists j: nat :: vec == PowerOfTwo(j)) ==> ran
    ensures ran <==> library.SealCkks? && SlotsFit(found, vec)
    ensures ran ==>
      !failed && TopologicalOrder(d.operands, LiveNodes(d.G()), order) && (!misread <==> OutputsLast(d.G(), order))
    ensures ran && OutputsAlone(old(d.G())) ==> !misread
    ensures ran && !misread ==> ResultsRight(old(d.G()), vec, env, outputs, results)
  {
    hide Program, Compilable, Runnable, Refines, SameEnds, OutputsOf, InputsFit, WellFormed, UsesInverse, SinksMatch,
         Erased, LevelsRight, ParametersRight, DegreeRight, UniformCompiled, ResultsRight, TopologicalOrder,
         LiveNodes, OutputsLast, OutputsSole,
         Acyclic, SourceArity, Cleaned, UniformSetting, Transpiled, LargestDepth, AloneKept, Prepared, Chosen;
    ghost var g0 := d.G();
    var multDepth := InitDagForDecision(d, scale0, outputs, vec);
    prepared, depth, compiled := d.G(), multDepth, Compiled(d.G(), map[], map[], 0, []);
    library := ChooseLibrary(multDepth, fixed);
    found, ran, results, failed, misread, order := NotFound, false, [], false, false, [];
    if library.SealCkks? {
      ghost var g1 := d.G();
      SameEndsOf(g0, g1, outputs);
      CompilableAcyclic(g1, scale0, vec);
      var types;
      types, found, compiled := Transpile(d, scale0, fixed, vec, attr0, outputs, ranges, table, end, g0, depth);
      TransitiveOutputs(g0, g1, d.G(), vec);
      AloneTransitive(g0, g1, d.G());
      AloneMeans(g0, d.G());
      SameEndsOf(g0, d.G(), outputs);
      InputsStayFit(g0, d.G(), vec, env);
      ran := SlotsFit(found, vec);
      if ran {
        ghost var g2 := d.G();
        results, failed, misread, order := CleanAndRun(d, types, Dims(vec, found.degree / 2), env, outputs);
        if !misread {
          ResultsOfProgram(vec, g0, g2, types, env, outputs, results);
        }
        RefinesTransitive(vec, g0, g2, d.G());
      }
    }
  }

  lemma AloneMeans(g: Graph, r: Graph)
    requires AloneKept(g, r)
    ensures OutputsAlone(g) ==> OutputsAlone(r)
  {
  }

  lemma CompilableAcyclic(g: Graph, scale: ScaleMap, size: nat)
    requires Compilable(g, scale, size)
    ensures Acyclic(g)
  {
  }

  /** transpile; nothing is found when it throws. */
  method Transpile(d: Dag, scale0: ScaleMap, fixed: nat, vec: nat, attr0: LevelAttr, outputs: seq<NodeId>,
                   ranges: RangeMap, table: nat -> nat, ghost end: nat, ghost g0: Graph, ghost depth: nat)
    returns (types: TypeMap, found: Found, ghost compiled: Compiled)
    requires d.Valid() && Compilable(d.G(), scale0, vec) && fixed > 0 && OutputsOf(d.G(), outputs)
      && table(Degree(end)) == 0
    requires LargestDepth(d.G(), depth) && ChooseLibrary(depth, fixed).SealCkks? && d.G().sources <= g0.sources
    modifies d
    ensures d.Valid() && Runnable(vec, d.G(), types) && Refines(vec, old(d.G()), d.G()) && SameEnds(old(d.G()), d.G())
    ensures AloneKept(old(d.G()), d.G())
    ensures Chosen(old(d.G()), scale0, fixed, vec, outputs, ranges, table, compiled, found)
    ensures UniformSetting(g0, scale0, fixed, outputs, ranges, table) ==> found.Found?
    ensures found.Found? && (exists j: nat :: vec == PowerOfTwo(j)) ==> SlotsFit(found, vec)
  {
    hide Compilable, Runnable, Refines, SameEnds, OutputsOf, WellFormed, UsesInverse, SinksMatch, Erased,
         LevelsRight, ParametersRight, DegreeRight, UniformCompiled, Acyclic, UniformSetting, LargestDepth, ScalesRight;
    ghost var g1 := d.G();
    CompilableAcyclic(g1, scale0, vec);
    var ok, scale, attr, levels, max, parms;
    ok, types, scale, attr, levels, max, parms,
      found := Compile(d, scale0, fixed, vec, attr0, outputs, ranges, table, end);
    compiled := Compiled(d.G(), types, scale, max, parms);
    if UniformSetting(g0, scale0, fixed, outputs, ranges, table) {
      UniformSucceeds(g0, g1, scale0, fixed, outputs, ranges, table, scale, ok, max, parms, vec, depth, found);
    }
    if !ok {
      found := NotFound;
    } else if found.Found? && exists j: nat :: vec == PowerOfTwo(j) {
      ghost var j: nat :| vec == PowerOfTwo(j);
      VectorsFill(table, TotalBits(parms), vec, found, j);
    }
  }
}
