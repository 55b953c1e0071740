/** Type inference, iyfc/daghandler/type_handler.cpp. */
module Types {
  import opened Graphs
  import opened Dags
  import opened Traversals
  import opened Semantics

  type TypeMap = map<NodeId, DataType>

  /** NodeMap::operator[]: entries not written yet hold the default. */
  function TypeAt(types: TypeMap, n: NodeId): DataType
  {
    if n in types then types[n] else Undef
  }

  function WithType(types: TypeMap, n: NodeId, t: DataType): (r: TypeMap)
    ensures forall p: NodeId :: TypeAt(r, p) == if p == n then t else TypeAt(types, p)
  {
    types[n := t]
  }

  predicate HasCipherOperand(g: Graph, types: TypeMap, n: NodeId)
    requires n < |g.operands|
  {
    exists i: nat :: i < |g.operands[n]| && TypeAt(types, g.operands[n][i]) == Cipher
  }

  function Inferred(g: Graph, types: TypeMap, n: NodeId): DataType
    requires n < |g.operands| && n < |g.op|
  {
    if g.operands[n] != [] then
      if g.op[n].Encode? then Plain else if HasCipherOperand(g, types, n) then Cipher else Raw
    else if g.op[n].Input? && g.op[n].encrypted then Cipher
    else Raw
  }

  /** Every live node has the type that its operands' types give it. */
  ghost predicate Typed(g: Graph, types: TypeMap)
  {
    && |g.op| == |g.operands|
    && forall n: NodeId :: Live(g, n) ==> TypeAt(types, n) == Inferred(g, types, n)
  }

  ghost function Flags(g: Graph, types: TypeMap): seq<bool>
  {
    seq(|g.operands|, n requires 0 <= n < |g.operands| => TypeAt(types, n) == Cipher)
  }

  /** A typing marks exactly the encrypted nodes. */
  lemma TypedInterprets(g: Graph, types: TypeMap)
    requires WellFormed(g) && SourceArity(g) && Typed(g, types)
    ensures Interprets(g, CipherSem(), Flags(g, types))
  {
    var flags := Flags(g, types);
    forall n: NodeId | Live(g, n)
      ensures flags[n] == CipherSem()(n, g.op[n], Args(g, flags, n))
    {
      var args := Args(g, flags, n);
      if HasCipherOperand(g, types, n) {
        var i: nat :| i < |g.operands[n]| && TypeAt(types, g.operands[n][i]) == Cipher;
        assert args[i];
      }
    }
  }

  /** A refinement of the graph does not change the type of an old node whose opcode stays. */
  lemma TypesStable(size: nat, g: Graph, types: TypeMap, g': Graph, types': TypeMap, n: NodeId)
    requires WellFormed(g) && SourceArity(g) && Typed(g, types)
    requires WellFormed(g') && SourceArity(g') && Typed(g', types') && Acyclic(g')
    requires Refines(size, g, g')
    requires Live(g, n) && Live(g', n)
    ensures TypeAt(types', n) == TypeAt(types, n)
  {
    TypedInterprets(g, types);
    TypedInterprets(g', types');
    var v' :| Interprets(g', CipherSem(), v') && Flags(g, types) <= v';
    var rank :| Ranked(g', rank);
    InterpretationUnique(g', CipherSem(), v', Flags(g', types'), rank, n);
    assert Flags(g, types)[n] == Flags(g', types')[n];
    assert (TypeAt(types, n) == Cipher) == (TypeAt(types', n) == Cipher);
    assert g.op[n] == g'.op[n];
    TypeDetermined(g, types, n);
    TypeDetermined(g', types', n);
  }

  lemma TypeDetermined(g: Graph, types: TypeMap, n: NodeId)
    requires SourceArity(g) && Typed(g, types) && Live(g, n)
    ensures TypeAt(types, n) == if g.op[n].Encode? then Plain else if TypeAt(types, n) == Cipher then Cipher else Raw
  {
  }

  /** Two typings of an acyclic graph agree. */
  lemma TypedUnique(g: Graph, a: TypeMap, b: TypeMap, n: NodeId)
    requires WellFormed(g) && Acyclic(g) && SourceArity(g) && Typed(g, a) && Typed(g, b) && Live(g, n)
    ensures TypeAt(a, n) == TypeAt(b, n)
  {
    TypedInterprets(g, a);
    TypedInterprets(g, b);
    var rank :| Ranked(g, rank);
    InterpretationUnique(g, CipherSem(), Flags(g, a), Flags(g, b), rank, n);
    assert (TypeAt(a, n) == Cipher) == (TypeAt(b, n) == Cipher);
    TypeDetermined(g, a, n);
    TypeDetermined(g, b, n);
  }

  /** The first k nodes of the order have been typed and no others touched. */
  ghost predicate TypedUpTo(g: Graph, types0: TypeMap, types: TypeMap, order: seq<NodeId>, k: nat)
    requires k <= |order|
  {
    && (forall j: nat :: j < k ==>
          order[j] < |g.operands| && order[j] < |g.op| && TypeAt(types, order[j]) == Inferred(g, types, order[j]))
    && (forall n: NodeId :: n !in order[..k] ==> TypeAt(types, n) == TypeAt(types0, n))
  }

  /** A forward pass of the type handler. */
  method InferTypes(d: Dag, types0: TypeMap) returns (types: TypeMap)
    requires d.Valid() && Acyclic(d.G())
    ensures Typed(d.G(), types)
    ensures forall n: NodeId :: !Live(d.G(), n) ==> TypeAt(types, n) == TypeAt(types0, n)
  {
    types := types0;
    var order := ForwardOrder(d);
    for k := 0 to |order|
      invariant TypedUpTo(d.G(), types0, types, order, k)
    {
      assert order[k] in Elems(order);
      var inferred := InferNode(d, types, order[k]);
      InferStep(d.G(), types0, types, order, k, inferred);
      types := types[order[k] := inferred];
    }
    InferEnd(d.G(), types0, types, order);
  }

  lemma InferEnd(g: Graph, types0: TypeMap, types: TypeMap, order: seq<NodeId>)
    requires WellFormed(g) && TopologicalOrder(g.operands, LiveNodes(g), order)
    requires TypedUpTo(g, types0, types, order, |order|)
    ensures Typed(g, types)
    ensures forall n: NodeId :: !Live(g, n) ==> TypeAt(types, n) == TypeAt(types0, n)
  {
    forall n: NodeId | Live(g, n)
      ensures TypeAt(types, n) == Inferred(g, types, n)
    {
      assert n in Elems(order);
      var j :| 0 <= j < |order| && order[j] == n;
    }
    forall n: NodeId | !Live(g, n)
      ensures n !in order[..|order|]
    {
      assert n !in Elems(order);
    }
  }

  method InferNode(d: Dag, types: TypeMap, n: NodeId) returns (inferred: DataType)
    requires d.Valid() && Live(d.G(), n)
    ensures inferred == Inferred(d.G(), types, n)
  {
    if |d.operands[n]| > 0 {
      inferred := Raw;
      for i := 0 to |d.operands[n]|
        invariant inferred == if exists k: nat :: k < i && TypeAt(types, d.operands[n][k]) == Cipher then Cipher
          else Raw
      {
        if TypeAt(types, d.operands[n][i]) == Cipher {
          inferred := Cipher;
        }
      }
      if d.op[n].Encode? {
        inferred := Plain;
      }
    } else if d.op[n].Input? && d.op[n].encrypted {
      inferred := Cipher;
    } else {
      inferred := Raw;
    }
  }

  lemma InferStep(g: Graph, types0: TypeMap, types: TypeMap, order: seq<NodeId>, k: nat, inferred: DataType)
    requires WellFormed(g) && k < |order| && TopologicalOrder(g.operands, LiveNodes(g), order)
    requires order[k] < |g.operands| && inferred == Inferred(g, types, order[k])
    requires TypedUpTo(g, types0, types, order, k)
    ensures TypedUpTo(g, types0, types[order[k] := inferred], order, k + 1)
  {
    var types' := types[order[k] := inferred];
    assert order[..k+1] == order[..k] + [order[k]];
    assert NoDuplicates(order);
    hide TopologicalOrder, WellFormed, Inferred, TypeAt;
    forall j: nat | j <= k
      ensures order[j] < |g.operands| && TypeAt(types', order[j]) == Inferred(g, types', order[j])
    {
      InferredSame(g, types, order, k, inferred, j);
      TypeWritten(types, order[k], inferred, order[j]);
      assert j < k ==> order[j] != order[k];
    }
    forall n: NodeId | n !in order[..k+1]
      ensures TypeAt(types', n) == TypeAt(types0, n)
    {
      TypeWritten(types, order[k], inferred, n);
    }
  }

  lemma TypeWritten(types: TypeMap, n: NodeId, t: DataType, p: NodeId)
    ensures TypeAt(types[n := t], p) == if p == n then t else TypeAt(types, p)
  {
  }

  lemma InferredSame(g: Graph, types: TypeMap, order: seq<NodeId>, k: nat, inferred: DataType, j: nat)
    requires WellFormed(g) && j <= k < |order| && TopologicalOrder(g.operands, LiveNodes(g), order)
    ensures order[j] < |g.operands| && order[j] < |g.op|
    ensures Inferred(g, types[order[k] := inferred], order[j]) == Inferred(g, types, order[j])
  {
    OperandTypesKept(g, types, order, k, inferred, j);
    hide TopologicalOrder, WellFormed, TypeAt;
    assert HasCipherOperand(g, types[order[k] := inferred], order[j]) <==> HasCipherOperand(g, types, order[j]);
  }

  lemma OperandTypesKept(g: Graph, types: TypeMap, order: seq<NodeId>, k: nat, inferred: DataType, j: nat)
    requires WellFormed(g) && j <= k < |order| && TopologicalOrder(g.operands, LiveNodes(g), order)
    ensures order[j] < |g.operands|
    ensures forall i: nat :: i < |g.operands[order[j]]| ==>
      TypeAt(types[order[k] := inferred], g.operands[order[j]][i]) == TypeAt(types, g.operands[order[j]][i])
  {
    forall i: nat | i < |g.operands[order[j]]|
      ensures g.operands[order[j]][i] != order[k]
    {
      assert g.operands[order[j]][i] in Elems(order[..j]);
      var m :| 0 <= m < j && order[..j][m] == g.operands[order[j]][i];
      assert order[m] != order[k];
    }
  }
}
