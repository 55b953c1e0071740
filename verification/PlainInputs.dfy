/** Why plaintext inputs, which makeInput accepts, are kept out of the programs compiled here: one that is
    added to a ciphertext of larger scale is scaled up to a product that the executor refuses. */
module PlainInputs {
  import opened Graphs
  import opened Semantics
  import opened Types
  import opened ModSwitchers
  import opened RescaleSpec
  import opened EncodeInserters
  import opened ExecutorSpec
  import opened ExecutorSafety

  /** The executor takes what stands at node n, if its operands are of their types. */
  predicate Accepted(g: Graph, types: TypeMap, n: NodeId)
    requires n < |g.op| && n < |g.operands|
  {
    ResultKind(g.op[n], TypesOf(types, g.operands[n])) == Yields(TypeAt(types, n))
  }

  /** The type that the type handler gives to a node with operands. */
  function TypeOver(kinds: seq<DataType>): DataType
  {
    if Cipher in kinds then Cipher else Raw
  }

  lemma InferredOver(g: Graph, types: TypeMap, n: NodeId)
    requires n < |g.op| && n < |g.operands| && g.operands[n] != [] && !g.op[n].Encode?
    ensures Inferred(g, types, n) == TypeOver(TypesOf(types, g.operands[n]))
  {
    var kinds := TypesOf(types, g.operands[n]);
    if HasCipherOperand(g, types, n) {
      var i: nat :| i < |g.operands[n]| && TypeAt(types, g.operands[n][i]) == Cipher;
      assert kinds[i] == Cipher;
    }
    if Cipher in kinds {
      var i :| 0 <= i < |kinds| && kinds[i] == Cipher;
      assert TypeAt(types, g.operands[n][i]) == Cipher;
    }
  }

  /** A binary operation is accepted exactly when both operands are vectors, or when there is a ciphertext
      and no vector. */
  lemma BinaryAccepted(op: Op, a: DataType, b: DataType)
    requires IsBinaryOp(op) && a != Undef && b != Undef
    ensures ResultKind(op, [a, b]) == Yields(TypeOver([a, b])) <==>
      (a == Raw && b == Raw) || ((a == Cipher || b == Cipher) && a != Raw && b != Raw)
  {
    assert Cipher in [a, b] <==> a == Cipher || b == Cipher;
    assert [a, b][0] == a && [a, b][1] == b;
  }

  /** The visit of an addition of a ciphertext p and a plaintext o by the rescaler. */
  function Rescaled(g: Graph, scale: ScaleMap, n: NodeId, p: NodeId, o: NodeId): Graph
    requires n < |g.operands|
  {
    if ScaleAt(scale, o) < ScaleAt(scale, p) then ScaledUp(g, n, o) else g
  }

  /** What o has become: itself, or its product with a constant. */
  function Addend(g: Graph, scale: ScaleMap, p: NodeId, o: NodeId): NodeId
  {
    if ScaleAt(scale, o) < ScaleAt(scale, p) then |g.operands| + 1 else o
  }

  /** The addend can be computed exactly when it had not to be scaled up; a product made for it is never
      encoded either. */
  lemma PlainAddend(g: Graph, types: TypeMap, scale: ScaleMap, n: NodeId, p: NodeId, o: NodeId, types': TypeMap)
    requires |g.op| == |g.operands| && n < |g.operands| && g.operands[n] == [p, o] && o < |g.operands|
    requires g.op[o].Input? && g.operands[o] == [] && o != n
    requires TypeAt(types, o) == TypeAt(types', o) == Plain
    requires var r := Rescaled(g, scale, n, p, o);
      forall x: NodeId :: |g.operands| <= x < |r.operands| && x < |r.op| ==> TypeAt(types', x) == Inferred(r, types', x)
    ensures var r, x := Rescaled(g, scale, n, p, o), Addend(g, scale, p, o);
      && x < |r.op| && x < |r.operands|
      && (r.op[x].Input? || Accepted(r, types', x) <==> ScaleAt(scale, o) >= ScaleAt(scale, p))
      && !NeedsEncode(r, types', x, 0) && !NeedsEncode(r, types', x, 1)
  {
    if ScaleAt(scale, o) < ScaleAt(scale, p) {
      var r, c := ScaledUp(g, n, o), |g.operands|;
      ScaledUpShape(g, n, o);
      assert Inferred(r, types', c) == Raw;
      InferredOver(r, types', c + 1);
      assert TypesOf(types', [o, c]) == [Plain, Raw];
      BinaryAccepted(Mul, Plain, Raw);
    }
  }
}
