/** Encode insertion, iyfc/seal/alo/encode_inserter.cpp: a raw operand that meets a ciphertext is
    encoded, at the ciphertext's scale for additions and at its own for multiplications. */
module EncodeInserters {
  import opened Graphs
  import opened Usage
  import opened Dags
  import opened Semantics
  import opened Types
  import opened ModSwitchers

  /** Operand i of n is raw and meets a ciphertext. */
  predicate NeedsEncode(g: Graph, types: TypeMap, n: NodeId, i: nat)
    requires n < |g.operands|
  {
    |g.operands[n]| == 2 && i < 2 && TypeAt(types, g.operands[n][i]) == Raw
      && TypeAt(types, g.operands[n][1 - i]) == Cipher
  }

  /** Operand o of n is replaced by its encoding. */
  function Encoded(g: Graph, n: NodeId, o: NodeId): Graph
    requires n < |g.operands|
  {
    ReplaceIn(AddNode(g, Encode, [o]), n, o, |g.operands|)
  }

  function EncodeScale(g: Graph, scale: ScaleMap, n: NodeId, i: nat): nat
    requires n < |g.operands| && n < |g.op| && |g.operands[n]| == 2 && i < 2
  {
    if g.op[n].Add? || g.op[n].Sub? then ScaleAt(scale, g.operands[n][1 - i]) else ScaleAt(scale, g.operands[n][i])
  }

  ghost predicate EncodedOperand(g: Graph, types: TypeMap, scale: ScaleMap, n: NodeId, i: nat,
                                 r: Graph, types': TypeMap, scale': ScaleMap)
    requires n < |g.operands| && n < |g.op|
  {
    && NeedsEncode(g, types, n, i)
    && r == Encoded(g, n, g.operands[n][i])
    && types' == WithType(types, |g.operands|, Plain)
    && scale' == WithScale(scale, |g.operands|, EncodeScale(g, scale, n, i))
  }

  ghost predicate Untouched(g: Graph, types: TypeMap, scale: ScaleMap, n: NodeId, r: Graph, types': TypeMap,
                            scale': ScaleMap)
    requires n < |g.operands|
  {
    && r == g && types' == types && scale' == scale
    && !NeedsEncode(g, types, n, 0) && !NeedsEncode(g, types, n, 1)
  }

  lemma EncodedShape(g: Graph, n: NodeId, o: NodeId)
    requires |g.op| == |g.operands| && n < |g.operands|
    ensures var r, x := Encoded(g, n, o), |g.operands|;
      && |r.operands| == x + 1 && r.op == g.op + [Encode] && r.sources == g.sources
      && r.operands[x] == [o]
      && forall u: NodeId :: u < x ==> r.operands[u] == if u == n then Subst(g.operands[n], o, x) else g.operands[u]
  {
  }

  class EncodeInserter {
    var types: TypeMap
    var scale: ScaleMap

    constructor (types0: TypeMap, scale0: ScaleMap)
      ensures types == types0 && scale == scale0
    {
      types, scale := types0, scale0;
    }

    method InsertEncodeNode(d: Dag, op: Op, other: NodeId, node: NodeId) returns (x: NodeId)
      requires d.Valid() && Live(d.G(), node)
      modifies this, d
      ensures d.Valid() && x == old(|d.operands|) && d.G() == AddNode(old(d.G()), Encode, [node])
      ensures types == WithType(old(types), x, Plain)
      ensures scale == WithScale(old(scale), x, if op.Add? || op.Sub? then ScaleAt(old(scale), other)
        else ScaleAt(old(scale), node))
    {
      x := d.MakeNode(Encode, [node]);
      types := WithType(types, x, Plain);
      if op.Add? || op.Sub? {
        scale := WithScale(scale, x, ScaleAt(scale, other));
      } else {
        scale := WithScale(scale, x, ScaleAt(scale, node));
      }
    }

    method Visit(d: Dag, n: NodeId)
      requires d.Valid() && n < |d.operands| && |d.operands[n]| <= 2
      modifies this, d
      ensures d.Valid()
      ensures || Untouched(old(d.G()), old(types), old(scale), n, d.G(), types, scale)
              || EncodedOperand(old(d.G()), old(types), old(scale), n, 0, d.G(), types, scale)
              || EncodedOperand(old(d.G()), old(types), old(scale), n, 1, d.G(), types, scale)
    {
      if |d.operands[n]| == 0 { return; }
      if |d.operands[n]| == 2 {
        var left, right := d.operands[n][0], d.operands[n][1];
        assert Live(d.G(), d.operands[n][0]) && Live(d.G(), d.operands[n][1]);
        if TypeAt(types, left) == Cipher && TypeAt(types, right) == Raw {
          EncodeOperand(d, n, 1);
        } else if TypeAt(types, right) == Cipher && TypeAt(types, left) == Raw {
          EncodeOperand(d, n, 0);
        }
      }
    }

    method EncodeOperand(d: Dag, n: NodeId, i: nat)
      requires d.Valid() && n < |d.operands| && NeedsEncode(d.G(), types, n, i)
      modifies this, d
      ensures d.Valid() && EncodedOperand(old(d.G()), old(types), old(scale), n, i, d.G(), types, scale)
    {
      var o := d.operands[n][i];
      assert Live(d.G(), d.operands[n][i]);
      var x := InsertEncodeNode(d, d.op[n], d.operands[n][1 - i], o);
      var _ := d.ReplaceOperand(n, o, x);
    }
  }
}
