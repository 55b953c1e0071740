/** Slot replication: vectors of vec_size values are repeated to fill the slots of a ciphertext and
    cut off again after decryption (iyfc/seal/comm/seal_public.h, seal_executor.h, seal_secret.h). */
module Replication {
  import opened Graphs
  import opened Semantics
  import opened Types
  import opened EncodePass
  import opened ConstantFolding

  lemma DivideBoth(a: int, slots: nat, vec: nat)
    requires vec > 0 && slots > 0 && slots % vec == 0
    ensures (a % slots) % vec == a % vec
  {
    var c := slots / vec;
    assert slots == vec * c;
    var q, r := a / slots, a % slots;
    assert a == slots * q + r;
    assert a == vec * (c * q) + r;
    assert r == vec * (r / vec) + r % vec;
    assert a == vec * (c * q + r / vec) + r % vec;
    Remainder(a, vec, c * q + r / vec, r % vec);
  }

  lemma AddWithin(i: int, s: int, vec: nat)
    requires vec > 0
    ensures (i % vec + s) % vec == (i + s) % vec
  {
    var q, r := i / vec, i % vec;
    var q', r' := (r + s) / vec, (r + s) % vec;
    assert i + s == vec * (q + q') + r';
    Remainder(i + s, vec, q + q', r');
  }

  lemma CopyCount(slots: nat, vec: nat, i: nat)
    requires vec > 0 && i < vec <= slots
    ensures i % vec == i
  {
    Remainder(i, vec, 0, i);
  }

  /** The loops of encrypt: copies of v next to each other. */
  method Replicate(v: Slots, slotCount: nat) returns (filled: Slots)
    requires v != [] && slotCount % |v| == 0
    ensures filled == Expand(slotCount, v)
  {
    if |v| == 1 {
      filled := Expand(slotCount, [v[0]]);
      assert [v[0]] == v;
    } else {
      var size, replicas := |v|, slotCount / |v|;
      var vec := new real[slotCount];
      assert slotCount == size * replicas;
      for r := 0 to replicas
        invariant forall k: nat :: k < size * r && k < slotCount ==> vec[k] == v[k % size]
      {
        RowFits(size, r, replicas);
        for i := 0 to size
          invariant forall k: nat :: k < size * r + i && k < slotCount ==> vec[k] == v[k % size]
        {
          Remainder(size * r + i, size, r, i);
          vec[size * r + i] := v[i];
        }
        assert size * (r + 1) == size * r + size;
      }
      filled := vec[..];
    }
  }

  lemma RowFits(size: nat, r: nat, replicas: nat)
    requires r < replicas
    ensures size * r + size <= size * replicas
  {
    var more := replicas - r - 1;
    assert size * replicas == size * r + size + size * more;
  }

  /** v.resize(vec_size) after decryption. */
  method Truncate(decoded: Slots, vecSize: nat) returns (v: Slots)
    ensures v == Fit(vecSize, decoded)
  {
    v := decoded[..if vecSize < |decoded| then vecSize else |decoded|];
    while |v| < vecSize
      invariant |v| <= vecSize && forall k: nat :: k < |v| ==> v[k] == At(decoded, k)
    {
      v := v + [0.0];
    }
  }

  lemma TruncatedCopies(x: Slots, slots: nat)
    requires x != [] && |x| <= slots
    ensures Fit(|x|, Expand(slots, x)) == x
  {
    forall i: nat | i < |x|
      ensures At(Expand(slots, x), i) == x[i]
    {
      CopyCount(slots, |x|, i);
    }
  }

  // ----- operations on copies -----

  function Copies(slots: nat, xs: seq<Slots>): (r: seq<Slots>)
    ensures |r| == |xs|
  {
    seq(|xs|, i requires 0 <= i < |xs| => Expand(slots, xs[i]))
  }

  ghost predicate Divides(vec: nat, slots: nat)
  {
    vec > 0 && slots > 0 && slots % vec == 0
  }

  lemma SlotOf(x: Slots, slots: nat, i: int)
    requires x != [] && slots > 0 && slots % |x| == 0
    ensures At(Expand(slots, x), i % slots) == x[i % |x|]
  {
    DivideBoth(i, slots, |x|);
  }

  lemma RotatedSlot(x: Slots, slots: nat, shift: int, i: nat)
    requires x != [] && slots > 0 && slots % |x| == 0 && i < slots
    ensures At(Expand(slots, x), (i + shift) % slots) == Expand(slots, RotatedLeft(|x|, x, shift))[i]
  {
    SlotOf(x, slots, i + shift);
    AddWithin(i, shift, |x|);
    var turned := RotatedLeft(|x|, x, shift);
    assert Expand(slots, turned)[i] == turned[i % |x|];
    assert turned[i % |x|] == At(x, (i % |x| + shift) % |x|);
  }

  lemma RotatedCopies(x: Slots, slots: nat, shift: int)
    requires x != [] && slots > 0 && slots % |x| == 0
    ensures RotatedLeft(slots, Expand(slots, x), shift) == Expand(slots, RotatedLeft(|x|, x, shift))
  {
    var turned := Expand(slots, RotatedLeft(|x|, x, shift));
    forall i: nat | i < slots
      ensures RotatedLeft(slots, Expand(slots, x), shift)[i] == turned[i]
    {
      RotatedSlot(x, slots, shift, i);
    }
  }

  lemma {:induction false} SumCopies(vec: nat, slots: nat, xs: seq<Slots>)
    requires Divides(vec, slots) && forall i: nat :: i < |xs| ==> |xs[i]| == vec
    ensures Sum(slots, Copies(slots, xs)) == Expand(slots, Sum(vec, xs))
  {
    if xs == [] {
      assert Copies(slots, xs) == [];
      var zero := Sum(vec, []);
      assert forall i: nat :: i < slots ==> Expand(slots, zero)[i] == zero[i % vec];
    } else {
      SumCopies(vec, slots, xs[1..]);
      assert Copies(slots, xs)[1..] == Copies(slots, xs[1..]);
      PlusCopies(vec, slots, xs[0], Sum(vec, xs[1..]));
    }
  }

  lemma PlusCopies(vec: nat, slots: nat, x: Slots, y: Slots)
    requires Divides(vec, slots) && |x| == |y| == vec
    ensures Plus(slots, Expand(slots, x), Expand(slots, y)) == Expand(slots, Plus(vec, x, y))
    ensures Minus(slots, Expand(slots, x), Expand(slots, y)) == Expand(slots, Minus(vec, x, y))
    ensures Times(slots, Expand(slots, x), Expand(slots, y)) == Expand(slots, Times(vec, x, y))
    ensures Negated(slots, Expand(slots, x)) == Expand(slots, Negated(vec, x))
  {
    var product := Times(vec, x, y);
    forall i: nat | i < slots
      ensures Times(slots, Expand(slots, x), Expand(slots, y))[i] == Expand(slots, product)[i]
    {
      var k := i % vec;
      assert product[k] == At(x, k) * At(y, k);
      assert Expand(slots, x)[i] == x[k] && Expand(slots, y)[i] == y[k];
    }
  }

  lemma {:induction false} ProductCopies(vec: nat, slots: nat, xs: seq<Slots>)
    requires Divides(vec, slots) && forall i: nat :: i < |xs| ==> |xs[i]| == vec
    ensures Product(slots, Copies(slots, xs)) == Expand(slots, Product(vec, xs))
  {
    if xs == [] {
      assert Copies(slots, xs) == [];
      var one := Product(vec, []);
      assert forall i: nat :: i < slots ==> Expand(slots, one)[i] == one[i % vec];
    } else {
      ProductCopies(vec, slots, xs[1..]);
      assert Copies(slots, xs)[1..] == Copies(slots, xs[1..]);
      PlusCopies(vec, slots, xs[0], Product(vec, xs[1..]));
    }
  }

  /** An operation on copies gives copies of its result. */
  lemma MeaningOfCopies(vec: nat, slots: nat, env: NodeId -> Slots, n: NodeId, op: Op, xs: seq<Slots>)
    requires Divides(vec, slots) && forall i: nat :: i < |xs| ==> |xs[i]| == vec
    requires !op.Input? && !op.Constant? && xs != [] && (op.Sub? ==> |xs| == 2)
    ensures Meaning(slots, NoInput, n, op, Copies(slots, xs)) == Expand(slots, Meaning(vec, env, n, op, xs))
  {
    if op.Add? {
      SumCopies(vec, slots, xs);
    } else if op.Mul? {
      ProductCopies(vec, slots, xs);
    } else if op.Sub? {
      PlusCopies(vec, slots, xs[0], xs[1]);
    } else if op.Negate? {
      PlusCopies(vec, slots, xs[0], xs[0]);
    } else if op.RotateLeft? {
      RotatedCopies(xs[0], slots, op.shift);
    } else if op.RotateRight? {
      RotatedCopies(xs[0], slots, -op.shift);
    } else {
      assert Nth(Copies(slots, xs), 0) == Expand(slots, xs[0]);
    }
  }

  // ----- whole graphs -----

  /** What runs: raw nodes on vec values, all others on slots; encryption and encoding replicate. */
  ghost function MixedSem(types: TypeMap, vec: nat, slots: nat, env: NodeId -> Slots): (NodeId, Op, seq<Slots>) -> Slots
  {
    (n: NodeId, op: Op, args: seq<Slots>) =>
      if TypeAt(types, n) == Raw then Meaning(vec, env, n, op, args)
      else if op.Encode? then Expand(slots, Nth(args, 0))
      else if op.Input? then Expand(slots, Fit(vec, env(n)))
      else Meaning(slots, NoInput, n, op, args)
  }

  function Spread(types: TypeMap, slots: nat, n: NodeId, x: Slots): Slots
  {
    if TypeAt(types, n) == Raw then x else Expand(slots, x)
  }

  /** Encodings take raw operands, all other nodes operands of their own representation. */
  ghost predicate Homogeneous(g: Graph, types: TypeMap)
  {
    forall n: NodeId, i: nat :: Live(g, n) && n < |g.op| && i < |g.operands[n]| ==>
      (TypeAt(types, g.operands[n][i]) == Raw <==> g.op[n].Encode? || TypeAt(types, n) == Raw)
  }

  /** Replication does not change what is computed. */
  lemma {:induction false} ReplicatedRun(g: Graph, rank: seq<nat>, types: TypeMap, vec: nat, slots: nat,
                                         env: NodeId -> Slots, v: seq<Slots>, w: seq<Slots>, n: NodeId)
    requires Ranked(g, rank) && Typed(g, types) && SourceArity(g) && Arity(g) && Homogeneous(g, types)
      && Divides(vec, slots)
    requires Interprets(g, SlotSem(vec, env), v) && Interprets(g, MixedSem(types, vec, slots, env), w)
    requires Live(g, n)
    ensures w[n] == Spread(types, slots, n, v[n])
    decreases rank[n]
  {
    forall i: nat | i < |g.operands[n]|
      ensures Live(g, g.operands[n][i])
        && w[g.operands[n][i]] == Spread(types, slots, g.operands[n][i], v[g.operands[n][i]])
      ensures |v[g.operands[n][i]]| == vec
    {
      assert Live(g, g.operands[n][i]);
      ReplicatedRun(g, rank, types, vec, slots, env, v, w, g.operands[n][i]);
      ValueLength(g, vec, env, v, g.operands[n][i]);
    }
    ReplicatedNode(g, types, vec, slots, env, v, w, n);
  }

  lemma ValueLength(g: Graph, vec: nat, env: NodeId -> Slots, v: seq<Slots>, n: NodeId)
    requires Interprets(g, SlotSem(vec, env), v) && Live(g, n)
    ensures |v[n]| == vec
  {
    assert v[n] == Meaning(vec, env, n, g.op[n], Args(g, v, n));
  }

  lemma NodeKind(g: Graph, types: TypeMap, n: NodeId)
    requires Typed(g, types) && SourceArity(g) && Arity(g) && Live(g, n)
    ensures g.op[n].Constant? ==> TypeAt(types, n) == Raw
    ensures !g.op[n].Input? && !g.op[n].Constant? ==> g.operands[n] != []
    ensures g.op[n].Sub? ==> |g.operands[n]| == 2
    ensures g.op[n].Encode? ==> |g.operands[n]| == 1
  {
    assert TypeAt(types, n) == Inferred(g, types, n);
  }

  lemma ReplicatedNode(g: Graph, types: TypeMap, vec: nat, slots: nat, env: NodeId -> Slots, v: seq<Slots>,
                       w: seq<Slots>, n: NodeId)
    requires Typed(g, types) && SourceArity(g) && Arity(g) && Homogeneous(g, types) && Divides(vec, slots)
    requires Interprets(g, SlotSem(vec, env), v) && Interprets(g, MixedSem(types, vec, slots, env), w) && Live(g, n)
    requires forall i: nat :: i < |g.operands[n]| ==>
      g.operands[n][i] < |v| && |v[g.operands[n][i]]| == vec
      && w[g.operands[n][i]] == Spread(types, slots, g.operands[n][i], v[g.operands[n][i]])
    ensures w[n] == Spread(types, slots, n, v[n])
  {
    var op, xs, ys := g.op[n], Args(g, v, n), Args(g, w, n);
    ReplicatedMeans(g, types, vec, slots, env, v, w, n);
    NodeKind(g, types, n);
    if TypeAt(types, n) == Raw || op.Encode? {
      hide Interprets, Meaning, Typed, Arity, SourceArity;
      assert ys == xs;
      if op.Encode? {
        EncodeMeaning(vec, env, n, op, xs);
      }
    } else if op.Input? {
      InputMeaning(vec, env, n, op, xs);
    } else {
      hide Interprets, Meaning, Typed, Arity, SourceArity;
      assert ys == Copies(slots, xs);
      hide Homogeneous;
      MeaningOfCopies(vec, slots, env, n, op, xs);
    }
  }

  lemma EncodeMeaning(vec: nat, env: NodeId -> Slots, n: NodeId, op: Op, xs: seq<Slots>)
    requires op.Encode? && |xs| == 1 && |xs[0]| == vec
    ensures Meaning(vec, env, n, op, xs) == Nth(xs, 0)
  {
  }

  lemma InputMeaning(vec: nat, env: NodeId -> Slots, n: NodeId, op: Op, xs: seq<Slots>)
    requires op.Input?
    ensures Meaning(vec, env, n, op, xs) == Fit(vec, env(n))
  {
  }

  lemma ReplicatedMeans(g: Graph, types: TypeMap, vec: nat, slots: nat, env: NodeId -> Slots, v: seq<Slots>,
                        w: seq<Slots>, n: NodeId)
    requires Interprets(g, SlotSem(vec, env), v) && Interprets(g, MixedSem(types, vec, slots, env), w) && Live(g, n)
    ensures n < |v| && n < |w| && n < |g.op| && forall i: nat :: i < |g.operands[n]| ==>
      g.operands[n][i] < |v| && g.operands[n][i] < |w|
    ensures v[n] == Meaning(vec, env, n, g.op[n], Args(g, v, n))
    ensures var ys := Args(g, w, n);
      w[n] == if TypeAt(types, n) == Raw then Meaning(vec, env, n, g.op[n], ys)
              else if g.op[n].Encode? then Expand(slots, Nth(ys, 0))
              else if g.op[n].Input? then Expand(slots, Fit(vec, env(n)))
              else Meaning(slots, NoInput, n, g.op[n], ys)
  {
    assert w[n] == MixedSem(types, vec, slots, env)(n, g.op[n], Args(g, w, n));
  }

  /** Cutting an encrypted output off at vec_size gives the value on vec_size slots. */
  lemma ReplicatedOutput(g: Graph, types: TypeMap, vec: nat, slots: nat, env: NodeId -> Slots, v: seq<Slots>,
                         w: seq<Slots>, n: NodeId)
    requires Acyclic(g) && Typed(g, types) && SourceArity(g) && Arity(g) && Homogeneous(g, types)
      && Divides(vec, slots) && vec <= slots
    requires Interprets(g, SlotSem(vec, env), v) && Interprets(g, MixedSem(types, vec, slots, env), w)
    requires Live(g, n)
    ensures Fit(vec, w[n]) == v[n]
  {
    var rank :| Ranked(g, rank);
    ReplicatedRun(g, rank, types, vec, slots, env, v, w, n);
    ValueLength(g, vec, env, v, n);
    if TypeAt(types, n) != Raw {
      TruncatedCopies(v[n], slots);
    }
  }
}
