/** Regrouping the operands of additions and multiplications leaves their values as they are. */
module Reassociation {
  import opened Graphs
  import opened Semantics

  predicate IsReductionOp(op: Op) { op.Add? || op.Mul? }

  /** The meaning of op depends on its operands as a multiset only, and nested applications flatten. */
  ghost predicate Regroups<T(!new)>(sem: (NodeId, Op, seq<T>) -> T, op: Op)
  {
    && (forall n: NodeId, m: NodeId, xs: seq<T>, ys: seq<T> :: multiset(xs) == multiset(ys) ==>
          sem(n, op, xs) == sem(m, op, ys))
    && (forall n: NodeId, m: NodeId, xs: seq<T>, ys: seq<T> :: sem(n, op, [sem(m, op, xs)] + ys) == sem(n, op, xs + ys))
  }

  lemma RegroupPermuted<T(!new)>(sem: (NodeId, Op, seq<T>) -> T, op: Op, n: NodeId, m: NodeId, xs: seq<T>, ys: seq<T>)
    requires Regroups(sem, op) && multiset(xs) == multiset(ys)
    ensures sem(n, op, xs) == sem(m, op, ys)
  {
  }

  lemma RegroupFlat<T(!new)>(sem: (NodeId, Op, seq<T>) -> T, op: Op, n: NodeId, m: NodeId, xs: seq<T>, ys: seq<T>)
    requires Regroups(sem, op)
    ensures sem(n, op, [sem(m, op, xs)] + ys) == sem(n, op, xs + ys)
  {
  }

  // ----- slots -----

  function Combined(mul: bool, a: real, b: real): real
  {
    if mul then a * b else a + b
  }

  /** Slot k of a sum or a product. */
  function FoldAt(mul: bool, xs: seq<Slots>, k: int): real
  {
    if xs == [] then if mul then 1.0 else 0.0
    else Combined(mul, At(xs[0], k), FoldAt(mul, xs[1..], k))
  }

  lemma Associative(mul: bool, a: real, b: real, c: real)
    ensures Combined(mul, Combined(mul, a, b), c) == Combined(mul, a, Combined(mul, b, c))
    ensures Combined(mul, a, b) == Combined(mul, b, a)
    ensures Combined(mul, if mul then 1.0 else 0.0, a) == a
  {
  }

  lemma {:induction false} FoldAppend(mul: bool, xs: seq<Slots>, ys: seq<Slots>, k: int)
    ensures FoldAt(mul, xs + ys, k) == Combined(mul, FoldAt(mul, xs, k), FoldAt(mul, ys, k))
  {
    if xs == [] {
      assert xs + ys == ys;
      Associative(mul, FoldAt(mul, ys, k), 0.0, 0.0);
    } else {
      assert (xs + ys)[1..] == xs[1..] + ys;
      FoldAppend(mul, xs[1..], ys, k);
      Associative(mul, At(xs[0], k), FoldAt(mul, xs[1..], k), FoldAt(mul, ys, k));
    }
  }

  lemma FoldFirst(mul: bool, x: Slots, rest: seq<Slots>, k: int)
    ensures FoldAt(mul, [x] + rest, k) == Combined(mul, At(x, k), FoldAt(mul, rest, k))
  {
    assert ([x] + rest)[1..] == rest;
  }

  lemma {:induction false} FoldTakenOut(mul: bool, xs: seq<Slots>, i: nat, k: int)
    requires i < |xs|
    ensures FoldAt(mul, xs, k) == Combined(mul, At(xs[i], k), FoldAt(mul, xs[..i] + xs[i + 1..], k))
  {
    var a, b := xs[..i], xs[i + 1..];
    assert xs == a + ([xs[i]] + b);
    FoldAppend(mul, a, [xs[i]] + b, k);
    FoldFirst(mul, xs[i], b, k);
    FoldAppend(mul, a, b, k);
    var x, p, q := At(xs[i], k), FoldAt(mul, a, k), FoldAt(mul, b, k);
    Associative(mul, p, x, q);
    Associative(mul, x, p, q);
  }

  lemma RestPermuted<T>(xs: seq<T>, ys: seq<T>, i: nat)
    requires xs != [] && i < |ys| && ys[i] == xs[0] && multiset(xs) == multiset(ys)
    ensures multiset(xs[1..]) == multiset(ys[..i] + ys[i + 1..])
  {
    var rest := ys[..i] + ys[i + 1..];
    WithoutFirst(xs);
    WithoutOne(ys, i);
    assert multiset(xs[1..]) == multiset(xs) - multiset{xs[0]};
    assert multiset(rest) == multiset(ys) - multiset{ys[i]};
  }

  lemma WithoutFirst<T>(xs: seq<T>)
    requires xs != []
    ensures multiset(xs) == multiset{xs[0]} + multiset(xs[1..])
  {
    assert xs == [xs[0]] + xs[1..];
  }

  lemma WithoutOne<T>(ys: seq<T>, i: nat)
    requires i < |ys|
    ensures multiset(ys) == multiset{ys[i]} + multiset(ys[..i] + ys[i + 1..])
  {
    assert ys == ys[..i] + ([ys[i]] + ys[i + 1..]);
  }

  lemma {:induction false} FoldPermuted(mul: bool, xs: seq<Slots>, ys: seq<Slots>, k: int)
    requires multiset(xs) == multiset(ys)
    ensures FoldAt(mul, xs, k) == FoldAt(mul, ys, k)
    decreases |xs|
  {
    if xs == [] {
      assert |multiset(ys)| == |ys|;
    } else {
      assert xs[0] in multiset(ys);
      var i: nat :| i < |ys| && ys[i] == xs[0];
      var rest := ys[..i] + ys[i + 1..];
      RestPermuted(xs, ys, i);
      FoldPermuted(mul, xs[1..], rest, k);
      FoldTakenOut(mul, ys, i, k);
    }
  }

  lemma {:induction false} SumIsFold(size: nat, xs: seq<Slots>, k: nat)
    requires k < size
    ensures Sum(size, xs)[k] == FoldAt(false, xs, k)
    ensures Product(size, xs)[k] == FoldAt(true, xs, k)
  {
    if xs != [] {
      SumIsFold(size, xs[1..], k);
      assert Sum(size, xs)[k] == At(xs[0], k) + Sum(size, xs[1..])[k];
      assert Product(size, xs)[k] == At(xs[0], k) * Product(size, xs[1..])[k];
    }
  }

  function Folded(size: nat, mul: bool, xs: seq<Slots>): (r: Slots)
    ensures |r| == size
  {
    if mul then Product(size, xs) else Sum(size, xs)
  }

  lemma FoldedPermuted(size: nat, mul: bool, xs: seq<Slots>, ys: seq<Slots>)
    requires multiset(xs) == multiset(ys)
    ensures Folded(size, mul, xs) == Folded(size, mul, ys)
  {
    forall k: nat | k < size
      ensures Folded(size, mul, xs)[k] == Folded(size, mul, ys)[k]
    {
      SumIsFold(size, xs, k);
      SumIsFold(size, ys, k);
      FoldPermuted(mul, xs, ys, k);
    }
  }

  lemma FoldedFlattens(size: nat, mul: bool, xs: seq<Slots>, ys: seq<Slots>)
    ensures Folded(size, mul, [Folded(size, mul, xs)] + ys) == Folded(size, mul, xs + ys)
  {
    var x := Folded(size, mul, xs);
    forall k: nat | k < size
      ensures Folded(size, mul, [x] + ys)[k] == Folded(size, mul, xs + ys)[k]
    {
      SumIsFold(size, [x] + ys, k);
      SumIsFold(size, xs + ys, k);
      SumIsFold(size, xs, k);
      FoldFirst(mul, x, ys, k);
      FoldAppend(mul, xs, ys, k);
    }
  }

  /** Over exact reals sums and products of slots can be regrouped. */
  lemma SlotsRegroup(size: nat, env: NodeId -> Slots, op: Op)
    requires IsReductionOp(op)
    ensures Regroups(SlotSem(size, env), op)
  {
    var sem := SlotSem(size, env);
    forall n: NodeId, xs: seq<Slots>
      ensures sem(n, op, xs) == Folded(size, op.Mul?, xs)
    {
    }
    forall n: NodeId, m: NodeId, xs: seq<Slots>, ys: seq<Slots> | multiset(xs) == multiset(ys)
      ensures sem(n, op, xs) == sem(m, op, ys)
    {
      FoldedPermuted(size, op.Mul?, xs, ys);
    }
    forall n: NodeId, m: NodeId, xs: seq<Slots>, ys: seq<Slots>
      ensures sem(n, op, [sem(m, op, xs)] + ys) == sem(n, op, xs + ys)
    {
      FoldedFlattens(size, op.Mul?, xs, ys);
    }
  }

  lemma FlagsRegroup(op: Op)
    requires IsReductionOp(op)
    ensures Regroups(CipherSem(), op)
  {
    var sem := CipherSem();
    forall n: NodeId, m: NodeId, xs: seq<bool>, ys: seq<bool> | multiset(xs) == multiset(ys)
      ensures sem(n, op, xs) == sem(m, op, ys)
    {
      assert true in xs <==> true in multiset(xs);
      assert true in ys <==> true in multiset(ys);
    }
    forall n: NodeId, m: NodeId, xs: seq<bool>, ys: seq<bool>
      ensures sem(n, op, [sem(m, op, xs)] + ys) == sem(n, op, xs + ys)
    {
      assert true in [sem(m, op, xs)] + ys <==> sem(m, op, xs) || true in ys;
      assert true in xs + ys <==> true in xs || true in ys;
    }
  }
}
