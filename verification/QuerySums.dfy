/** Sums and counts over blocks of slots by rotations, SumCntHelper in iyfc/dag/expr.cpp. */
module QuerySums {
  import opened Semantics
  import opened Graphs
  import opened Labels
  import opened Exprs
  import opened Replication

  /** CMP_DAG_SIZE */
  const DAG_SIZE: nat := 16384
  /** FFT_N and CMP_BIT_LEN: the slots of one number. */
  const BLOCK: nat := 16
  /** MAX_CMP_NUM */
  const MAX_NUMBERS: nat := 1024

  /** Slots i, i + step, i + 2 * step, ..., n of them, cyclically. */
  function Strided(size: nat, x: Slots, i: int, step: nat, n: nat): real
    requires size > 0
  {
    if n == 0 then 0.0 else Strided(size, x, i, step, n - 1) + At(x, (i + (n - 1) * step) % size)
  }

  /** Slot j of blocks 0 to n - 1. */
  function BlockSum(x: Slots, j: nat, n: nat): real
  {
    if n == 0 then 0.0 else BlockSum(x, j, n - 1) + At(x, BLOCK * (n - 1) + j)
  }

  lemma {:induction false} StridedIsBlockSum(x: Slots, j: nat, n: nat)
    requires j < BLOCK && n <= MAX_NUMBERS
    ensures Strided(DAG_SIZE, x, j, BLOCK, n) == BlockSum(x, j, n)
  {
    if n > 0 {
      StridedIsBlockSum(x, j, n - 1);
      CopyCount(DAG_SIZE, DAG_SIZE, j + (n - 1) * BLOCK);
    }
  }

  lemma {:induction false} StridedShifts(size: nat, x: Slots, i: int, step: nat, n: nat)
    requires size > 0
    ensures Strided(size, x, i % size, step, n) == Strided(size, x, i, step, n)
  {
    if n > 0 {
      StridedShifts(size, x, i, step, n - 1);
      AddWithin(i, (n - 1) * step, size);
    }
  }

  /** Two interleaved sums of every other term make one of all terms. */
  lemma {:induction false} Interleaved(size: nat, x: Slots, i: int, step: nat, n: nat)
    requires size > 0
    ensures Strided(size, x, i, step, 2 * n) == Strided(size, x, i, 2 * step, n) + Strided(size, x, i + step,
      2 * step, n)
  {
    if n > 0 {
      var m := n - 1;
      Interleaved(size, x, i, step, m);
      OddAndEven(step, m);
      StridedOnce(size, x, i, step, 2 * m);
      StridedOnce(size, x, i, step, 2 * m + 1);
      StridedOnce(size, x, i, 2 * step, m);
      StridedOnce(size, x, i + step, 2 * step, m);
      hide Strided;
      assert i + (2 * m + 1) * step == i + step + m * (2 * step);
    }
  }

  lemma StridedOnce(size: nat, x: Slots, i: int, step: nat, n: nat)
    requires size > 0
    ensures Strided(size, x, i, step, n + 1) == Strided(size, x, i, step, n) + At(x, (i + n * step) % size)
  {
  }

  lemma OddAndEven(step: nat, m: nat)
    ensures (2 * m) * step == m * (2 * step) && (2 * m + 1) * step == m * (2 * step) + step
  {
  }

  predicate SumsSlots(x: Slots, sums: Slots, step: nat, n: nat)
  {
    && |sums| == DAG_SIZE
    && forall s: nat :: s < DAG_SIZE ==> sums[s] == Strided(DAG_SIZE, x, s, step, n)
  }

  lemma OneTerm(x: Slots, step: nat)
    requires |x| == DAG_SIZE
    ensures SumsSlots(x, x, step, 1)
  {
    forall s: nat | s < DAG_SIZE
      ensures x[s] == Strided(DAG_SIZE, x, s, step, 1)
    {
      assert Strided(DAG_SIZE, x, s, step, 0) == 0.0;
    }
  }

  lemma AddTerm(x: Slots, sums: Slots, n: nat)
    requires SumsSlots(x, sums, BLOCK, n)
    ensures SumsSlots(x, Plus(DAG_SIZE, sums, RotatedLeft(DAG_SIZE, x, n * BLOCK)), BLOCK, n + 1)
  {
  }

  lemma DoubleTerms(x: Slots, sums: Slots, step: nat, n: nat)
    requires SumsSlots(x, sums, 2 * step, n)
    ensures SumsSlots(x, Plus(DAG_SIZE, sums, RotatedLeft(DAG_SIZE, sums, step)), step, 2 * n)
  {
    hide Strided;
    forall s: nat | s < DAG_SIZE
      ensures sums[s] + sums[(s + step) % DAG_SIZE] == Strided(DAG_SIZE, x, s, step, 2 * n)
    {
      Interleaved(DAG_SIZE, x, s, step, n);
      StridedShifts(DAG_SIZE, x, s + step, 2 * step, n);
    }
  }

  predicate PowerOfTwo(i: nat)
  {
    i == 1 || (i > 1 && i % 2 == 0 && PowerOfTwo(i / 2))
  }

  /** The halving loop: i blocks apart come next, and count terms 2 * i blocks apart are summed. */
  predicate Halving(i: nat, step: nat, count: nat)
  {
    if i == 0 then step == BLOCK && count == MAX_NUMBERS
    else PowerOfTwo(i) && step == 2 * (i * BLOCK) && i * count == MAX_NUMBERS / 2
  }

  lemma HalvingNext(i: nat, step: nat, count: nat)
    requires i > 0 && Halving(i, step, count)
    ensures Halving(i / 2, i * BLOCK, 2 * count)
  {
    if i > 1 {
      assert i == 2 * (i / 2);
      assert (i / 2) * (2 * count) == i * count;
    }
  }

  lemma HalvingStart()
    ensures Halving(MAX_NUMBERS / 2, 2 * (MAX_NUMBERS / 2 * BLOCK), 1)
  {
    assert PowerOfTwo(8);
    assert PowerOfTwo(64);
    assert PowerOfTwo(512);
  }

  /** The slots of the first block hold the sums over the first n blocks; the others are zero. */
  predicate BlockSums(x: Slots, n: nat, sums: Slots)
  {
    && |sums| == DAG_SIZE
    && forall s: nat :: s < DAG_SIZE ==> sums[s] == if s < BLOCK then Strided(DAG_SIZE, x, s, BLOCK, n) else 0.0
  }

  /** getSumMaskVec */
  function SumMask(): (mask: Slots)
    ensures |mask| == DAG_SIZE
  {
    seq(DAG_SIZE, i => if i < BLOCK then 1.0 else 0.0)
  }

  lemma MaskedSums(x: Slots, n: nat, sums: Slots)
    requires SumsSlots(x, sums, BLOCK, n)
    ensures BlockSums(x, n, Times(DAG_SIZE, sums, SumMask()))
  {
    var mask := SumMask();
    forall s: nat | s < DAG_SIZE
      ensures sums[s] * mask[s] == if s < BLOCK then Strided(DAG_SIZE, x, s, BLOCK, n) else 0.0
    {
    }
  }

  /** SumCntHelper: both ways of adding give the same sums. */
  method SumCntHelper(e: ExprDag, lhs: Expr, totalNum: nat) returns (r: Expr)
    requires e.Valid() && e.IsExpr(lhs) && e.size == DAG_SIZE && totalNum >= 1
    modifies e`info, e.dag
    ensures e.Valid() && e.Keeps() && e.IsExpr(r) && e.Unused(r)
    ensures BlockSums(e.Val(lhs), totalNum, e.Val(r))
    ensures e.Depth(r) <= e.Depth(lhs) + LogUp(e.Factors(lhs) + 1)
  {
    hide SumsSlots, BlockSums, Plus, RotatedLeft, SumMask, Times, ExprDag.Valid, ExprDag.Unused, ExprDag.NoOutputs,
         ExprDag.Depth, ExprDag.Factors, AddNode, LogUp;
    var sum;
    if totalNum != MAX_NUMBERS {
      sum := SumByOne(e, lhs, totalNum);
    } else {
      sum := SumByHalves(e, lhs);
    }
    MaskedSums(e.Val(lhs), totalNum, e.Val(sum));
    LogUpGrows(e.Factors(sum) + 1, e.Factors(lhs) + 1);
    r := e.MulVector(sum, SumMask());
  }

  /** One rotation for each block. */
  method SumByOne(e: ExprDag, lhs: Expr, totalNum: nat) returns (sum: Expr)
    requires e.Valid() && e.IsExpr(lhs) && e.size == DAG_SIZE && totalNum >= 1
    modifies e`info, e.dag
    ensures e.Valid() && e.Keeps() && e.IsExpr(sum)
    ensures SumsSlots(e.Val(lhs), e.Val(sum), BLOCK, totalNum)
    ensures e.Depth(sum) == e.Depth(lhs) && e.Factors(sum) <= e.Factors(lhs)
  {
    hide SumsSlots, Plus, RotatedLeft, ExprDag.Valid, ExprDag.Unused, ExprDag.NoOutputs, ExprDag.Depth,
         ExprDag.Factors, AddNode, LogUp;
    sum := lhs;
    e.SomeFactors(lhs);
    ghost var x := e.Val(lhs);
    OneTerm(x, BLOCK);
    for i := 1 to totalNum
      invariant e.Valid() && e.Keeps() && e.IsExpr(lhs) && e.IsExpr(sum)
      invariant e.Val(lhs) == x && SumsSlots(x, e.Val(sum), BLOCK, i)
      invariant e.Depth(sum) == e.Depth(lhs) && e.Factors(sum) <= e.Factors(lhs)
    {
      AddTerm(x, e.Val(sum), i);
      var turned := e.ShiftLeft(lhs, i * BLOCK);
      sum := e.Add(sum, turned);
    }
  }

  /** Fewer rotation keys: the sums are rotated and added to themselves. */
  method SumByHalves(e: ExprDag, lhs: Expr) returns (sum: Expr)
    requires e.Valid() && e.IsExpr(lhs) && e.size == DAG_SIZE
    modifies e`info, e.dag
    ensures e.Valid() && e.Keeps() && e.IsExpr(sum)
    ensures SumsSlots(e.Val(lhs), e.Val(sum), BLOCK, MAX_NUMBERS)
    ensures e.Depth(sum) == e.Depth(lhs) && e.Factors(sum) <= e.Factors(lhs)
  {
    hide SumsSlots, Halving, PowerOfTwo, Plus, RotatedLeft, ExprDag.Valid, ExprDag.Unused, ExprDag.NoOutputs,
         ExprDag.Depth, ExprDag.Factors, AddNode, LogUp;
    sum := lhs;
    e.SomeFactors(lhs);
    ghost var x := e.Val(lhs);
    var i: nat := MAX_NUMBERS / 2;
    ghost var step: nat, count: nat := 2 * (i * BLOCK), 1;
    HalvingStart();
    OneTerm(x, step);
    while i >= 1
      invariant e.Valid() && e.Keeps() && e.IsExpr(sum)
      invariant SumsSlots(x, e.Val(sum), step, count) && Halving(i, step, count)
      invariant e.Depth(sum) == e.Depth(lhs) && e.Factors(sum) <= e.Factors(lhs)
    {
      HalvingNext(i, step, count);
      HalvingStep(i, step, count);
      DoubleTerms(x, e.Val(sum), i * BLOCK, count);
      var turned := e.ShiftLeft(sum, i * BLOCK);
      sum := e.Add(sum, turned);
      step, count := i * BLOCK, 2 * count;
      i := i / 2;
    }
    HalvingStep(i, step, count);
  }

  lemma HalvingStep(i: nat, step: nat, count: nat)
    requires Halving(i, step, count)
    ensures if i == 0 then step == BLOCK && count == MAX_NUMBERS else step == 2 * (i * BLOCK)
  {
  }

  /** QuerySum over numbers of at most MAX_NUMBERS blocks. */
  method QuerySum(e: ExprDag, lhs: Expr, rhs: Expr, totalNum: nat) returns (r: Expr)
    requires e.Valid() && e.IsExpr(lhs) && e.IsExpr(rhs) && e.size == DAG_SIZE && 1 <= totalNum <= MAX_NUMBERS
    modifies e`info, e.dag
    ensures e.Valid() && e.Keeps() && e.IsExpr(r) && e.Unused(r)
    ensures SumsProducts(e.Val(lhs), e.Val(rhs), totalNum, e.Val(r))
  {
    hide BlockSums, Times, SumsProducts, ExprDag.Valid, ExprDag.Unused, ExprDag.NoOutputs, ExprDag.Depth,
         ExprDag.Factors, AddNode, LogUp;
    var product := e.Mul(lhs, rhs);
    r := SumCntHelper(e, product, totalNum);
    ProductsSummed(e.Val(lhs), e.Val(rhs), totalNum, e.Val(r));
  }

  /** The first block holds the sums of the products over the first n blocks. */
  predicate SumsProducts(x: Slots, y: Slots, n: nat, r: Slots)
  {
    && |r| == DAG_SIZE
    && forall s: nat :: s < DAG_SIZE ==> r[s] == if s < BLOCK then BlockSum(Times(DAG_SIZE, x, y), s, n) else 0.0
  }

  lemma ProductsSummed(x: Slots, y: Slots, n: nat, r: Slots)
    requires n <= MAX_NUMBERS && BlockSums(Times(DAG_SIZE, x, y), n, r)
    ensures SumsProducts(x, y, n, r)
  {
    hide Strided, BlockSum, Times;
    forall s: nat | s < BLOCK
      ensures r[s] == BlockSum(Times(DAG_SIZE, x, y), s, n)
    {
      StridedIsBlockSum(Times(DAG_SIZE, x, y), s, n);
    }
  }
}
