/** Division of encrypted numbers, div_hepler_2 in iyfc/dag/expr.cpp: Goldschmidt's iteration, slot by
    slot over exact reals. */
module Division {
  import opened Semantics
  import opened Graphs
  import opened Labels
  import opened Exprs

  const D_RANGE: nat := 5
  const DIV_V2_MAX: real := 1024.0
  /** Brings the divisor from (0, 1024) to (0, 2). */
  const DIV_V2_A: real := 2.0 / DIV_V2_MAX

  function Power(x: real, k: nat): real
  {
    if k == 0 then 1.0 else x * Power(x, k - 1)
  }

  function Doubled(k: nat): nat
  {
    if k == 0 then 1 else 2 * Doubled(k - 1)
  }

  lemma Associated(x: real, y: real, z: real)
    ensures (x * y) * z == x * (y * z)
  {
  }

  lemma {:induction false} PowerSum(x: real, a: nat, b: nat)
    ensures Power(x, a) * Power(x, b) == Power(x, a + b)
  {
    if a > 0 {
      PowerSum(x, a - 1, b);
      Associated(x, Power(x, a - 1), Power(x, b));
    }
  }

  /** The state after k rounds: expr_b is (1-t)^(2^k), and expr_a * t is 1 - (1-t)^(2^(k+1)). */
  predicate AfterRounds(t: real, a: real, b: real, k: nat)
  {
    b == Power(1.0 - t, Doubled(k)) && a * t == 1.0 - Power(1.0 - t, Doubled(k + 1))
  }

  lemma FirstRound(t: real)
    ensures AfterRounds(t, 2.0 - t, 1.0 - t, 0)
  {
    var y := 1.0 - t;
    assert Power(y, 1) == y * Power(y, 0) == y;
    assert Power(y, 2) == y * Power(y, 1);
    assert Doubled(1) == 2;
    assert (2.0 - t) * t == 1.0 - y * y;
  }

  lemma NextRound(t: real, a: real, b: real, a': real, b': real, k: nat)
    requires AfterRounds(t, a, b, k) && b' == b * b && a' == a * (1.0 + b')
    ensures AfterRounds(t, a', b', k + 1)
  {
    var y := 1.0 - t;
    Squared(y, k);
    Squared(y, k + 1);
    hide Power, Doubled;
    var q := Power(y, Doubled(k + 1));
    assert b' == q;
    DifferenceOfSquares(a, t, q);
  }

  lemma Squared(y: real, k: nat)
    ensures Power(y, Doubled(k)) * Power(y, Doubled(k)) == Power(y, Doubled(k + 1))
  {
    PowerSum(y, Doubled(k), Doubled(k));
  }

  lemma DifferenceOfSquares(a: real, t: real, q: real)
    requires a * t == 1.0 - q
    ensures (a * (1.0 + q)) * t == 1.0 - q * q
  {
    calc {
      (a * (1.0 + q)) * t;
      (a * t) * (1.0 + q);
      (1.0 - q) * (1.0 + q);
      1.0 - q * q;
    }
  }

  predicate AllAfter(tmp: Slots, a: Slots, b: Slots, k: nat)
  {
    && |a| == |b| == |tmp|
    && forall i: nat :: i < |tmp| ==> AfterRounds(tmp[i], a[i], b[i], k)
  }

  lemma AllStart(tmp: Slots)
    ensures var n := |tmp|; AllAfter(tmp, Minus(n, Filled(n, 2.0), tmp), Minus(n, Filled(n, 1.0), tmp), 0)
  {
    hide AfterRounds;
    forall i: nat | i < |tmp|
      ensures AfterRounds(tmp[i], 2.0 - tmp[i], 1.0 - tmp[i], 0)
    {
      FirstRound(tmp[i]);
    }
  }

  lemma AllNext(tmp: Slots, a: Slots, b: Slots, a': Slots, b': Slots, k: nat)
    requires AllAfter(tmp, a, b, k)
    requires b' == Times(|tmp|, b, b)
    requires a' == Times(|tmp|, a, Plus(|tmp|, Filled(|tmp|, 1.0), b'))
    ensures AllAfter(tmp, a', b', k + 1)
  {
    hide AfterRounds;
    forall i: nat | i < |tmp|
      ensures AfterRounds(tmp[i], a'[i], b'[i], k + 1)
    {
      assert b'[i] == b[i] * b[i] && a'[i] == a[i] * (1.0 + b'[i]);
      NextRound(tmp[i], a[i], b[i], a'[i], b'[i], k);
    }
  }

  /** The slots of an approximate inverse, and how far its product with the divisor is from one. */
  predicate Inverts(inverse: Slots, rhs: Slots)
  {
    && |inverse| == |rhs|
    && forall i: nat :: i < |rhs| ==> inverse[i] * rhs[i] == 1.0 - Power(1.0 - rhs[i] / 512.0, 64)
  }

  lemma AllRescaled(rhs: Slots, tmp: Slots, a: Slots, b: Slots, inverse: Slots)
    requires tmp == Times(|rhs|, Filled(|rhs|, DIV_V2_A), rhs) && AllAfter(tmp, a, b, D_RANGE)
    requires inverse == Times(|rhs|, a, Filled(|rhs|, DIV_V2_A))
    ensures Inverts(inverse, rhs)
  {
    hide AfterRounds, Power;
    forall i: nat | i < |rhs|
      ensures inverse[i] * rhs[i] == 1.0 - Power(1.0 - rhs[i] / 512.0, 64)
    {
      Rescaled(a[i], b[i], tmp[i], rhs[i], inverse[i]);
    }
  }

  /** div_hepler_2 */
  method DivHelper2(e: ExprDag, rhs: Expr) returns (inverse: Expr)
    requires e.Valid() && e.IsExpr(rhs)
    modifies e`info, e.dag
    ensures e.Valid() && e.Keeps() && e.IsExpr(inverse)
    ensures Inverts(e.Val(inverse), e.Val(rhs))
  {
    hide AllAfter, Inverts, Power, Plus, Minus, Times, Filled, ExprDag.Valid, ExprDag.Unused, ExprDag.NoOutputs,
         ExprDag.Depth, ExprDag.Factors, AddNode, LogUp;
    var tmp := e.NumberMul(DIV_V2_A, rhs);
    var exprA := e.NumberSub(2.0, tmp);
    var exprB := e.NumberSub(1.0, tmp);
    AllStart(e.Val(tmp));
    for k := 0 to D_RANGE
      invariant e.Valid() && e.Keeps() && e.IsExpr(tmp) && e.IsExpr(exprA) && e.IsExpr(exprB)
      invariant e.Val(tmp) == Times(e.size, Filled(e.size, DIV_V2_A), e.Val(rhs))
      invariant AllAfter(e.Val(tmp), e.Val(exprA), e.Val(exprB), k)
    {
      exprA, exprB := Round(e, tmp, exprA, exprB, k);
    }
    inverse := e.MulNumber(exprA, DIV_V2_A);
    AllRescaled(e.Val(rhs), e.Val(tmp), e.Val(exprA), e.Val(exprB), e.Val(inverse));
  }

  method Round(e: ExprDag, tmp: Expr, exprA: Expr, exprB: Expr, ghost k: nat) returns (a: Expr, b: Expr)
    requires e.Valid() && e.IsExpr(tmp) && e.IsExpr(exprA) && e.IsExpr(exprB)
    requires AllAfter(e.Val(tmp), e.Val(exprA), e.Val(exprB), k)
    modifies e`info, e.dag
    ensures e.Valid() && e.Keeps() && e.IsExpr(a) && e.IsExpr(b)
    ensures AllAfter(e.Val(tmp), e.Val(a), e.Val(b), k + 1)
  {
    hide AllAfter, Plus, Minus, Times, Filled, ExprDag.Valid, ExprDag.Unused, ExprDag.NoOutputs, ExprDag.Depth,
         ExprDag.Factors, AddNode, LogUp;
    b := e.Mul(exprB, exprB);
    var next := e.NumberAdd(1.0, b);
    a := e.Mul(exprA, next);
    AllNext(e.Val(tmp), e.Val(exprA), e.Val(exprB), e.Val(a), e.Val(b), k);
  }

  lemma Rescaled(a: real, b: real, t: real, rhs: real, inverse: real)
    requires AfterRounds(t, a, b, 5) && t == DIV_V2_A * rhs && inverse == a * DIV_V2_A
    ensures inverse * rhs == 1.0 - Power(1.0 - rhs / 512.0, 64)
  {
    assert Doubled(6) == 64 by {
      assert Doubled(2) == 4 && Doubled(4) == 16;
    }
    assert DIV_V2_A == 1.0 / 512.0;
    assert t == rhs / 512.0;
    calc {
      inverse * rhs;
      (a * DIV_V2_A) * rhs;
      a * (DIV_V2_A * rhs);
      a * t;
    }
  }

  /** operator/ */
  method Divide(e: ExprDag, lhs: Expr, rhs: Expr) returns (quotient: Expr)
    requires e.Valid() && e.IsExpr(lhs) && e.IsExpr(rhs)
    modifies e`info, e.dag
    ensures e.Valid() && e.Keeps() && e.IsExpr(quotient)
    ensures DividesUpTo(e.Val(quotient), e.Val(lhs), e.Val(rhs))
  {
    hide ExprDag.Valid, ExprDag.Unused, ExprDag.NoOutputs, ExprDag.Depth, ExprDag.Factors, AddNode, LogUp;
    var inverse := DivHelper2(e, rhs);
    quotient := e.Mul(lhs, inverse);
    Divided(e.size, e.Val(lhs), e.Val(rhs), e.Val(inverse));
  }

  /** The quotient in every slot, times one less the relative error. */
  predicate DividesUpTo(quotient: Slots, lhs: Slots, rhs: Slots)
  {
    && |quotient| == |lhs| == |rhs|
    && forall i: nat :: i < |lhs| && rhs[i] != 0.0 ==>
         quotient[i] == (lhs[i] / rhs[i]) * (1.0 - Power(1.0 - rhs[i] / 512.0, 64))
  }

  lemma Divided(size: nat, lhs: Slots, rhs: Slots, inverse: Slots)
    requires |lhs| == |rhs| == size && Inverts(inverse, rhs)
    ensures DividesUpTo(Times(size, lhs, inverse), lhs, rhs)
  {
    hide Power;
    forall i: nat | i < size && rhs[i] != 0.0
      ensures lhs[i] * inverse[i] == (lhs[i] / rhs[i]) * (1.0 - Power(1.0 - rhs[i] / 512.0, 64))
    {
      QuotientIs(lhs[i], rhs[i], inverse[i]);
    }
  }

  lemma QuotientIs(x: real, d: real, inverse: real)
    requires d != 0.0
    ensures x * inverse == (x / d) * (inverse * d)
  {
    assert (x / d) * d == x;
    assert (x / d) * (inverse * d) == ((x / d) * d) * inverse;
  }

  /** The relative error (1 - rhs/512)^64 lies in [0, 1) exactly for the divisors between 0 and 1024. */
  lemma ErrorBelowOne(rhs: real)
    ensures 0.0 <= Power(1.0 - rhs / 512.0, 64)
    ensures Power(1.0 - rhs / 512.0, 64) < 1.0 <==> 0.0 < rhs < DIV_V2_MAX
  {
    var y := 1.0 - rhs / 512.0;
    PowerSum(y, 32, 32);
    var q := Power(y, 2);
    assert Power(y, 1) == y * Power(y, 0) && q == y * Power(y, 1);
    assert q == y * y;
    SquaredPower(y, 32);
    BelowOne(q, 32);
    SquareBelowOne(y);
    assert -1.0 < y < 1.0 <==> 0.0 < rhs < 1024.0;
  }

  lemma SquareBelowOne(y: real)
    ensures y * y < 1.0 <==> -1.0 < y < 1.0
    ensures y * y >= 0.0
  {
    if y >= 1.0 {
      assert y * y >= y;
    } else if y <= -1.0 {
      assert (-y) * (-y) >= -y;
    } else if y >= 0.0 {
      assert y * y <= y;
    } else {
      assert (-y) * (-y) <= -y;
    }
  }

  lemma {:induction false} SquaredPower(y: real, k: nat)
    ensures Power(y, 2 * k) == Power(y * y, k)
  {
    if k > 0 {
      SquaredPower(y, k - 1);
      calc {
        Power(y, 2 * k);
        y * Power(y, 2 * k - 1);
        y * (y * Power(y, 2 * k - 2));
        (y * y) * Power(y, 2 * (k - 1));
      }
    }
  }

  lemma {:induction false} BelowOne(q: real, k: nat)
    requires q >= 0.0 && k > 0
    ensures Power(q, k) >= 0.0
    ensures Power(q, k) < 1.0 <==> q < 1.0
  {
    if k == 1 {
      assert Power(q, 1) == q * Power(q, 0);
    } else {
      BelowOne(q, k - 1);
      var p := Power(q, k - 1);
      assert Power(q, k) == q * p;
      if q < 1.0 {
        assert q * p <= p;
      } else {
        assert q * p >= p;
      }
    }
  }
}
