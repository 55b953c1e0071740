/** Comparison of encrypted numbers digit by digit, iyfc/dag/expr.cpp with base CMP_P = 7. */
module Comparison {
  import opened Semantics
  import opened Graphs
  import opened Labels
  import opened CircuitDepth
  import opened RoundDepth
  import opened PolynomialNodes
  import opened Exprs
  import opened Replication
  import opened QuerySums

  /** composemod: the digits of CMP_P = 7 are those of base 4. */
  const BASE: nat := 4
  const UINT32: nat := 0x1_0000_0000

  // ----- digits -----

  /** num without its p lowest digits. */
  function Shifted(num: nat, k: nat, p: nat): nat
    requires k >= 2
  {
    if p == 0 then num else Shifted(num / k, k, p - 1)
  }

  function Digit(num: nat, k: nat, p: nat): (r: nat)
    requires k >= 2
    ensures r < k
  {
    Shifted(num, k, p) % k
  }

  lemma {:induction false} ShiftedOnce(num: nat, k: nat, p: nat)
    requires k >= 2
    ensures Shifted(num, k, p + 1) == Shifted(num, k, p) / k
  {
    if p > 0 {
      ShiftedOnce(num / k, k, p - 1);
    }
  }

  lemma {:induction false} ShiftedZero(k: nat, p: nat)
    requires k >= 2
    ensures Shifted(0, k, p) == 0
  {
    if p > 0 {
      ShiftedZero(k, p - 1);
    }
  }

  predicate IsDigits(num: nat, k: nat, digits: seq<nat>)
    requires k >= 2
  {
    forall p: nat :: p < |digits| ==> digits[p] == Digit(num, k, |digits| - 1 - p)
  }

  predicate LowDigits(num: nat, k: nat, low: seq<nat>)
    requires k >= 2
  {
    forall p: nat :: p < |low| ==> low[p] == Digit(num, k, p)
  }

  lemma DigitIs(num: nat, k: nat, n: nat, p: nat)
    requires k >= 2 && n == Shifted(num, k, p)
    ensures n % k == Digit(num, k, p) && n / k == Shifted(num, k, p + 1)
    ensures n == 0 ==> Digit(num, k, p) == 0 && Shifted(num, k, p + 1) == 0
  {
    ShiftedOnce(num, k, p);
  }

  lemma MoreDigits(num: nat, k: nat, low: seq<nat>, d: nat)
    requires k >= 2 && LowDigits(num, k, low) && d == Digit(num, k, |low|)
    ensures LowDigits(num, k, low + [d])
  {
    hide Digit;
  }

  lemma DigitsReversed(num: nat, k: nat, low: seq<nat>, digits: seq<nat>)
    requires k >= 2 && LowDigits(num, k, low) && |digits| == |low|
    requires forall p: nat :: p < |digits| ==> digits[p] == low[|low| - 1 - p]
    ensures IsDigits(num, k, digits)
  {
    hide Digit;
  }

  /** decimalConvert: the lowest digits of num, highest first. */
  method DecimalConvert(num: nat, k: nat, bits: nat) returns (digits: seq<nat>)
    requires k >= 2
    ensures |digits| == bits && IsDigits(num, k, digits)
  {
    hide Shifted, Digit, LowDigits, IsDigits;
    var low: seq<nat> := [];
    var n := num;
    assert n == Shifted(num, k, 0) by { FirstDigit(num, k); }
    assert LowDigits(num, k, low) by { FirstDigit(num, k); }
    while n != 0
      invariant n == Shifted(num, k, |low|) && LowDigits(num, k, low)
    {
      DigitIs(num, k, n, |low|);
      MoreDigits(num, k, low, n % k);
      low := low + [n % k];
      QuotientSmaller(n, k);
      n := n / k;
    }
    low := Resized(num, k, bits, low);
    digits := seq(bits, p requires 0 <= p < bits => low[bits - 1 - p]);
    DigitsReversed(num, k, low, digits);
  }

  lemma QuotientSmaller(n: nat, k: nat)
    requires k >= 2 && n > 0
    ensures n / k < n
  {
    var q := n / k;
    assert k * q >= 2 * q;
    assert n == k * q + n % k;
  }

  lemma FirstDigit(num: nat, k: nat)
    requires k >= 2
    ensures Shifted(num, k, 0) == num && LowDigits(num, k, [])
  {
  }

  lemma Shortened(num: nat, k: nat, bits: nat, low: seq<nat>)
    requires k >= 2 && LowDigits(num, k, low) && bits <= |low|
    ensures LowDigits(num, k, low[..bits])
  {
    hide Digit;
  }

  /** vec_result.resize(bits) */
  method Resized(num: nat, k: nat, bits: nat, low: seq<nat>) returns (r: seq<nat>)
    requires k >= 2 && LowDigits(num, k, low) && Shifted(num, k, |low|) == 0
    ensures |r| == bits && LowDigits(num, k, r)
  {
    hide Shifted, Digit, LowDigits;
    if |low| > bits {
      Shortened(num, k, bits, low);
      return low[..bits];
    }
    r := low;
    while |r| < bits
      invariant |r| <= bits && Shifted(num, k, |r|) == 0 && LowDigits(num, k, r)
    {
      DigitIs(num, k, 0, |r|);
      MoreDigits(num, k, r, 0);
      r := r + [0];
    }
  }

  // ----- windows of digits -----

  type Digits = seq<nat>

  predicate Base4(x: Digits)
  {
    |x| == DAG_SIZE && forall i: nat :: i < DAG_SIZE ==> x[i] < BASE
  }

  function DigitAt(x: Digits, i: int): (r: nat)
    requires Base4(x)
    ensures r < BASE
  {
    x[i % DAG_SIZE]
  }

  /** The number whose len digits start at slot i, cyclically, highest first. */
  function Window(x: Digits, i: int, len: nat): nat
    requires Base4(x)
  {
    if len == 0 then 0 else BASE * Window(x, i, len - 1) + DigitAt(x, i + len - 1)
  }

  function Exp(k: nat): (r: nat)
    ensures r > 0
  {
    if k == 0 then 1 else BASE * Exp(k - 1)
  }

  lemma {:induction false} WindowBelow(x: Digits, i: int, len: nat)
    requires Base4(x)
    ensures Window(x, i, len) < Exp(len)
  {
    if len > 0 {
      WindowBelow(x, i, len - 1);
    }
  }

  lemma {:induction false} WindowCyclic(x: Digits, i: int, len: nat)
    requires Base4(x)
    ensures Window(x, i % DAG_SIZE, len) == Window(x, i, len)
  {
    if len > 0 {
      WindowCyclic(x, i, len - 1);
      AddWithin(i, len - 1, DAG_SIZE);
    }
  }

  lemma {:induction false} WindowsJoin(x: Digits, i: int, a: nat, b: nat)
    requires Base4(x)
    ensures Window(x, i, a + b) == Window(x, i, a) * Exp(b) + Window(x, i + a, b)
  {
    if b > 0 {
      WindowsJoin(x, i, a, b - 1);
      assert i + (a + b) - 1 == (i + a) + b - 1;
      FourTimes(Window(x, i, a), Exp(b - 1));
    }
  }

  lemma WindowTwice(x: Digits, i: int, len: nat)
    requires Base4(x)
    ensures Window(x, i, 2 * len) == Window(x, i, len) * Exp(len) + Window(x, (i + len) % DAG_SIZE, len)
    ensures Window(x, (i + len) % DAG_SIZE, len) < Exp(len)
  {
    hide Window, Exp;
    WindowCyclic(x, i + len, len);
    WindowsJoin(x, i, len, len);
    WindowBelow(x, i + len, len);
    assert 2 * len == len + len;
  }

  lemma FourTimes(w: nat, e: nat)
    ensures w * (BASE * e) == BASE * (w * e)
  {
  }

  /** High digits decide, low digits break ties. */
  lemma Lexicographic(u: nat, v: nat, u': nat, v': nat, e: nat)
    requires v < e && v' < e
    ensures u * e + v < u' * e + v' <==> u < u' || (u == u' && v < v')
    ensures u * e + v == u' * e + v' <==> u == u' && v == v'
  {
    if u < u' {
      assert u' * e >= (u + 1) * e == u * e + e;
    } else if u' < u {
      assert u * e >= (u' + 1) * e == u' * e + e;
    }
  }

  // ----- the circuit -----

  function Bit(b: bool): real
  {
    if b then 1.0 else 0.0
  }

  function LessPolynomial(z: real): real
  {
    (1.0 / 72.0 * z * z + 3.0 / 40.0 * z + 37.0 / 360.0) * z * (z - 1.0) * (z - 2.0) * (z - 3.0)
  }

  function EqualPolynomial(z: real): real
  {
    (-1.0) / 36.0 * (z + 3.0) * (z + 2.0) * (z + 1.0) * (z - 1.0) * (z - 2.0) * (z - 3.0)
  }

  lemma PolynomialsAt(z: int)
    requires -3 <= z <= 3
    ensures LessPolynomial(z as real) == Bit(z < 0) && EqualPolynomial(z as real) == Bit(z == 0)
  {
    if
    case z == -3 =>
      assert LessPolynomial(-3.0) == 1.0 && EqualPolynomial(-3.0) == 0.0;
    case z == -2 =>
      assert LessPolynomial(-2.0) == 1.0 && EqualPolynomial(-2.0) == 0.0;
    case z == -1 =>
      assert LessPolynomial(-1.0) == 1.0 && EqualPolynomial(-1.0) == 0.0;
    case z == 0 =>
      assert LessPolynomial(0.0) == 0.0 && EqualPolynomial(0.0) == 1.0;
    case z == 1 =>
      assert LessPolynomial(1.0) == 0.0 && EqualPolynomial(1.0) == 0.0;
    case z == 2 =>
      assert LessPolynomial(2.0) == 0.0 && EqualPolynomial(2.0) == 0.0;
    case z == 3 =>
      assert LessPolynomial(3.0) == 0.0 && EqualPolynomial(3.0) == 0.0;
  }

  /** On differences of digits the polynomials are exactly the comparisons. */
  lemma PolynomialsCompare(a: nat, b: nat)
    requires a < BASE && b < BASE
    ensures LessPolynomial(a as real - b as real) == Bit(a < b)
    ensures EqualPolynomial(a as real - b as real) == Bit(a == b)
  {
    hide LessPolynomial, EqualPolynomial;
    PolynomialsAt(a - b);
    assert (a - b) as real == a as real - b as real;
  }

  /** lt and eq compare the windows of len digits at every slot. */
  predicate Compares(x: Digits, y: Digits, lt: Slots, eq: Slots, len: nat)
    requires Base4(x) && Base4(y)
  {
    && |lt| == |eq| == DAG_SIZE
    && forall i: nat :: i < DAG_SIZE ==> ComparesAt(x, y, lt[i], eq[i], i, len)
  }

  predicate ComparesAt(x: Digits, y: Digits, lt: real, eq: real, i: int, len: nat)
    requires Base4(x) && Base4(y)
  {
    && lt == Bit(Window(x, i, len) < Window(y, i, len))
    && eq == Bit(Window(x, i, len) == Window(y, i, len))
  }

  lemma BitsCombine(high: bool, low: bool, tie: bool, lowTie: bool)
    requires !(high && tie)
    ensures Bit(high) + Bit(low) * Bit(tie) == Bit(high || (tie && low))
    ensures Bit(tie) * Bit(lowTie) == Bit(tie && lowTie)
  {
  }

  lemma TwiceAsLong(x: Digits, y: Digits, lt: real, eq: real, low: real, lowTie: real, lt': real, eq': real, i: int,
                    len: nat)
    requires Base4(x) && Base4(y)
    requires ComparesAt(x, y, lt, eq, i, len) && ComparesAt(x, y, low, lowTie, (i + len) % DAG_SIZE, len)
    requires lt' == lt + low * eq && eq' == eq * lowTie
    ensures ComparesAt(x, y, lt', eq', i, 2 * len)
  {
    hide Window, Exp;
    var j := (i + len) % DAG_SIZE;
    WindowTwice(x, i, len);
    WindowTwice(y, i, len);
    hide Base4;
    JoinedBits(Window(x, i, len), Window(x, j, len), Window(y, i, len), Window(y, j, len), Exp(len));
  }

  lemma JoinedBits(u: nat, v: nat, u': nat, v': nat, e: nat)
    requires v < e && v' < e
    ensures Bit(u < u') + Bit(v < v') * Bit(u == u') == Bit(u * e + v < u' * e + v')
    ensures Bit(u == u') * Bit(v == v') == Bit(u * e + v == u' * e + v')
  {
    hide Bit;
    Lexicographic(u, v, u', v', e);
    BitsCombine(u < u', v < v', u == u', v == v');
  }

  function NextLess(lt: Slots, eq: Slots, k: nat): Slots
  {
    Plus(DAG_SIZE, lt, Times(DAG_SIZE, RotatedLeft(DAG_SIZE, lt, k), eq))
  }

  function NextEqual(eq: Slots, k: nat): Slots
  {
    Times(DAG_SIZE, eq, RotatedLeft(DAG_SIZE, eq, k))
  }

  lemma RoundCompares(x: Digits, y: Digits, lt: Slots, eq: Slots, len: nat)
    requires Base4(x) && Base4(y) && Compares(x, y, lt, eq, len)
    ensures Compares(x, y, NextLess(lt, eq, len), NextEqual(eq, len), 2 * len)
  {
    hide ComparesAt;
    var lt', eq' := NextLess(lt, eq, len), NextEqual(eq, len);
    forall i: nat | i < DAG_SIZE
      ensures ComparesAt(x, y, lt'[i], eq'[i], i, 2 * len)
    {
      var j := (i + len) % DAG_SIZE;
      assert lt'[i] == lt[i] + lt[j] * eq[i] && eq'[i] == eq[i] * eq[j];
      TwiceAsLong(x, y, lt[i], eq[i], lt[j], eq[j], lt'[i], eq'[i], i, len);
    }
  }

  /** The four rounds of getCmpExprP7, from one digit to sixteen. */
  function Doubled(lt0: Slots, eq0: Slots): (Slots, Slots)
  {
    var lt1, eq1 := NextLess(lt0, eq0, 1), NextEqual(eq0, 1);
    var lt2, eq2 := NextLess(lt1, eq1, 2), NextEqual(eq1, 2);
    var lt3, eq3 := NextLess(lt2, eq2, 4), NextEqual(eq2, 4);
    (NextLess(lt3, eq3, 8), NextEqual(eq3, 8))
  }

  /** What getCmpExprP7 computes. */
  function CmpExprP7(z: Slots): (Slots, Slots)
    requires |z| == DAG_SIZE
  {
    var lt0 := seq(DAG_SIZE, i requires 0 <= i < DAG_SIZE => LessPolynomial(z[i]));
    var eq0 := seq(DAG_SIZE, i requires 0 <= i < DAG_SIZE => EqualPolynomial(z[i]));
    Doubled(lt0, eq0)
  }

  lemma PolynomialsStart(x: Digits, y: Digits, z: Slots, lt: Slots, eq: Slots)
    requires Base4(x) && Base4(y) && |z| == |lt| == |eq| == DAG_SIZE
    requires forall i: nat :: i < DAG_SIZE ==>
      z[i] == x[i] as real - y[i] as real && lt[i] == LessPolynomial(z[i]) && eq[i] == EqualPolynomial(z[i])
    ensures Compares(x, y, lt, eq, 1)
  {
    hide LessPolynomial, EqualPolynomial;
    forall i: nat | i < DAG_SIZE
      ensures ComparesAt(x, y, lt[i], eq[i], i, 1)
    {
      PolynomialsCompare(x[i], y[i]);
      OneDigit(x, i);
      OneDigit(y, i);
    }
  }

  lemma OneDigit(x: Digits, i: nat)
    requires Base4(x) && i < DAG_SIZE
    ensures Window(x, i, 1) == x[i]
  {
    CopyCount(DAG_SIZE, DAG_SIZE, i);
    assert Window(x, i, 0) == 0 && DigitAt(x, i) == x[i];
  }

  predicate Holds(x: Digits, v: Slots)
  {
    && Base4(x) && |v| == DAG_SIZE
    && forall i: nat :: i < DAG_SIZE ==> v[i] == x[i] as real
  }

  /** Both results of getCmpExprP7 are right at every slot, for the sixteen digits from there on. */
  lemma CmpExprCompares(x: Digits, y: Digits, lhs: Slots, rhs: Slots)
    requires Holds(x, lhs) && Holds(y, rhs)
    ensures var (lt, eq) := CmpExprP7(Minus(DAG_SIZE, lhs, rhs)); Compares(x, y, lt, eq, BLOCK)
  {
    hide Compares, NextLess, NextEqual, LessPolynomial, EqualPolynomial;
    var z := Minus(DAG_SIZE, lhs, rhs);
    var lt0 := seq(DAG_SIZE, i requires 0 <= i < DAG_SIZE => LessPolynomial(z[i]));
    var eq0 := seq(DAG_SIZE, i requires 0 <= i < DAG_SIZE => EqualPolynomial(z[i]));
    PolynomialsStart(x, y, z, lt0, eq0);
    RoundCompares(x, y, lt0, eq0, 1);
    var lt1, eq1 := NextLess(lt0, eq0, 1), NextEqual(eq0, 1);
    RoundCompares(x, y, lt1, eq1, 2);
    var lt2, eq2 := NextLess(lt1, eq1, 2), NextEqual(eq1, 2);
    RoundCompares(x, y, lt2, eq2, 4);
    RoundCompares(x, y, NextLess(lt2, eq2, 4), NextEqual(eq2, 4), 8);
  }

  // ----- mask and fill -----

  /** getMaskVec */
  function MaskVec(): (mask: Slots)
    ensures |mask| == DAG_SIZE
  {
    seq(DAG_SIZE, i => if i % BLOCK == 0 then 1.0 else 0.0)
  }

  predicate Delayed(masked: Slots, v: Slots, t: nat)
  {
    && |v| == DAG_SIZE
    && forall i: nat :: i < DAG_SIZE ==> v[i] == At(masked, (i - t) % DAG_SIZE)
  }

  lemma DelayedSlotOnce(m: nat, masked: Slots, v: Slots, t: nat, i: nat)
    requires |v| == m && forall k: nat :: k < m ==> v[k] == At(masked, (k - t) % m)
    requires i < m
    ensures RotatedLeft(m, v, -1)[i] == At(masked, (i - (t + 1)) % m)
  {
    var j := (i - 1) % m;
    assert (j - t) % m == (i - (t + 1)) % m by {
      AddWithin(i - 1, 0 - t, m);
      assert j + (0 - t) == j - t && (i - 1) + (0 - t) == i - (t + 1);
    }
    assert RotatedLeft(m, v, -1)[i] == v[j];
  }

  lemma DelayedOnce(masked: Slots, v: Slots, t: nat)
    requires Delayed(masked, v, t)
    ensures Delayed(masked, RotatedLeft(DAG_SIZE, v, -1), t + 1)
  {
    forall i: nat | i < DAG_SIZE
      ensures RotatedLeft(DAG_SIZE, v, -1)[i] == At(masked, (i - (t + 1)) % DAG_SIZE)
    {
      DelayedSlotOnce(DAG_SIZE, masked, v, t, i);
    }
  }

  /** The first t + 1 slots of each block hold what stands at its head, the others zero. */
  predicate FilledUpTo(v: Slots, r: Slots, t: nat)
  {
    && |v| == |r| == DAG_SIZE
    && forall i: nat :: i < DAG_SIZE ==> r[i] == if i % BLOCK <= t then v[i - i % BLOCK] else 0.0
  }

  lemma MaskedFillsHeads(v: Slots)
    requires |v| == DAG_SIZE
    ensures FilledUpTo(v, Times(DAG_SIZE, MaskVec(), v), 0)
    ensures Delayed(Times(DAG_SIZE, MaskVec(), v), Times(DAG_SIZE, MaskVec(), v), 0)
  {
    var masked := Times(DAG_SIZE, MaskVec(), v);
    forall i: nat | i < DAG_SIZE
      ensures masked[i] == if i % BLOCK <= 0 then v[i - i % BLOCK] else 0.0
    {
      MaskedSlot(v, i);
    }
    forall i: nat | i < DAG_SIZE
      ensures masked[i] == At(masked, (i - 0) % DAG_SIZE)
    {
      CopyCount(DAG_SIZE, DAG_SIZE, i);
    }
  }

  lemma MaskedSlot(v: Slots, i: nat)
    requires |v| == DAG_SIZE && i < DAG_SIZE
    ensures Times(DAG_SIZE, MaskVec(), v)[i] == if i % BLOCK == 0 then v[i] else 0.0
  {
    var mask := MaskVec();
    assert mask[i] == if i % BLOCK == 0 then 1.0 else 0.0;
  }

  lemma DelayedSlot(v: Slots, i: nat, t: nat)
    requires |v| == DAG_SIZE && i < DAG_SIZE && t < BLOCK
    ensures At(Times(DAG_SIZE, MaskVec(), v), (i - t) % DAG_SIZE) == if i % BLOCK == t then v[i - i % BLOCK] else 0.0
  {
    var j := (i - t) % DAG_SIZE;
    DivideBoth(i - t, DAG_SIZE, BLOCK);
    MaskedSlot(v, j);
    if i % BLOCK == t {
      CopyCount(DAG_SIZE, DAG_SIZE, i - t);
    }
  }

  lemma FilledFurther(v: Slots, r: Slots, late: Slots, t: nat)
    requires t + 1 < BLOCK && FilledUpTo(v, r, t) && Delayed(Times(DAG_SIZE, MaskVec(), v), late, t + 1)
    ensures FilledUpTo(v, Plus(DAG_SIZE, r, late), t + 1)
  {
    forall i: nat | i < DAG_SIZE
      ensures r[i] + late[i] == if i % BLOCK <= t + 1 then v[i - i % BLOCK] else 0.0
    {
      DelayedSlot(v, i, t + 1);
    }
  }

  // ----- the graph -----

  lemma FactorAt(size: nat, a: Slots, z: Slots, i: nat)
    requires |a| == |z| == size && i < size
    ensures |FactorSlots(size, a, z)| == size
    ensures FactorSlots(size, a, z)[i] == a[i] * (z[i] - 1.0) * (z[i] - 2.0) * (z[i] - 3.0)
  {
    var f1, f2 := Minus(size, z, Filled(size, 1.0)), Minus(size, z, Filled(size, 2.0));
    var f3 := Minus(size, z, Filled(size, 3.0));
    var r1 := Times(size, a, f1);
    var r2 := Times(size, r1, f2);
    assert r1[i] == a[i] * f1[i] && r2[i] == r1[i] * f2[i] && Times(size, r2, f3)[i] == r2[i] * f3[i];
  }

  /** Both start values are the polynomials, slot by slot. */
  lemma StartAt(size: nat, z: Slots, i: nat)
    requires |z| == size && i < size
    ensures |LessSlots(size, z)| == |EqualSlots(size, z)| == size
    ensures LessSlots(size, z)[i] == LessPolynomial(z[i]) && EqualSlots(size, z)[i] == EqualPolynomial(z[i])
  {
    LessStartAt(size, z, i);
    EqualStartAt(size, z, i);
  }

  lemma LessStartAt(size: nat, z: Slots, i: nat)
    requires |z| == size && i < size
    ensures |LessSlots(size, z)| == size && LessSlots(size, z)[i] == LessPolynomial(z[i])
  {
    var a := Times(size, SumSlots(size, z), z);
    ghost var x := z[i];
    assert a[i] == (1.0 / 72.0 * x * x + 3.0 / 40.0 * x + 37.0 / 360.0) * x;
    FactorAt(size, a, z, i);
    hide Times, Plus, Minus, FactorSlots;
  }

  lemma EqualStartAt(size: nat, z: Slots, i: nat)
    requires |z| == size && i < size
    ensures |EqualSlots(size, z)| == size && EqualSlots(size, z)[i] == EqualPolynomial(z[i])
  {
    ghost var x := z[i];
    assert FirstSlots(size, z)[i] == (-1.0) / 36.0 * (x + 3.0) * (x + 2.0) * (x + 1.0);
    FactorAt(size, FirstSlots(size, z), z, i);
    hide Times, Plus, Minus, FactorSlots;
  }

  /** One round of getCmpExprP7. Nothing uses the results yet. */
  method CmpRound(e: ExprDag, lt: Expr, eq: Expr, k: nat) returns (lt': Expr, eq': Expr)
    requires e.Valid() && e.IsExpr(lt) && e.IsExpr(eq) && e.size == DAG_SIZE
    modifies e`info, e.dag
    ensures e.Valid() && e.Keeps() && e.IsExpr(lt') && e.IsExpr(eq')
    ensures e.Val(lt') == NextLess(e.Val(lt), e.Val(eq), k) && e.Val(eq') == NextEqual(e.Val(eq), k)
    ensures lt' != eq' && e.Unused(lt') && e.Unused(eq')
    ensures Grown(old(e.dag.G()), e.dag.G(), 5) && lt' == |old(e.dag.G()).op| + 3 && eq' == lt' + 1
    ensures RoundNodes(e.dag.G(), lt' - 3, lt, eq, k)
    ensures e.Depth(eq') == old(e.Depth(eq)) + 1 && e.Factors(eq') <= 2 && |e.dag.op| == eq' + 1
  {
    hide Plus, Times, RotatedLeft, ExprDag.Valid, ExprDag.Unused, ExprDag.NoOutputs, ExprDag.Depth, ExprDag.Factors,
         ExprDag.Val, ExprDag.IsExpr, AddNode, LogUp, Grown, NodeIs, RoundNodes;
    e.Counted();
    ghost var g0 := e.dag.G();
    var turnedLt, turnedEq := Turned(e, lt, eq, k);
    ghost var g1 := e.dag.G();
    lt', eq' := Combined(e, lt, eq, turnedLt, turnedEq);
    RoundStays(g0, g1, e.dag.G(), lt, eq, k);
    LowerEquality(e, turnedLt, lt, eq, k);
  }

  /** Both results, turned by k slots. */
  method Turned(e: ExprDag, lt: Expr, eq: Expr, k: nat) returns (turnedLt: Expr, turnedEq: Expr)
    requires e.Valid() && e.IsExpr(lt) && e.IsExpr(eq) && e.size == DAG_SIZE
    modifies e`info, e.dag
    ensures e.Valid() && e.Keeps() && e.IsExpr(turnedLt) && e.IsExpr(turnedEq) && e.info.frozen == old(e.info.frozen)
    ensures e.Val(turnedLt) == RotatedLeft(DAG_SIZE, e.Val(lt), k)
    ensures e.Val(turnedEq) == RotatedLeft(DAG_SIZE, e.Val(eq), k)
    ensures Grown(old(e.dag.G()), e.dag.G(), 2) && turnedLt == |old(e.dag.G()).op| && turnedEq == turnedLt + 1
    ensures NodeIs(e.dag.G(), turnedLt, RotateLeft(k), [lt]) && NodeIs(e.dag.G(), turnedEq, RotateLeft(k), [eq])
    ensures e.Depth(turnedEq) == old(e.Depth(eq)) && e.Factors(turnedEq) == 1 && |e.dag.op| == turnedLt + 2
    ensures lt < turnedLt && eq < turnedLt
  {
    hide Plus, Times, RotatedLeft, ExprDag.Valid, ExprDag.Unused, ExprDag.NoOutputs, ExprDag.Depth, ExprDag.Factors,
         ExprDag.Val, ExprDag.IsExpr, AddNode, LogUp, Grown, NodeIs;
    e.Counted();
    ghost var g0 := e.dag.G();
    turnedLt := e.ShiftLeft(lt, k);
    OneNode(g0, RotateLeft(k), [lt]);
    ghost var g1 := e.dag.G();
    e.Counted();
    turnedEq := e.ShiftLeft(eq, k);
    OneNode(g1, RotateLeft(k), [eq]);
    GrownTwice(g0, g1, e.dag.G(), 1, 1);
    NodeStays(g1, e.dag.G(), 1, turnedLt, RotateLeft(k), [lt]);
  }

  /** lt + turnedLt * eq and eq * turnedEq */
  method Combined(e: ExprDag, lt: Expr, eq: Expr, turnedLt: Expr, turnedEq: Expr) returns (lt': Expr, eq': Expr)
    requires e.Valid() && e.IsExpr(lt) && e.IsExpr(eq) && e.size == DAG_SIZE
    requires e.IsExpr(turnedLt) && e.IsExpr(turnedEq) && e.Depth(turnedEq) == e.Depth(eq) && e.Factors(turnedEq) == 1
    modifies e`info, e.dag
    ensures e.Valid() && e.Keeps() && e.IsExpr(lt') && e.IsExpr(eq') && e.info.frozen == old(e.info.frozen)
    ensures e.Val(lt') == Plus(DAG_SIZE, e.Val(lt), Times(DAG_SIZE, e.Val(turnedLt), e.Val(eq)))
    ensures e.Val(eq') == Times(DAG_SIZE, e.Val(eq), e.Val(turnedEq))
    ensures e.Unused(lt') && e.Unused(eq') && e.Depth(eq') > e.Depth(eq)
    ensures Grown(old(e.dag.G()), e.dag.G(), 3) && lt' == |old(e.dag.G()).op| + 1 && eq' == lt' + 1
    ensures NodeIs(e.dag.G(), lt' - 1, Mul, [turnedLt, eq]) && NodeIs(e.dag.G(), lt', Add, [lt, lt' - 1])
    ensures NodeIs(e.dag.G(), eq', Mul, [eq, turnedEq]) && |e.dag.op| == eq' + 1
  {
    hide Plus, Times, RotatedLeft, ExprDag.Valid, ExprDag.Unused, ExprDag.NoOutputs, ExprDag.Depth, ExprDag.Factors,
         ExprDag.Val, ExprDag.IsExpr, AddNode, LogUp, Grown, NodeIs;
    e.Counted();
    ghost var g0 := e.dag.G();
    var product := e.Mul(turnedLt, eq);
    OneNode(g0, Op.Mul, [turnedLt, eq]);
    ghost var g1 := e.dag.G();
    e.Counted();
    lt' := e.Add(lt, product);
    OneNode(g1, Op.Add, [lt, product]);
    ghost var g2 := e.dag.G();
    e.Counted();
    e.SomeFactors(eq);
    eq' := e.Mul(eq, turnedEq);
    OneNode(g2, Op.Mul, [eq, turnedEq]);
    LogUpGrows(2, e.Factors(eq'));
    SmallHeights();
    ThreeStay(g0, g1, g2, e.dag.G(), product, turnedLt, eq, lt);
  }

  lemma ThreeStay(g0: Graph, g1: Graph, g2: Graph, g3: Graph, n: NodeId, turnedLt: NodeId, eq: NodeId, lt: NodeId)
    requires Grown(g0, g1, 1) && Grown(g1, g2, 1) && Grown(g2, g3, 1)
    requires NodeIs(g1, n, Mul, [turnedLt, eq]) && NodeIs(g2, n + 1, Add, [lt, n])
    ensures Grown(g0, g3, 3) && NodeIs(g3, n, Mul, [turnedLt, eq]) && NodeIs(g3, n + 1, Add, [lt, n])
  {
  }

  lemma RoundStays(g0: Graph, g1: Graph, g2: Graph, lt: NodeId, eq: NodeId, k: nat)
    requires Grown(g0, g1, 2) && Grown(g1, g2, 3)
    requires var b := |g0.op|;
      && NodeIs(g1, b, RotateLeft(k), [lt]) && NodeIs(g1, b + 1, RotateLeft(k), [eq]) && NodeIs(g2, b + 2, Mul, [b, eq])
      && NodeIs(g2, b + 3, Add, [lt, b + 2]) && NodeIs(g2, b + 4, Mul, [eq, b + 1])
    ensures Grown(g0, g2, 5) && RoundNodes(g2, |g0.op|, lt, eq, k)
  {
  }

  /** The label of a new equality. */
  ghost method LowerEquality(e: ExprDag, b: Expr, lt: Expr, eq: Expr, k: nat)
    requires e.Valid() && e.IsExpr(eq) && e.IsExpr(b + 4) && RoundNodes(e.dag.G(), b, lt, eq, k) && eq < b
    requires e.Depth(b + 1) == e.Depth(eq) < e.Depth(b + 4)
    modifies e`info
    ensures e.Valid() && e.Depth(b + 4) == e.Depth(eq) + 1 && e.Factors(b + 4) <= 2
    ensures e.info.frozen == old(e.info.frozen)
    ensures forall m: Expr :: old(e.IsExpr(m)) ==> e.IsExpr(m) && e.Val(m) == old(e.Val(m))
    ensures forall m: Expr :: old(e.IsExpr(m)) && m != b + 4 ==>
      e.Depth(m) == old(e.Depth(m)) && e.Factors(m) == old(e.Factors(m))
  {
    hide ExprDag.Valid, Labelled, AllLabelled;
    GraphFacts(e);
    e.Counted();
    var tag := Label(e.Depth(eq) + 1, 2);
    EqualityLabelled(e.dag.G(), e.info.frozen, e.info.labels, b + 4, eq, b + 1, k);
    assert e.info.frozen + {} == e.info.frozen;
    e.LowerLabel(b + 4, {}, tag);
  }

  /** The four rounds. */
  method FourRounds(e: ExprDag, lt0: Expr, eq0: Expr) returns (lt: Expr, eq: Expr)
    requires e.Valid() && e.IsExpr(lt0) && e.IsExpr(eq0) && e.size == DAG_SIZE
    requires e.Depth(lt0) <= e.Depth(eq0)
    modifies e`info, e.dag
    ensures e.Valid() && e.Keeps() && e.IsExpr(lt) && e.IsExpr(eq)
    ensures (e.Val(lt), e.Val(eq)) == Doubled(e.Val(lt0), e.Val(eq0))
    ensures lt != eq && e.Unused(lt) && e.Unused(eq)
    ensures e.Depth(lt) <= old(e.Depth(eq0)) + 5 && e.Depth(eq) == old(e.Depth(eq0)) + 4
    ensures e.Factors(lt) == 1 && e.Factors(eq) <= 2
  {
    hide NextLess, NextEqual, ExprDag.Valid, ExprDag.Unused, ExprDag.NoOutputs, ExprDag.Depth, ExprDag.Factors,
         ExprDag.Val, ExprDag.IsExpr, AddNode, LogUp, Grown, RoundNodes, Rounds;
    e.Counted();
    ghost var g0 := e.dag.G();
    lt, eq := CmpRound(e, lt0, eq0, 1);
    ghost var g1, b := e.dag.G(), lt - 3;
    lt, eq := CmpRound(e, lt, eq, 2);
    ghost var g2 := e.dag.G();
    lt, eq := CmpRound(e, lt, eq, 4);
    ghost var g3 := e.dag.G();
    lt, eq := CmpRound(e, lt, eq, 8);
    GraphFacts(e);
    RoundsStay(g0, g1, g2, g3, e.dag.G(), lt0, eq0);
    LastIsSum(e.dag.G(), b, lt0, eq0);
    LowerRoundLabels(e, b, lt0, eq0);
    e.OneFactor(lt);
  }

  lemma RoundsStay(g0: Graph, g1: Graph, g2: Graph, g3: Graph, g4: Graph, lt: NodeId, eq: NodeId)
    requires Grown(g0, g1, 5) && Grown(g1, g2, 5) && Grown(g2, g3, 5) && Grown(g3, g4, 5) && Ordered(g4)
    requires lt < |g0.op| && eq < |g0.op|
    requires var b := |g0.op|;
      && RoundNodes(g1, b, lt, eq, 1) && RoundNodes(g2, b + 5, b + 3, b + 4, 2)
      && RoundNodes(g3, b + 10, b + 8, b + 9, 4) && RoundNodes(g4, b + 15, b + 13, b + 14, 8)
    ensures Grown(g0, g4, 20) && Rounds(g4, |g0.op|, lt, eq)
  {
    hide RoundNodes;
    RoundNodesStay(g1, g4, 15, |g0.op|, lt, eq, 1);
    RoundNodesStay(g2, g4, 10, |g0.op| + 5, |g0.op| + 3, |g0.op| + 4, 2);
    RoundNodesStay(g3, g4, 5, |g0.op| + 10, |g0.op| + 8, |g0.op| + 9, 4);
  }

  lemma LastIsSum(g: Graph, b: NodeId, lt: NodeId, eq: NodeId)
    requires Rounds(g, b, lt, eq)
    ensures b + 18 < |g.op| && g.op[b + 18].Add?
  {
  }

  lemma RoundNodesStay(g: Graph, r: Graph, j: nat, b: NodeId, lt: NodeId, eq: NodeId, k: nat)
    requires Grown(g, r, j) && RoundNodes(g, b, lt, eq, k)
    ensures RoundNodes(r, b, lt, eq, k)
  {
  }

  /** The labels of the rounds, once they are all there. */
  ghost method LowerRoundLabels(e: ExprDag, b: Expr, lt: Expr, eq: Expr)
    requires e.Valid() && Rounds(e.dag.G(), b, lt, eq) && e.IsExpr(b + 18) && e.IsExpr(b + 19) && |e.dag.op| == b + 20
    requires lt < b && eq < b && e.Depth(lt) <= e.Depth(eq) && e.Depth(b + 4) <= e.Depth(eq) + 1
    requires e.Depth(b + 9) <= e.Depth(eq) + 2 && e.Depth(b + 14) <= e.Depth(eq) + 3 && e.Factors(b + 14) <= 2
    modifies e`info
    ensures e.Valid()
    ensures forall m: Expr :: old(e.IsExpr(m)) && m < b ==>
      && e.IsExpr(m) && e.Val(m) == old(e.Val(m)) && e.Depth(m) == old(e.Depth(m))
      && e.Factors(m) == old(e.Factors(m))
    ensures e.IsExpr(b + 18) && e.Val(b + 18) == old(e.Val(b + 18)) && e.Depth(b + 18) <= e.Depth(eq) + 5
    ensures e.IsExpr(b + 19) && e.Val(b + 19) == old(e.Val(b + 19)) && e.Depth(b + 19) == old(e.Depth(b + 19))
    ensures e.Factors(b + 19) == old(e.Factors(b + 19))
  {
    hide ExprDag.Valid, Labelled, AllLabelled, Rounds, EqualitiesAt, SameOutsideRounds, RoundsFrozen, BoundOf,
         FactorsOf;
    GraphFacts(e);
    e.Counted();
    var g, labels := e.dag.G(), e.info.labels;
    RoundDepths(g, labels, b, lt, eq, e.Depth(eq));
    var labels' := LowerRounds(g, e.info.frozen, labels, b, lt, eq, e.Depth(eq));
    LoweredDepths(g, labels, labels', b);
    FrozenBetween(b);
    e.LowerLabels(b, RoundsFrozen(b), labels');
  }

  lemma RoundDepths(g: Graph, labels: Labelling, b: NodeId, lt: NodeId, eq: NodeId, d: nat)
    requires |labels| == b + 20 && lt < b && eq < b && BoundOf(labels)(lt) <= d && BoundOf(labels)(eq) <= d
    requires BoundOf(labels)(b + 4) <= d + 1 && BoundOf(labels)(b + 9) <= d + 2 && BoundOf(labels)(b + 14) <= d + 3
    requires FactorsOf(g, labels, b + 14) <= 2
    ensures EqualitiesAt(g, labels, b, lt, eq, d)
  {
  }

  lemma LoweredDepths(g: Graph, labels: Labelling, labels': Labelling, b: NodeId)
    requires SameOutsideRounds(labels, labels', b)
    ensures |labels| == |labels'| && forall m: NodeId :: m < b ==> labels'[m] == labels[m]
    ensures forall m: NodeId :: m < b ==> BoundOf(labels')(m) == BoundOf(labels)(m)
    ensures BoundOf(labels')(b + 19) == BoundOf(labels)(b + 19) && BoundOf(labels')(b + 18) == labels'[b + 18].depth
    ensures FactorsOf(g, labels', b + 19) == FactorsOf(g, labels, b + 19)
  {
  }

  lemma FrozenBetween(b: NodeId)
    ensures forall m: NodeId :: m in RoundsFrozen(b) ==> b <= m < b + 18
  {
  }

  /** getCmpExprP7. Prepared, the comparison is at most eight deeper than its operand, the equality seven. */
  method GetCmpExprP7(e: ExprDag, z: Expr) returns (lt: Expr, eq: Expr)
    requires e.Valid() && e.IsExpr(z) && e.size == DAG_SIZE && !e.dag.op[z].Mul?
    modifies e`info, e.dag
    ensures e.Valid() && e.Keeps() && e.IsExpr(lt) && e.IsExpr(eq)
    ensures (e.Val(lt), e.Val(eq)) == CmpExprP7(e.Val(z))
    ensures lt != eq && e.Unused(lt) && e.Unused(eq)
    ensures e.Depth(lt) <= old(e.Depth(z)) + 8 && e.Depth(eq) == old(e.Depth(z)) + 7
    ensures e.Factors(lt) == 1 && e.Factors(eq) <= 2
  {
    hide Doubled, LessSlots, EqualSlots, ExprDag.Valid, ExprDag.Unused, ExprDag.NoOutputs, ExprDag.Depth,
         ExprDag.Factors, AddNode, LogUp;
    lt := LessStart(e, z);
    eq := EqualStart(e, z);
    StartsAre(e.Val(z));
    lt, eq := FourRounds(e, lt, eq);
  }

  lemma StartsAre(z: Slots)
    requires |z| == DAG_SIZE
    ensures LessSlots(DAG_SIZE, z) == seq(DAG_SIZE, i requires 0 <= i < DAG_SIZE => LessPolynomial(z[i]))
    ensures EqualSlots(DAG_SIZE, z) == seq(DAG_SIZE, i requires 0 <= i < DAG_SIZE => EqualPolynomial(z[i]))
  {
    hide LessSlots, EqualSlots, LessPolynomial, EqualPolynomial;
    StartAt(DAG_SIZE, z, 0);
    forall i: nat | i < DAG_SIZE
      ensures LessSlots(DAG_SIZE, z)[i] == LessPolynomial(z[i]) && EqualSlots(DAG_SIZE, z)[i] == EqualPolynomial(z[i])
    {
      StartAt(DAG_SIZE, z, i);
    }
  }

  datatype CmpType = EQ | LESS

  /** CmpOpHelper, for operands that hold digits; the length of vectors is set to DAG_SIZE by then. */
  method CmpOpHelper(e: ExprDag, lhs: Expr, rhs: Expr, kind: CmpType) returns (r: Expr)
    requires e.Valid() && e.IsExpr(lhs) && e.IsExpr(rhs) && e.size == DAG_SIZE
    modifies e`info, e.dag
    ensures e.Valid() && e.Keeps() && e.IsExpr(r) && e.Unused(r)
    ensures var (lt, eq) := CmpExprP7(Minus(DAG_SIZE, e.Val(lhs), e.Val(rhs)));
      FilledUpTo(if kind == LESS then lt else eq, e.Val(r), BLOCK - 1)
    ensures e.Depth(r) <= Higher(old(e.Depth(lhs)), old(e.Depth(rhs))) + 9 && e.Factors(r) == 1
  {
    hide FilledUpTo, CmpExprP7, Minus, ExprDag.Valid, ExprDag.Unused, ExprDag.NoOutputs, ExprDag.Depth,
         ExprDag.Factors, AddNode, LogUp;
    ghost var g := e.dag.G();
    e.Counted();
    var z := e.Sub(lhs, rhs);
    OneNode(g, Op.Sub, [lhs, rhs]);
    var lt, eq := GetCmpExprP7(e, z);
    LogUpGrows(e.Factors(eq) + 1, 3);
    SmallHeights();
    r := MaskAndFill(e, if kind == EQ then eq else lt);
  }

  /** Mask the heads of the blocks and fill the blocks with them. */
  method MaskAndFill(e: ExprDag, v: Expr) returns (r: Expr)
    requires e.Valid() && e.IsExpr(v) && e.size == DAG_SIZE
    modifies e`info, e.dag
    ensures e.Valid() && e.Keeps() && e.IsExpr(r) && e.Unused(r)
    ensures FilledUpTo(e.Val(v), e.Val(r), BLOCK - 1)
    ensures e.Depth(r) == old(e.Depth(v)) + LogUp(old(e.Factors(v)) + 1) && e.Factors(r) == 1
  {
    hide Delayed, FilledUpTo, Plus, Times, MaskVec, RotatedLeft, ExprDag.Valid, ExprDag.Unused, ExprDag.NoOutputs,
         ExprDag.Depth, ExprDag.Factors, AddNode, LogUp;
    ghost var x, d := e.Val(v), e.Depth(v) + LogUp(e.Factors(v) + 1);
    ghost var head := Times(DAG_SIZE, MaskVec(), x);
    var masked := ShiftedMasks(e, v);
    MaskedFillsHeads(x);
    r := masked[0];
    for i := 0 to BLOCK - 1
      invariant e.Valid() && e.Keeps() && e.IsExpr(r) && e.Val(v) == x
      invariant MasksHeld(e, masked, head, d) && FilledUpTo(x, e.Val(r), i) && e.Depth(r) == d
      invariant i > 0 ==> e.Unused(r) && e.Factors(r) == 1
    {
      FilledFurther(x, e.Val(r), e.Val(masked[i + 1]), i);
      r := e.Add(r, masked[i + 1]);
    }
  }

  /** The t-th expression is the first shifted t slots to the right, and all are equally deep. */
  ghost predicate MasksHeld(e: ExprDag, masked: seq<Expr>, head: Slots, d: nat)
    reads e, e.dag
  {
    |masked| == BLOCK && forall t: nat :: t < BLOCK ==> MaskHeld(e, masked[t], head, t, d)
  }

  ghost predicate MaskHeld(e: ExprDag, x: Expr, head: Slots, t: nat, d: nat)
    reads e, e.dag
  {
    e.IsExpr(x) && Delayed(head, e.Val(x), t) && e.Depth(x) == d
  }

  method ShiftedMasks(e: ExprDag, v: Expr) returns (masked: seq<Expr>)
    requires e.Valid() && e.IsExpr(v) && e.size == DAG_SIZE
    modifies e`info, e.dag
    ensures e.Valid() && e.Keeps()
    ensures MasksHeld(e, masked, Times(DAG_SIZE, MaskVec(), e.Val(v)), e.Depth(v) + LogUp(e.Factors(v) + 1))
    ensures e.Val(masked[0]) == Times(DAG_SIZE, MaskVec(), e.Val(v))
  {
    hide Delayed, Times, MaskVec, RotatedLeft, FilledUpTo, ExprDag.Valid, ExprDag.Unused, ExprDag.NoOutputs,
         ExprDag.Depth, ExprDag.Factors, AddNode, LogUp;
    ghost var x, d := e.Val(v), e.Depth(v) + LogUp(e.Factors(v) + 1);
    ghost var head := Times(DAG_SIZE, MaskVec(), x);
    MaskedFillsHeads(x);
    var first := e.VectorMul(MaskVec(), v);
    masked := [first];
    for i := 0 to BLOCK - 1
      invariant e.Valid() && e.Keeps() && e.Val(v) == x && |masked| == i + 1
      invariant forall t: nat :: t <= i ==> MaskHeld(e, masked[t], head, t, d)
      invariant e.Val(masked[0]) == head
    {
      DelayedOnce(head, e.Val(masked[i]), i);
      var next := e.ShiftRight(masked[i], 1);
      masked := masked + [next];
    }
  }

  lemma CmpExprLengths(z: Slots)
    requires |z| == DAG_SIZE
    ensures |CmpExprP7(z).0| == |CmpExprP7(z).1| == DAG_SIZE
  {
  }
}
