/** Vectors of up to MAX_CMP_NUM unsigned numbers: their encoding, the comparison and Boolean operators
    on them, and reading the results (iyfc/iyfc_include.cpp, iyfc/dag/expr.cpp). */
module CmpNumbers {
  import opened Semantics
  import opened Replication
  import opened Graphs
  import opened Labels
  import opened Exprs
  import opened QuerySums
  import opened Comparison

  type uint32 = x: nat | x < UINT32

  datatype Encoded = Encoded(slots: Slots) | TooManyNumbers

  function NumberAt(nums: seq<uint32>, b: nat): uint32
  {
    if b < |nums| then nums[b] else 0
  }

  function DigitsOf(nums: seq<uint32>): (x: Digits)
    ensures Base4(x)
  {
    seq(DAG_SIZE, i requires 0 <= i < DAG_SIZE => Digit(NumberAt(nums, i / BLOCK), BASE, BLOCK - 1 - i % BLOCK))
  }

  /** The slots hold the digits of the numbers, sixteen a number, and zero after the last. */
  predicate Encodes(nums: seq<uint32>, v: Slots)
  {
    Holds(DigitsOf(nums), v)
  }

  // ----- from digits back to numbers -----

  lemma {:induction false} ShiftedBelow(num: nat, p: nat)
    requires num < Exp(p)
    ensures Shifted(num, BASE, p) == 0
  {
    if p > 0 {
      ShiftedBelow(num / BASE, p - 1);
    }
  }

  lemma SixteenDigits()
    ensures Exp(BLOCK) == UINT32
  {
    assert Exp(4) == 256;
    assert Exp(8) == 65536;
    assert Exp(12) == 16777216;
  }

  lemma {:induction false} WindowOfNumber(nums: seq<uint32>, b: nat, t: nat)
    requires b < MAX_NUMBERS && t <= BLOCK
    ensures Window(DigitsOf(nums), BLOCK * b, t) == Shifted(NumberAt(nums, b), BASE, BLOCK - t)
  {
    var num := NumberAt(nums, b);
    if t == 0 {
      SixteenDigits();
      ShiftedBelow(num, BLOCK);
    } else {
      WindowOfNumber(nums, b, t - 1);
      ShiftedOnce(num, BASE, BLOCK - t);
      DigitInBlock(nums, b, t - 1);
      hide Shifted, DigitsOf;
    }
  }

  lemma DigitInBlock(nums: seq<uint32>, b: nat, t: nat)
    requires b < MAX_NUMBERS && t < BLOCK
    ensures DigitAt(DigitsOf(nums), BLOCK * b + t) == Digit(NumberAt(nums, b), BASE, BLOCK - 1 - t)
  {
    hide Digit;
    var i := BLOCK * b + t;
    assert i / BLOCK == b && i % BLOCK == t && i % DAG_SIZE == i;
  }

  /** The sixteen digits of a block are its number. */
  lemma BlockIsNumber(nums: seq<uint32>, b: nat)
    requires b < MAX_NUMBERS
    ensures Window(DigitsOf(nums), BLOCK * b, BLOCK) == NumberAt(nums, b)
  {
    WindowOfNumber(nums, b, BLOCK);
  }

  // ----- results -----

  datatype Relation = Lt | Eq | Ne | Le | Gt | Ge

  predicate Related(rel: Relation, a: uint32, b: uint32)
  {
    match rel
    case Lt => a < b
    case Eq => a == b
    case Ne => a != b
    case Le => a <= b
    case Gt => a > b
    case Ge => a >= b
  }

  function Truths(rel: Relation, xs: seq<uint32>, ys: seq<uint32>): (t: seq<bool>)
    ensures |t| == MAX_NUMBERS
  {
    seq(MAX_NUMBERS, b requires 0 <= b < MAX_NUMBERS => Related(rel, NumberAt(xs, b), NumberAt(ys, b)))
  }

  /** Every slot of a block is one if its truth value holds, and zero if not. */
  predicate Tells(t: seq<bool>, r: Slots)
  {
    && |t| == MAX_NUMBERS && |r| == DAG_SIZE
    && forall i: nat :: i < DAG_SIZE ==> r[i] == Bit(t[i / BLOCK])
  }

  lemma HeadTells(xs: seq<uint32>, ys: seq<uint32>, lt: Slots, eq: Slots, b: nat)
    requires Compares(DigitsOf(xs), DigitsOf(ys), lt, eq, BLOCK) && b < MAX_NUMBERS
    ensures lt[BLOCK * b] == Bit(NumberAt(xs, b) < NumberAt(ys, b))
    ensures eq[BLOCK * b] == Bit(NumberAt(xs, b) == NumberAt(ys, b))
  {
    hide DigitsOf, Window;
    BlockIsNumber(xs, b);
    BlockIsNumber(ys, b);
    assert ComparesAt(DigitsOf(xs), DigitsOf(ys), lt[BLOCK * b], eq[BLOCK * b], BLOCK * b, BLOCK);
  }

  lemma HelperTells(xs: seq<uint32>, ys: seq<uint32>, lt: Slots, eq: Slots, kind: CmpType, r: Slots)
    requires Compares(DigitsOf(xs), DigitsOf(ys), lt, eq, BLOCK)
    requires FilledUpTo(if kind == LESS then lt else eq, r, BLOCK - 1)
    ensures Tells(Truths(if kind == LESS then Lt else Eq, xs, ys), r)
  {
    hide Compares, DigitsOf, Bit;
    forall i: nat | i < DAG_SIZE
      ensures r[i] == Bit(Truths(if kind == LESS then Lt else Eq, xs, ys)[i / BLOCK])
    {
      assert i - i % BLOCK == BLOCK * (i / BLOCK);
      HeadTells(xs, ys, lt, eq, i / BLOCK);
    }
  }

  method CmpOp(e: ExprDag, lhs: Expr, rhs: Expr, kind: CmpType, ghost xs: seq<uint32>, ghost ys: seq<uint32>)
    returns (r: Expr)
    requires e.Valid() && e.IsExpr(lhs) && e.IsExpr(rhs) && e.size == DAG_SIZE
    requires Encodes(xs, e.Val(lhs)) && Encodes(ys, e.Val(rhs))
    modifies e`info, e.dag
    ensures e.Valid() && e.Keeps() && e.IsExpr(r) && e.Unused(r)
    ensures Tells(Truths(if kind == LESS then Lt else Eq, xs, ys), e.Val(r))
    ensures e.Depth(r) <= Higher(old(e.Depth(lhs)), old(e.Depth(rhs))) + 9 && e.Factors(r) == 1
  {
    hide CmpExprP7, Compares, FilledUpTo, DigitsOf, Truths, Tells, Minus, ExprDag.Valid, ExprDag.Unused,
         ExprDag.NoOutputs, ExprDag.Depth, ExprDag.Factors, AddNode, LogUp;
    r := CmpOpHelper(e, lhs, rhs, kind);
    CmpExprCompares(DigitsOf(xs), DigitsOf(ys), e.Val(lhs), e.Val(rhs));
    ghost var (lt, eq) := CmpExprP7(Minus(DAG_SIZE, e.Val(lhs), e.Val(rhs)));
    HelperTells(xs, ys, lt, eq, kind, e.Val(r));
  }

  // ----- the operators -----

  /** 1.0 - r */
  function Complement(r: Slots): Slots
  {
    Minus(DAG_SIZE, Filled(DAG_SIZE, 1.0), r)
  }

  lemma ComplementTells(t: seq<bool>, t': seq<bool>, r: Slots)
    requires Tells(t, r) && |t'| == MAX_NUMBERS && forall b: nat :: b < MAX_NUMBERS ==> t'[b] == !t[b]
    ensures Tells(t', Complement(r))
  {
  }

  lemma SumTells(t: seq<bool>, u: seq<bool>, t': seq<bool>, r: Slots, s: Slots)
    requires Tells(t, r) && Tells(u, s) && |t'| == MAX_NUMBERS
    requires forall b: nat :: b < MAX_NUMBERS ==> !(t[b] && u[b]) && t'[b] == (t[b] || u[b])
    ensures Tells(t', Plus(DAG_SIZE, r, s))
  {
  }

  /** 1.0 - r turns a relation into its opposite. */
  method Complemented(e: ExprDag, a: Expr, rel: Relation, opposite: Relation, ghost xs: seq<uint32>,
                      ghost ys: seq<uint32>)
    returns (r: Expr)
    requires e.Valid() && e.IsExpr(a) && e.size == DAG_SIZE && Tells(Truths(rel, xs, ys), e.Val(a))
    requires forall x: uint32, y: uint32 :: Related(opposite, x, y) == !Related(rel, x, y)
    modifies e`info, e.dag
    ensures e.Valid() && e.Keeps() && e.IsExpr(r) && e.Unused(r)
    ensures Tells(Truths(opposite, xs, ys), e.Val(r))
    ensures e.Depth(r) == old(e.Depth(a)) && e.Factors(r) == 1
  {
    hide Tells, Minus, Filled, ExprDag.Valid, ExprDag.Unused, ExprDag.NoOutputs, ExprDag.Depth, ExprDag.Factors,
         AddNode, LogUp;
    ComplementTells(Truths(rel, xs, ys), Truths(opposite, xs, ys), e.Val(a));
    r := e.NumberSub(1.0, a);
  }

  lemma LessOrEqualTells(xs: seq<uint32>, ys: seq<uint32>, eq: Slots, lt: Slots)
    requires Tells(Truths(Eq, xs, ys), eq) && Tells(Truths(Lt, xs, ys), lt)
    ensures Tells(Truths(Le, xs, ys), Plus(DAG_SIZE, eq, lt))
  {
    hide Tells, Plus;
    SumTells(Truths(Eq, xs, ys), Truths(Lt, xs, ys), Truths(Le, xs, ys), eq, lt);
  }

  /** operator< */
  method Less(e: ExprDag, lhs: Expr, rhs: Expr, ghost xs: seq<uint32>, ghost ys: seq<uint32>) returns (r: Expr)
    requires e.Valid() && e.IsExpr(lhs) && e.IsExpr(rhs) && e.size == DAG_SIZE
    requires Encodes(xs, e.Val(lhs)) && Encodes(ys, e.Val(rhs))
    modifies e`info, e.dag
    ensures e.Valid() && e.Keeps() && e.IsExpr(r) && e.Unused(r)
    ensures Tells(Truths(Lt, xs, ys), e.Val(r))
    ensures e.Depth(r) <= Higher(old(e.Depth(lhs)), old(e.Depth(rhs))) + 9 && e.Factors(r) == 1
  {
    hide Encodes, Tells, Truths, Plus, Minus, Filled, ExprDag.Valid, ExprDag.Unused, ExprDag.NoOutputs, ExprDag.Depth,
         ExprDag.Factors, AddNode, LogUp;
    r := CmpOp(e, lhs, rhs, LESS, xs, ys);
  }

  /** operator== */
  method Equal(e: ExprDag, lhs: Expr, rhs: Expr, ghost xs: seq<uint32>, ghost ys: seq<uint32>) returns (r: Expr)
    requires e.Valid() && e.IsExpr(lhs) && e.IsExpr(rhs) && e.size == DAG_SIZE
    requires Encodes(xs, e.Val(lhs)) && Encodes(ys, e.Val(rhs))
    modifies e`info, e.dag
    ensures e.Valid() && e.Keeps() && e.IsExpr(r) && e.Unused(r)
    ensures Tells(Truths(Eq, xs, ys), e.Val(r))
    ensures e.Depth(r) <= Higher(old(e.Depth(lhs)), old(e.Depth(rhs))) + 9 && e.Factors(r) == 1
  {
    hide Encodes, Tells, Truths, Plus, Minus, Filled, ExprDag.Valid, ExprDag.Unused, ExprDag.NoOutputs, ExprDag.Depth,
         ExprDag.Factors, AddNode, LogUp;
    r := CmpOp(e, lhs, rhs, EQ, xs, ys);
  }

  /** operator!= */
  method NotEqual(e: ExprDag, lhs: Expr, rhs: Expr, ghost xs: seq<uint32>, ghost ys: seq<uint32>) returns (r: Expr)
    requires e.Valid() && e.IsExpr(lhs) && e.IsExpr(rhs) && e.size == DAG_SIZE
    requires Encodes(xs, e.Val(lhs)) && Encodes(ys, e.Val(rhs))
    modifies e`info, e.dag
    ensures e.Valid() && e.Keeps() && e.IsExpr(r) && e.Unused(r)
    ensures Tells(Truths(Ne, xs, ys), e.Val(r))
    ensures e.Depth(r) <= Higher(old(e.Depth(lhs)), old(e.Depth(rhs))) + 9 && e.Factors(r) == 1
  {
    hide Encodes, Tells, Truths, Plus, Minus, Filled, ExprDag.Valid, ExprDag.Unused, ExprDag.NoOutputs, ExprDag.Depth,
         ExprDag.Factors, AddNode, LogUp;
    var eq := Equal(e, lhs, rhs, xs, ys);
    r := Complemented(e, eq, Eq, Ne, xs, ys);
  }

  /** operator<= */
  method LessOrEqual(e: ExprDag, lhs: Expr, rhs: Expr, ghost xs: seq<uint32>, ghost ys: seq<uint32>) returns (r: Expr)
    requires e.Valid() && e.IsExpr(lhs) && e.IsExpr(rhs) && e.size == DAG_SIZE
    requires Encodes(xs, e.Val(lhs)) && Encodes(ys, e.Val(rhs))
    modifies e`info, e.dag
    ensures e.Valid() && e.Keeps() && e.IsExpr(r) && e.Unused(r)
    ensures Tells(Truths(Le, xs, ys), e.Val(r))
    ensures e.Depth(r) <= Higher(old(e.Depth(lhs)), old(e.Depth(rhs))) + 9 && e.Factors(r) == 1
  {
    hide Encodes, Tells, Truths, Plus, Minus, Filled, ExprDag.Valid, ExprDag.Unused, ExprDag.NoOutputs, ExprDag.Depth,
         ExprDag.Factors, AddNode, LogUp;
    var eq := CmpOp(e, lhs, rhs, EQ, xs, ys);
    var lt := CmpOp(e, lhs, rhs, LESS, xs, ys);
    r := e.Add(eq, lt);
    LessOrEqualTells(xs, ys, e.Val(eq), e.Val(lt));
  }

  /** operator> */
  method Greater(e: ExprDag, lhs: Expr, rhs: Expr, ghost xs: seq<uint32>, ghost ys: seq<uint32>) returns (r: Expr)
    requires e.Valid() && e.IsExpr(lhs) && e.IsExpr(rhs) && e.size == DAG_SIZE
    requires Encodes(xs, e.Val(lhs)) && Encodes(ys, e.Val(rhs))
    modifies e`info, e.dag
    ensures e.Valid() && e.Keeps() && e.IsExpr(r) && e.Unused(r)
    ensures Tells(Truths(Gt, xs, ys), e.Val(r))
    ensures e.Depth(r) <= Higher(old(e.Depth(lhs)), old(e.Depth(rhs))) + 9 && e.Factors(r) == 1
  {
    hide Encodes, Tells, Truths, Plus, Minus, Filled, ExprDag.Valid, ExprDag.Unused, ExprDag.NoOutputs, ExprDag.Depth,
         ExprDag.Factors, AddNode, LogUp;
    var le := LessOrEqual(e, lhs, rhs, xs, ys);
    r := Complemented(e, le, Le, Gt, xs, ys);
  }

  /** operator>= */
  method GreaterOrEqual(e: ExprDag, lhs: Expr, rhs: Expr, ghost xs: seq<uint32>, ghost ys: seq<uint32>)
    returns (r: Expr)
    requires e.Valid() && e.IsExpr(lhs) && e.IsExpr(rhs) && e.size == DAG_SIZE
    requires Encodes(xs, e.Val(lhs)) && Encodes(ys, e.Val(rhs))
    modifies e`info, e.dag
    ensures e.Valid() && e.Keeps() && e.IsExpr(r) && e.Unused(r)
    ensures Tells(Truths(Ge, xs, ys), e.Val(r))
    ensures e.Depth(r) <= Higher(old(e.Depth(lhs)), old(e.Depth(rhs))) + 9 && e.Factors(r) == 1
  {
    hide Encodes, Tells, Truths, Plus, Minus, Filled, ExprDag.Valid, ExprDag.Unused, ExprDag.NoOutputs, ExprDag.Depth,
         ExprDag.Factors, AddNode, LogUp;
    var lt := Less(e, lhs, rhs, xs, ys);
    r := Complemented(e, lt, Lt, Ge, xs, ys);
  }

  function And(lhs: Slots, rhs: Slots): Slots
  {
    Times(DAG_SIZE, lhs, rhs)
  }

  function Or(lhs: Slots, rhs: Slots): Slots
  {
    Complement(Times(DAG_SIZE, Complement(lhs), Complement(rhs)))
  }

  // ----- connectives -----

  const REDUCE_SCALE: nat := 10

  /** How often the scale is lowered by that many connectives: the counter of tries, once zero, goes on to
      negative numbers, which let each further connective lower it again. */
  function Reductions(connectives: nat): nat
  {
    if connectives <= 1 then connectives else connectives - 1
  }

  function LoweredScale(connectives: nat): nat
  {
    (DEFAULT_SCALE - REDUCE_SCALE * Reductions(connectives)) % UINT32
  }

  predicate Lowered(scale: nat, tries: int, connectives: nat)
  {
    tries == 1 - connectives && scale == LoweredScale(connectives)
  }

  lemma LoweredNext(connectives: nat)
    ensures connectives != 1 ==> LoweredScale(connectives + 1) == (LoweredScale(connectives) - REDUCE_SCALE) % UINT32
    ensures connectives == 1 ==> LoweredScale(connectives + 1) == LoweredScale(connectives)
  {
    if connectives != 1 {
      var x: int := DEFAULT_SCALE - REDUCE_SCALE * Reductions(connectives);
      AddWithin(x, 0 - REDUCE_SCALE, UINT32);
    }
  }

  /** The scale is lowered once, as the single try says, exactly by one or two connectives; it stays positive
      exactly up to six, is zero after seven, and more make it wrap around. */
  lemma ScaleLowered(connectives: nat)
    ensures Reductions(connectives) == 1 <==> 1 <= connectives <= 2
    ensures 0 < LoweredScale(connectives) == DEFAULT_SCALE - REDUCE_SCALE * Reductions(connectives)
      <==> connectives <= 6
    ensures connectives == 7 ==> LoweredScale(connectives) == 0
    ensures LoweredScale(connectives) == DEFAULT_SCALE - REDUCE_SCALE * Reductions(connectives) <==> connectives <= 7
  {
    var x: int := DEFAULT_SCALE - REDUCE_SCALE * Reductions(connectives);
    assert 0 <= x % UINT32 < UINT32;
    if connectives <= 7 {
      assert 0 <= x < UINT32;
    }
  }

  /** The first lines of && and ||. */
  method TryReduceScale(e: ExprDag, ghost connectives: nat)
    requires Lowered(e.scale, e.tries, connectives)
    modifies e`scale, e`tries
    ensures Lowered(e.scale, e.tries, connectives + 1)
  {
    LoweredNext(connectives);
    hide LoweredScale;
    var again := e.tries != 0;
    e.tries := e.tries - 1;
    if again {
      e.scale := (e.scale - REDUCE_SCALE) % UINT32;
    }
  }

  /** operator&& */
  method Both(e: ExprDag, lhs: Expr, rhs: Expr, ghost t: seq<bool>, ghost u: seq<bool>, ghost connectives: nat)
    returns (r: Expr)
    requires e.Valid() && e.IsExpr(lhs) && e.IsExpr(rhs) && e.size == DAG_SIZE
    requires Tells(t, e.Val(lhs)) && Tells(u, e.Val(rhs)) && Lowered(e.scale, e.tries, connectives)
    modifies e`info, e`scale, e`tries, e.dag
    ensures e.Valid() && e.Keeps() && e.IsExpr(r) && e.Unused(r) && Lowered(e.scale, e.tries, connectives + 1)
    ensures Tells(seq(MAX_NUMBERS, b requires 0 <= b < MAX_NUMBERS => t[b] && u[b]), e.Val(r))
    ensures e.Factors(r) == old(e.Factors(lhs)) + old(e.Factors(rhs))
    ensures e.Depth(r) == Higher(old(e.Depth(lhs)), old(e.Depth(rhs))) + LogUp(e.Factors(r))
  {
    hide Tells, Times, Lowered, ExprDag.Valid, ExprDag.Unused, ExprDag.NoOutputs, ExprDag.Depth, ExprDag.Factors,
         AddNode, LogUp;
    assert |t| == |u| == MAX_NUMBERS by {
      TruthCount(t, e.Val(lhs));
      TruthCount(u, e.Val(rhs));
    }
    Connectives(t, u, e.Val(lhs), e.Val(rhs));
    TryReduceScale(e, connectives);
    r := e.Mul(lhs, rhs);
  }

  /** operator|| */
  method Either(e: ExprDag, lhs: Expr, rhs: Expr, ghost t: seq<bool>, ghost u: seq<bool>, ghost connectives: nat)
    returns (r: Expr)
    requires e.Valid() && e.IsExpr(lhs) && e.IsExpr(rhs) && e.size == DAG_SIZE
    requires Tells(t, e.Val(lhs)) && Tells(u, e.Val(rhs)) && Lowered(e.scale, e.tries, connectives)
    modifies e`info, e`scale, e`tries, e.dag
    ensures e.Valid() && e.Keeps() && e.IsExpr(r) && e.Unused(r) && Lowered(e.scale, e.tries, connectives + 1)
    ensures Tells(seq(MAX_NUMBERS, b requires 0 <= b < MAX_NUMBERS => t[b] || u[b]), e.Val(r))
    ensures e.Factors(r) == 1 && e.Depth(r) == Higher(old(e.Depth(lhs)), old(e.Depth(rhs))) + LogUp(2)
  {
    hide Tells, Times, Minus, Filled, Lowered, ExprDag.Valid, ExprDag.Unused, ExprDag.NoOutputs, ExprDag.Depth,
         ExprDag.Factors, AddNode, LogUp, ExprDag.Val, ExprDag.IsExpr;
    assert |t| == |u| == MAX_NUMBERS by {
      TruthCount(t, e.Val(lhs));
      TruthCount(u, e.Val(rhs));
    }
    Connectives(t, u, e.Val(lhs), e.Val(rhs));
    TryReduceScale(e, connectives);
    var notLeft := e.NumberSub(1.0, lhs);
    var notRight := e.NumberSub(1.0, rhs);
    var neither := e.Mul(notLeft, notRight);
    r := e.NumberSub(1.0, neither);
  }

  /** The result of operator! on truth values is their negation in no slot. */
  lemma NotIsNoNegation(t: seq<bool>, r: Slots, i: nat)
    requires Tells(t, r) && i < DAG_SIZE
    ensures Negated(DAG_SIZE, r)[i] != Bit(!t[i / BLOCK])
  {
    assert Negated(DAG_SIZE, r)[i] == -r[i];
  }

  lemma TruthCount(t: seq<bool>, r: Slots)
    requires Tells(t, r)
    ensures |t| == MAX_NUMBERS
  {
  }

  /** On results of comparisons && and || are conjunction and disjunction. */
  lemma Connectives(t: seq<bool>, u: seq<bool>, r: Slots, s: Slots)
    requires Tells(t, r) && Tells(u, s)
    ensures Tells(seq(MAX_NUMBERS, b requires 0 <= b < MAX_NUMBERS => t[b] && u[b]), And(r, s))
    ensures Tells(seq(MAX_NUMBERS, b requires 0 <= b < MAX_NUMBERS => t[b] || u[b]), Or(r, s))
  {
    var both, none := Times(DAG_SIZE, r, s), Times(DAG_SIZE, Complement(r), Complement(s));
    forall i: nat | i < DAG_SIZE
      ensures both[i] == Bit(t[i / BLOCK] && u[i / BLOCK])
      ensures 1.0 - none[i] == Bit(t[i / BLOCK] || u[i / BLOCK])
    {
      assert Complement(r)[i] == 1.0 - r[i] && Complement(s)[i] == 1.0 - s[i];
      BitsMultiply(t[i / BLOCK], u[i / BLOCK]);
    }
  }

  lemma BitsMultiply(p: bool, q: bool)
    ensures Bit(p) * Bit(q) == Bit(p && q)
    ensures 1.0 - (1.0 - Bit(p)) * (1.0 - Bit(q)) == Bit(p || q)
  {
  }

  // ----- encoding -----

  predicate EncodesPrefix(nums: seq<uint32>, v: Slots, n: nat)
  {
    && n <= MAX_NUMBERS && |v| == BLOCK * n
    && forall i: nat :: i < |v| ==> v[i] == DigitsOf(nums)[i] as real
  }

  function AsReals(digits: seq<nat>): (v: Slots)
    ensures |v| == |digits|
  {
    seq(|digits|, i requires 0 <= i < |digits| => digits[i] as real)
  }

  lemma OneMore(nums: seq<uint32>, v: Slots, n: nat, digits: seq<nat>)
    requires EncodesPrefix(nums, v, n) && n < MAX_NUMBERS
    requires |digits| == BLOCK && IsDigits(NumberAt(nums, n), BASE, digits)
    ensures EncodesPrefix(nums, v + AsReals(digits), n + 1)
  {
    var more := v + AsReals(digits);
    forall i: nat | |v| <= i < |more|
      ensures more[i] == DigitsOf(nums)[i] as real
    {
      var t: nat := i - |v|;
      DigitInBlock(nums, n, t);
      assert more[i] == digits[t] as real;
    }
  }

  /** compose_vec_x.resize(CMP_DAG_SIZE) */
  lemma Padded(nums: seq<uint32>, v: Slots, n: nat)
    requires EncodesPrefix(nums, v, n) && |nums| <= n
    ensures Encodes(nums, Fit(DAG_SIZE, v))
  {
    var padded := Fit(DAG_SIZE, v);
    forall i: nat | i < DAG_SIZE
      ensures padded[i] == DigitsOf(nums)[i] as real
    {
      if i >= |v| {
        assert NumberAt(nums, i / BLOCK) == 0;
        ShiftedZero(BASE, BLOCK - 1 - i % BLOCK);
      }
    }
  }

  /** encodeOrgInputforCmp */
  method EncodeOrgInputforCmp(nums: seq<uint32>) returns (e: Encoded)
    ensures e.TooManyNumbers? <==> |nums| > MAX_NUMBERS
    ensures e.Encoded? ==> Encodes(nums, e.slots)
  {
    hide EncodesPrefix, Encodes, IsDigits;
    if |nums| > MAX_NUMBERS {
      return TooManyNumbers;
    }
    var composed: Slots := [];
    assert EncodesPrefix(nums, composed, 0) by { NoneEncoded(nums); }
    for n := 0 to |nums|
      invariant EncodesPrefix(nums, composed, n)
    {
      var digits := DecimalConvert(nums[n], BASE, BLOCK);
      OneMore(nums, composed, n, digits);
      composed := composed + AsReals(digits);
    }
    Padded(nums, composed, |nums|);
    e := Encoded(Fit(DAG_SIZE, composed));
  }

  lemma NoneEncoded(nums: seq<uint32>)
    ensures EncodesPrefix(nums, [], 0)
  {
  }

  /** plaintToCmpExpr: one number against all. */
  method PlaintToCmpExpr(e: ExprDag, num: uint32) returns (r: Expr)
    requires e.Valid() && e.size == DAG_SIZE
    modifies e`info, e.dag
    ensures e.Valid() && e.Keeps() && e.IsExpr(r) && e.Unused(r)
    ensures Encodes(seq(MAX_NUMBERS, b => num), e.Val(r))
    ensures e.Depth(r) == 0
  {
    hide EncodesPrefix, Encodes, IsDigits, ExprDag.Valid, ExprDag.Unused, ExprDag.NoOutputs, ExprDag.Depth,
         ExprDag.Factors, AddNode, LogUp;
    ghost var nums: seq<uint32> := seq(MAX_NUMBERS, b => num);
    var digits := DecimalConvert(num, BASE, BLOCK);
    var composed: Slots := [];
    assert EncodesPrefix(nums, composed, 0) by { NoneEncoded(nums); }
    for n := 0 to MAX_NUMBERS
      invariant e.Valid() && e.Keeps() && EncodesPrefix(nums, composed, n)
    {
      OneMore(nums, composed, n, digits);
      composed := composed + AsReals(digits);
    }
    Padded(nums, composed, MAX_NUMBERS);
    FullVector(Fit(DAG_SIZE, composed));
    r := e.Constant(Fit(DAG_SIZE, composed));
  }

  // ----- decrypted results -----

  /** round: to the nearest integer, halves away from zero. */
  function Rounded(x: real): int
  {
    if x >= 0.0 then (x + 0.5).Floor else -(0.5 - x).Floor
  }

  /** The cast of a rounded value to uint32_t, which the language defines only for what the type holds. */
  ghost predicate IsCast(cast: int -> nat)
  {
    forall k: int :: 0 <= k < UINT32 ==> cast(k) == k
  }

  datatype CmpOutputs = Results(values: seq<nat>) | NoSuchOutput

  /** getCmpOutputs, on the decrypted outputs by name. */
  method GetCmpOutputs(outputs: map<string, Slots>, numCnt: nat, name: string, cast: int -> nat) returns (r: CmpOutputs)
    requires name in outputs ==> BLOCK * numCnt <= |outputs[name]|
    ensures r.Results? <==> name in outputs
    ensures r.Results? ==> |r.values| == numCnt && forall b: nat :: b < numCnt ==>
      r.values[b] == cast(Rounded(outputs[name][BLOCK * b])) % 7
  {
    if name !in outputs {
      return NoSuchOutput;
    }
    var v, results := outputs[name], [];
    for i := 0 to BLOCK * numCnt
      invariant BLOCK * |results| < i + BLOCK && i <= BLOCK * |results|
      invariant forall b: nat :: b < |results| ==> results[b] == cast(Rounded(v[BLOCK * b])) % 7
    {
      if i % BLOCK == 0 {
        assert i == BLOCK * |results|;
        results := results + [cast(Rounded(v[i])) % 7];
      }
    }
    r := Results(results);
  }

  /** Slots that are off by less than a half are read as the truth values they stand for. */
  predicate NearTruth(t: seq<bool>, v: Slots)
  {
    && |t| == MAX_NUMBERS && |v| == DAG_SIZE
    && forall i: nat :: i < DAG_SIZE ==> -0.5 < v[i] - Bit(t[i / BLOCK]) < 0.5
  }

  method ReadTruths(outputs: map<string, Slots>, numCnt: nat, name: string, cast: int -> nat, ghost t: seq<bool>)
    returns (results: seq<nat>)
    requires name in outputs && NearTruth(t, outputs[name]) && numCnt <= MAX_NUMBERS && IsCast(cast)
    ensures |results| == numCnt && forall b: nat :: b < numCnt ==> results[b] == if t[b] then 1 else 0
  {
    var r := GetCmpOutputs(outputs, numCnt, name, cast);
    results := r.values;
    forall b: nat | b < numCnt
      ensures results[b] == if t[b] then 1 else 0
    {
      assert (BLOCK * b) / BLOCK == b;
      RoundedBit(outputs[name][BLOCK * b], t[b]);
    }
  }

  lemma RoundedBit(x: real, p: bool)
    requires -0.5 < x - Bit(p) < 0.5
    ensures Rounded(x) == if p then 1 else 0
  {
  }

  // ----- counting -----

  function Count(t: seq<bool>, n: nat): nat
    requires n <= |t|
  {
    if n == 0 then 0 else Count(t, n - 1) + if t[n - 1] then 1 else 0
  }

  lemma {:induction false} SumOfTruths(t: seq<bool>, r: Slots, j: nat, n: nat)
    requires Tells(t, r) && j < BLOCK && n <= MAX_NUMBERS
    ensures BlockSum(r, j, n) == Count(t, n) as real
  {
    if n > 0 {
      SumOfTruths(t, r, j, n - 1);
      assert (BLOCK * (n - 1) + j) / BLOCK == n - 1;
    }
  }

  /** QueryCnt on the result of a comparison counts the numbers for which it holds. */
  method QueryCnt(e: ExprDag, lhs: Expr, totalNum: nat, ghost t: seq<bool>) returns (r: Expr)
    requires e.Valid() && e.IsExpr(lhs) && e.size == DAG_SIZE && Tells(t, e.Val(lhs)) && 1 <= totalNum <= MAX_NUMBERS
    modifies e`info, e.dag
    ensures e.Valid() && e.Keeps() && e.IsExpr(r) && e.Unused(r)
    ensures Counts(t, totalNum, e.Val(r))
    ensures e.Depth(r) <= e.Depth(lhs) + LogUp(e.Factors(lhs) + 1)
  {
    hide BlockSums, Tells, Counts, ExprDag.Valid, ExprDag.Unused, ExprDag.NoOutputs, ExprDag.Depth, ExprDag.Factors,
         AddNode, LogUp;
    r := SumCntHelper(e, lhs, totalNum);
    SumsCount(t, e.Val(lhs), totalNum, e.Val(r));
  }

  /** Every slot of the first block holds the number of truths among the first n. */
  predicate Counts(t: seq<bool>, n: nat, r: Slots)
  {
    && n <= |t| && |r| == DAG_SIZE
    && forall s: nat :: s < BLOCK ==> r[s] == Count(t, n) as real
  }

  lemma SumsCount(t: seq<bool>, x: Slots, n: nat, r: Slots)
    requires Tells(t, x) && n <= MAX_NUMBERS && BlockSums(x, n, r)
    ensures Counts(t, n, r)
  {
    forall s: nat | s < BLOCK
      ensures r[s] == Count(t, n) as real
    {
      StridedIsBlockSum(x, s, n);
      SumOfTruths(t, x, s, n);
    }
  }

  /** A double assigned to an integer loses its fraction. */
  function Truncated(x: real): int
  {
    if x >= 0.0 then x.Floor else -(-x).Floor
  }

  /** getCntOutput, on the decrypted outputs by name: without such an output the result stays what it was. */
  method GetCntOutput(outputs: map<string, Slots>, name: string, cast: int -> nat, ul: nat) returns (result: nat)
    requires name in outputs ==> outputs[name] != []
    ensures result == if name in outputs then cast(Truncated(outputs[name][0])) else ul
  {
    result := ul;
    if name in outputs {
      result := cast(Truncated(outputs[name][0]));
    }
  }

  /** A count of at least one is read right exactly if the slot is not below it by anything, nor above by one;
      rounding would allow for a half either way. */
  lemma CountRead(x: real, k: nat)
    requires k > 0
    ensures Truncated(x) == k <==> k as real <= x < k as real + 1.0
  {
  }

  lemma {:induction false} CountAtMost(t: seq<bool>, n: nat)
    requires n <= |t|
    ensures Count(t, n) <= n
  {
    if n > 0 {
      CountAtMost(t, n - 1);
    }
  }

  /** Exact slots give the exact count. */
  lemma CountExact(t: seq<bool>, n: nat, r: Slots, cast: int -> nat)
    requires Counts(t, n, r) && n <= MAX_NUMBERS && IsCast(cast)
    ensures r != [] && cast(Truncated(r[0])) == Count(t, n)
  {
    CountAtMost(t, n);
    assert r[0] == Count(t, n) as real;
  }

  lemma ExactIsNear(t: seq<bool>, r: Slots)
    requires Tells(t, r)
    ensures NearTruth(t, r)
  {
  }
}
