/** Constant folding, iyfc/daghandler/constant_handler.h and iyfc/dag/constant_value.h: a node whose
    operands are all constants hands its uses to a constant that holds its value. */
module ConstantFolding {
  import opened Graphs
  import opened Usage
  import opened Dags
  import opened Semantics
  import opened ModSwitchers

  predicate IsFoldableOp(op: Op)
  {
    op.Add? || op.Sub? || op.Mul? || op.RotateLeft? || op.RotateRight? || op.Negate?
  }

  predicate AllConstant(g: Graph, n: NodeId)
    requires n < |g.operands|
  {
    forall i: nat :: i < |g.operands[n]| ==> g.operands[n][i] < |g.op| && g.op[g.operands[n][i]].Constant?
  }

  predicate Foldable(g: Graph, n: NodeId)
  {
    n < |g.operands| && n < |g.op| && g.operands[n] != [] && IsFoldableOp(g.op[n]) && AllConstant(g, n)
  }

  /** The constants of the graph fill the slots a whole number of times. */
  ghost predicate ConstantsFit(g: Graph, size: nat)
  {
    forall n: NodeId :: n < |g.op| && g.op[n].Constant? ==> g.op[n].values != [] && size % |g.op[n].values| == 0
  }

  function NoInput(n: NodeId): Slots { [] }

  function ConstantArgs(g: Graph, n: NodeId, size: nat): (args: seq<Slots>)
    requires n < |g.operands| && AllConstant(g, n)
    ensures |args| == |g.operands[n]|
  {
    seq(|g.operands[n]|, i requires 0 <= i < |g.operands[n]| => Expand(size, g.op[g.operands[n][i]].values))
  }

  function FoldedValue(g: Graph, n: NodeId, size: nat): (r: Slots)
    requires Foldable(g, n)
    ensures |r| == size
  {
    Meaning(size, NoInput, n, g.op[n], ConstantArgs(g, n, size))
  }

  function Folded(g: Graph, n: NodeId, values: Slots): Graph
  {
    RedirectAll(AddNode(g, Constant(values), []), n, |g.operands|)
  }

  // ----- the values -----

  lemma CopyAt(values: seq<real>, k: nat, i: nat)
    requires values != [] && |values| * k <= i < |values| * k + |values|
    ensures i % |values| == i - |values| * k
  {
    Remainder(i, |values|, k, i - |values| * k);
  }

  lemma SmallMultiple(m: nat, d: int)
    requires m > 0
    ensures d == 0 || m * d >= m || m * d + m <= 0
  {
    if d >= 1 {
      assert m * d == m * (d - 1) + m;
    } else if d <= -1 {
      assert m * d == -(m * (-d - 1)) - m;
    }
  }

  /** Quotient and remainder are unique. */
  lemma Remainder(a: int, m: nat, q: int, r: nat)
    requires m > 0 && a == m * q + r && r < m
    ensures a % m == r
  {
    var d := a / m - q;
    assert m * d == r - a % m;
    SmallMultiple(m, d);
  }

  /** DenseConstantValue::expand */
  method ExpandConstant(values: seq<real>, slots: nat) returns (result: Slots)
    requires values != [] && slots % |values| == 0
    ensures result == Expand(slots, values)
  {
    if |values| == slots {
      result := values;
      ExpandWhole(slots, values);
    } else {
      result := [];
      var r, k := slots / |values|, 0;
      while r > 0
        invariant 0 <= r && r + k == slots / |values|
        invariant |result| == |values| * k
        invariant forall i: nat :: i < |result| ==> result[i] == values[i % |values|]
      {
        forall i: nat | |values| * k <= i < |values| * k + |values|
          ensures i % |values| == i - |values| * k
        {
          CopyAt(values, k, i);
        }
        assert |values| * (k + 1) == |values| * k + |values|;
        result := result + values;
        r, k := r - 1, k + 1;
      }
      assert slots == |values| * (slots / |values|) + slots % |values|;
      assert |result| == slots;
    }
  }

  method AddValues(x: Slots, y: Slots) returns (output: Slots)
    requires |x| == |y|
    ensures output == Sum(|x|, [x, y])
  {
    output := [];
    for i := 0 to |x|
      invariant |output| == i && forall k: nat :: k < i ==> output[k] == x[k] + y[k]
    {
      output := output + [x[i] + y[i]];
    }
    SumOfTwo(x, y);
  }

  lemma SumOfTwo(x: Slots, y: Slots)
    requires |x| == |y|
    ensures forall k: nat :: k < |x| ==> Sum(|x|, [x, y])[k] == x[k] + y[k]
  {
    assert [x, y][1..] == [y] && [y][1..] == [];
    var rest := Sum(|x|, []);
    assert Sum(|x|, [y]) == Plus(|x|, y, rest);
  }

  method SubValues(x: Slots, y: Slots) returns (output: Slots)
    requires |x| == |y|
    ensures output == Minus(|x|, x, y)
  {
    output := [];
    for i := 0 to |x|
      invariant |output| == i && forall k: nat :: k < i ==> output[k] == x[k] - y[k]
    {
      output := output + [x[i] - y[i]];
    }
  }

  method MulValues(x: Slots, y: Slots) returns (output: Slots)
    requires |x| == |y|
    ensures output == Product(|x|, [x, y])
  {
    output := [];
    for i := 0 to |x|
      invariant |output| == i && forall k: nat :: k < i ==> output[k] == x[k] * y[k]
    {
      output := output + [x[i] * y[i]];
    }
    ProductOfTwo(x, y);
  }

  lemma ProductOfTwo(x: Slots, y: Slots)
    requires |x| == |y|
    ensures forall k: nat :: k < |x| ==> Product(|x|, [x, y])[k] == x[k] * y[k]
  {
    assert [x, y][1..] == [y] && [y][1..] == [];
    var rest := Product(|x|, []);
    var p := Product(|x|, [y]);
    assert p == Times(|x|, y, rest);
    forall k: nat | k < |x|
      ensures Product(|x|, [x, y])[k] == x[k] * y[k]
    {
      assert rest[k] == 1.0 && p[k] == y[k] * rest[k];
    }
  }

  method NegateValues(x: Slots) returns (output: Slots)
    ensures output == Negated(|x|, x)
  {
    output := [];
    for i := 0 to |x|
      invariant |output| == i && forall k: nat :: k < i ==> output[k] == -x[k]
    {
      output := output + [-x[i]];
    }
  }

  /** The two loops that bring a shift into the range of the slots. */
  method NormalShift(shift0: int, size: nat) returns (shift: int)
    requires size > 0
    ensures 0 <= shift < size && shift == shift0 % size
  {
    shift := shift0;
    while shift > 0 && shift >= size
      invariant shift % size == shift0 % size && shift <= shift0 && (shift0 >= 0 ==> shift >= 0)
        && (shift0 < 0 ==> shift == shift0)
      decreases shift
    {
      ModStep(shift - size, size);
      shift := shift - size;
    }
    while shift < 0
      invariant shift % size == shift0 % size && shift < size
    {
      ModStep(shift, size);
      shift := shift + size;
    }
    Remainder(shift, size, 0, shift);
  }

  lemma ModStep(a: int, m: nat)
    requires m > 0
    ensures (a + m) % m == a % m
  {
    assert a + m == m * (a / m + 1) + a % m;
    Remainder(a + m, m, a / m + 1, a % m);
  }

  lemma ShiftedIndex(i: nat, shift0: int, shift: nat, size: nat)
    requires size > 0 && i < size && shift < size && shift == shift0 % size
    ensures (i + shift0) % size == if i + shift < size then i + shift else i + shift - size
  {
    var q := shift0 / size;
    assert shift0 == size * q + shift;
    var r := if i + shift < size then i + shift else i + shift - size;
    var k := if i + shift < size then q else q + 1;
    assert i + shift0 == size * k + r;
    Remainder(i + shift0, size, k, r);
  }

  method RotateLeftValues(x: Slots, shift0: int) returns (output: Slots)
    requires x != []
    ensures output == RotatedLeft(|x|, x, shift0)
  {
    var size := |x|;
    var shift := NormalShift(shift0, size);
    var buffer := new real[size];
    for i := 0 to size - shift
      invariant forall k: nat :: k < i ==> buffer[k] == x[k + shift]
    {
      buffer[i] := x[i + shift];
    }
    for i := 0 to shift
      invariant forall k: nat :: k < size - shift ==> buffer[k] == x[k + shift]
      invariant forall k: nat :: size - shift <= k < size - shift + i ==> buffer[k] == x[k - (size - shift)]
    {
      buffer[size - shift + i] := x[i];
    }
    output := buffer[..];
    forall k: nat | k < size
      ensures output[k] == At(x, (k + shift0) % size)
    {
      ShiftedIndex(k, shift0, shift, size);
    }
  }

  method RotateRightValues(x: Slots, shift0: int) returns (output: Slots)
    requires x != []
    ensures output == RotatedLeft(|x|, x, -shift0)
  {
    var size := |x|;
    var shift := NormalShift(shift0, size);
    var buffer := new real[size];
    for i := 0 to size - shift
      invariant forall k: nat :: shift <= k < shift + i ==> buffer[k] == x[k - shift]
    {
      buffer[i + shift] := x[i];
    }
    for i := 0 to shift
      invariant forall k: nat :: shift <= k < size ==> buffer[k] == x[k - shift]
      invariant forall k: nat :: k < i ==> buffer[k] == x[size - shift + k]
    {
      buffer[i] := x[size - shift + i];
    }
    output := buffer[..];
    forall k: nat | k < size
      ensures output[k] == At(x, (k + -shift0) % size)
    {
      RightIndex(k, shift0, shift, size);
    }
  }

  lemma RightIndex(i: nat, shift0: int, shift: nat, size: nat)
    requires size > 0 && i < size && shift < size && shift == shift0 % size
    ensures (i + -shift0) % size == if shift <= i then i - shift else size - shift + i
  {
    var q := shift0 / size;
    assert shift0 == size * q + shift;
    var r := if shift <= i then i - shift else size - shift + i;
    var k := if shift <= i then -q else -q - 1;
    assert i + -shift0 == size * k + r;
    Remainder(i + -shift0, size, k, r);
  }

  // ----- the graph -----

  lemma FoldedShape(g: Graph, n: NodeId, values: Slots)
    requires |g.op| == |g.operands|
    ensures var r, c := Folded(g, n, values), |g.operands|;
      && |r.operands| == c + 1 && r.op == g.op + [Constant(values)] && r.sources == g.sources + {c}
      && r.operands[c] == [] && forall u: NodeId :: u < c ==> r.operands[u] == Subst(g.operands[u], n, c)
  {
  }

  /** What a node made of constants evaluates to. */
  lemma FoldableValue(size: nat, g: Graph, env: NodeId -> Slots, v: seq<Slots>, n: NodeId)
    requires Interprets(g, SlotSem(size, env), v) && Foldable(g, n)
    ensures v[n] == FoldedValue(g, n, size)
  {
    forall i: nat | i < |g.operands[n]|
      ensures v[g.operands[n][i]] == Expand(size, g.op[g.operands[n][i]].values)
    {
      var p := g.operands[n][i];
      assert Live(g, g.operands[n][i]);
      assert v[p] == SlotSem(size, env)(p, g.op[p], Args(g, v, p));
    }
    assert Args(g, v, n) == ConstantArgs(g, n, size);
    assert Live(g, n);
    assert v[n] == SlotSem(size, env)(n, g.op[n], Args(g, v, n));
    InputFree(size, env, n, g.op[n], ConstantArgs(g, n, size));
  }

  lemma InputFree(size: nat, env: NodeId -> Slots, n: NodeId, op: Op, args: seq<Slots>)
    requires IsFoldableOp(op)
    ensures Meaning(size, env, n, op, args) == Meaning(size, NoInput, n, op, args)
  {
  }

  lemma FoldSlots(size: nat, g: Graph, env: NodeId -> Slots, n: NodeId, values: Slots)
    requires WellFormed(g) && Foldable(g, n) && values == FoldedValue(g, n, size)
    ensures SameUnder(AddNode(g, Constant(values), []), SlotSem(size, env), n, |g.operands|)
  {
    var r, c := AddNode(g, Constant(values), []), |g.operands|;
    forall v | Interprets(r, SlotSem(size, env), v)
      ensures v[n] == v[c]
    {
      FoldableStill(g, n, values, size);
      FoldableValue(size, r, env, v, n);
      assert Live(r, c) && r.op[c] == Constant(values);
      assert v[c] == Meaning(size, env, c, Constant(values), Args(r, v, c));
      ExpandWhole(size, values);
    }
  }

  lemma ExpandWhole(size: nat, values: Slots)
    requires |values| == size
    ensures Expand(size, values) == values
  {
    forall i: nat | i < size
      ensures i % size == i
    {
      Remainder(i, size, 0, i);
    }
  }

  lemma FoldableStill(g: Graph, n: NodeId, values: Slots, size: nat)
    requires WellFormed(g) && Foldable(g, n)
    ensures var r := AddNode(g, Constant(values), []);
      Foldable(r, n) && FoldedValue(r, n, size) == FoldedValue(g, n, size)
  {
    var r := AddNode(g, Constant(values), []);
    assert ConstantArgs(r, n, size) == ConstantArgs(g, n, size);
  }

  lemma FoldFlags(g: Graph, n: NodeId, values: Slots)
    requires WellFormed(g) && Foldable(g, n)
    ensures SameUnder(AddNode(g, Constant(values), []), CipherSem(), n, |g.operands|)
  {
    var r, c := AddNode(g, Constant(values), []), |g.operands|;
    FoldableStill(g, n, values, 0);
    forall v | Interprets(r, CipherSem(), v)
      ensures v[n] == v[c]
    {
      assert Live(r, c);
      ConstantUseIsPlain(r, n, v);
    }
  }

  lemma ConstantUseIsPlain(g: Graph, n: NodeId, v: seq<bool>)
    requires Interprets(g, CipherSem(), v) && Foldable(g, n)
    ensures !v[n]
  {
    forall i: nat | i < |g.operands[n]|
      ensures !v[g.operands[n][i]]
    {
      assert Live(g, g.operands[n][i]);
    }
    assert Live(g, n);
    assert true !in Args(g, v, n);
  }

  lemma FoldedKeeps(size: nat, g: Graph, n: NodeId, values: Slots)
    requires WellFormed(g) && Foldable(g, n) && values == FoldedValue(g, n, size)
    ensures WellFormed(Folded(g, n, values)) && Refines(size, g, Folded(g, n, values))
    ensures forall m: NodeId :: m < |g.operands| ==> (Live(Folded(g, n, values), m) <==> Live(g, m))
  {
    var r, c := AddNode(g, Constant(values), []), |g.operands|;
    AddNodeWellFormed(g, Constant(values), []);
    AddNodeRefines(size, g, Constant(values), []);
    FoldInterchangeable(size, g, n, values);
    hide Refines, Interchangeable, FoldedValue, Foldable;
    RedirectAllRefines(size, r, n, c);
    RefinesTransitive(size, g, r, Folded(g, n, values));
  }

  lemma FoldInterchangeable(size: nat, g: Graph, n: NodeId, values: Slots)
    requires WellFormed(g) && Foldable(g, n) && values == FoldedValue(g, n, size)
    ensures Interchangeable(size, AddNode(g, Constant(values), []), n, |g.operands|)
  {
    forall env
      ensures SameUnder(AddNode(g, Constant(values), []), SlotSem(size, env), n, |g.operands|)
    {
      FoldSlots(size, g, env, n, values);
    }
    FoldFlags(g, n, values);
  }

  lemma FoldedAcyclic(g: Graph, n: NodeId, values: Slots)
    requires Acyclic(g) && |g.op| == |g.operands| && n < |g.operands|
    ensures Acyclic(Folded(g, n, values))
  {
    var rank :| Ranked(g, rank);
    FoldedShape(g, n, values);
    var rank' := seq(|rank|, i requires 0 <= i < |rank| => rank[i] + 1) + [0];
    assert Ranked(Folded(g, n, values), rank');
  }
}
