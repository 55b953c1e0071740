/** Programs written with the operators on expressions, from their inputs to what is read from their
    decrypted results (iyfc/iyfc_include.cpp). */
module EncryptedQueries {
  import opened Graphs
  import opened Usage
  import opened Dags
  import opened Semantics
  import opened ModSwitchers
  import opened InitDags
  import opened Uniform
  import opened PrimeLists
  import opened Decision
  import opened Levels
  import opened EndToEnd
  import opened Labels
  import opened CircuitDepth
  import opened PolynomialNodes
  import opened ProgramDepths
  import opened Exprs
  import opened QuerySums
  import opened Comparison
  import opened CmpNumbers
  import opened Sorting

  // ----- any program -----

  /** setScaleRange: one scale for all sources and for the ranges of all outputs. */
  method SetScaleRange(d: Dag, outputs: seq<NodeId>, scale: nat) returns (scale0: ScaleMap, ranges: RangeMap)
    ensures SourcesAt(d.G(), scale0, scale)
    ensures forall i: nat :: i < |outputs| ==> RangeAt(ranges, outputs[i]) == scale
  {
    scale0 := map n | n in d.sources :: scale;
    ranges := map o | o in outputs :: scale;
  }

  lemma BuiltIsProgram(g: Graph, scale0: ScaleMap, scale: nat, size: nat, o: NodeId)
    requires Built(g, size) && SourcesAt(g, scale0, scale) && scale > 0 && o < |g.op| && g.op[o].Output?
    ensures Program(g, scale0, size)
  {
    BuiltIsAcyclic(g, size);
    assert IsAnchor(g, o);
    forall n: NodeId | n < |g.op| && g.op[n].Output?
      ensures !IsUsed(g, n)
    {
      assert forall u: NodeId, i: nat :: u < |g.operands| && i < |g.operands[u]| ==> g.operands[u][i] != n;
    }
  }

  lemma ResultsAreValues(g: Graph, size: nat, env: NodeId -> Slots, vals: seq<Slots>, outputs: seq<NodeId>,
                         results: seq<Slots>)
    requires ResultsRight(g, size, env, outputs, results) && Interprets(g, SlotSem(size, env), vals)
    ensures |results| == |outputs|
    ensures forall i: nat :: i < |outputs| ==> outputs[i] < |vals| && results[i] == vals[outputs[i]]
  {
  }

  /** compileDag, encryptInput, exeDag and getDecryptOutput for a program made by operators. Its results are
      the values of its expressions, and kept on SEAL at a scale up to 293 it runs. */
  method RunProgram(e: ExprDag, outputs: seq<NodeId>, attr0: LevelAttr, table: nat -> nat, ghost last: nat,
                    env: NodeId -> Slots, ghost most: nat)
    returns (library: Library, ran: bool, results: seq<Slots>, ghost scale0: ScaleMap, ghost prepared: Graph,
             ghost depth: nat)
    requires e.Valid() && env == e.env && e.scale > 0 && (exists j: nat :: e.size == Decision.PowerOfTwo(j))
    requires outputs != [] && OutputsOf(e.dag.G(), outputs) && OutputsAlone(e.dag.G())
    requires TableWithCapacity(table, last, MAX_SEAL_BITS) && OutputsWithin(e.dag.G(), e.info.labels, most)
    modifies e.dag
    ensures SourcesAt(old(e.dag.G()), scale0, e.scale) && Prepared(old(e.dag.G()), scale0, prepared)
      && LargestDepth(prepared, depth) && LibraryRight(depth, e.scale, library)
    ensures depth <= most && (ran ==> library.SealCkks?)
    ensures e.scale <= 293 && (most + 3) * e.scale <= MAX_SEAL_BITS ==> ran
    ensures e.scale <= 293 && library.SealCkks? ==> ran
    ensures ran ==> |results| == |outputs|
    ensures ran ==> forall i: nat :: i < |outputs| ==>
      outputs[i] < |e.info.vals| && results[i] == e.info.vals[outputs[i]]
  {
    hide Built, Interprets, WellFormed, UsesInverse, SinksMatch, Erased, OutputsAlone, Program, InputsFit,
         ResultsRight, OutputsOf, UniformSetting, Refines, Prepared, LargestDepth, Chosen;
    ghost var g := e.dag.G();
    var sources, ranges := SetScaleRange(e.dag, outputs, e.scale);
    scale0 := sources;
    FirstOutput(g, outputs);
    BuiltIsProgram(g, scale0, e.scale, e.size, outputs[0]);
    ProgramInputs(g, e.size, env);
    ProgramSetting(g, scale0, e.scale, outputs, ranges, table, last);
    var found, failed, misread;
    ghost var order, compiled;
    library, found, ran, results, failed, misread, order, prepared, depth, compiled :=
      CompileAndRun(e.dag, sources, e.scale, e.size, attr0, outputs, ranges, table, last + 1, env);
    DepthOfProgram(g, e.info, e.size, env, scale0, e.scale, prepared, depth, most);
    FitsSeal(depth, most, e.scale);
    if ran {
      ResultsAreValues(g, e.size, env, e.info.vals, outputs, results);
    }
  }

  /** The outputs are at most so deep, once the program is prepared. */
  predicate OutputsWithin(g: Graph, labels: Labelling, most: nat)
  {
    forall o: NodeId :: o < |g.op| && o < |labels| && g.op[o].Output? ==> labels[o].depth <= most
  }

  lemma FitsSeal(depth: nat, most: nat, scale: nat)
    requires depth <= most
    ensures (depth + 3) * scale <= (most + 3) * scale
  {
  }

  lemma FirstOutput(g: Graph, outputs: seq<NodeId>)
    requires OutputsOf(g, outputs) && outputs != []
    ensures outputs[0] < |g.op| && g.op[outputs[0]].Output?
  {
  }

  lemma ProgramInputs(g: Graph, size: nat, env: NodeId -> Slots)
    requires InputsGiven(g, size, env)
    ensures InputsFit(g, size, env)
  {
  }

  lemma ProgramSetting(g: Graph, scale0: ScaleMap, scale: nat, outputs: seq<NodeId>, ranges: RangeMap,
                       table: nat -> nat, last: nat)
    requires 0 < scale && outputs != [] && SourcesAt(g, scale0, scale)
    requires forall i: nat :: i < |outputs| ==> RangeAt(ranges, outputs[i]) == scale
    requires TableWithCapacity(table, last, MAX_SEAL_BITS)
    ensures scale <= 293 ==> UniformSetting(g, scale0, scale, outputs, ranges, table)
    ensures table(Degree(last + 1)) == 0
  {
  }

  /** Outputs of expressions that nothing uses, in a program without other outputs. */
  lemma OutputsAdded(g: Graph, size: nat, a: Expr, b: Expr)
    requires Built(g, size) && (forall n: NodeId :: n < |g.op| ==> !g.op[n].Output?)
    requires a < |g.op| && b < |g.op| && !IsUsed(g, a)
    ensures var r := AddNode(g, Op.Output, [a]);
      |r.op| == |g.op| + 1 && OutputsOf(r, [|g.op|]) && OutputsAlone(r)
    ensures a != b && !IsUsed(g, b) ==>
      var r := AddNode(AddNode(g, Op.Output, [a]), Op.Output, [b]);
      OutputsOf(r, [|g.op|, |g.op| + 1]) && OutputsAlone(r)
  {
    var r := AddNode(g, Op.Output, [a]);
    forall u: NodeId | u < |g.operands|
      ensures a !in g.operands[u] && (!IsUsed(g, b) ==> b !in g.operands[u])
    {
    }
    assert r.op[|g.op|].Output?;
    var s := AddNode(r, Op.Output, [b]);
    assert forall o: NodeId :: o < |s.op| && s.op[o].Output? ==> o == |g.op| || o == |g.op| + 1;
    assert s.op[|g.op|].Output? && s.op[|g.op| + 1].Output?;
  }

  lemma SlotsArePower()
    ensures DAG_SIZE == Decision.PowerOfTwo(14)
  {
    assert Decision.PowerOfTwo(4) == 16;
    assert Decision.PowerOfTwo(8) == 256;
    assert Decision.PowerOfTwo(12) == 4096;
  }

  // ----- queries -----

  datatype Operand = Column(column: nat) | Number(num: uint32)

  /** Conditions of queries over columns of numbers: comparisons of a column, joined by && and ||. */
  datatype Condition =
    | Compare(column: nat, rel: Relation, with: Operand)
    | And(left: Condition, right: Condition)
    | Or(left: Condition, right: Condition)

  type Columns = seq<seq<uint32>>

  /** The condition speaks of n columns. */
  predicate Over(c: Condition, n: nat)
  {
    match c
    case Compare(column, _, with) => column < n && (with.Column? ==> with.column < n)
    case And(left, right) => Over(left, n) && Over(right, n)
    case Or(left, right) => Over(left, n) && Over(right, n)
  }

  function Joins(c: Condition): nat
  {
    match c
    case Compare(_, _, _) => 0
    case And(left, right) => Joins(left) + Joins(right) + 1
    case Or(left, right) => Joins(left) + Joins(right) + 1
  }

  function OperandAt(columns: Columns, with: Operand, b: nat): uint32
    requires with.Column? ==> with.column < |columns|
  {
    match with
    case Column(column) => NumberAt(columns[column], b)
    case Number(num) => num
  }

  /** The condition on row b of the columns. */
  predicate Satisfies(c: Condition, columns: Columns, b: nat)
    requires Over(c, |columns|)
  {
    match c
    case Compare(column, rel, with) => Related(rel, NumberAt(columns[column], b), OperandAt(columns, with, b))
    case And(left, right) => Satisfies(left, columns, b) && Satisfies(right, columns, b)
    case Or(left, right) => Satisfies(left, columns, b) || Satisfies(right, columns, b)
  }

  function Answers(c: Condition, columns: Columns): (t: seq<bool>)
    requires Over(c, |columns|)
    ensures |t| == MAX_NUMBERS
  {
    seq(MAX_NUMBERS, b requires 0 <= b < MAX_NUMBERS => Satisfies(c, columns, b))
  }

  lemma JoinTells(c: Condition, columns: Columns)
    requires Over(c, |columns|) && !c.Compare?
    ensures var t, u := Answers(c.left, columns), Answers(c.right, columns);
      && (c.And? ==> Answers(c, columns) == seq(MAX_NUMBERS, b requires 0 <= b < MAX_NUMBERS => t[b] && u[b]))
      && (c.Or? ==> Answers(c, columns) == seq(MAX_NUMBERS, b requires 0 <= b < MAX_NUMBERS => t[b] || u[b]))
  {
  }

  /** The inputs are the columns, encoded. */
  ghost predicate Given(e: ExprDag, inputs: seq<Expr>, columns: Columns)
    reads e`info, e.dag
  {
    && |inputs| == |columns|
    && forall i: nat :: i < |columns| ==>
         e.IsExpr(inputs[i]) && Encodes(columns[i], e.Val(inputs[i])) && e.Depth(inputs[i]) == 0
  }

  /** The operator for a relation. */
  method BuildRelation(e: ExprDag, x: Expr, y: Expr, rel: Relation, ghost xs: seq<uint32>, ghost ys: seq<uint32>)
    returns (r: Expr)
    requires e.Valid() && e.IsExpr(x) && e.IsExpr(y) && e.size == DAG_SIZE
    requires Encodes(xs, e.Val(x)) && Encodes(ys, e.Val(y))
    modifies e`info, e.dag
    ensures e.Valid() && e.Keeps() && e.IsExpr(r) && e.Unused(r)
    ensures Tells(Truths(rel, xs, ys), e.Val(r))
    ensures e.Depth(r) <= Higher(old(e.Depth(x)), old(e.Depth(y))) + 9 && e.Factors(r) == 1
  {
    hide Encodes, Tells, Truths, ExprDag.Valid, ExprDag.Unused, ExprDag.NoOutputs, ExprDag.Depth, ExprDag.Factors,
         AddNode, LogUp;
    match rel
    case Lt => r := Less(e, x, y, xs, ys);
    case Eq => r := Equal(e, x, y, xs, ys);
    case Ne => r := NotEqual(e, x, y, xs, ys);
    case Le => r := LessOrEqual(e, x, y, xs, ys);
    case Gt => r := Greater(e, x, y, xs, ys);
    case Ge => r := GreaterOrEqual(e, x, y, xs, ys);
  }

  /** A comparison of a column with a column or a number. */
  method BuildCompare(e: ExprDag, c: Condition, inputs: seq<Expr>, ghost columns: Columns) returns (r: Expr)
    requires e.Valid() && e.size == DAG_SIZE && Given(e, inputs, columns) && c.Compare? && Over(c, |columns|)
    modifies e`info, e.dag
    ensures e.Valid() && e.Keeps() && e.IsExpr(r) && e.Unused(r)
    ensures Tells(Answers(c, columns), e.Val(r)) && e.Depth(r) <= 9 && e.Factors(r) == 1
  {
    hide Encodes, Tells, ExprDag.Valid, ExprDag.Unused, ExprDag.NoOutputs, ExprDag.Depth, ExprDag.Factors, AddNode,
         LogUp;
    ghost var xs, ys := columns[c.column], [];
    var y;
    match c.with {
      case Column(column) =>
        y := inputs[column];
        ys := columns[column];
      case Number(num) =>
        y := PlaintToCmpExpr(e, num);
        ys := seq(MAX_NUMBERS, b => num);
    }
    assert Answers(c, columns) == Truths(c.rel, xs, ys);
    hide Answers, Truths;
    r := BuildRelation(e, inputs[c.column], y, c.rel, xs, ys);
  }

  /** A condition as the operators build it, left to right; the slots of each block tell whether its row
      satisfies it. */
  method BuildCondition(e: ExprDag, c: Condition, inputs: seq<Expr>, ghost columns: Columns, ghost joins: nat)
    returns (r: Expr)
    requires e.Valid() && e.size == DAG_SIZE && Given(e, inputs, columns) && Over(c, |columns|)
    requires Lowered(e.scale, e.tries, joins)
    modifies e`info, e`scale, e`tries, e.dag
    ensures e.Valid() && e.Keeps() && e.IsExpr(r) && e.Unused(r)
    ensures Tells(Answers(c, columns), e.Val(r)) && Lowered(e.scale, e.tries, joins + Joins(c))
    ensures e.Depth(r) <= 9 + JoinDepth(Joins(c)) && e.Factors(r) <= Joins(c) + 1
    decreases c
  {
    hide Encodes, Tells, Lowered, Answers, ExprDag.Valid, ExprDag.Unused, ExprDag.NoOutputs, ExprDag.Depth,
         ExprDag.Factors, AddNode, LogUp, JoinDepth, ExprDag.Val, ExprDag.IsExpr;
    if !c.Compare? {
      JoinTells(c, columns);
    }
    match c
    case Compare(_, _, _) =>
      r := BuildCompare(e, c, inputs, columns);
    case And(left, right) =>
      var a := BuildCondition(e, left, inputs, columns, joins);
      var b := BuildCondition(e, right, inputs, columns, joins + Joins(left));
      JoinDeeper(Joins(left), Joins(right), e.Factors(a), e.Factors(b));
      r := Both(e, a, b, Answers(left, columns), Answers(right, columns), joins + Joins(left) + Joins(right));
    case Or(left, right) =>
      var a := BuildCondition(e, left, inputs, columns, joins);
      var b := BuildCondition(e, right, inputs, columns, joins + Joins(left));
      JoinDeeper(Joins(left), Joins(right), 1, 1);
      r := Either(e, a, b, Answers(left, columns), Answers(right, columns), joins + Joins(left) + Joins(right));
  }

  /** What that many connectives add to the depth of comparisons, at most: a conjunction of conjunctions is one
      product of all their factors. */
  function JoinDepth(joins: nat): nat
  {
    if joins == 0 then 0 else JoinDepth(joins - 1) + LogUp(joins + 1)
  }

  lemma {:induction false} JoinDepthGrows(a: nat, b: nat)
    requires a <= b
    ensures JoinDepth(a) <= JoinDepth(b)
  {
    if a < b {
      JoinDepthGrows(a, b - 1);
    }
  }

  lemma JoinDeeper(left: nat, right: nat, f: nat, f': nat)
    requires f <= left + 1 && f' <= right + 1
    ensures JoinDepth(left) + LogUp(f + f') <= JoinDepth(left + right + 1)
    ensures JoinDepth(right) + LogUp(f + f') <= JoinDepth(left + right + 1)
  {
    hide LogUp;
    assert JoinDepth(left + right + 1) == JoinDepth(left + right) + LogUp(left + right + 2);
    hide JoinDepth;
    JoinDepthGrows(left, left + right);
    JoinDepthGrows(right, left + right);
    LogUpGrows(f + f', left + right + 2);
  }

  lemma Heights()
    ensures LogUp(2) == 1 && LogUp(3) == 2 && LogUp(4) == 2 && LogUp(5) == 3 && LogUp(6) == 3 && LogUp(7) == 3
    ensures LogUp(8) == 3
  {
    LogUpIs(2, 1);
    LogUpIs(3, 2);
    LogUpIs(4, 2);
    LogUpIs(5, 3);
    LogUpIs(6, 3);
    LogUpIs(7, 3);
    LogUpIs(8, 3);
  }

  lemma JoinDepths()
    ensures JoinDepth(0) == 0 && JoinDepth(1) == 1 && JoinDepth(2) == 3 && JoinDepth(3) == 5 && JoinDepth(4) == 8
    ensures JoinDepth(5) == 11 && JoinDepth(6) == 14
  {
    Heights();
    hide LogUp;
    assert JoinDepth(1) == 1;
    assert JoinDepth(2) == 3;
    assert JoinDepth(3) == 5;
    assert JoinDepth(4) == 8;
    assert JoinDepth(5) == 11;
  }

  lemma ScalesAre()
    ensures LoweredScale(0) == 60 && LoweredScale(1) == LoweredScale(2) == 50 && LoweredScale(3) == 40
    ensures LoweredScale(4) == 30 && LoweredScale(5) == 20 && LoweredScale(6) == 10
  {
  }

  /** Up to six connectives, the depth of a query leaves room for its primes at the scale they lower, and so
      does that of a count. */
  lemma QueriesFit(joins: nat)
    requires joins <= 6
    ensures (9 + JoinDepth(joins) + 3) * LoweredScale(joins) <= MAX_SEAL_BITS
    ensures (9 + JoinDepth(joins) + LogUp(joins + 2) + 3) * LoweredScale(joins) <= MAX_SEAL_BITS
  {
    Heights();
    ScalesAre();
    hide LogUp, LoweredScale;
    JoinDepths();
    hide JoinDepth;
    if
    case joins == 0 =>
    case joins == 1 =>
    case joins == 2 =>
    case joins == 3 =>
    case joins == 4 =>
    case joins == 5 =>
    case joins == 6 =>
  }

  lemma QueryFits(joins: nat, depth: nat)
    requires depth <= 9 + JoinDepth(joins)
    ensures joins <= 6 ==> (depth + 3) * LoweredScale(joins) <= MAX_SEAL_BITS
  {
    hide LoweredScale, LogUp, JoinDepth;
    if joins <= 6 {
      QueriesFit(joins);
      FitsSeal(depth, 9 + JoinDepth(joins), LoweredScale(joins));
    }
  }

  lemma CountFits(joins: nat, depth: nat, factors: nat, count: nat)
    requires depth <= 9 + JoinDepth(joins) && factors <= joins + 1 && count <= depth + LogUp(factors + 1)
    ensures joins <= 6 ==> (count + 3) * LoweredScale(joins) <= MAX_SEAL_BITS
  {
    hide LoweredScale, LogUp, JoinDepth;
    if joins <= 6 {
      QueriesFit(joins);
      LogUpGrows(factors + 1, joins + 2);
      FitsSeal(count, 9 + JoinDepth(joins) + LogUp(joins + 2), LoweredScale(joins));
    }
  }

  // ----- from columns of numbers to the answers -----

  /** What a client gets back: a result, or nothing when a column is too long, when the scale has been lowered
      to zero, by which the decision divides, when another library is chosen, or when no degree is found. */
  datatype Outcome<T> = Done(result: T) | TooMany | ScaleZero | OtherLibrary | NoDegree

  /** The inputs a run is given, by the node of each. */
  function ByNode(slots: seq<Slots>): NodeId -> Slots
  {
    (n: NodeId) => if n < |slots| then slots[n] else []
  }

  predicate TooLong(columns: Columns)
  {
    exists i: nat :: i < |columns| && |columns[i]| > MAX_NUMBERS
  }

  method EncodeColumns(columns: Columns) returns (tooMany: bool, slots: seq<Slots>)
    ensures tooMany <==> TooLong(columns)
    ensures !tooMany ==> |slots| == |columns| && forall i: nat :: i < |columns| ==> Encodes(columns[i], slots[i])
  {
    hide Encodes;
    tooMany, slots := false, [];
    for k := 0 to |columns|
      invariant !tooMany && |slots| == k
      invariant forall i: nat :: i < k ==> Encodes(columns[i], slots[i]) && |columns[i]| <= MAX_NUMBERS
    {
      var encoded := EncodeOrgInputforCmp(columns[k]);
      if encoded.TooManyNumbers? {
        return true, slots;
      }
      slots := slots + [encoded.slots];
    }
  }

  lemma EncodingLength(nums: seq<uint32>, v: Slots)
    requires Encodes(nums, v)
    ensures |v| == DAG_SIZE
  {
  }

  /** An encrypted input for each column. */
  method InputColumns(e: ExprDag, ghost columns: Columns, count: nat) returns (inputs: seq<Expr>)
    requires e.Valid() && e.dag.op == [] && e.size == DAG_SIZE && count == |columns|
    requires forall i: nat :: i < count ==> Encodes(columns[i], e.env(i))
    modifies e`info, e.dag
    ensures e.Valid() && e.NoOutputs() && Given(e, inputs, columns)
  {
    hide Encodes, ExprDag.Valid, ExprDag.Unused;
    inputs := [];
    for k := 0 to count
      invariant e.Valid() && e.NoOutputs() && |e.dag.op| == k == |inputs|
      invariant forall i: nat :: i < k ==>
        e.IsExpr(inputs[i]) && Encodes(columns[i], e.Val(inputs[i])) && e.Depth(inputs[i]) == 0
    {
      EncodingLength(columns[k], e.env(k));
      var x := e.Input(true);
      inputs := inputs + [x];
    }
  }

  /** The condition becomes the program's one output, which is run and decrypted. */
  method RunQuery(e: ExprDag, r: Expr, attr0: LevelAttr, table: nat -> nat, ghost last: nat, env: NodeId -> Slots,
                  ghost joins: nat)
    returns (o: Outcome<Slots>)
    requires e.Valid() && e.NoOutputs() && e.IsExpr(r) && e.Unused(r) && e.size == DAG_SIZE && env == e.env
    requires Lowered(e.scale, e.tries, joins) && TableWithCapacity(table, last, MAX_SEAL_BITS)
    modifies e`info, e.dag
    ensures !o.TooMany? && (o.Done? ==> o.result == old(e.Val(r)))
    ensures joins <= 6 ==> o.Done? || o.OtherLibrary?
    ensures joins <= 6 && (old(e.Depth(r)) + 3) * LoweredScale(joins) <= MAX_SEAL_BITS ==> o.Done?
    ensures joins == 7 ==> o.ScaleZero?
  {
    hide Built, Interprets, WellFormed, UsesInverse, SinksMatch, Erased, OutputsAlone, OutputsOf, TableWithCapacity,
         LoweredScale, ExprDag.Val, ExprDag.Depth, BoundOf, AddNode, OutputsWithin, Known;
    ScaleLowered(joins);
    if e.scale == 0 {
      return ScaleZero;
    }
    GraphFacts(e);
    OutputsAdded(e.dag.G(), e.size, r, r);
    SlotsArePower();
    ghost var g, most := e.dag.G(), e.Depth(r);
    OneOutputWithin(g, e.info.labels, r, most);
    var output := e.SetOutput(r);
    var library, ran, results;
    ghost var scale0, prepared, depth;
    library, ran, results, scale0, prepared, depth := RunProgram(e, [output], attr0, table, last, env, most);
    o := if ran then Done(results[0]) else if library.SealCkks? then NoDegree else OtherLibrary;
  }

  lemma OneOutputWithin(g: Graph, labels: Labelling, a: Expr, d: nat)
    requires |labels| == |g.op| && forall n: NodeId :: n < |g.op| ==> !g.op[n].Output?
    ensures OutputsWithin(AddNode(g, Op.Output, [a]), labels + [Label(d, 1)], d)
  {
  }

  /** Which rows satisfy a condition: encoding, compiling, running, decrypting and getCmpOutputs. */
  method SelectRows(columns: Columns, c: Condition, numCnt: nat, name: string, attr0: LevelAttr, table: nat -> nat,
                    ghost last: nat, cast: int -> nat)
    returns (o: Outcome<seq<nat>>)
    requires Over(c, |columns|) && numCnt <= MAX_NUMBERS && IsCast(cast)
    requires TableWithCapacity(table, last, MAX_SEAL_BITS)
    ensures o.TooMany? <==> TooLong(columns)
    ensures o.Done? ==> |o.result| == numCnt && forall b: nat :: b < numCnt ==>
      o.result[b] == if Satisfies(c, columns, b) then 1 else 0
    ensures !o.TooMany? && Joins(c) <= 6 ==> o.Done?
    ensures !o.TooMany? && Joins(c) == 7 ==> o.ScaleZero?
  {
    hide Encodes, Tells, Lowered, Satisfies, ExprDag.Valid, ExprDag.Unused, ExprDag.NoOutputs, ExprDag.Depth,
         ExprDag.Factors, AddNode, LogUp, TableWithCapacity, LoweredScale, JoinDepth, ExprDag.Val, ExprDag.IsExpr;
    var tooMany, slots := EncodeColumns(columns);
    if tooMany {
      return TooMany;
    }
    var e := new ExprDag(DAG_SIZE, ByNode(slots));
    var inputs := InputColumns(e, columns, |columns|);
    NoneJoined();
    var r := BuildCondition(e, c, inputs, columns, 0);
    QueryFits(Joins(c), e.Depth(r));
    var ran := RunQuery(e, r, attr0, table, last, ByNode(slots), Joins(c));
    match ran {
      case Done(v) =>
        ExactIsNear(Answers(c, columns), v);
        var result := ReadTruths(map[name := v], numCnt, name, cast, Answers(c, columns));
        o := Done(result);
      case TooMany =>
        assert false;
      case ScaleZero =>
        o := ScaleZero;
      case OtherLibrary =>
        o := OtherLibrary;
      case NoDegree =>
        o := NoDegree;
    }
  }

  lemma NoneJoined()
    ensures Lowered(DEFAULT_SCALE, 1, 0)
  {
  }

  /** How many of the first rows satisfy a condition: QueryCnt and getCntOutput. */
  method CountRows(columns: Columns, c: Condition, totalNum: nat, name: string, attr0: LevelAttr, table: nat -> nat,
                   ghost last: nat, cast: int -> nat)
    returns (o: Outcome<nat>)
    requires Over(c, |columns|) && 1 <= totalNum <= MAX_NUMBERS && IsCast(cast)
    requires TableWithCapacity(table, last, MAX_SEAL_BITS)
    ensures o.TooMany? <==> TooLong(columns)
    ensures o.Done? ==> o.result == CmpNumbers.Count(Answers(c, columns), totalNum)
    ensures !o.TooMany? && Joins(c) <= 6 ==> o.Done?
    ensures !o.TooMany? && Joins(c) == 7 ==> o.ScaleZero?
  {
    hide Encodes, Tells, Lowered, Answers, ExprDag.Valid, ExprDag.Unused, ExprDag.NoOutputs, ExprDag.Depth,
         ExprDag.Factors, AddNode, LogUp, TableWithCapacity, LoweredScale, JoinDepth, Satisfies, ExprDag.Val,
         ExprDag.IsExpr;
    var tooMany, slots := EncodeColumns(columns);
    if tooMany {
      return TooMany;
    }
    var e := new ExprDag(DAG_SIZE, ByNode(slots));
    var inputs := InputColumns(e, columns, |columns|);
    NoneJoined();
    var r := BuildCondition(e, c, inputs, columns, 0);
    var cnt := QueryCnt(e, r, totalNum, Answers(c, columns));
    CountFits(Joins(c), e.Depth(r), e.Factors(r), e.Depth(cnt));
    var ran := RunQuery(e, cnt, attr0, table, last, ByNode(slots), Joins(c));
    match ran {
      case Done(v) =>
        CountExact(Answers(c, columns), totalNum, v, cast);
        var result := GetCntOutput(map[name := v], name, cast, 0);
        o := Done(result);
      case TooMany =>
        assert false;
      case ScaleZero =>
        o := ScaleZero;
      case OtherLibrary =>
        o := OtherLibrary;
      case NoDegree =>
        o := NoDegree;
    }
  }

  // ----- sorting -----

  /** buildSortDag: the comparison of the inputs without mask and fill, and its two outputs. */
  method BuildSortDag(e: ExprDag, ghost nums: seq<uint32>) returns (less: NodeId, eq: NodeId)
    requires e.Valid() && e.size == DAG_SIZE && e.dag.op == []
    requires |nums| <= MAX_SORT && EncodesPairs(nums, SortInput(e.env(0), e.env(1)))
    modifies e`info, e.dag
    ensures e.Valid() && less < |e.info.vals| && SortsPairs(nums, e.info.vals[less])
    ensures OutputsOf(e.dag.G(), [less, eq]) && OutputsAlone(e.dag.G())
    ensures OutputsWithin(e.dag.G(), e.info.labels, 8)
  {
    hide EncodesPairs, SortsPairs, CmpExprP7, OutputsOf, OutputsAlone, IsUsed, Built, Interprets, WellFormed,
         UsesInverse, SinksMatch, Erased, AddNode, Minus, ExprDag.Depth, BoundOf, OutputsWithin, Known;
    PairsSorted(nums, e.env(0), e.env(1));
    var x, y := TwoInputs(e);
    var lt, tie := SortCircuit(e, x, y);
    GraphFacts(e);
    OutputsAdded(e.dag.G(), e.size, lt, tie);
    ghost var g, labels, d, d' := e.dag.G(), e.info.labels, e.Depth(lt), e.Depth(tie);
    less := e.SetOutput(lt);
    eq := e.SetOutput(tie);
    TwoOutputsWithin(g, labels, lt, tie, d, d', 8);
  }

  lemma TwoOutputsWithin(g: Graph, labels: Labelling, a: Expr, b: Expr, d: nat, d': nat, most: nat)
    requires |labels| == |g.op| && forall n: NodeId :: n < |g.op| ==> !g.op[n].Output?
    requires d <= most && d' <= most
    ensures var r := AddNode(AddNode(g, Op.Output, [a]), Op.Output, [b]);
      OutputsWithin(r, labels + [Label(d, 1)] + [Label(d', 1)], most)
  {
  }

  method TwoInputs(e: ExprDag) returns (x: Expr, y: Expr)
    requires e.Valid() && e.dag.op == [] && |e.env(0)| == |e.env(1)| == e.size
    modifies e`info, e.dag
    ensures e.Valid() && e.NoOutputs() && e.IsExpr(x) && e.IsExpr(y)
    ensures e.Val(x) == e.env(0) && e.Val(y) == e.env(1) && e.Depth(x) == e.Depth(y) == 0
  {
    assert e.NoOutputs();
    hide ExprDag.Valid, ExprDag.NoOutputs;
    x := e.Input(true);
    y := e.Input(true);
  }

  method SortCircuit(e: ExprDag, x: Expr, y: Expr) returns (lt: Expr, tie: Expr)
    requires e.Valid() && e.NoOutputs() && e.IsExpr(x) && e.IsExpr(y) && e.size == DAG_SIZE
    modifies e`info, e.dag
    ensures e.Valid() && e.NoOutputs() && e.IsExpr(lt) && e.IsExpr(tie)
    ensures lt != tie && e.Unused(lt) && e.Unused(tie)
    ensures e.Val(lt) == CmpExprP7(Minus(DAG_SIZE, old(e.Val(x)), old(e.Val(y)))).0
    ensures e.Depth(lt) <= Higher(old(e.Depth(x)), old(e.Depth(y))) + 8
    ensures e.Depth(tie) <= Higher(old(e.Depth(x)), old(e.Depth(y))) + 7
  {
    hide CmpExprP7, Minus, ExprDag.Valid, ExprDag.Unused, ExprDag.NoOutputs, ExprDag.Depth, ExprDag.Factors, AddNode,
         LogUp;
    ghost var g := e.dag.G();
    e.Counted();
    var z := e.Sub(x, y);
    OneNode(g, Op.Sub, [x, y]);
    lt, tie := GetCmpExprP7(e, z);
  }

  /** Sorting at the default scale: encoding all pairs, compiling, running, decrypting and getSortOutputs. */
  method SortAll(nums: seq<uint32>, attr0: LevelAttr, table: nat -> nat, ghost last: nat, cast: int -> nat)
    returns (o: Outcome<seq<seq<nat>>>)
    requires IsCast(cast) && TableWithCapacity(table, last, MAX_SEAL_BITS)
    ensures o.TooMany? <==> |nums| > MAX_SORT
    ensures o.Done? ==> IsOrder(nums, o.result)
    ensures |nums| <= MAX_SORT ==> o.Done?
  {
    hide EncodesPairs, SortsPairs, IsOrder, OutputsOf, OutputsAlone, ExprDag.Valid, ExprDag.Unused, ExprDag.NoOutputs,
         ExprDag.Depth, ExprDag.Factors, AddNode, LogUp, TableWithCapacity, NearHeads;
    var input := EncodeOrgInputforSort(nums);
    if input.TooManyToSort? {
      return TooMany;
    }
    var env := ByNode([input.x, input.y]);
    var e := new ExprDag(DAG_SIZE, env);
    var less, eq := BuildSortDag(e, nums);
    SlotsArePower();
    var library, ran, results;
    ghost var scale0, prepared, depth;
    library, ran, results, scale0, prepared, depth := RunProgram(e, [less, eq], attr0, table, last, env, 8);
    if !ran {
      return OtherLibrary;
    }
    ExactHeads(nums, results[0]);
    var matrix := ReadOrder(map[LESS_OUTPUT := results[0], "result_out_eq" := results[1]], nums, results[0],
      |nums|, cast);
    o := Done(matrix);
  }
}
