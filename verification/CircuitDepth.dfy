/** How deep the comparison circuit becomes once it is prepared: the products of its polynomials are merged
    into balanced trees, with the sum that has the largest scale next to the root, while the intermediate
    results of its rounds, which have several uses, stay apart. */
module CircuitDepth {
  import opened Graphs
  import opened Usage
  import opened Semantics
  import opened Chains
  import opened Reductions
  import opened LogExpander
  import opened OperandScales
  import opened DepthBounds
  import opened Labels

  // ----- graphs of circuits -----

  /** Nodes are made after their operands. */
  predicate Ordered(g: Graph)
  {
    |g.op| == |g.operands|
    && forall n: NodeId, o: NodeId :: n < |g.operands| && o in g.operands[n] ==> o < n
  }

  predicate NodeIs(g: Graph, n: NodeId, op: Op, operands: seq<NodeId>)
  {
    n < |g.op| && n < |g.operands| && g.op[n] == op && g.operands[n] == operands
  }

  function C(x: real): Op
  {
    Constant([x])
  }

  /** x * z * z */
  predicate SquareNodes(g: Graph, b: NodeId, x: real, z: NodeId)
  {
    NodeIs(g, b, C(x), []) && NodeIs(g, b + 1, Mul, [b, z]) && NodeIs(g, b + 2, Mul, [b + 1, z])
  }

  /** a * (z + x) or a * (z - x) */
  predicate FactorNodes(g: Graph, b: NodeId, a: NodeId, z: NodeId, op: Op, x: real)
  {
    NodeIs(g, b, C(x), []) && NodeIs(g, b + 1, op, [z, b]) && NodeIs(g, b + 2, Mul, [a, b + 1])
  }

  /** a * (z - 1) * (z - 2) * (z - 3) */
  predicate ThreeNodes(g: Graph, b: NodeId, a: NodeId, z: NodeId)
  {
    && FactorNodes(g, b, a, z, Sub, 1.0) && FactorNodes(g, b + 3, b + 2, z, Sub, 2.0)
    && FactorNodes(g, b + 6, b + 5, z, Sub, 3.0)
  }

  /** 1/72 * z * z + 3/40 * z + 37/360 */
  predicate SumNodes(g: Graph, b: NodeId, z: NodeId)
  {
    && SquareNodes(g, b, 1.0 / 72.0, z)
    && NodeIs(g, b + 3, C(3.0 / 40.0), []) && NodeIs(g, b + 4, Mul, [b + 3, z]) && NodeIs(g, b + 5, Add, [b + 2, b + 4])
    && NodeIs(g, b + 6, C(37.0 / 360.0), []) && NodeIs(g, b + 7, Add, [b + 5, b + 6])
  }

  /** The first entry of lt_list. */
  predicate LessNodes(g: Graph, b: NodeId, z: NodeId)
  {
    SumNodes(g, b, z) && NodeIs(g, b + 8, Mul, [b + 7, z]) && ThreeNodes(g, b + 9, b + 8, z)
  }

  /** -1/36 * (z + 3) * (z + 2) * (z + 1) */
  predicate FirstNodes(g: Graph, b: NodeId, z: NodeId)
  {
    && NodeIs(g, b, C(3.0), []) && NodeIs(g, b + 1, Add, [z, b])
    && NodeIs(g, b + 2, C((-1.0) / 36.0), []) && NodeIs(g, b + 3, Mul, [b + 2, b + 1])
    && FactorNodes(g, b + 4, b + 3, z, Add, 2.0) && FactorNodes(g, b + 7, b + 6, z, Add, 1.0)
  }

  /** The first entry of eq_list. */
  predicate EqualNodes(g: Graph, b: NodeId, z: NodeId)
  {
    FirstNodes(g, b, z) && ThreeNodes(g, b + 10, b + 9, z)
  }

  lemma SmallPowers()
    ensures TwoTo(1) == 2 && TwoTo(2) == 4 && TwoTo(3) == 8
  {
  }

  // ----- the square -----

  /** x * z * z is merged into one product of three factors. */
  lemma SquareLabelled(g: Graph, frozen: set<NodeId>, labels: Labelling, b: NodeId, x: real, z: NodeId)
    requires Ordered(g) && |g.op| == b + 3 && SquareNodes(g, b, x, z) && z < b && IsFactor(g, z)
    requires |labels| == |g.op| && labels[b].depth == 0 && labels[b + 2] == Label(labels[z].depth + 2, 3)
    requires b + 1 in frozen
    ensures Labelled(g, frozen, labels, b + 2)
  {
    assert OnlyUser(g, b + 1, b + 2) by {
      forall v: NodeId | v < |g.operands| && b + 1 in g.operands[v]
        ensures v == b + 2
      {
      }
    }
    assert IsLink(g, b + 1, b, z) && IsLink(g, b + 2, b + 1, z) && IsFactor(g, b);
    SmallPowers();
    hide OnlyUser, Ordered, Gathers, TwoTo;
    GatherTwo(g, frozen, b + 1, b, z);
    GatherMore(g, frozen, b + 1, multiset{b, z}, b + 2, z);
    GatheredLabelled(g, frozen, labels, b + 2, multiset{b, z} + multiset{z}, 2);
  }

  // ----- the last three factors -----

  /** The products of the last three factors, the last node of the graph being the last of them. */
  lemma ThreeUsers(g: Graph, b: NodeId, z: NodeId)
    requires Ordered(g) && |g.op| == b + 9 && b > 0 && ThreeNodes(g, b, b - 1, z) && z < b - 1
    ensures OnlyUser(g, b - 1, b + 2) && OnlyUser(g, b + 2, b + 5) && OnlyUser(g, b + 5, b + 8)
  {
    forall v: NodeId | v < |g.operands| && b - 1 in g.operands[v]
      ensures v == b + 2
    {
      ThreeUse(g, b, z, v, b - 1);
    }
    forall v: NodeId | v < |g.operands| && b + 2 in g.operands[v]
      ensures v == b + 5
    {
      ThreeUse(g, b, z, v, b + 2);
    }
    forall v: NodeId | v < |g.operands| && b + 5 in g.operands[v]
      ensures v == b + 8
    {
      ThreeUse(g, b, z, v, b + 5);
    }
  }

  /** Where the products are used. */
  lemma ThreeUse(g: Graph, b: NodeId, z: NodeId, v: NodeId, n: NodeId)
    requires Ordered(g) && |g.op| == b + 9 && b > 0 && ThreeNodes(g, b, b - 1, z) && z < b - 1
    requires v < |g.operands| && n in g.operands[v] && (n == b - 1 || n == b + 2 || n == b + 5)
    ensures v == n + 3
  {
    assert n < v;
    if
    case v == b =>
    case v == b + 1 =>
    case v == b + 2 =>
    case v == b + 3 =>
    case v == b + 4 =>
    case v == b + 5 =>
    case v == b + 6 =>
    case v == b + 7 =>
    case v == b + 8 =>
  }

  function LastFactors(b: NodeId): multiset<NodeId>
  {
    multiset{b + 1} + multiset{b + 4} + multiset{b + 7}
  }

  lemma ThreeGathered(g: Graph, frozen: set<NodeId>, b: NodeId, z: NodeId, factors: multiset<NodeId>)
    requires Ordered(g) && |g.op| == b + 9 && b > 0 && ThreeNodes(g, b, b - 1, z) && z < b - 1
    requires g.op[b - 1].Mul? && Gathers(g, frozen, b - 1, factors)
    requires b - 1 in frozen && b + 2 in frozen && b + 5 in frozen
    ensures Gathers(g, frozen, b + 8, factors + LastFactors(b))
  {
    assert IsLink(g, b + 2, b - 1, b + 1) && IsLink(g, b + 5, b + 2, b + 4) && IsLink(g, b + 8, b + 5, b + 7);
    assert IsFactor(g, b + 1) && IsFactor(g, b + 4) && IsFactor(g, b + 7);
    hide OnlyUser, Ordered, Gathers, ThreeNodes;
    ThreeUsers(g, b, z);
    GatherMore(g, frozen, b - 1, factors, b + 2, b + 1);
    GatherMore(g, frozen, b + 2, factors + multiset{b + 1}, b + 5, b + 4);
    GatherMore(g, frozen, b + 5, factors + multiset{b + 1} + multiset{b + 4}, b + 8, b + 7);
    assert factors + multiset{b + 1} + multiset{b + 4} + multiset{b + 7} == factors + LastFactors(b);
  }

  // ----- the equality -----

  function EqualFactors(b: NodeId): multiset<NodeId>
  {
    multiset{b + 2, b + 1} + multiset{b + 5} + multiset{b + 8} + LastFactors(b + 10)
  }

  /** The factors are no deeper than d. */
  predicate ThreeAt(b: NodeId, labels: Labelling, d: nat)
  {
    b + 8 < |labels| && labels[b + 1].depth <= d && labels[b + 4].depth <= d && labels[b + 7].depth <= d
  }

  predicate EqualAt(b: NodeId, labels: Labelling, d: nat)
  {
    && b + 18 < |labels| && labels[b + 2].depth <= d && labels[b + 1].depth <= d && labels[b + 5].depth <= d
    && labels[b + 8].depth <= d && ThreeAt(b + 10, labels, d)
  }

  /** Seven factors, none of them deeper than z. */
  lemma EqualLabelled(g: Graph, frozen: set<NodeId>, labels: Labelling, b: NodeId, z: NodeId)
    requires Ordered(g) && |g.op| == b + 19 && EqualNodes(g, b, z) && z < b
    requires |labels| == |g.op| && EqualAt(b, labels, labels[z].depth)
    requires labels[b + 18] == Label(labels[z].depth + 3, 7)
    requires b + 3 in frozen && b + 6 in frozen && b + 9 in frozen && b + 12 in frozen && b + 15 in frozen
    ensures Labelled(g, frozen, labels, b + 18)
  {
    hide Gathers, Ordered, EqualNodes, TwoTo, EqualFactors, EqualAt, Labelled;
    SmallPowers();
    EqualIsProduct(g, b, z);
    EqualGathered(g, frozen, b, z);
    EqualFactorsAre(b, labels, labels[z].depth);
    GatheredLabelled(g, frozen, labels, b + 18, EqualFactors(b), 3);
  }

  lemma EqualIsProduct(g: Graph, b: NodeId, z: NodeId)
    requires EqualNodes(g, b, z)
    ensures b + 18 < |g.op| && g.op[b + 18].Mul? && g.op[b + 9].Mul?
  {
  }

  lemma EqualFactorsAre(b: NodeId, labels: Labelling, d: nat)
    requires EqualAt(b, labels, d)
    ensures |EqualFactors(b)| == 7
    ensures forall o: NodeId :: o in EqualFactors(b) ==> o < |labels| && labels[o].depth <= d
  {
  }

  lemma EqualGathered(g: Graph, frozen: set<NodeId>, b: NodeId, z: NodeId)
    requires Ordered(g) && |g.op| == b + 19 && EqualNodes(g, b, z) && z < b
    requires b + 3 in frozen && b + 6 in frozen && b + 9 in frozen && b + 12 in frozen && b + 15 in frozen
    ensures Gathers(g, frozen, b + 18, EqualFactors(b))
  {
    hide Gathers, Ordered, FirstNodes, ThreeNodes, LastFactors;
    EqualIsProduct(g, b, z);
    FirstGathered(g, frozen, b, z);
    ThreeGathered(g, frozen, b + 10, z, multiset{b + 2, b + 1} + multiset{b + 5} + multiset{b + 8});
  }

  lemma FirstGathered(g: Graph, frozen: set<NodeId>, b: NodeId, z: NodeId)
    requires Ordered(g) && |g.op| == b + 19 && EqualNodes(g, b, z) && z < b
    requires b + 3 in frozen && b + 6 in frozen
    ensures Gathers(g, frozen, b + 9, multiset{b + 2, b + 1} + multiset{b + 5} + multiset{b + 8})
  {
    FirstUsers(g, b, z);
    assert IsLink(g, b + 3, b + 2, b + 1) && IsLink(g, b + 6, b + 3, b + 5) && IsLink(g, b + 9, b + 6, b + 8);
    assert IsFactor(g, b + 1) && IsFactor(g, b + 2) && IsFactor(g, b + 5) && IsFactor(g, b + 8);
    hide OnlyUser, Ordered, Gathers, EqualNodes, FirstNodes;
    GatherTwo(g, frozen, b + 3, b + 2, b + 1);
    GatherMore(g, frozen, b + 3, multiset{b + 2, b + 1}, b + 6, b + 5);
    GatherMore(g, frozen, b + 6, multiset{b + 2, b + 1} + multiset{b + 5}, b + 9, b + 8);
  }

  lemma FirstUsers(g: Graph, b: NodeId, z: NodeId)
    requires Ordered(g) && |g.op| == b + 19 && EqualNodes(g, b, z) && z < b
    ensures OnlyUser(g, b + 3, b + 6) && OnlyUser(g, b + 6, b + 9)
  {
    forall v: NodeId | v < |g.operands| && b + 3 in g.operands[v]
      ensures v == b + 6
    {
      FirstUse(g, b, z, v, b + 3);
    }
    forall v: NodeId | v < |g.operands| && b + 6 in g.operands[v]
      ensures v == b + 9
    {
      FirstUse(g, b, z, v, b + 6);
    }
  }

  lemma FirstUse(g: Graph, b: NodeId, z: NodeId, v: NodeId, n: NodeId)
    requires Ordered(g) && |g.op| == b + 19 && EqualNodes(g, b, z) && z < b
    requires v < |g.operands| && n in g.operands[v] && (n == b + 3 || n == b + 6)
    ensures v == n + 3
  {
    assert n < v;
    if v < b + 10 {
      EarlyUse(g, b, z, v, n);
    } else {
      LateUse(g, b + 10, b + 9, z, v, n);
    }
  }

  lemma EarlyUse(g: Graph, b: NodeId, z: NodeId, v: NodeId, n: NodeId)
    requires FirstNodes(g, b, z) && z < b && v < b + 10 && n < v
    requires n in g.operands[v] && (n == b + 3 || n == b + 6)
    ensures v == n + 3
  {
    if
    case v == b + 4 =>
    case v == b + 5 =>
    case v == b + 6 =>
    case v == b + 7 =>
    case v == b + 8 =>
    case v == b + 9 =>
  }

  /** The last three factors use nothing else from before. */
  lemma LateUse(g: Graph, b: NodeId, a: NodeId, z: NodeId, v: NodeId, n: NodeId)
    requires ThreeNodes(g, b, a, z) && b <= v < b + 9 && n in g.operands[v]
    ensures n == a || n == z || n >= b
  {
    if
    case v == b =>
    case v == b + 1 =>
    case v == b + 2 =>
    case v == b + 3 =>
    case v == b + 4 =>
    case v == b + 5 =>
    case v == b + 6 =>
    case v == b + 7 =>
    case v == b + 8 =>
  }

  // ----- scales -----

  /** What a node of two operands that is left adds up to. */
  lemma PairKeys(r: Graph, stored: map<NodeId, nat>, keys: Keys, n: NodeId, a: NodeId, b: NodeId)
    requires KeysOf(r, stored, keys) && Live(r, n) && n < |r.op| && r.operands[n] == [a, b]
    requires r.op[n].Add? || r.op[n].Sub? || r.op[n].Mul?
    ensures n < |keys.scale| == |keys.encrypted| && a < |keys.scale| && b < |keys.scale|
    ensures keys.encrypted[n] <==> keys.encrypted[a] || keys.encrypted[b]
    ensures keys.scale[n] == if r.op[n].Mul? then keys.scale[a] + keys.scale[b]
      else if keys.scale[a] > keys.scale[b] then keys.scale[a] else keys.scale[b]
  {
    OperandsAre(r, n);
    assert Live(r, r.operands[n][0]) && Live(r, r.operands[n][1]);
    assert Args(r, keys.scale, n) == [keys.scale[a], keys.scale[b]];
    assert Args(r, keys.encrypted, n) == [keys.encrypted[a], keys.encrypted[b]];
    assert keys.scale[n] == ScaleSem(stored)(n, r.op[n], Args(r, keys.scale, n));
    assert keys.encrypted[n] == CipherSem()(n, r.op[n], Args(r, keys.encrypted, n));
    TotalOfTwo(keys.scale[a], keys.scale[b]);
    assert [keys.scale[a], keys.scale[b]][0] == keys.scale[a] && [keys.scale[a], keys.scale[b]][1] == keys.scale[b];
    assert true in [keys.encrypted[a], keys.encrypted[b]] <==> keys.encrypted[a] || keys.encrypted[b];
  }

  lemma TotalOfTwo(x: nat, y: nat)
    ensures TotalOf([x, y]) == x + y
  {
    assert [x, y][..1] == [x] && [x][..0] == [];
    assert TotalOf([x]) == TotalOf([]) + x;
  }

  /** A constant that is left. */
  lemma ConstantKeys(r: Graph, stored: map<NodeId, nat>, s: nat, keys: Keys, n: NodeId)
    requires KeysOf(r, stored, keys) && StoredAt(r, stored, s) && SourceArity(r) && Live(r, n) && n < |r.op|
    requires r.op[n].Constant?
    ensures n < |keys.scale| == |keys.encrypted| && keys.scale[n] == s && !keys.encrypted[n]
  {
    assert keys.scale[n] == ScaleSem(stored)(n, r.op[n], Args(r, keys.scale, n));
    assert keys.encrypted[n] == CipherSem()(n, r.op[n], Args(r, keys.encrypted, n));
    assert n in r.sources;
  }

  /** Every scale is at least that of the sources. */
  lemma {:induction false} ScaleAtLeast(r: Graph, rank: seq<nat>, stored: map<NodeId, nat>, s: nat, keys: Keys,
                                        n: NodeId)
    requires KeysOf(r, stored, keys) && StoredAt(r, stored, s) && SourceArity(r) && Ranked(r, rank) && Live(r, n)
    ensures n < |keys.scale| && keys.scale[n] >= s
    decreases rank[n]
  {
    assert keys.scale[n] == ScaleSem(stored)(n, r.op[n], Args(r, keys.scale, n));
    if r.operands[n] != [] {
      OperandsAre(r, n);
      var args := Args(r, keys.scale, n);
      ScaleAtLeast(r, rank, stored, s, keys, r.operands[n][0]);
      assert args[0] >= s && args[0] <= MaxOf(args);
      TotalAtLeast(args);
    }
  }

  lemma {:induction false} TotalAtLeast(xs: seq<nat>)
    requires xs != []
    ensures TotalOf(xs) >= xs[0]
  {
    if |xs| > 1 {
      TotalAtLeast(xs[..|xs| - 1]);
    }
  }

  /** A node of two operands that is left still has them. */
  lemma LeftKeys(g: Graph, frozen: set<NodeId>, r: Graph, w: seq<multiset<NodeId>>, keys: Keys,
                 stored: map<NodeId, nat>, n: NodeId, op: Op, a: NodeId, b: NodeId)
    requires Cleaning(g, frozen, r, w, keys) && KeysOf(r, stored, keys) && Live(r, n) && NodeIs(g, n, op, [a, b])
    requires op.Add? || op.Sub? || op.Mul?
    ensures Live(r, a) && Live(r, b) && n < |keys.scale| == |keys.encrypted| && a < |keys.scale| && b < |keys.scale|
    ensures keys.encrypted[n] <==> keys.encrypted[a] || keys.encrypted[b]
    ensures keys.scale[n] == if op.Mul? then keys.scale[a] + keys.scale[b]
      else if keys.scale[a] > keys.scale[b] then keys.scale[a] else keys.scale[b]
  {
    CleaningFacts(g, frozen, r, w, keys);
    assert r.op[n] == op && r.operands[n] == [a, b];
    OperandsAre(r, n);
    assert Live(r, r.operands[n][0]) && Live(r, r.operands[n][1]);
    PairKeys(r, stored, keys, n, a, b);
  }

  lemma LeftConstant(g: Graph, frozen: set<NodeId>, r: Graph, w: seq<multiset<NodeId>>, keys: Keys,
                     stored: map<NodeId, nat>, s: nat, n: NodeId)
    requires Cleaning(g, frozen, r, w, keys) && KeysOf(r, stored, keys) && StoredAt(r, stored, s) && Live(r, n)
    requires n < |g.op| && g.op[n].Constant?
    ensures n < |keys.scale| == |keys.encrypted| && keys.scale[n] == s && !keys.encrypted[n]
  {
    CleaningFacts(g, frozen, r, w, keys);
    assert r.op[n] == g.op[n];
    ConstantKeys(r, stored, s, keys, n);
  }

  lemma LeftScale(g: Graph, frozen: set<NodeId>, r: Graph, w: seq<multiset<NodeId>>, keys: Keys,
                  stored: map<NodeId, nat>, s: nat, n: NodeId)
    requires Cleaning(g, frozen, r, w, keys) && KeysOf(r, stored, keys) && StoredAt(r, stored, s) && Live(r, n)
    ensures n < |keys.scale| && keys.scale[n] >= s
  {
    CleaningFacts(g, frozen, r, w, keys);
    var rank :| Ranked(r, rank);
    ScaleAtLeast(r, rank, stored, s, keys, n);
  }

  /** The sum is encrypted if z is, and has a scale beyond those of z and of the constants. */
  lemma SumKeys(g: Graph, frozen: set<NodeId>, r: Graph, w: seq<multiset<NodeId>>, keys: Keys,
                stored: map<NodeId, nat>, s: nat, b: NodeId, z: NodeId)
    requires Cleaning(g, frozen, r, w, keys) && KeysOf(r, stored, keys) && StoredAt(r, stored, s) && s > 0
    requires SumNodes(g, b, z) && Live(r, b + 7)
    ensures Live(r, z) && b + 7 < |keys.scale| == |keys.encrypted| && z < |keys.scale|
    ensures keys.encrypted[b + 7] <==> keys.encrypted[z]
    ensures keys.scale[b + 7] > keys.scale[z] && keys.scale[b + 7] > s
  {
    hide Cleaning, KeysOf, StoredAt, Live;
    LeftKeys(g, frozen, r, w, keys, stored, b + 7, Add, b + 5, b + 6);
    LeftConstant(g, frozen, r, w, keys, stored, s, b + 6);
    LeftKeys(g, frozen, r, w, keys, stored, b + 5, Add, b + 2, b + 4);
    LeftKeys(g, frozen, r, w, keys, stored, b + 4, Mul, b + 3, z);
    LeftConstant(g, frozen, r, w, keys, stored, s, b + 3);
    LeftKeys(g, frozen, r, w, keys, stored, b + 2, Mul, b + 1, z);
    LeftKeys(g, frozen, r, w, keys, stored, b + 1, Mul, b, z);
    LeftConstant(g, frozen, r, w, keys, stored, s, b);
    LeftScale(g, frozen, r, w, keys, stored, s, z);
  }

  /** A difference z - x comes before the sum. */
  lemma DifferenceBefore(g: Graph, frozen: set<NodeId>, r: Graph, w: seq<multiset<NodeId>>, keys: Keys,
                         stored: map<NodeId, nat>, s: nat, z: NodeId, n: NodeId, x: real, c: NodeId, t: NodeId)
    requires Cleaning(g, frozen, r, w, keys) && KeysOf(r, stored, keys) && StoredAt(r, stored, s)
    requires NodeIs(g, n, Sub, [z, c]) && NodeIs(g, c, C(x), []) && Live(r, n) && z < |keys.scale|
    requires t < |keys.scale| == |keys.encrypted| && keys.encrypted[t]
    requires keys.scale[t] > keys.scale[z] && keys.scale[t] > s
    ensures Before(keys, n, t)
  {
    LeftKeys(g, frozen, r, w, keys, stored, n, Sub, z, c);
    LeftConstant(g, frozen, r, w, keys, stored, s, c);
  }

  /** If the product is encrypted then so is the sum. */
  lemma ProductKeys(g: Graph, frozen: set<NodeId>, r: Graph, w: seq<multiset<NodeId>>, keys: Keys,
                    stored: map<NodeId, nat>, s: nat, b: NodeId, z: NodeId)
    requires Cleaning(g, frozen, r, w, keys) && KeysOf(r, stored, keys) && StoredAt(r, stored, s) && s > 0
    requires LessNodes(g, b, z) && Live(r, b + 17)
    ensures Live(r, b + 10) && Live(r, b + 13) && Live(r, b + 16)
    ensures b + 17 < |keys.scale| == |keys.encrypted| && z < |keys.scale|
    ensures keys.encrypted[b + 17] ==> keys.encrypted[b + 7]
    ensures keys.scale[b + 7] > keys.scale[z] && keys.scale[b + 7] > s
  {
    hide Cleaning, KeysOf, StoredAt, Live, SumNodes;
    LeftKeys(g, frozen, r, w, keys, stored, b + 17, Mul, b + 14, b + 16);
    LeftKeys(g, frozen, r, w, keys, stored, b + 14, Mul, b + 11, b + 13);
    LeftKeys(g, frozen, r, w, keys, stored, b + 11, Mul, b + 8, b + 10);
    LeftKeys(g, frozen, r, w, keys, stored, b + 8, Mul, b + 7, z);
    SumKeys(g, frozen, r, w, keys, stored, s, b, z);
    LeftKeys(g, frozen, r, w, keys, stored, b + 16, Sub, z, b + 15);
    LeftConstant(g, frozen, r, w, keys, stored, s, b + 15);
    LeftKeys(g, frozen, r, w, keys, stored, b + 13, Sub, z, b + 12);
    LeftConstant(g, frozen, r, w, keys, stored, s, b + 12);
    LeftKeys(g, frozen, r, w, keys, stored, b + 10, Sub, z, b + 9);
    LeftConstant(g, frozen, r, w, keys, stored, s, b + 9);
  }

  // ----- less -----

  function LessFactors(b: NodeId, z: NodeId): multiset<NodeId>
  {
    multiset{b + 7, z} + LastFactors(b + 9)
  }

  lemma LessGathered(g: Graph, frozen: set<NodeId>, b: NodeId, z: NodeId)
    requires Ordered(g) && |g.op| == b + 18 && LessNodes(g, b, z) && z < b && IsFactor(g, z)
    requires b + 8 in frozen && b + 11 in frozen && b + 14 in frozen
    ensures Gathers(g, frozen, b + 17, LessFactors(b, z))
  {
    hide Gathers, Ordered, LessNodes, ThreeNodes;
    LessIsProduct(g, b, z);
    GatherTwo(g, frozen, b + 8, b + 7, z);
    ThreeGathered(g, frozen, b + 9, z, multiset{b + 7, z});
  }

  predicate LessAt(b: NodeId, z: NodeId, labels: Labelling)
  {
    b + 17 < |labels| && z < b && labels[b + 7].depth <= labels[z].depth + 2 && ThreeAt(b + 9, labels, labels[z].depth)
  }

  /** Five factors, of which the deepest has the largest scale and so is next to the root. */
  lemma LessLabelled(g: Graph, frozen: set<NodeId>, labels: Labelling, b: NodeId, z: NodeId)
    requires Ordered(g) && |g.op| == b + 18 && LessNodes(g, b, z) && IsFactor(g, z)
    requires |labels| == |g.op| && LessAt(b, z, labels) && labels[b + 17] == Label(labels[z].depth + 3, 5)
    requires b + 8 in frozen && b + 11 in frozen && b + 14 in frozen
    ensures Labelled(g, frozen, labels, b + 17)
  {
    hide Gathers, Ordered, Cleaning, LessNodes, Live, NodeOk, HeightFits, TwoTo, LessFactors, ThreeNodes;
    LessIsProduct(g, b, z);
    LessGathered(g, frozen, b, z);
    LessFactorsAre(b, z, labels, labels[z].depth + 2);
    forall r: Graph, w: seq<multiset<NodeId>>, keys: Keys | Cleaning(g, frozen, r, w, keys) && Live(r, b + 17)
      ensures NodeOk(r, w, keys, labels, b + 17)
    {
      if b + 17 < |keys.encrypted| && keys.encrypted[b + 17] {
        LessFits(g, frozen, r, w, keys, b, z, labels);
      }
      GatheredOk(g, frozen, labels, r, w, keys, b + 17, LessFactors(b, z), 3);
    }
  }

  lemma LessIsProduct(g: Graph, b: NodeId, z: NodeId)
    requires LessNodes(g, b, z)
    ensures b + 17 < |g.op| && g.op[b + 17].Mul? && g.op[b + 8].Mul?
    ensures IsLink(g, b + 8, b + 7, z) && IsFactor(g, b + 7) && ThreeNodes(g, b + 9, b + 8, z)
  {
  }

  lemma LessFactorsAre(b: NodeId, z: NodeId, labels: Labelling, d: nat)
    requires LessAt(b, z, labels) && labels[z].depth + 2 <= d
    ensures |LessFactors(b, z)| == 5 && LessFactors(b, z)[b + 7] == 1
    ensures forall o: NodeId :: o in LessFactors(b, z) ==> o < |labels| && labels[o].depth <= d
    ensures forall o: NodeId :: o in LessFactors(b, z) && o != b + 7 ==>
      (o == z || o == b + 10 || o == b + 13 || o == b + 16) && labels[o].depth <= labels[z].depth
  {
  }

  lemma LessFits(g: Graph, frozen: set<NodeId>, r: Graph, w: seq<multiset<NodeId>>, keys: Keys, b: NodeId, z: NodeId,
                 labels: Labelling)
    requires Cleaning(g, frozen, r, w, keys) && LessNodes(g, b, z) && LessAt(b, z, labels) && Live(r, b + 17)
    requires b + 17 < |keys.encrypted| && keys.encrypted[b + 17] && labels[b + 17].depth == labels[z].depth + 3
    ensures HeightFits(LessFactors(b, z), keys, BoundOf(labels), labels[b + 17].depth, 3)
  {
    hide Cleaning, Live, LessNodes, LessFactors, Before, HeightFits;
    LessBefore(g, frozen, r, w, keys, b, z);
    LessFactorsAre(b, z, labels, labels[z].depth + 2);
    LastOfFive(LessFactors(b, z), keys, labels, b + 7, labels[z].depth);
  }

  lemma LastOfFive(factors: multiset<NodeId>, keys: Keys, labels: Labelling, t: NodeId, d: nat)
    requires |factors| == 5 && factors[t] == 1 && t < |labels| && labels[t].depth <= d + 2
    requires forall o: NodeId :: o in factors && o != t ==> o < |labels| && labels[o].depth <= d && Before(keys, o, t)
    ensures HeightFits(factors, keys, BoundOf(labels), d + 3, 3)
  {
    hide Before;
    SmallPowers();
    assert LastFits(factors, keys, BoundOf(labels), d + 3, 3, t);
  }

  lemma LessDifferences(g: Graph, b: NodeId, z: NodeId)
    requires LessNodes(g, b, z)
    ensures NodeIs(g, b + 9, C(1.0), []) && NodeIs(g, b + 10, Sub, [z, b + 9])
    ensures NodeIs(g, b + 12, C(2.0), []) && NodeIs(g, b + 13, Sub, [z, b + 12])
    ensures NodeIs(g, b + 15, C(3.0), []) && NodeIs(g, b + 16, Sub, [z, b + 15])
  {
    hide SumNodes;
  }

  lemma SumBefore(keys: Keys, z: NodeId, t: NodeId)
    requires z < |keys.scale| == |keys.encrypted| && t < |keys.scale|
    requires keys.encrypted[t] && keys.scale[t] > keys.scale[z]
    ensures Before(keys, z, t)
  {
  }

  /** All factors but the sum come before it. */
  lemma LessBefore(g: Graph, frozen: set<NodeId>, r: Graph, w: seq<multiset<NodeId>>, keys: Keys, b: NodeId, z: NodeId)
    requires Cleaning(g, frozen, r, w, keys) && LessNodes(g, b, z) && Live(r, b + 17)
    requires b + 17 < |keys.encrypted| && keys.encrypted[b + 17]
    ensures Before(keys, z, b + 7) && Before(keys, b + 10, b + 7) && Before(keys, b + 13, b + 7)
      && Before(keys, b + 16, b + 7)
  {
    var stored, s :| s > 0 && KeysOf(r, stored, keys) && StoredAt(r, stored, s);
    hide Cleaning, Live, KeysOf, StoredAt, LessNodes, NodeIs, Before;
    LessDifferences(g, b, z);
    ProductKeys(g, frozen, r, w, keys, stored, s, b, z);
    SumBefore(keys, z, b + 7);
    DifferenceBefore(g, frozen, r, w, keys, stored, s, z, b + 10, 1.0, b + 9, b + 7);
    DifferenceBefore(g, frozen, r, w, keys, stored, s, z, b + 13, 2.0, b + 12, b + 7);
    DifferenceBefore(g, frozen, r, w, keys, stored, s, z, b + 16, 3.0, b + 15, b + 7);
  }
}
