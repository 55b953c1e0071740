/** Which library runs a program, iyfc/decision/alo_decision.cpp and iyfc/daghandler/mult_depth_cnt.cpp,
    and the polynomial degree for a number of modulus bits, iyfc/seal/alo/seal_ckks_handler.cpp:89-109. */
module Decision {
  import opened Graphs
  import opened Dags
  import opened Traversals
  import opened Semantics
  import opened Types
  import opened Chains
  import opened Uniform
  import opened ConstantFolding

  const MAX_SEAL_BITS: nat := 881
  const DEFAULT_Q_CNT: nat := 3
  const TWO_TO_THE_32: nat := 0x1_0000_0000

  // ----- multiplication depth -----

  type Counts = map<NodeId, nat>

  function CountAt(cnt: Counts, n: NodeId): nat
  {
    if n in cnt then cnt[n] else 0
  }

  function MaxCount(operands: seq<NodeId>, cnt: Counts, so: nat): nat
    decreases |operands|
  {
    if operands == [] then so
    else MaxCount(operands[1..], cnt, if CountAt(cnt, operands[0]) > so then CountAt(cnt, operands[0]) else so)
  }

  /** What MultDepthCnt writes at a node. */
  function CountedAt(g: Graph, types: TypeMap, cnt: Counts, n: NodeId): nat
    requires n < |g.operands| && n < |g.op|
  {
    MaxCount(g.operands[n], cnt, 0) + if g.op[n].Mul? && HasCipherOperand(g, types, n) then 1 else 0
  }

  ghost predicate CountedUpTo(g: Graph, types: TypeMap, cnt: Counts, order: seq<NodeId>, k: nat)
    requires k <= |order|
  {
    && (forall j: nat :: j < k ==>
          order[j] < |g.operands| && order[j] < |g.op| && CountAt(cnt, order[j]) == CountedAt(g, types, cnt, order[j]))
    && (forall n: NodeId :: n in cnt ==> n in order[..k])
  }

  lemma {:induction false} MaxCountFrame(operands: seq<NodeId>, cnt: Counts, cnt': Counts, so: nat)
    requires forall i: nat :: i < |operands| ==> CountAt(cnt, operands[i]) == CountAt(cnt', operands[i])
    ensures MaxCount(operands, cnt, so) == MaxCount(operands, cnt', so)
    decreases |operands|
  {
    if operands != [] {
      MaxCountFrame(operands[1..], cnt, cnt', if CountAt(cnt, operands[0]) > so then CountAt(cnt, operands[0]) else so);
    }
  }

  lemma CountFrame(g: Graph, types: TypeMap, cnt: Counts, order: seq<NodeId>, k: nat, c: nat, j: nat)
    requires WellFormed(g) && j <= k < |order| && TopologicalOrder(g.operands, LiveNodes(g), order)
    ensures order[j] < |g.operands| && order[j] < |g.op|
    ensures CountedAt(g, types, cnt[order[k] := c], order[j]) == CountedAt(g, types, cnt, order[j])
  {
    var cnt' := cnt[order[k] := c];
    forall i: nat | i < |g.operands[order[j]]|
      ensures g.operands[order[j]][i] != order[k]
    {
      assert g.operands[order[j]][i] in Elems(order[..j]);
      var m :| 0 <= m < j && order[..j][m] == g.operands[order[j]][i];
      assert order[m] != order[k];
    }
    MaxCountFrame(g.operands[order[j]], cnt, cnt', 0);
  }

  lemma CountStep(g: Graph, types: TypeMap, cnt: Counts, order: seq<NodeId>, k: nat, c: nat)
    requires WellFormed(g) && k < |order| && TopologicalOrder(g.operands, LiveNodes(g), order)
    requires order[k] < |g.operands| && order[k] < |g.op| && c == CountedAt(g, types, cnt, order[k])
    requires CountedUpTo(g, types, cnt, order, k)
    ensures CountedUpTo(g, types, cnt[order[k] := c], order, k + 1)
  {
    var cnt' := cnt[order[k] := c];
    assert order[..k+1] == order[..k] + [order[k]];
    assert NoDuplicates(order);
    hide TopologicalOrder, WellFormed, CountedAt;
    forall j: nat | j <= k
      ensures order[j] < |g.operands| && order[j] < |g.op|
        && CountAt(cnt', order[j]) == CountedAt(g, types, cnt', order[j])
    {
      CountFrame(g, types, cnt, order, k, c, j);
      assert j < k ==> order[j] != order[k];
    }
  }

  class MultDepthCnt {
    var cnt: Counts
    const types: TypeMap

    constructor (types0: TypeMap)
      ensures cnt == map[] && types == types0
    {
      cnt, types := map[], types0;
    }

    /** operator() */
    method Visit(d: Dag, node: NodeId)
      requires d.Valid() && node < |d.operands| && CountAt(cnt, node) == 0
      modifies this`cnt
      ensures cnt == old(cnt)[node := CountedAt(d.G(), types, old(cnt), node)]
        || (cnt == old(cnt) && d.operands[node] == [])
    {
      var operands := d.operands[node];
      if |operands| > 0 {
        var count: nat, isCipher := 0, false;
        for i := 0 to |operands|
          invariant MaxCount(operands, cnt, 0) == MaxCount(operands[i..], cnt, count)
          invariant isCipher <==> exists j: nat :: j < i && TypeAt(types, operands[j]) == Cipher
        {
          if CountAt(cnt, operands[i]) > count {
            count := CountAt(cnt, operands[i]);
          }
          if TypeAt(types, operands[i]) == Cipher {
            isCipher := true;
          }
        }
        if d.op[node].Mul? && isCipher {
          count := count + 1;
        }
        cnt := cnt[node := count];
      }
    }
  }

  lemma VisitCounts(g: Graph, types: TypeMap, cnt: Counts, cnt': Counts, order: seq<NodeId>, k: nat)
    requires WellFormed(g) && k < |order| && TopologicalOrder(g.operands, LiveNodes(g), order)
      && CountedUpTo(g, types, cnt, order, k)
    requires order[k] < |g.operands| && order[k] < |g.op| && order[k] !in cnt
    requires cnt' == cnt[order[k] := CountedAt(g, types, cnt, order[k])] || (cnt' == cnt && g.operands[order[k]] == [])
    ensures CountedUpTo(g, types, cnt', order, k + 1)
  {
    if cnt' == cnt {
      assert order[..k+1] == order[..k] + [order[k]];
    } else {
      CountStep(g, types, cnt, order, k, CountedAt(g, types, cnt, order[k]));
    }
  }

  lemma NotCountedYet(g: Graph, types: TypeMap, cnt: Counts, order: seq<NodeId>, k: nat)
    requires WellFormed(g) && TopologicalOrder(g.operands, LiveNodes(g), order) && k < |order|
      && CountedUpTo(g, types, cnt, order, k)
    ensures order[k] !in cnt && order[k] < |g.operands| && order[k] < |g.op|
  {
    assert order[k] in Elems(order);
    assert NoDuplicates(order);
  }

  /** outputs lists the outputs of the graph, as m_outputs does. */
  ghost predicate OutputsOf(g: Graph, outputs: seq<NodeId>)
  {
    && (forall i: nat :: i < |outputs| ==> Live(g, outputs[i]) && outputs[i] < |g.op| && g.op[outputs[i]].Output?)
    && (forall o: NodeId :: Live(g, o) && o < |g.op| && g.op[o].Output? ==> o in outputs)
  }

  ghost predicate Counted(g: Graph, types: TypeMap, cnt: Counts)
  {
    && |g.op| == |g.operands|
    && forall n: NodeId :: Live(g, n) ==> CountAt(cnt, n) == CountedAt(g, types, cnt, n)
  }

  lemma CountEnd(g: Graph, types: TypeMap, cnt: Counts, order: seq<NodeId>)
    requires WellFormed(g) && TopologicalOrder(g.operands, LiveNodes(g), order)
      && CountedUpTo(g, types, cnt, order, |order|)
    ensures Counted(g, types, cnt)
  {
    forall n: NodeId | Live(g, n)
      ensures CountAt(cnt, n) == CountedAt(g, types, cnt, n)
    {
      assert n in Elems(order);
      var j :| 0 <= j < |order| && order[j] == n;
    }
  }

  /** The forward pass of MultDepthCnt, then getMultDepth. */
  method MultDepth(d: Dag, types: TypeMap, outputs: seq<NodeId>) returns (depth: nat)
    requires d.Valid() && Acyclic(d.G()) && Typed(d.G(), types) && SourceArity(d.G()) && OutputsOf(d.G(), outputs)
    ensures LargestDepth(d.G(), depth)
  {
    hide CountedUpTo, Counted, TopologicalOrder, LiveNodes, CountedAt, UsesInverse, SinksMatch, Erased, OutputsOf,
         LargestDepth;
    var order := ForwardOrder(d);
    var c := new MultDepthCnt(types);
    CountStart(d.G(), types, order);
    for k := 0 to |order|
      invariant c.types == types && CountedUpTo(d.G(), types, c.cnt, order, k)
    {
      ghost var before := c.cnt;
      NotCountedYet(d.G(), types, c.cnt, order, k);
      c.Visit(d, order[k]);
      VisitCounts(d.G(), types, before, c.cnt, order, k);
    }
    CountEnd(d.G(), types, c.cnt, order);
    depth := 0;
    for i := 0 to |outputs|
      invariant forall j: nat :: j < i ==> CountAt(c.cnt, outputs[j]) <= depth
      invariant depth == 0 || exists j: nat :: j < i && CountAt(c.cnt, outputs[j]) == depth
    {
      if CountAt(c.cnt, outputs[i]) > depth {
        depth := CountAt(c.cnt, outputs[i]);
      }
    }
    CountsAreDepths(d.G(), types, c.cnt, outputs, depth);
  }

  lemma CountStart(g: Graph, types: TypeMap, order: seq<NodeId>)
    ensures CountedUpTo(g, types, map[], order, 0)
  {
  }

  /** The counter computes the multiplication depth. */
  lemma {:induction false} CountIsDepth(g: Graph, rank: seq<nat>, types: TypeMap, cnt: Counts, v: seq<Depth>, n: NodeId)
    requires WellFormed(g) && Ranked(g, rank) && Typed(g, types) && SourceArity(g) && Counted(g, types, cnt)
    requires Interprets<Depth>(g, DepthSem(), v) && Live(g, n)
    ensures n < |v| && v[n].cipher == (TypeAt(types, n) == Cipher) && v[n].count == CountAt(cnt, n)
    decreases rank[n]
  {
    hide WellFormed, Typed, SourceArity, Interprets, Counted, DepthOf, Live;
    DepthNode(g, v, n);
    var args := Args<Depth>(g, v, n);
    forall i: nat | i < |args|
      ensures args[i].cipher == (TypeAt(types, g.operands[n][i]) == Cipher)
        && args[i].count == CountAt(cnt, g.operands[n][i])
    {
      CountIsDepth(g, rank, types, cnt, v, g.operands[n][i]);
    }
    NodeCount(g, types, cnt, v, n, args);
  }

  lemma DepthNode(g: Graph, v: seq<Depth>, n: NodeId)
    requires Interprets<Depth>(g, DepthSem(), v) && Live(g, n)
    ensures n < |v| == |g.operands| == |g.op| && forall i: nat :: i < |g.operands[n]| ==>
      Live(g, g.operands[n][i]) && g.operands[n][i] < |v|
    ensures v[n] == DepthOf(g.op[n], Args<Depth>(g, v, n))
  {
  }

  lemma NodeCount(g: Graph, types: TypeMap, cnt: Counts, v: seq<Depth>, n: NodeId, args: seq<Depth>)
    requires Typed(g, types) && SourceArity(g) && Counted(g, types, cnt) && Live(g, n) && n < |v|
      && |args| == |g.operands[n]|
    requires v[n] == DepthOf(g.op[n], args)
    requires forall i: nat :: i < |args| ==>
      args[i].cipher == (TypeAt(types, g.operands[n][i]) == Cipher) && args[i].count == CountAt(cnt, g.operands[n][i])
    ensures v[n].cipher == (TypeAt(types, n) == Cipher) && v[n].count == CountAt(cnt, n)
  {
    assert TypeAt(types, n) == Inferred(g, types, n);
    SameFlags(g, types, n, args);
    MaxCountIs(g.operands[n], cnt, 0, Chains.Counts(args));
  }

  lemma SameFlags(g: Graph, types: TypeMap, n: NodeId, args: seq<Depth>)
    requires n < |g.operands| && |args| == |g.operands[n]|
    requires forall i: nat :: i < |args| ==> args[i].cipher == (TypeAt(types, g.operands[n][i]) == Cipher)
    ensures true in Flagged(args) <==> HasCipherOperand(g, types, n)
  {
    if HasCipherOperand(g, types, n) {
      var i: nat :| i < |g.operands[n]| && TypeAt(types, g.operands[n][i]) == Cipher;
      assert Flagged(args)[i];
    }
  }

  lemma {:induction false} MaxCountIs(operands: seq<NodeId>, cnt: Counts, so: nat, counts: seq<nat>)
    requires |counts| == |operands| && forall i: nat :: i < |counts| ==> counts[i] == CountAt(cnt, operands[i])
    ensures MaxCount(operands, cnt, so) == if MaxOf(counts) > so then MaxOf(counts) else so
    decreases |operands|
  {
    if operands != [] {
      MaxCountIs(operands[1..], cnt, if CountAt(cnt, operands[0]) > so then CountAt(cnt, operands[0])
        else so, counts[1..]);
    }
  }

  lemma CountsAreDepths(g: Graph, types: TypeMap, cnt: Counts, outputs: seq<NodeId>, depth: nat)
    requires WellFormed(g) && Acyclic(g) && Typed(g, types) && SourceArity(g) && Counted(g, types, cnt)
      && OutputsOf(g, outputs)
    requires forall j: nat :: j < |outputs| ==> CountAt(cnt, outputs[j]) <= depth
    requires depth == 0 || exists j: nat :: j < |outputs| && CountAt(cnt, outputs[j]) == depth
    ensures LargestDepth(g, depth)
  {
    var rank :| Ranked(g, rank);
    hide Typed, SourceArity, Counted, Interprets;
    forall v: seq<Depth> | Interprets<Depth>(g, DepthSem(), v)
      ensures |v| == |g.operands| && DepthsReach(g, v, depth)
    {
      Interpreted(g, v);
      forall o: NodeId | Live(g, o) && o < |g.op| && g.op[o].Output?
        ensures v[o].count == CountAt(cnt, o) <= depth
      {
        CountIsDepth(g, rank, types, cnt, v, o);
      }
      if depth != 0 {
        var j: nat :| j < |outputs| && CountAt(cnt, outputs[j]) == depth;
        CountIsDepth(g, rank, types, cnt, v, outputs[j]);
      }
    }
  }

  lemma Interpreted(g: Graph, v: seq<Depth>)
    requires Interprets<Depth>(g, DepthSem(), v)
    ensures |v| == |g.operands|
  {
  }

  // ----- the library -----

  datatype Library = SealCkks | OpenFheCkks

  /** The deepest program SEAL is used for, in 32-bit unsigned arithmetic. */
  function MaxDepthForSeal(scale: nat): nat
    requires scale > 0
  {
    (MAX_SEAL_BITS / scale - DEFAULT_Q_CNT) % TWO_TO_THE_32
  }

  /** setAloName, for programs on doubles; depth is an unsigned 32-bit number. */
  function ChooseLibrary(depth: nat, scale: nat): (library: Library)
    requires scale > 0
    ensures scale <= 293 ==> (library.SealCkks? <==> (depth + 3) * scale <= MAX_SEAL_BITS)
    ensures scale > 293 && depth < TWO_TO_THE_32 - 3 ==> library.SealCkks?
  {
    DivisionBound(depth + 3, scale);
    if depth > MaxDepthForSeal(scale) then OpenFheCkks else SealCkks
  }

  lemma DivisionBound(k: nat, s: nat)
    requires s > 0
    ensures k <= MAX_SEAL_BITS / s <==> k * s <= MAX_SEAL_BITS
    ensures s <= 293 <==> MAX_SEAL_BITS / s >= 3
    ensures MAX_SEAL_BITS / s - 3 >= -3
  {
    var q, r := MAX_SEAL_BITS / s, MAX_SEAL_BITS % s;
    assert MAX_SEAL_BITS == s * q + r;
    assert k * s == s * k;
    MultipleOrder(s, k, q);
    MultipleOrder(s, 3, q);
    if k > q {
      MultipleOrder(s, q + 1, k);
      assert s * (q + 1) == s * q + s;
    }
    if 3 > q {
      MultipleOrder(s, q + 1, 3);
      assert s * (q + 1) == s * q + s;
    }
  }

  lemma MultipleOrder(m: nat, a: nat, b: nat)
    requires m > 0
    ensures a <= b ==> m * a <= m * b
  {
    if a <= b {
      assert m * b == m * a + m * (b - a);
    }
  }

  /** Choosing SEAL guarantees that d + 3 primes of scale bits fit exactly for the scales up to 293;
      beyond, the subtraction wraps around and every program is kept on SEAL although none fits. */
  lemma SealMeansItFits(scale: nat)
    requires 0 < scale < TWO_TO_THE_32
    ensures (forall depth: nat :: depth < TWO_TO_THE_32 - 3 && ChooseLibrary(depth, scale).SealCkks? ==>
               (depth + 3) * scale <= MAX_SEAL_BITS) <==> scale <= 293
  {
    if scale > 293 {
      assert ChooseLibrary(0, scale).SealCkks?;
      assert (0 + 3) * scale > MAX_SEAL_BITS;
    }
  }

  // ----- the polynomial degree -----

  function PowerOfTwo(k: nat): (p: nat)
    ensures p > 0
  {
    if k == 0 then 1 else 2 * PowerOfTwo(k - 1)
  }

  function Degree(k: nat): nat
  {
    1024 * PowerOfTwo(k)
  }

  datatype Found = Found(degree: nat) | NotFound

  /** The table has entries up to the k-th degree, none of them with enough bits. */
  ghost predicate TooFewBefore(table: nat -> nat, bits: nat, k: nat)
  {
    forall j: nat :: j < k ==> 0 < table(Degree(j)) < bits
  }

  /** The k-th degree has enough bits, and no smaller one has. */
  ghost predicate IsLeastDegree(table: nat -> nat, bits: nat, k: nat)
  {
    table(Degree(k)) > 0 && table(Degree(k)) >= bits && TooFewBefore(table, bits, k)
  }

  /** The table ends before it has enough bits. */
  ghost predicate EndsTooEarly(table: nat -> nat, bits: nat)
  {
    exists k: nat :: table(Degree(k)) == 0 && TooFewBefore(table, bits, k)
  }

  /** getMinDegreeForBitCount; table is one of SEAL's, of which only finitely many entries are not zero. */
  method MinDegreeForBitCount(table: nat -> nat, bits: nat, ghost end: nat) returns (found: Found)
    requires table(Degree(end)) == 0
    ensures found.NotFound? ==> EndsTooEarly(table, bits)
    ensures found.Found? ==> exists k: nat :: IsLeastDegree(table, bits, k) && found.degree == Degree(k)
  {
    var degree := 1024;
    ghost var k: nat := 0;
    while true
      invariant k <= end && degree == Degree(k) && TooFewBefore(table, bits, k)
      decreases end - k
    {
      var maxBits := table(degree);
      if maxBits == 0 {
        return NotFound;
      }
      if maxBits >= bits {
        assert IsLeastDegree(table, bits, k);
        return Found(degree);
      }
      assert k != end;
      degree, k := degree * 2, k + 1;
    }
  }

  /** The least number that is not below the degree asked for and has a slot for each entry of a vector. */
  ghost predicate LeastWithSlots(least: nat, vecSize: nat, degree: nat)
  {
    && degree >= least && degree / 2 >= vecSize && (least / 2 >= vecSize ==> degree == least)
    && forall d: nat :: d >= least && d / 2 >= vecSize ==> degree <= d
  }

  lemma RaisedIs(least: nat, vecSize: nat, degree: nat)
    requires LeastWithSlots(least, vecSize, degree)
    ensures degree == if least / 2 >= vecSize then least else 2 * vecSize
  {
    var d := 2 * vecSize;
    assert d / 2 >= vecSize;
  }

  /** The degree for a number of bits and a vector length: the least one with enough bits, raised when it
      has too few slots; there is none exactly when the table ends before it has the bits. */
  ghost predicate DegreeRight(table: nat -> nat, bits: nat, vecSize: nat, found: Found)
  {
    match found
    case NotFound => EndsTooEarly(table, bits)
    case Found(degree) => exists k: nat :: IsLeastDegree(table, bits, k) && LeastWithSlots(Degree(k), vecSize, degree)
  }

  /** SEAL's table: increasing, ending with its capacity. */
  ghost predicate TableWithCapacity(table: nat -> nat, last: nat, capacity: nat)
  {
    && (forall k: nat :: k <= last ==> table(Degree(k)) > 0)
    && (forall k: nat :: k > last ==> table(Degree(k)) == 0)
    && (forall j: nat, k: nat :: j < k <= last ==> table(Degree(j)) < table(Degree(k)))
    && table(Degree(last)) == capacity
  }

  /** A degree is found exactly up to the capacity. */
  lemma DegreeExists(table: nat -> nat, last: nat, capacity: nat, bits: nat, vecSize: nat, found: Found)
    requires TableWithCapacity(table, last, capacity) && DegreeRight(table, bits, vecSize, found)
    ensures found.Found? <==> bits <= capacity
  {
    if found.Found? {
      var k: nat :| IsLeastDegree(table, bits, k);
      assert k <= last && (k < last ==> table(Degree(k)) < table(Degree(last)));
    } else {
      var k: nat :| table(Degree(k)) == 0 && TooFewBefore(table, bits, k);
      assert k > last;
    }
  }

  /** For vectors whose length is a power of two, the degree found has the bits asked for exactly when the
      vector is no longer than the slots of the last degree in the table: where the degree is raised, the
      table is not looked up again. */
  lemma RaisedDegree(table: nat -> nat, last: nat, capacity: nat, bits: nat, j: nat, found: Found)
    requires TableWithCapacity(table, last, capacity) && DegreeRight(table, bits, PowerOfTwo(j), found) && found.Found?
    ensures 0 < table(found.degree) && bits <= table(found.degree) <==> PowerOfTwo(j) <= Degree(last) / 2
  {
    var k: nat :| IsLeastDegree(table, bits, k) && LeastWithSlots(Degree(k), PowerOfTwo(j), found.degree);
    var m := RaisedIndex(k, j, found.degree);
    EntryEnough(table, last, capacity, bits, k, m);
    SlotsCompared(j, k);
    SlotsCompared(j, last);
  }

  lemma RaisedIndex(k: nat, j: nat, degree: nat) returns (m: nat)
    requires LeastWithSlots(Degree(k), PowerOfTwo(j), degree)
    ensures degree == Degree(m) && m == if j <= k + 9 then k else j - 9
  {
    RaisedIs(Degree(k), PowerOfTwo(j), degree);
    SlotsCompared(j, k);
    m := if j <= k + 9 then k else j - 9;
    if j > k + 9 {
      DegreeOfSlots(j);
    }
  }

  lemma EntryEnough(table: nat -> nat, last: nat, capacity: nat, bits: nat, k: nat, m: nat)
    requires TableWithCapacity(table, last, capacity) && IsLeastDegree(table, bits, k) && k <= m
    ensures k <= last && (0 < table(Degree(m)) && bits <= table(Degree(m)) <==> m <= last)
  {
    assert k < m <= last ==> table(Degree(k)) < table(Degree(m));
  }

  lemma SlotsCompared(j: nat, k: nat)
    ensures PowerOfTwo(j) <= Degree(k) / 2 <==> j <= k + 9
  {
    SlotsOfDegree(k);
    DegreesGrow(j, k + 9);
    PowersGrow(j, k + 9);
  }

  lemma DegreeOfSlots(j: nat)
    requires j >= 9
    ensures Degree(j - 9) == 2 * PowerOfTwo(j)
  {
    SlotsOfDegree(j - 9);
    EvenDegree(j - 9);
  }

  lemma EvenDegree(k: nat)
    ensures Degree(k) == 2 * (Degree(k) / 2)
  {
    var half := 512 * PowerOfTwo(k);
    assert Degree(k) == 2 * half;
    hide Degree, PowerOfTwo;
    assert (2 * half) / 2 == half;
  }

  lemma {:induction false} DegreesGrow(j: nat, k: nat)
    ensures j <= k ==> PowerOfTwo(j) <= PowerOfTwo(k)
    decreases k
  {
    if j < k {
      DegreesGrow(j, k - 1);
    }
  }

  // ----- degrees as powers of two -----

  lemma {:induction false} PowersAdd(j: nat, k: nat)
    ensures PowerOfTwo(j + k) == PowerOfTwo(j) * PowerOfTwo(k)
  {
    if j > 0 {
      PowersAdd(j - 1, k);
    }
  }

  lemma {:induction false} PowersGrow(j: nat, k: nat)
    ensures j > k ==> PowerOfTwo(j) > PowerOfTwo(k)
  {
    if j > k + 1 {
      PowersGrow(j - 1, k);
    }
  }

  lemma PowersDivide(j: nat, k: nat)
    requires PowerOfTwo(j) <= PowerOfTwo(k)
    ensures PowerOfTwo(k) % PowerOfTwo(j) == 0
  {
    PowersGrow(j, k);
    PowersAdd(j, k - j);
    Remainder(PowerOfTwo(k), PowerOfTwo(j), PowerOfTwo(k - j), 0);
  }

  lemma SlotsOfDegree(k: nat)
    ensures Degree(k) / 2 == PowerOfTwo(k + 9)
  {
    PowersAdd(9, k);
    assert PowerOfTwo(4) == 16;
    assert PowerOfTwo(9) == 512;
  }
}
