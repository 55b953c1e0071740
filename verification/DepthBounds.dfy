/** How deep a program can be once it is prepared: a bound for every node before the merging that respects
    the trees which the expanding pass will build bounds the depth that MultDepthCnt finds afterwards. */
module DepthBounds {
  import opened Graphs
  import opened Semantics
  import opened Chains
  import opened Reassociation
  import opened Reductions
  import opened LogExpander
  import opened OperandScales
  import opened ExpandPass

  type Bound = NodeId -> nat

  // ----- bounds -----

  /** o comes before t in the order of the expanding pass, whatever ties there are. */
  predicate Before(keys: Keys, o: NodeId, t: NodeId)
  {
    && o < |keys.encrypted| && t < |keys.encrypted| && o < |keys.scale| && t < |keys.scale|
    && keys.encrypted[t] && (keys.encrypted[o] ==> keys.scale[o] < keys.scale[t])
  }

  /** t is the last of the factors, and all others are so far below d that a tree of height h fits. */
  ghost predicate LastFits(factors: multiset<NodeId>, keys: Keys, bound: Bound, d: nat, h: nat, t: NodeId)
  {
    && factors[t] == 1 && bound(t) + 1 <= d
    && forall o: NodeId :: o in factors && o != t ==> Before(keys, o, t) && bound(o) + h <= d
  }

  ghost predicate AllFit(factors: multiset<NodeId>, bound: Bound, d: nat, h: nat)
  {
    forall o: NodeId :: o in factors ==> bound(o) + h <= d
  }

  /** A product of these factors is no deeper than d: the height of a balanced tree of them is h, and the
      factors leave room for it, except that one which is left over by all rounds needs room for one level. */
  ghost predicate HeightFits(factors: multiset<NodeId>, keys: Keys, bound: Bound, d: nat, h: nat)
  {
    && h > 0 && TwoTo(h - 1) < |factors| <= TwoTo(h)
    && (AllFit(factors, bound, d, h)
        || (|factors| == TwoTo(h - 1) + 1 && exists t: NodeId :: LastFits(factors, keys, bound, d, h, t)))
  }

  ghost predicate NodeFits(op: Op, operands: multiset<NodeId>, keys: Keys, bound: Bound, n: NodeId)
  {
    if op.Mul? then exists h: nat :: HeightFits(operands, keys, bound, bound(n), h)
    else AllFit(operands, bound, bound(n), 0)
  }

  ghost predicate NeedsBound(g: Graph, keys: Keys, n: NodeId)
    requires n < |g.operands| && n < |keys.encrypted|
  {
    g.operands[n] != [] && keys.encrypted[n] && !Reducible(g, n)
  }

  /** The bound is right at every encrypted node that is not merged, by the operands it will have then. */
  ghost predicate Fits(g: Graph, w: seq<multiset<NodeId>>, keys: Keys, bound: Bound)
  {
    forall n: NodeId :: Live(g, n) && n < |g.op| && n < |keys.encrypted| && NeedsBound(g, keys, n) ==>
      NodeFits(g.op[n], FlatOf(w, g.operands[n]), keys, bound, n)
  }

  // ----- depths of trees -----

  /** Only what is encrypted has a depth. */
  predicate AtMost(v: seq<Depth>, n: NodeId, d: nat)
  {
    n < |v| && v[n].count <= d && (!v[n].cipher ==> v[n].count == 0)
  }

  ghost predicate AnyCipher(v: seq<Depth>, s: seq<NodeId>)
  {
    exists i: nat :: i < |s| && s[i] < |v| && v[s[i]].cipher
  }

  lemma PairDepth(op: Op, a: Depth, b: Depth)
    requires IsReductionOp(op)
    ensures var r := DepthOf(op, [a, b]);
      && (r.cipher <==> a.cipher || b.cipher)
      && r.count == (if a.count > b.count then a.count else b.count) + if op.Mul? && r.cipher then 1 else 0
  {
    assert Counts([a, b]) == [a.count, b.count] && Flagged([a, b]) == [a.cipher, b.cipher];
    assert [a.count, b.count][0] == a.count && [a.count, b.count][1] == b.count;
  }

  lemma {:induction false} TreeDepth(g: Graph, base: nat, op: Op, x: NodeId, s: seq<NodeId>, h: nat, v: seq<Depth>,
                                     d: nat)
    requires IsReductionOp(op) && NewMeanings<Depth>(g, DepthSem(), v, base) && IsTree(g, base, op, x, s, h)
    requires forall i: nat :: i < |s| ==> AtMost(v, s[i], d)
    ensures AtMost(v, x, d + if op.Mul? then h else 0) && (v[x].cipher <==> AnyCipher(v, s))
    decreases h
  {
    if s == [x] {
      assert s[0] == x;
    } else {
      var k := SplitAt(|s|);
      var l, r := g.operands[x][0], g.operands[x][1];
      assert v[x] == DepthSem()(x, op, [v[l], v[r]]);
      hide NewMeanings, IsTree, IsFork;
      assert IsFork(g, base, op, x, s, h, k) by { TreeForks(g, base, op, x, s, h); }
      ForkTrees(g, base, op, x, s, h, k);
      TreeDepth(g, base, op, l, s[..k], h - 1, v, d);
      TreeDepth(g, base, op, r, s[k..], h - 1, v, d);
      PairDepth(op, v[l], v[r]);
      AnyOfParts(v, s, k);
    }
  }

  lemma TreeForks(g: Graph, base: nat, op: Op, x: NodeId, s: seq<NodeId>, h: nat)
    requires IsTree(g, base, op, x, s, h) && s != [x]
    ensures h > 0 && x < |g.operands| && |g.operands[x]| == 2 && |s| > 1
    ensures IsFork(g, base, op, x, s, h, SplitAt(|s|))
  {
  }

  lemma ForkTrees(g: Graph, base: nat, op: Op, x: NodeId, s: seq<NodeId>, h: nat, k: nat)
    requires h > 0 && x < |g.operands| && |g.operands[x]| == 2 && k < |s| && IsFork(g, base, op, x, s, h, k)
    ensures IsTree(g, base, op, g.operands[x][0], s[..k], h - 1) && IsTree(g, base, op, g.operands[x][1], s[k..], h - 1)
  {
  }

  lemma AnyOfParts(v: seq<Depth>, s: seq<NodeId>, k: nat)
    requires k <= |s|
    ensures AnyCipher(v, s) <==> AnyCipher(v, s[..k]) || AnyCipher(v, s[k..])
  {
    if AnyCipher(v, s) {
      var i: nat :| i < |s| && s[i] < |v| && v[s[i]].cipher;
      if i < k {
        assert s[..k][i] == s[i];
      } else {
        assert s[k..][i - k] == s[i];
      }
    }
    if AnyCipher(v, s[..k]) {
      var i: nat :| i < |s[..k]| && s[..k][i] < |v| && v[s[..k][i]].cipher;
      assert s[i] == s[..k][i];
    }
    if AnyCipher(v, s[k..]) {
      var i: nat :| i < |s[k..]| && s[k..][i] < |v| && v[s[k..][i]].cipher;
      assert s[k + i] == s[k..][i];
    }
  }

  // ----- depths of roots -----

  predicate PairMeans(op: Op, pair: seq<NodeId>, v: seq<Depth>, r: Depth)
  {
    |pair| == 2 && pair[0] < |v| && pair[1] < |v| ==> r == DepthOf(op, [v[pair[0]], v[pair[1]]])
  }

  /** A root whose left leaves are at most d deep and whose right tree, of height h', has leaves of at most d'. */
  lemma RootDepth(b: Build, g: Graph, pair: seq<NodeId>, s: seq<NodeId>, c: nat, h: nat, v: seq<Depth>, d: nat,
                  h': nat, d': nat, r: Depth, most: nat)
    requires IsReductionOp(b.op) && NewMeanings<Depth>(g, DepthSem(), v, b.base) && RootOf(b, g, pair, s, c, h)
    requires IsTree(g, b.base, b.op, pair[1], s[c..], h')
    requires forall i: nat :: i < |s| ==> AtMost(v, s[i], if i < c then d else d')
    requires PairMeans(b.op, pair, v, r)
    requires if b.op.Mul? then d + h <= most && d' + h' + 1 <= most else d <= most && d' <= most
    ensures r.count <= most && (!r.cipher ==> r.count == 0) && (r.cipher <==> AnyCipher(v, s))
  {
    hide IsTree, NewMeanings;
    var left, right := s[..c], s[c..];
    forall i: nat | i < |left|
      ensures AtMost(v, left[i], d)
    {
      assert left[i] == s[i];
    }
    forall i: nat | i < |right|
      ensures AtMost(v, right[i], d')
    {
      assert right[i] == s[c + i];
    }
    TreeDepth(g, b.base, b.op, pair[0], left, h - 1, v, d);
    TreeDepth(g, b.base, b.op, pair[1], right, h', v, d');
    PairDepth(b.op, v[pair[0]], v[pair[1]]);
    AnyOfParts(v, s, c);
  }

  /** The height of a tree is determined by how many leaves it has. */
  lemma {:induction false} SameHeight(k: nat, h: nat, h': nat)
    requires h > 0 && h' > 0 && TwoTo(h - 1) < k <= TwoTo(h) && TwoTo(h' - 1) < k <= TwoTo(h')
    ensures h == h'
  {
    if h < h' {
      TwoToGrows(h, h' - 1);
    } else if h' < h {
      TwoToGrows(h', h - 1);
    }
  }

  lemma {:induction false} TwoToGrows(a: nat, b: nat)
    requires a <= b
    ensures TwoTo(a) <= TwoTo(b)
  {
    if a < b {
      TwoToGrows(a, b - 1);
    }
  }

  /** In the order of the pass the last factor ends up last. */
  lemma LastIsLast(keys: Keys, bound: Bound, s: seq<NodeId>, d: nat, h: nat, t: NodeId)
    requires s != [] && InOrder(keys, s) && LastFits(multiset(s), keys, bound, d, h, t)
    ensures s[|s| - 1] == t && forall i: nat :: i < |s| - 1 ==> s[i] != t
  {
    var k := |s| - 1;
    assert t in s by { assert multiset(s)[t] == 1; }
    var i: nat :| i < |s| && s[i] == t;
    if i != k {
      LaterIsNotBefore(keys, s, i, k);
      assert s[k] in multiset(s);
      TwiceIn(s, i, k);
      assert false;
    }
    forall j: nat | j < k
      ensures s[j] != t
    {
      if s[j] == t {
        TwiceIn(s, j, k);
        assert false;
      }
    }
  }

  lemma LaterIsNotBefore(keys: Keys, s: seq<NodeId>, i: nat, k: nat)
    requires i < k < |s| && InOrder(keys, s)
    ensures !Before(keys, s[k], s[i])
  {
  }

  lemma TwiceIn(s: seq<NodeId>, i: nat, k: nat)
    requires i < k < |s| && s[i] == s[k]
    ensures multiset(s)[s[i]] >= 2
  {
    var a, b := s[..k], s[k..];
    assert s == a + b;
    assert a[i] == s[i] && b[0] == s[i];
    assert multiset(a)[s[i]] >= 1 && multiset(b)[s[i]] >= 1;
  }

  // ----- the whole program -----

  /** What is shown of every node of the merged graph. */
  predicate DepthFits(keys: Keys, bound: Bound, v: seq<Depth>, n: NodeId)
  {
    n < |v| && n < |keys.encrypted| && v[n].cipher == keys.encrypted[n] && AtMost(v, n, bound(n))
  }

  ghost predicate AnyEncrypted(keys: Keys, s: seq<NodeId>)
  {
    exists i: nat :: i < |s| && s[i] < |keys.encrypted| && keys.encrypted[s[i]]
  }

  lemma FlagsOf(keys: Keys, bound: Bound, v: seq<Depth>, s: seq<NodeId>, s': seq<NodeId>)
    requires multiset(s) == multiset(s') && forall i: nat :: i < |s'| ==> DepthFits(keys, bound, v, s'[i])
    ensures forall i: nat :: i < |s| ==> DepthFits(keys, bound, v, s[i])
    ensures AnyCipher(v, s) <==> AnyEncrypted(keys, s')
  {
    forall i: nat | i < |s|
      ensures DepthFits(keys, bound, v, s[i]) && s[i] in s'
    {
      assert s[i] in multiset(s);
      assert s[i] in s';
    }
    forall i: nat | i < |s'|
      ensures s'[i] in s
    {
      assert s'[i] in multiset(s');
    }
  }

  /** The root of a tree. */
  lemma ExpandedDepth(keys: Keys, g0: Graph, g: Graph, bound: Bound, v: seq<Depth>, n: NodeId)
    requires n < |g0.operands| && n < |g0.op| && Expands(g0, n) && Balanced(keys, g0, g, n)
    requires n < |v| == |g.operands| && n < |keys.encrypted| && n < |g.op| && g.op[n] == g0.op[n]
    requires NewMeanings<Depth>(g, DepthSem(), v, |g0.operands|)
    requires PairMeans(g.op[n], g.operands[n], v, v[n])
    requires forall i: nat :: i < |g0.operands[n]| ==> DepthFits(keys, bound, v, g0.operands[n][i])
    requires keys.encrypted[n] <==> AnyEncrypted(keys, g0.operands[n])
    requires keys.encrypted[n] ==> NodeFits(g0.op[n], multiset(g0.operands[n]), keys, bound, n)
    ensures DepthFits(keys, bound, v, n)
  {
    var b: Build, s: seq<NodeId>, c: nat, h: nat :| b.base == |g0.operands| && b.op == g0.op[n] && n < |g.operands|
      && RootOf(b, g, g.operands[n], s, c, h) && multiset(s) == multiset(g0.operands[n]) && InOrder(keys, s);
    var pair := g.operands[n];
    PairLength(b, g, pair, s, c, h);
    FlagsOf(keys, bound, v, s, g0.operands[n]);
    if !keys.encrypted[n] {
      RootPlain(b, g, pair, s, c, h, v, v[n]);
    } else if !b.op.Mul? {
      RootSum(b, g, pair, s, c, h, v, v[n], keys, bound, bound(n));
    } else {
      var h' :| HeightFits(multiset(s), keys, bound, bound(n), h');
      RootProduct(b, g, pair, s, c, h, v, v[n], keys, bound, bound(n), h');
    }
  }

  lemma RootPlain(b: Build, g: Graph, pair: seq<NodeId>, s: seq<NodeId>, c: nat, h: nat, v: seq<Depth>, r: Depth)
    requires IsReductionOp(b.op) && NewMeanings<Depth>(g, DepthSem(), v, b.base) && RootOf(b, g, pair, s, c, h)
    requires !AnyCipher(v, s)
    requires forall i: nat :: i < |s| ==> s[i] < |v| && (!v[s[i]].cipher ==> v[s[i]].count == 0)
    requires PairMeans(b.op, pair, v, r)
    ensures !r.cipher && r.count == 0
  {
    hide NewMeanings, IsTree;
    forall i: nat | i < |s|
      ensures AtMost(v, s[i], 0)
    {
      assert !v[s[i]].cipher;
    }
    RootDepth(b, g, pair, s, c, h, v, 0, h - 1, 0, r, h);
  }

  lemma RootSum(b: Build, g: Graph, pair: seq<NodeId>, s: seq<NodeId>, c: nat, h: nat, v: seq<Depth>, r: Depth,
                keys: Keys, bound: Bound, d: nat)
    requires b.op.Add? && NewMeanings<Depth>(g, DepthSem(), v, b.base) && RootOf(b, g, pair, s, c, h)
    requires forall i: nat :: i < |s| ==> DepthFits(keys, bound, v, s[i])
    requires AllFit(multiset(s), bound, d, 0)
    requires PairMeans(b.op, pair, v, r)
    ensures r.count <= d && (!r.cipher ==> r.count == 0) && (r.cipher <==> AnyCipher(v, s))
  {
    hide NewMeanings, IsTree;
    forall i: nat | i < |s|
      ensures AtMost(v, s[i], d)
    {
      assert s[i] in multiset(s);
    }
    RootDepth(b, g, pair, s, c, h, v, d, h - 1, d, r, d);
  }

  lemma RootProduct(b: Build, g: Graph, pair: seq<NodeId>, s: seq<NodeId>, c: nat, h: nat, v: seq<Depth>, r: Depth,
                    keys: Keys, bound: Bound, d: nat, h': nat)
    requires b.op.Mul? && NewMeanings<Depth>(g, DepthSem(), v, b.base) && RootOf(b, g, pair, s, c, h)
    requires InOrder(keys, s) && forall i: nat :: i < |s| ==> DepthFits(keys, bound, v, s[i])
    requires HeightFits(multiset(s), keys, bound, d, h')
    requires PairMeans(b.op, pair, v, r)
    ensures r.count <= d && (!r.cipher ==> r.count == 0) && (r.cipher <==> AnyCipher(v, s))
  {
    assert |multiset(s)| == |s|;
    SameHeight(|s|, h, h');
    hide NewMeanings, TwoTo, IsTree;
    if AllFit(multiset(s), bound, d, h) {
      RootOfLow(b, g, pair, s, c, h, v, r, keys, bound, d);
    } else {
      var t :| LastFits(multiset(s), keys, bound, d, h, t);
      RootOverLast(b, g, pair, s, c, h, v, r, keys, bound, d, t);
    }
  }

  lemma RootOfLow(b: Build, g: Graph, pair: seq<NodeId>, s: seq<NodeId>, c: nat, h: nat, v: seq<Depth>, r: Depth,
                  keys: Keys, bound: Bound, d: nat)
    requires b.op.Mul? && NewMeanings<Depth>(g, DepthSem(), v, b.base) && RootOf(b, g, pair, s, c, h)
    requires forall i: nat :: i < |s| ==> DepthFits(keys, bound, v, s[i])
    requires AllFit(multiset(s), bound, d, h) && PairMeans(b.op, pair, v, r)
    ensures r.count <= d && (!r.cipher ==> r.count == 0) && (r.cipher <==> AnyCipher(v, s))
  {
    hide NewMeanings, TwoTo, IsTree;
    assert s[0] in multiset(s);
    assert bound(s[0]) + h <= d;
    forall i: nat | i < |s|
      ensures AtMost(v, s[i], d - h)
    {
      assert s[i] in multiset(s);
    }
    RootDepth(b, g, pair, s, c, h, v, d - h, h - 1, d - h, r, d);
  }

  lemma RootOverLast(b: Build, g: Graph, pair: seq<NodeId>, s: seq<NodeId>, c: nat, h: nat, v: seq<Depth>, r: Depth,
                     keys: Keys, bound: Bound, d: nat, t: NodeId)
    requires b.op.Mul? && NewMeanings<Depth>(g, DepthSem(), v, b.base) && RootOf(b, g, pair, s, c, h)
    requires InOrder(keys, s) && forall i: nat :: i < |s| ==> DepthFits(keys, bound, v, s[i])
    requires |s| == c + 1 && LastFits(multiset(s), keys, bound, d, h, t) && PairMeans(b.op, pair, v, r)
    ensures r.count <= d && (!r.cipher ==> r.count == 0) && (r.cipher <==> AnyCipher(v, s))
  {
    hide NewMeanings, TwoTo, IsTree;
    LastIsLast(keys, bound, s, d, h, t);
    assert s[c..] == [t];
    TreeOfOne(g, b.base, b.op, pair[1], t, h - 1);
    assert s[0] in multiset(s) && s[0] != t;
    assert bound(s[0]) + h <= d;
    forall i: nat | i < |s|
      ensures AtMost(v, s[i], if i < c then d - h else d - 1)
    {
      assert s[i] in multiset(s);
    }
    RootDepth(b, g, pair, s, c, h, v, d - h, 0, d - 1, r, d);
  }

  lemma TreeOfOne(g: Graph, base: nat, op: Op, x: NodeId, t: NodeId, h: nat)
    requires IsTree(g, base, op, x, [t], h)
    ensures IsTree(g, base, op, x, [t], 0)
  {
  }

  /** A node that is left as it is. */
  lemma KeptDepth(keys: Keys, g: Graph, bound: Bound, v: seq<Depth>, n: NodeId, s: seq<NodeId>, args: seq<Depth>,
                  op: Op)
    requires n < |v| && n < |keys.encrypted| && v[n] == DepthOf(op, args) && |args| == |s|
    requires forall i: nat :: i < |s| ==> DepthFits(keys, bound, v, s[i]) && args[i] == v[s[i]]
    requires keys.encrypted[n] == Encrypted(op, Flagged(args)) && !op.Encode? && (IsSourceOp(op) <==> s == [])
    requires op.Mul? ==> |s| == 2
    requires keys.encrypted[n] && s != [] ==> NodeFits(op, multiset(s), keys, bound, n)
    ensures DepthFits(keys, bound, v, n)
  {
    if true in Flagged(args) {
      var i :| 0 <= i < |args| && Flagged(args)[i];
      assert s != [] && keys.encrypted[n];
      KeptCipher(keys, g, bound, v, n, s, args, op);
    } else {
      forall i: nat | i < |args|
        ensures args[i].count == 0
      {
        assert !Flagged(args)[i];
        assert !v[s[i]].cipher;
      }
      MaxIs(Counts(args), 0);
    }
  }

  lemma KeptCipher(keys: Keys, g: Graph, bound: Bound, v: seq<Depth>, n: NodeId, s: seq<NodeId>, args: seq<Depth>,
                   op: Op)
    requires n < |v| && n < |keys.encrypted| && v[n] == DepthOf(op, args) && |args| == |s| && s != []
    requires forall i: nat :: i < |s| ==> DepthFits(keys, bound, v, s[i]) && args[i] == v[s[i]]
    requires v[n].cipher == keys.encrypted[n] == true && (op.Mul? ==> |s| == 2)
    requires NodeFits(op, multiset(s), keys, bound, n)
    ensures DepthFits(keys, bound, v, n)
  {
    var room := if op.Mul? then 1 else 0;
    forall o: NodeId | o in multiset(s)
      ensures bound(o) + room <= bound(n)
    {
      if op.Mul? {
        assert |multiset(s)| == |s| == 2;
        PairFits(multiset(s), keys, bound, bound(n), o);
      }
    }
    assert s[0] in multiset(s);
    var counts := Counts(args);
    forall i: nat | i < |counts|
      ensures counts[i] + room <= bound(n)
    {
      assert s[i] in multiset(s);
    }
    assert MaxOf(counts) + room <= bound(n);
  }

  lemma PairFits(factors: multiset<NodeId>, keys: Keys, bound: Bound, d: nat, o: NodeId)
    requires |factors| == 2 && o in factors && exists h: nat :: HeightFits(factors, keys, bound, d, h)
    ensures bound(o) + 1 <= d
  {
    var h: nat :| HeightFits(factors, keys, bound, d, h);
    assert TwoTo(0) == 1 && TwoTo(1) == 2;
    SameHeight(2, h, 1);
  }

  /** The merged graph g0 and the expanded one. */
  ghost predicate DepthInv(keys: Keys, g0: Graph, g: Graph, stored: map<NodeId, nat>, v: seq<Depth>)
  {
    && KeysOf(g0, stored, keys) && AllBalanced(keys, g0, g) && WideArity(g0) && g0.op <= g.op
    && Interprets<Depth>(g, DepthSem(), v) && |g0.op| == |g0.operands| && |g.op| == |g.operands|
    && (forall n: NodeId :: n < |g0.op| ==> !g0.op[n].Encode?)
    && (forall n: NodeId :: n < |g0.operands| ==> (Live(g, n) <==> Live(g0, n)))
  }

  lemma TreesMean(keys: Keys, g0: Graph, g: Graph, stored: map<NodeId, nat>, v: seq<Depth>)
    requires DepthInv(keys, g0, g, stored, v)
    ensures NewMeanings<Depth>(g, DepthSem(), v, |g0.operands|)
  {
    hide KeysOf, WideArity, AllBalanced;
    forall x: NodeId | |g0.operands| <= x < |g.operands| && |g.operands[x]| == 2
      ensures g.operands[x][0] < |v| && g.operands[x][1] < |v|
      ensures v[x] == DepthSem()(x, g.op[x], [v[g.operands[x][0]], v[g.operands[x][1]]])
    {
      PairInterpreted(g, v, x);
    }
  }

  lemma PairInterpreted(g: Graph, v: seq<Depth>, x: NodeId)
    requires Interprets<Depth>(g, DepthSem(), v) && x < |g.operands| && |g.operands[x]| == 2
    ensures |v| == |g.operands| && x < |g.op| && g.operands[x][0] < |v| && g.operands[x][1] < |v|
    ensures v[x] == DepthSem()(x, g.op[x], [v[g.operands[x][0]], v[g.operands[x][1]]])
  {
    assert Live(g, x) && Live(g, g.operands[x][0]) && Live(g, g.operands[x][1]);
    assert Args(g, v, x) == [v[g.operands[x][0]], v[g.operands[x][1]]];
  }

  lemma NodeMeans(keys: Keys, g0: Graph, g: Graph, stored: map<NodeId, nat>, v: seq<Depth>, n: NodeId)
    requires DepthInv(keys, g0, g, stored, v) && Live(g0, n)
    ensures n < |v| == |g.operands| && n < |keys.encrypted| == |g0.operands| && n < |g0.op| && g.op[n] == g0.op[n]
    ensures !g0.op[n].Encode? && WideAt(g0, n) && DoneAt(keys, g0, g, n)
    ensures forall i: nat :: i < |g0.operands[n]| ==>
      Live(g0, g0.operands[n][i]) && g0.operands[n][i] < |keys.encrypted|
    ensures forall i: nat :: i < |g.operands[n]| ==> g.operands[n][i] < |v|
    ensures v[n] == DepthOf(g.op[n], Args(g, v, n))
    ensures keys.encrypted[n] == Encrypted(g0.op[n], Args(g0, keys.encrypted, n))
  {
    hide DoneAt, WideAt;
    assert Live(g, n);
    assert v[n] == DepthSem()(n, g.op[n], Args(g, v, n));
    assert keys.encrypted[n] == CipherSem()(n, g0.op[n], Args(g0, keys.encrypted, n));
  }

  /** From the operands to the node. */
  lemma DepthStep(keys: Keys, g0: Graph, g: Graph, stored: map<NodeId, nat>, v: seq<Depth>, bound: Bound, n: NodeId)
    requires DepthInv(keys, g0, g, stored, v) && Live(g0, n)
    requires forall i: nat :: i < |g0.operands[n]| ==> DepthFits(keys, bound, v, g0.operands[n][i])
    requires n < |g0.op| && n < |keys.encrypted| && keys.encrypted[n] && g0.operands[n] != [] ==>
      NodeFits(g0.op[n], multiset(g0.operands[n]), keys, bound, n)
    ensures DepthFits(keys, bound, v, n)
  {
    NodeMeans(keys, g0, g, stored, v, n);
    hide DepthInv, NodeFits, DepthFits;
    var s := g0.operands[n];
    if Expands(g0, n) {
      TreesMean(keys, g0, g, stored, v);
      FlagOfOperands(keys, g0, n);
      PairOfArgs(g, v, n);
      ExpandedDepth(keys, g0, g, bound, v, n);
    } else {
      FlagsOfArgs(keys, bound, g0, v, n, Args(g, v, n));
      KeptDepth(keys, g0, bound, v, n, s, Args(g, v, n), g0.op[n]);
    }
  }

  lemma FlagOfOperands(keys: Keys, g: Graph, n: NodeId)
    requires n < |g.operands| && n < |g.op| && n < |keys.encrypted| && IsReductionOp(g.op[n])
    requires forall i: nat :: i < |g.operands[n]| ==> g.operands[n][i] < |keys.encrypted|
    requires keys.encrypted[n] == Encrypted(g.op[n], Args(g, keys.encrypted, n))
    ensures keys.encrypted[n] <==> AnyEncrypted(keys, g.operands[n])
  {
    var args := Args(g, keys.encrypted, n);
    if AnyEncrypted(keys, g.operands[n]) {
      var i: nat :| i < |g.operands[n]| && g.operands[n][i] < |keys.encrypted| && keys.encrypted[g.operands[n][i]];
      assert args[i];
    }
  }

  lemma PairOfArgs(g: Graph, v: seq<Depth>, n: NodeId)
    requires n < |g.operands| && n < |g.op| && n < |v|
    requires forall i: nat :: i < |g.operands[n]| ==> g.operands[n][i] < |v|
    requires v[n] == DepthOf(g.op[n], Args(g, v, n))
    ensures PairMeans(g.op[n], g.operands[n], v, v[n])
  {
    if |g.operands[n]| == 2 {
      assert Args(g, v, n) == [v[g.operands[n][0]], v[g.operands[n][1]]];
    }
  }

  lemma FlagsOfArgs(keys: Keys, bound: Bound, g: Graph, v: seq<Depth>, n: NodeId, args: seq<Depth>)
    requires n < |g.operands| && |args| == |g.operands[n]|
    requires forall i: nat :: i < |args| ==>
      DepthFits(keys, bound, v, g.operands[n][i]) && args[i] == v[g.operands[n][i]]
    requires forall i: nat :: i < |args| ==> g.operands[n][i] < |keys.encrypted|
    ensures Flagged(args) == Args(g, keys.encrypted, n)
  {
  }

  /** The bound is right at every encrypted node, by its operands. */
  ghost predicate FitsMerged(keys: Keys, g: Graph, bound: Bound)
  {
    forall m: NodeId :: Live(g, m) && m < |g.op| && m < |keys.encrypted| ==> FitsAt(keys, g, bound, m)
  }

  ghost predicate FitsAt(keys: Keys, g: Graph, bound: Bound, m: NodeId)
    requires m < |g.op| && m < |g.operands| && m < |keys.encrypted|
  {
    keys.encrypted[m] && g.operands[m] != [] ==> NodeFits(g.op[m], multiset(g.operands[m]), keys, bound, m)
  }

  /** After merging the operands are those that were handed on. */
  lemma MergedFits(g0: Graph, g: Graph, w: seq<multiset<NodeId>>, keys: Keys, bound: Bound)
    requires MergedAll(g0, g) && WellFormed(g0) && Acyclic(g0) && Interprets(g0, FlatSem(g0), w)
    requires Fits(g0, w, keys, bound) && g.op == g0.op && |g0.op| == |g0.operands|
    requires forall n: NodeId :: Live(g, n) && g.operands[n] != [] ==> g0.operands[n] != []
    ensures FitsMerged(keys, g, bound)
  {
    hide Reducible, NodeFits;
    var w' :| Interprets(g0, FlatSem(g0), w')
      && forall p: NodeId :: Live(g, p) ==> multiset(g.operands[p]) == FlatOf(w', g0.operands[p]);
    forall m: NodeId | Live(g, m) && m < |g.op| && m < |keys.encrypted|
      ensures FitsAt(keys, g, bound, m)
    {
      if keys.encrypted[m] && g.operands[m] != [] {
        assert Live(g0, m) && NeedsBound(g0, keys, m);
        SameFlat(g0, w, w', m);
      }
    }
  }

  lemma SameFlat(g: Graph, w: seq<multiset<NodeId>>, w': seq<multiset<NodeId>>, m: NodeId)
    requires Acyclic(g) && Interprets(g, FlatSem(g), w) && Interprets(g, FlatSem(g), w') && Live(g, m)
    ensures FlatOf(w, g.operands[m]) == FlatOf(w', g.operands[m])
  {
    var rank :| Ranked(g, rank);
    hide FlatOf, Reducible;
    forall i: nat | i < |g.operands[m]|
      ensures g.operands[m][i] < |w| == |w'| && w[g.operands[m][i]] == w'[g.operands[m][i]]
    {
      assert Live(g, g.operands[m][i]);
      InterpretationUnique<multiset<NodeId>>(g, FlatSem(g), w, w', rank, g.operands[m][i]);
    }
    FlatSame(w, w', g.operands[m]);
  }

  lemma {:induction false} FlatSame(w: seq<multiset<NodeId>>, w': seq<multiset<NodeId>>, s: seq<NodeId>)
    requires forall i: nat :: i < |s| ==> s[i] < |w| && s[i] < |w'| && w[s[i]] == w'[s[i]]
    ensures FlatOf(w, s) == FlatOf(w', s)
  {
    if s != [] {
      FlatSame(w, w', s[1..]);
    }
  }

  lemma {:induction false} DepthOfMerged(keys: Keys, g0: Graph, rank: seq<nat>, g: Graph, stored: map<NodeId, nat>,
                                         v: seq<Depth>, bound: Bound, n: NodeId)
    requires DepthInv(keys, g0, g, stored, v) && Ranked(g0, rank) && Live(g0, n)
    requires FitsMerged(keys, g0, bound)
    ensures DepthFits(keys, bound, v, n)
    decreases rank[n]
  {
    NodeMeans(keys, g0, g, stored, v, n);
    hide DepthInv, NodeFits, DepthFits, DoneAt, WideAt;
    forall i: nat | i < |g0.operands[n]|
      ensures DepthFits(keys, bound, v, g0.operands[n][i])
    {
      DepthOfMerged(keys, g0, rank, g, stored, v, bound, g0.operands[n][i]);
    }
    DepthStep(keys, g0, g, stored, v, bound, n);
  }
}
