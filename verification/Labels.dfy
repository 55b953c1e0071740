/** How deep the nodes of a program under construction can become, whatever is added to it later, cleaned
    away and merged: each node has a label that bounds its depth after preparation. */
module Labels {
  import opened Graphs
  import opened Usage
  import opened Dags
  import opened Semantics
  import opened Reassociation
  import opened Reductions
  import opened LogExpander
  import opened OperandScales
  import opened DepthBounds

  /** A bound for the depth of a node, and for a product one for the number of its factors. */
  datatype Label = Label(depth: nat, width: nat)

  type Labelling = seq<Label>

  function BoundOf(labels: Labelling): Bound
  {
    (n: NodeId) => if n < |labels| then labels[n].depth else 0
  }

  /** How many factors a node hands on to a product that uses it, at most. */
  function FactorsOf(g: Graph, labels: Labelling, n: NodeId): nat
  {
    if n < |g.op| && n < |labels| && g.op[n].Mul? then labels[n].width else 1
  }

  /** The height of a balanced tree over k leaves. */
  function LogUp(k: nat): (h: nat)
    ensures k <= TwoTo(h) && (k > 1 ==> h > 0 && TwoTo(h - 1) < k)
  {
    if k <= 1 then 0 else 1 + LogUp((k + 1) / 2)
  }

  lemma {:induction false} LogUpGrows(a: nat, b: nat)
    requires a <= b
    ensures LogUp(a) <= LogUp(b)
    decreases b
  {
    if a > 1 {
      LogUpGrows((a + 1) / 2, (b + 1) / 2);
    }
  }

  lemma LogUpIs(k: nat, h: nat)
    requires h > 0 && TwoTo(h - 1) < k <= TwoTo(h)
    ensures LogUp(k) == h
  {
    SameHeight(k, LogUp(k), h);
  }

  // ----- what can become of a graph -----

  /** Sources all at one positive scale. */
  ghost predicate UniformKeys(g: Graph, keys: Keys)
  {
    exists stored: map<NodeId, nat>, s: nat :: s > 0 && KeysOf(g, stored, keys) && StoredAt(g, stored, s)
  }

  ghost predicate StoredAt(g: Graph, stored: map<NodeId, nat>, s: nat)
  {
    forall n: NodeId :: n in g.sources ==> n in stored && stored[n] == s
  }

  /** A node of g has in r the operands it has in g, or none; those that are left are used, except outputs. */
  ghost predicate CleanedFrom(g: Graph, r: Graph)
  {
    && WellFormed(r) && Acyclic(r) && SourceArity(r)
    && |g.op| == |g.operands| <= |r.operands| == |r.op| && g.op <= r.op
    && (forall n: NodeId :: n < |g.operands| ==> r.operands[n] == g.operands[n] || r.operands[n] == [])
    && (forall n: NodeId :: n < |r.operands| && r.operands[n] != [] && !r.op[n].Output? ==> IsUsed(r, n))
  }

  ghost predicate NoNewUse(g: Graph, r: Graph, n: NodeId)
  {
    forall u: NodeId :: u < |r.operands| && n in r.operands[u] ==> u < |g.operands| && n in g.operands[u]
  }

  /** r is what is left of an extension of g by nodes that use none of the frozen ones. */
  ghost predicate Cleaning(g: Graph, frozen: set<NodeId>, r: Graph, w: seq<multiset<NodeId>>, keys: Keys)
  {
    && CleanedFrom(g, r) && (forall n: NodeId :: n in frozen ==> NoNewUse(g, r, n))
    && Interprets(r, FlatSem(r), w) && UniformKeys(r, keys)
  }

  // ----- labels -----

  /** What the node hands on is within its label. */
  predicate HandsWithin(r: Graph, w: seq<multiset<NodeId>>, labels: Labelling, n: NodeId)
  {
    && n < |r.op| && n < |w| && n < |labels| && (r.op[n].Mul? ==> |w[n]| <= labels[n].width)
    && forall o: NodeId :: o in w[n] ==> o < |labels| && labels[o].depth <= labels[n].depth
  }

  ghost predicate NodeOk(r: Graph, w: seq<multiset<NodeId>>, keys: Keys, labels: Labelling, n: NodeId)
  {
    && n < |r.operands| && n < |r.op| && n < |keys.encrypted| && HandsWithin(r, w, labels, n)
    && (forall o: NodeId :: o in FlatOf(w, r.operands[n]) ==> o < |labels|)
    && (NeedsBound(r, keys, n) ==> NodeFits(r.op[n], FlatOf(w, r.operands[n]), keys, BoundOf(labels), n))
  }

  /** The label of n is right, whatever becomes of the graph. */
  ghost predicate Labelled(g: Graph, frozen: set<NodeId>, labels: Labelling, n: NodeId)
  {
    forall r: Graph, w: seq<multiset<NodeId>>, keys: Keys ::
      Cleaning(g, frozen, r, w, keys) && Live(r, n) ==> NodeOk(r, w, keys, labels, n)
  }

  ghost predicate AllLabelled(g: Graph, frozen: set<NodeId>, labels: Labelling)
  {
    && |labels| == |g.op| == |g.operands|
    && forall n: NodeId :: n < |g.op| ==> labels[n].width >= 1 && Labelled(g, frozen, labels, n)
  }

  // ----- later graphs and lower labels -----

  ghost predicate Later(g: Graph, frozen: set<NodeId>, g': Graph, frozen': set<NodeId>)
  {
    && |g.op| == |g.operands| && |g'.op| == |g'.operands| && g.op <= g'.op && g.operands <= g'.operands
    && frozen <= frozen' && forall n: NodeId, u: NodeId ::
      n in frozen && |g.operands| <= u < |g'.operands| ==> n !in g'.operands[u]
  }

  lemma CleaningBefore(g: Graph, frozen: set<NodeId>, g': Graph, frozen': set<NodeId>, r: Graph,
                       w: seq<multiset<NodeId>>, keys: Keys)
    requires Later(g, frozen, g', frozen') && Cleaning(g', frozen', r, w, keys)
    ensures Cleaning(g, frozen, r, w, keys)
  {
    hide Interprets, UniformKeys, Acyclic, WellFormed;
    forall n: NodeId, u: NodeId | n in frozen && u < |r.operands| && n in r.operands[u]
      ensures u < |g.operands| && n in g.operands[u]
    {
      assert NoNewUse(g', r, n);
    }
  }

  /** Labels that agree at n and are nowhere higher. */
  predicate Lower(labels: Labelling, labels': Labelling, n: NodeId)
  {
    && n < |labels| <= |labels'| && labels'[n] == labels[n]
    && forall o: NodeId :: o < |labels| ==> labels'[o].depth <= labels[o].depth
  }

  lemma LowerIsOk(r: Graph, w: seq<multiset<NodeId>>, keys: Keys, labels: Labelling, labels': Labelling, n: NodeId)
    requires NodeOk(r, w, keys, labels, n) && Lower(labels, labels', n) && |w| == |r.operands|
    ensures NodeOk(r, w, keys, labels', n)
  {
    if NeedsBound(r, keys, n) {
      LowerFits(r.op[n], FlatOf(w, r.operands[n]), keys, labels, labels', n);
    }
  }

  lemma LowerFits(op: Op, factors: multiset<NodeId>, keys: Keys, labels: Labelling, labels': Labelling, n: NodeId)
    requires NodeFits(op, factors, keys, BoundOf(labels), n) && Lower(labels, labels', n)
    requires forall o: NodeId :: o in factors ==> o < |labels|
    ensures NodeFits(op, factors, keys, BoundOf(labels'), n)
  {
    var bound, bound' := BoundOf(labels), BoundOf(labels');
    assert bound'(n) == bound(n) && forall o: NodeId :: o in factors ==> bound'(o) <= bound(o);
    hide BoundOf, TwoTo;
    if op.Mul? {
      var h: nat :| HeightFits(factors, keys, bound, bound(n), h);
      if !AllFit(factors, bound, bound(n), h) {
        var t: NodeId :| LastFits(factors, keys, bound, bound(n), h, t);
        assert t in factors;
        assert LastFits(factors, keys, bound', bound(n), h, t);
      }
      assert HeightFits(factors, keys, bound', bound(n), h);
    }
  }

  lemma LabelledLater(g: Graph, frozen: set<NodeId>, labels: Labelling, g': Graph, frozen': set<NodeId>,
                      labels': Labelling, n: NodeId)
    requires Labelled(g, frozen, labels, n) && Later(g, frozen, g', frozen') && Lower(labels, labels', n)
    ensures Labelled(g', frozen', labels', n)
  {
    hide Cleaning, Later, Lower, NodeOk;
    forall r: Graph, w: seq<multiset<NodeId>>, keys: Keys | Cleaning(g', frozen', r, w, keys) && Live(r, n)
      ensures NodeOk(r, w, keys, labels', n)
    {
      CleaningBefore(g, frozen, g', frozen', r, w, keys);
      CleaningFacts(g', frozen', r, w, keys);
      LowerIsOk(r, w, keys, labels, labels', n);
    }
  }

  lemma CleaningFacts(g: Graph, frozen: set<NodeId>, r: Graph, w: seq<multiset<NodeId>>, keys: Keys)
    requires Cleaning(g, frozen, r, w, keys)
    ensures |g.op| == |g.operands| <= |r.operands| == |r.op| == |w| == |keys.encrypted| == |keys.scale| && g.op <= r.op
    ensures WellFormed(r) && Acyclic(r) && SourceArity(r) && Interprets(r, FlatSem(r), w)
    ensures forall n: NodeId :: n < |g.operands| ==> r.operands[n] == g.operands[n] || r.operands[n] == []
  {
  }

  // ----- nodes in general -----

  lemma {:induction false} FromOperand(w: seq<multiset<NodeId>>, s: seq<NodeId>, o: NodeId)
    requires o in FlatOf(w, s)
    ensures exists i: nat :: i < |s| && s[i] < |w| && o in w[s[i]]
  {
    if s[0] < |w| && o in w[s[0]] {
    } else {
      FromOperand(w, s[1..], o);
      var i: nat :| i < |s[1..]| && s[1..][i] < |w| && o in w[s[1..][i]];
      assert s[i + 1] == s[1..][i];
    }
  }

  /** A node that is used by another operation is not merged. */
  lemma NotMerged(r: Graph, c: NodeId, n: NodeId)
    requires n < |r.operands| && n < |r.op| && c < |r.op| && c in r.operands[n] && r.op[c] != r.op[n]
    ensures !Reducible(r, c)
  {
  }

  lemma OperandsAre(r: Graph, n: NodeId)
    requires WellFormed(r) && n < |r.operands|
    ensures forall i: nat :: i < |r.operands[n]| ==> Live(r, r.operands[n][i]) && r.operands[n][i] < |r.operands|
  {
  }

  /** Every node hands something on. */
  lemma {:induction false} HandsSomething(r: Graph, rank: seq<nat>, w: seq<multiset<NodeId>>, n: NodeId)
    requires WellFormed(r) && Ranked(r, rank) && Interprets(r, FlatSem(r), w) && Live(r, n)
    ensures n < |w| && |w[n]| > 0
    decreases rank[n]
  {
    HandsOn(r, w, n);
    if Reducible(r, n) {
      var u :| MergesInto(r, n, u);
      OperandsAre(r, n);
      HandsSomething(r, rank, w, r.operands[n][0]);
      assert FlatOf(w, r.operands[n]) == w[r.operands[n][0]] + FlatOf(w, r.operands[n][1..]);
    }
  }

  /** An operation other than a product is as deep as its operands. */
  lemma OtherOk(r: Graph, w: seq<multiset<NodeId>>, keys: Keys, labels: Labelling, n: NodeId)
    requires Interprets(r, FlatSem(r), w) && Live(r, n) && n < |r.op| && !r.op[n].Mul? && n < |labels|
    requires |keys.encrypted| == |r.operands| && forall i: nat :: i < |r.operands[n]| ==>
      NodeOk(r, w, keys, labels, r.operands[n][i]) && labels[r.operands[n][i]].depth <= labels[n].depth
    ensures NodeOk(r, w, keys, labels, n)
  {
    HandsOn(r, w, n);
    hide Interprets, FlatOf, Reducible;
    forall o: NodeId | o in FlatOf(w, r.operands[n])
      ensures o < |labels| && labels[o].depth <= labels[n].depth
    {
      FromOperand(w, r.operands[n], o);
      var i: nat :| i < |r.operands[n]| && r.operands[n][i] < |w| && o in w[r.operands[n][i]];
      assert HandsWithin(r, w, labels, r.operands[n][i]);
    }
    assert BoundOf(labels)(n) == labels[n].depth;
  }

  lemma OtherLabelled(g: Graph, frozen: set<NodeId>, labels: Labelling, n: NodeId)
    requires n < |g.op| && n < |g.operands| && !g.op[n].Mul? && n < |labels|
    requires forall i: nat :: i < |g.operands[n]| ==> var o := g.operands[n][i];
      o < |labels| && Labelled(g, frozen, labels, o) && labels[o].depth <= labels[n].depth
    ensures Labelled(g, frozen, labels, n)
  {
    forall r: Graph, w: seq<multiset<NodeId>>, keys: Keys | Cleaning(g, frozen, r, w, keys) && Live(r, n)
      ensures NodeOk(r, w, keys, labels, n)
    {
      CleaningFacts(g, frozen, r, w, keys);
      OperandsAre(r, n);
      assert r.op[n] == g.op[n];
      hide Cleaning, NodeOk, Interprets, WellFormed, Acyclic;
      OtherOk(r, w, keys, labels, n);
    }
  }

  /** A product that these factors reach. */
  lemma FactorsOk(r: Graph, w: seq<multiset<NodeId>>, keys: Keys, labels: Labelling, n: NodeId,
                  factors: multiset<NodeId>, h: nat)
    requires Interprets(r, FlatSem(r), w) && Live(r, n) && n < |r.op| && r.op[n].Mul? && n < |labels|
    requires |keys.encrypted| == |r.operands| && FlatOf(w, r.operands[n]) == factors
    requires 0 < |factors| <= labels[n].width
    requires forall o: NodeId :: o in factors ==> o < |labels| && labels[o].depth <= labels[n].depth
    requires n < |keys.encrypted| && keys.encrypted[n] ==>
      HeightFits(factors, keys, BoundOf(labels), labels[n].depth, h)
    ensures NodeOk(r, w, keys, labels, n)
  {
    HandsOn(r, w, n);
    hide Interprets, FlatOf, Reducible, HeightFits;
    assert BoundOf(labels)(n) == labels[n].depth;
  }

  /** A product of two nodes that hand on at most k factors. */
  lemma ProductOk(r: Graph, w: seq<multiset<NodeId>>, keys: Keys, labels: Labelling, n: NodeId, a: NodeId, b: NodeId,
                  k: nat)
    requires WellFormed(r) && Acyclic(r) && Interprets(r, FlatSem(r), w) && Live(r, n) && n < |r.op| && r.op[n].Mul?
    requires r.operands[n] == [a, b] && NodeOk(r, w, keys, labels, a) && NodeOk(r, w, keys, labels, b)
    requires n < |labels| && |keys.encrypted| == |r.operands| && |w[a]| + |w[b]| <= k <= labels[n].width
    requires labels[a].depth + LogUp(k) <= labels[n].depth && labels[b].depth + LogUp(k) <= labels[n].depth
    ensures NodeOk(r, w, keys, labels, n)
  {
    var rank :| Ranked(r, rank);
    OperandsAre(r, n);
    assert Live(r, r.operands[n][0]) && Live(r, r.operands[n][1]);
    HandsSomething(r, rank, w, a);
    HandsSomething(r, rank, w, b);
    var factors := w[a] + w[b];
    TwoHand(w, a, b);
    hide Interprets, Reducible, FlatOf, WellFormed, Acyclic, LogUp;
    LogUpGrows(|factors|, k);
    forall o: NodeId | o in factors
      ensures o < |labels| && labels[o].depth + LogUp(|factors|) <= labels[n].depth
    {
      assert o in w[a] || o in w[b];
    }
    TwoFit(factors, keys, labels, labels[n].depth);
    FactorsOk(r, w, keys, labels, n, factors, LogUp(|factors|));
  }

  lemma TwoFit(factors: multiset<NodeId>, keys: Keys, labels: Labelling, d: nat)
    requires |factors| > 1
    requires forall o: NodeId :: o in factors ==> o < |labels| && labels[o].depth + LogUp(|factors|) <= d
    ensures HeightFits(factors, keys, BoundOf(labels), d, LogUp(|factors|))
  {
    assert AllFit(factors, BoundOf(labels), d, LogUp(|factors|));
  }

  lemma TwoHand(w: seq<multiset<NodeId>>, a: NodeId, b: NodeId)
    requires a < |w| && b < |w|
    ensures FlatOf(w, [a, b]) == w[a] + w[b]
  {
    assert [a, b][1..] == [b];
    assert FlatOf(w, [b]) == w[b] + FlatOf(w, []);
  }

  /** How much a factor hands on. */
  lemma FactorHands(g: Graph, frozen: set<NodeId>, labels: Labelling, r: Graph, w: seq<multiset<NodeId>>, keys: Keys,
                    n: NodeId, c: NodeId)
    requires Cleaning(g, frozen, r, w, keys) && n < |g.op| && g.op[n].Mul? && c < |g.op| && c in r.operands[n]
    requires Live(r, c) && NodeOk(r, w, keys, labels, c)
    ensures |w[c]| <= FactorsOf(g, labels, c)
  {
    CleaningFacts(g, frozen, r, w, keys);
    HandsOn(r, w, c);
    assert r.op[c] == g.op[c] && r.op[n] == g.op[n];
    if !g.op[c].Mul? {
      NotMerged(r, c, n);
    }
  }

  /** The label a product can always be given. */
  predicate ProductRoom(g: Graph, labels: Labelling, n: NodeId, a: NodeId, b: NodeId)
  {
    && n < |labels| && a < |labels| && b < |labels| && labels[n].width >= 1
    && FactorsOf(g, labels, a) + FactorsOf(g, labels, b) <= labels[n].width
    && var h := LogUp(FactorsOf(g, labels, a) + FactorsOf(g, labels, b));
    labels[a].depth + h <= labels[n].depth && labels[b].depth + h <= labels[n].depth
  }

  lemma ProductLeft(g: Graph, frozen: set<NodeId>, labels: Labelling, n: NodeId, a: NodeId, b: NodeId, r: Graph,
                    w: seq<multiset<NodeId>>, keys: Keys)
    requires n < |g.op| && n < |g.operands| && g.op[n].Mul? && g.operands[n] == [a, b]
    requires a < |g.op| && b < |g.op| && ProductRoom(g, labels, n, a, b)
    requires Labelled(g, frozen, labels, a) && Labelled(g, frozen, labels, b)
    requires Cleaning(g, frozen, r, w, keys) && Live(r, n) && n < |r.operands| && r.operands[n] != []
    ensures NodeOk(r, w, keys, labels, n)
  {
    hide NodeOk, Interprets, WellFormed, Acyclic, FactorsOf, LogUp, Labelled, Cleaning;
    CleaningFacts(g, frozen, r, w, keys);
    assert r.op[n] == g.op[n] && r.operands[n] == [a, b];
    FactorOk(g, frozen, labels, n, 0, r, w, keys);
    FactorOk(g, frozen, labels, n, 1, r, w, keys);
    ProductOk(r, w, keys, labels, n, a, b, FactorsOf(g, labels, a) + FactorsOf(g, labels, b));
  }

  lemma FactorOk(g: Graph, frozen: set<NodeId>, labels: Labelling, n: NodeId, i: nat, r: Graph,
                 w: seq<multiset<NodeId>>, keys: Keys)
    requires n < |g.op| && n < |r.operands| && g.op[n].Mul? && i < |r.operands[n]| && r.operands[n][i] < |g.op|
    requires Labelled(g, frozen, labels, r.operands[n][i]) && Cleaning(g, frozen, r, w, keys)
    ensures r.operands[n][i] < |w| && NodeOk(r, w, keys, labels, r.operands[n][i])
    ensures |w[r.operands[n][i]]| <= FactorsOf(g, labels, r.operands[n][i])
  {
    CleaningFacts(g, frozen, r, w, keys);
    OperandsAre(r, n);
    hide Cleaning, WellFormed, Acyclic, Interprets;
    FactorHands(g, frozen, labels, r, w, keys, n, r.operands[n][i]);
  }

  lemma ProductLabelled(g: Graph, frozen: set<NodeId>, labels: Labelling, n: NodeId, a: NodeId, b: NodeId)
    requires n < |g.op| && n < |g.operands| && g.op[n].Mul? && g.operands[n] == [a, b]
    requires a < |g.op| && b < |g.op| && ProductRoom(g, labels, n, a, b)
    requires Labelled(g, frozen, labels, a) && Labelled(g, frozen, labels, b)
    ensures Labelled(g, frozen, labels, n)
  {
    assert n < |labels| && labels[n].width >= 1;
    hide NodeOk, ProductRoom, WellFormed, Acyclic;
    forall r: Graph, w: seq<multiset<NodeId>>, keys: Keys | Cleaning(g, frozen, r, w, keys) && Live(r, n)
      ensures NodeOk(r, w, keys, labels, n)
    {
      CleaningFacts(g, frozen, r, w, keys);
      if r.operands[n] == [] {
        SourceOk(r, w, keys, labels, n);
      } else {
        ProductLeft(g, frozen, labels, n, a, b, r, w, keys);
      }
    }
  }

  lemma SourceOk(r: Graph, w: seq<multiset<NodeId>>, keys: Keys, labels: Labelling, n: NodeId)
    requires Interprets(r, FlatSem(r), w) && Live(r, n) && n < |r.op| && n < |labels| && r.operands[n] == []
    requires |keys.encrypted| == |r.operands| && labels[n].width >= 1
    ensures NodeOk(r, w, keys, labels, n)
  {
    HandsOn(r, w, n);
  }

  // ----- building -----

  function Higher(a: nat, b: nat): nat
  {
    if a > b then a else b
  }

  function DepthOfAll(labels: Labelling, operands: seq<NodeId>): nat
  {
    if operands == [] then 0
    else Higher(BoundOf(labels)(operands[0]), DepthOfAll(labels, operands[1..]))
  }

  lemma {:induction false} DepthOfEach(labels: Labelling, operands: seq<NodeId>)
    ensures forall i: nat :: i < |operands| ==> BoundOf(labels)(operands[i]) <= DepthOfAll(labels, operands)
  {
    if operands != [] {
      DepthOfEach(labels, operands[1..]);
      assert forall i: nat :: 0 < i < |operands| ==> operands[i] == operands[1..][i - 1];
    }
  }

  lemma DepthOfOne(labels: Labelling, a: NodeId)
    ensures DepthOfAll(labels, [a]) == BoundOf(labels)(a)
  {
  }

  lemma DepthOfTwo(labels: Labelling, a: NodeId, b: NodeId)
    ensures DepthOfAll(labels, [a, b]) == Higher(BoundOf(labels)(a), BoundOf(labels)(b))
  {
    assert [a, b][1..] == [b];
    DepthOfOne(labels, b);
  }

  /** The label of a new node. */
  function NewLabel(g: Graph, labels: Labelling, op: Op, operands: seq<NodeId>): Label
  {
    if op.Mul? && |operands| == 2 then
      var k := FactorsOf(g, labels, operands[0]) + FactorsOf(g, labels, operands[1]);
      Label(DepthOfAll(labels, operands) + LogUp(k), k)
    else Label(DepthOfAll(labels, operands), 1)
  }

  lemma LaterByNode(g: Graph, frozen: set<NodeId>, op: Op, operands: seq<NodeId>)
    requires |g.op| == |g.operands| && forall i: nat :: i < |operands| ==> operands[i] !in frozen
    ensures Later(g, frozen, AddNode(g, op, operands), frozen)
  {
  }

  lemma OldLabelled(g: Graph, frozen: set<NodeId>, labels: Labelling, op: Op, operands: seq<NodeId>, tag: Label)
    requires AllLabelled(g, frozen, labels) && forall i: nat :: i < |operands| ==> operands[i] !in frozen
    ensures forall n: NodeId :: n < |g.op| ==> Labelled(AddNode(g, op, operands), frozen, labels + [tag], n)
  {
    hide Labelled, Later;
    LaterByNode(g, frozen, op, operands);
    forall n: NodeId | n < |g.op|
      ensures Labelled(AddNode(g, op, operands), frozen, labels + [tag], n)
    {
      LabelledLater(g, frozen, labels, AddNode(g, op, operands), frozen, labels + [tag], n);
    }
  }

  /** Making a node: the old labels stay right, and the new one is. */
  lemma NodeLabelled(g: Graph, frozen: set<NodeId>, labels: Labelling, op: Op, operands: seq<NodeId>)
    requires AllLabelled(g, frozen, labels) && (op.Mul? ==> |operands| == 2)
    requires forall i: nat :: i < |operands| ==> operands[i] < |g.op| && operands[i] !in frozen
    ensures AllLabelled(AddNode(g, op, operands), frozen, labels + [NewLabel(g, labels, op, operands)])
  {
    hide Labelled, NewLabel, DepthOfAll;
    var tag := NewLabel(g, labels, op, operands);
    OldLabelled(g, frozen, labels, op, operands, tag);
    DepthOfEach(labels, operands);
    forall i: nat | i < |operands|
      ensures labels[operands[i]].depth <= DepthOfAll(labels, operands)
    {
      assert BoundOf(labels)(operands[i]) == labels[operands[i]].depth;
    }
    NewIsLabelled(AddNode(g, op, operands), frozen, g, labels, op, operands);
  }

  lemma NewIsLabelled(r: Graph, frozen: set<NodeId>, g: Graph, labels: Labelling, op: Op, operands: seq<NodeId>)
    requires r == AddNode(g, op, operands) && |labels| == |g.op| == |g.operands| && (op.Mul? ==> |operands| == 2)
    requires forall m: NodeId :: m < |g.op| ==> labels[m].width >= 1
    requires forall i: nat :: i < |operands| ==> var o := operands[i];
      && o < |g.op| && Labelled(r, frozen, labels + [NewLabel(g, labels, op, operands)], o)
      && labels[o].depth <= DepthOfAll(labels, operands)
    ensures NewLabel(g, labels, op, operands).width >= 1
    ensures Labelled(r, frozen, labels + [NewLabel(g, labels, op, operands)], |g.op|)
  {
    var labels', n := labels + [NewLabel(g, labels, op, operands)], |g.op|;
    hide Labelled, LogUp, DepthOfAll;
    if op.Mul? {
      var a, b := operands[0], operands[1];
      assert r.operands[n] == [a, b];
      assert FactorsOf(r, labels', a) == FactorsOf(g, labels, a) && FactorsOf(r, labels', b) == FactorsOf(g, labels, b);
      assert labels'[a] == labels[a] && labels'[b] == labels[b];
      ProductLabelled(r, frozen, labels', n, a, b);
    } else {
      OtherLabelled(r, frozen, labels', n);
    }
  }

  /** A lower label that is right once more nodes are frozen. */
  lemma Improved(g: Graph, frozen: set<NodeId>, labels: Labelling, n: NodeId, more: set<NodeId>, tag: Label)
    requires AllLabelled(g, frozen, labels) && n < |labels| && tag.depth <= labels[n].depth && tag.width >= 1
    requires Labelled(g, frozen + more, labels[n := tag], n)
    ensures AllLabelled(g, frozen + more, labels[n := tag])
  {
    hide Labelled;
    var frozen', labels' := frozen + more, labels[n := tag];
    assert Later(g, frozen, g, frozen');
    forall m: NodeId | m < |g.op|
      ensures Labelled(g, frozen', labels', m)
    {
      if m != n {
        LabelledLater(g, frozen, labels, g, frozen', labels', m);
      }
    }
  }

  lemma NothingLabelled(g: Graph)
    requires g.op == [] && g.operands == []
    ensures AllLabelled(g, {}, [])
  {
  }

  // ----- products of several factors -----

  predicate IsLink(g: Graph, n: NodeId, a: NodeId, b: NodeId)
  {
    n < |g.op| && n < |g.operands| && g.op[n].Mul? && g.operands[n] == [a, b]
  }

  predicate IsFactor(g: Graph, x: NodeId)
  {
    x < |g.op| && !g.op[x].Mul?
  }

  /** These factors, none of them a product, reach n through merged products, whatever becomes of the graph. */
  ghost predicate Gathers(g: Graph, frozen: set<NodeId>, n: NodeId, factors: multiset<NodeId>)
  {
    forall r: Graph, w: seq<multiset<NodeId>>, keys: Keys ::
      Cleaning(g, frozen, r, w, keys) && Live(r, n) ==> GathersIn(r, w, n, factors)
  }

  ghost predicate GathersIn(r: Graph, w: seq<multiset<NodeId>>, n: NodeId, factors: multiset<NodeId>)
  {
    && n < |r.operands| && r.operands[n] != [] && FlatOf(w, r.operands[n]) == factors
    && forall o: NodeId :: o in factors ==> Live(r, o)
  }

  ghost predicate OnlyUser(g: Graph, n: NodeId, u: NodeId)
  {
    forall v: NodeId :: v < |g.operands| && n in g.operands[v] ==> v == u
  }

  /** A node left over that is frozen and has one user is used by that. */
  lemma UsedByOnly(g: Graph, frozen: set<NodeId>, r: Graph, w: seq<multiset<NodeId>>, keys: Keys, n: NodeId, u: NodeId)
    requires Cleaning(g, frozen, r, w, keys) && n in frozen && n < |g.op| && OnlyUser(g, n, u)
    requires n < |r.operands| && r.operands[n] != [] && !g.op[n].Output?
    ensures u < |r.operands| && n in r.operands[u]
    ensures forall v: NodeId :: v < |r.operands| && n in r.operands[v] ==> v == u
  {
    assert NoNewUse(g, r, n);
    assert IsUsed(r, n);
  }

  /** A product used by the next one alone is merged into it. */
  lemma LinkMerged(g: Graph, frozen: set<NodeId>, r: Graph, w: seq<multiset<NodeId>>, keys: Keys, n: NodeId, u: NodeId,
                   x: NodeId)
    requires Cleaning(g, frozen, r, w, keys) && n in frozen && n < |g.op| && u < |g.op| && OnlyUser(g, n, u)
    requires g.op[n].Mul? && g.op[u].Mul? && g.operands[u] == [n, x] && n != x
    requires n < |r.operands| && r.operands[n] != []
    ensures Reducible(r, n)
  {
    UsedByOnly(g, frozen, r, w, keys, n, u);
    assert r.operands[u] == [n, x];
    assert multiset([n, x])[n] == 1;
    assert MergesInto(r, n, u);
  }

  lemma LinkHands(g: Graph, frozen: set<NodeId>, r: Graph, w: seq<multiset<NodeId>>, keys: Keys, n: NodeId, u: NodeId,
                  x: NodeId)
    requires Cleaning(g, frozen, r, w, keys) && n in frozen && n < |g.op| && OnlyUser(g, n, u) && g.op[n].Mul?
    requires IsLink(g, u, n, x) && x < |g.op| && !g.op[x].Mul? && n < |r.operands| && r.operands[n] != []
    ensures n < |w| && w[n] == FlatOf(w, r.operands[n])
  {
    LinkMerged(g, frozen, r, w, keys, n, u, x);
    CleaningFacts(g, frozen, r, w, keys);
    HandsOn(r, w, n);
  }

  /** A link that is left. */
  lemma LinkLeft(g: Graph, frozen: set<NodeId>, r: Graph, w: seq<multiset<NodeId>>, keys: Keys, n: NodeId, a: NodeId,
                 x: NodeId)
    requires Cleaning(g, frozen, r, w, keys) && IsLink(g, n, a, x) && Live(r, n)
    requires a < |g.op| && x < |g.op| && !g.op[x].Mul?
    ensures n < |r.operands| && r.operands[n] == [a, x] && Live(r, a) && Live(r, x) && a < |w| && x < |w|
    ensures r.operands[a] != [] || !g.op[a].Mul?
    ensures FlatOf(w, r.operands[n]) == w[a] + multiset{x}
  {
    CleaningFacts(g, frozen, r, w, keys);
    assert r.op[n] == g.op[n] && r.op[a] == g.op[a];
    assert r.operands[n] == [a, x];
    OperandsAre(r, n);
    assert Live(r, r.operands[n][0]) && Live(r, r.operands[n][1]);
    TwoHand(w, a, x);
    hide Interprets, FlatOf;
    FactorAlone(g, frozen, r, w, keys, n, x);
  }

  lemma FactorAlone(g: Graph, frozen: set<NodeId>, r: Graph, w: seq<multiset<NodeId>>, keys: Keys, n: NodeId, x: NodeId)
    requires Cleaning(g, frozen, r, w, keys) && n < |g.op| && g.op[n].Mul? && x < |g.op| && !g.op[x].Mul?
    requires n < |r.operands| && x in r.operands[n] && Live(r, x)
    ensures x < |w| && w[x] == multiset{x}
  {
    CleaningFacts(g, frozen, r, w, keys);
    assert r.op[x] == g.op[x] && r.op[n] == g.op[n];
    NotMerged(r, x, n);
    HandsOn(r, w, x);
  }

  lemma GatherTwo(g: Graph, frozen: set<NodeId>, n: NodeId, a: NodeId, b: NodeId)
    requires IsLink(g, n, a, b) && IsFactor(g, a) && IsFactor(g, b)
    ensures Gathers(g, frozen, n, multiset{a, b})
  {
    hide Cleaning, FlatOf;
    forall r: Graph, w: seq<multiset<NodeId>>, keys: Keys | Cleaning(g, frozen, r, w, keys) && Live(r, n)
      ensures GathersIn(r, w, n, multiset{a, b})
    {
      LinkLeft(g, frozen, r, w, keys, n, a, b);
      FactorAlone(g, frozen, r, w, keys, n, a);
      assert multiset{a} + multiset{b} == multiset{a, b};
    }
  }

  lemma GatherMore(g: Graph, frozen: set<NodeId>, n: NodeId, factors: multiset<NodeId>, u: NodeId, x: NodeId)
    requires Gathers(g, frozen, n, factors) && n in frozen && OnlyUser(g, n, u)
    requires IsLink(g, u, n, x) && IsFactor(g, x) && n < |g.op| && g.op[n].Mul?
    ensures Gathers(g, frozen, u, factors + multiset{x})
  {
    forall r: Graph, w: seq<multiset<NodeId>>, keys: Keys | Cleaning(g, frozen, r, w, keys) && Live(r, u)
      ensures GathersIn(r, w, u, factors + multiset{x})
    {
      hide Cleaning, FlatOf, OnlyUser;
      LinkLeft(g, frozen, r, w, keys, u, n, x);
      LinkHands(g, frozen, r, w, keys, n, u, x);
      assert GathersIn(r, w, n, factors);
    }
  }

  /** The label of a product that gathers these factors. */
  lemma GatheredLabelled(g: Graph, frozen: set<NodeId>, labels: Labelling, n: NodeId, factors: multiset<NodeId>, h: nat)
    requires Gathers(g, frozen, n, factors) && |labels| == |g.op| && n < |g.op| && g.op[n].Mul?
    requires h > 0 && TwoTo(h - 1) < |factors| <= TwoTo(h) && |factors| <= labels[n].width
    requires forall o: NodeId :: o in factors ==> o < |labels| && labels[o].depth + h <= labels[n].depth
    ensures Labelled(g, frozen, labels, n)
  {
    assert AllFit(factors, BoundOf(labels), labels[n].depth, h);
    hide Cleaning, NodeOk, TwoTo;
    forall r: Graph, w: seq<multiset<NodeId>>, keys: Keys | Cleaning(g, frozen, r, w, keys) && Live(r, n)
      ensures NodeOk(r, w, keys, labels, n)
    {
      GatheredOk(g, frozen, labels, r, w, keys, n, factors, h);
    }
  }

  lemma GatheredOk(g: Graph, frozen: set<NodeId>, labels: Labelling, r: Graph, w: seq<multiset<NodeId>>, keys: Keys,
                   n: NodeId, factors: multiset<NodeId>, h: nat)
    requires Cleaning(g, frozen, r, w, keys) && Live(r, n) && Gathers(g, frozen, n, factors)
    requires |labels| == |g.op| && n < |g.op| && g.op[n].Mul? && 0 < |factors| <= labels[n].width
    requires forall o: NodeId :: o in factors ==> o < |labels| && labels[o].depth <= labels[n].depth
    requires n < |keys.encrypted| && keys.encrypted[n] ==>
      HeightFits(factors, keys, BoundOf(labels), labels[n].depth, h)
    ensures NodeOk(r, w, keys, labels, n)
  {
    CleaningFacts(g, frozen, r, w, keys);
    assert GathersIn(r, w, n, factors) && r.op[n] == g.op[n];
    hide Cleaning, FlatOf, Interprets, WellFormed, Acyclic, SourceArity, Reducible, HeightFits, NodeOk, Gathers;
    FactorsOk(r, w, keys, labels, n, factors, h);
  }

  // ----- two uses -----

  /** A node with two different users is not merged. */
  lemma TwiceUsed(r: Graph, n: NodeId, a: NodeId, b: NodeId)
    requires a != b && a < |r.operands| && b < |r.operands| && n in r.operands[a] && n in r.operands[b]
    ensures !Reducible(r, n)
  {
  }

  /** A product of two nodes that are not merged into it. */
  lemma ApartOk(r: Graph, w: seq<multiset<NodeId>>, keys: Keys, labels: Labelling, n: NodeId, a: NodeId, b: NodeId)
    requires WellFormed(r) && Acyclic(r) && Interprets(r, FlatSem(r), w) && Live(r, n) && n < |r.op| && r.op[n].Mul?
    requires r.operands[n] == [a, b] && NodeOk(r, w, keys, labels, a) && NodeOk(r, w, keys, labels, b)
    requires !Reducible(r, a) && !Reducible(r, b)
    requires n < |labels| && |keys.encrypted| == |r.operands| && 2 <= labels[n].width
    requires labels[a].depth + 1 <= labels[n].depth && labels[b].depth + 1 <= labels[n].depth
    ensures NodeOk(r, w, keys, labels, n)
  {
    OperandsAre(r, n);
    assert Live(r, r.operands[n][0]) && Live(r, r.operands[n][1]);
    HandsOn(r, w, a);
    HandsOn(r, w, b);
    assert LogUp(2) == 1;
    hide NodeOk, Interprets, WellFormed, Acyclic, Reducible, LogUp;
    ProductOk(r, w, keys, labels, n, a, b, 2);
  }
}
