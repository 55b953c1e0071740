/** How deep the rounds of getCmpExprP7 become once they are prepared: what has two uses is not merged, and an
    intermediate product is left only if a later round uses the same equality again. */
module RoundDepth {
  import opened Graphs
  import opened Usage
  import opened Semantics
  import opened Reductions
  import opened OperandScales
  import opened Labels
  import opened CircuitDepth

  /** A round: both results turned, and the two new results. */
  predicate RoundNodes(g: Graph, b: NodeId, lt: NodeId, eq: NodeId, k: nat)
  {
    && NodeIs(g, b, RotateLeft(k), [lt]) && NodeIs(g, b + 1, RotateLeft(k), [eq]) && NodeIs(g, b + 2, Mul, [b, eq])
    && NodeIs(g, b + 3, Add, [lt, b + 2]) && NodeIs(g, b + 4, Mul, [eq, b + 1])
  }

  /** Four rounds, the last nodes of the graph. */
  predicate Rounds(g: Graph, b: NodeId, lt: NodeId, eq: NodeId)
  {
    && Ordered(g) && |g.op| == b + 20 && lt < b && eq < b
    && RoundNodes(g, b, lt, eq, 1) && RoundNodes(g, b + 5, b + 3, b + 4, 2)
    && RoundNodes(g, b + 10, b + 8, b + 9, 4) && RoundNodes(g, b + 15, b + 13, b + 14, 8)
  }

  // ----- users -----

  predicate RoundUse(b: NodeId, lt: NodeId, eq: NodeId, v: NodeId, n: NodeId)
  {
    || (v == b && n == lt) || (v == b + 1 && n == eq) || (v == b + 2 && (n == b || n == eq))
    || (v == b + 3 && (n == lt || n == b + 2)) || (v == b + 4 && (n == eq || n == b + 1))
  }

  lemma RoundUses(g: Graph, b: NodeId, lt: NodeId, eq: NodeId, k: nat, v: NodeId, n: NodeId)
    requires RoundNodes(g, b, lt, eq, k) && b <= v < b + 5 && n in g.operands[v]
    ensures RoundUse(b, lt, eq, v, n)
  {
    if
    case v == b =>
    case v == b + 1 =>
    case v == b + 2 =>
    case v == b + 3 =>
    case v == b + 4 =>
  }

  lemma RoundsUse(g: Graph, b: NodeId, lt: NodeId, eq: NodeId, v: NodeId, n: NodeId)
    requires Rounds(g, b, lt, eq) && v < |g.operands| && n in g.operands[v] && n >= b
    ensures RoundUse(b, lt, eq, v, n) || RoundUse(b + 5, b + 3, b + 4, v, n) || RoundUse(b + 10, b + 8, b + 9, v, n)
      || RoundUse(b + 15, b + 13, b + 14, v, n)
  {
    assert n < v;
    hide RoundNodes, RoundUse;
    if v < b + 5 {
      RoundUses(g, b, lt, eq, 1, v, n);
    } else if v < b + 10 {
      RoundUses(g, b + 5, b + 3, b + 4, 2, v, n);
    } else if v < b + 15 {
      RoundUses(g, b + 10, b + 8, b + 9, 4, v, n);
    } else {
      RoundUses(g, b + 15, b + 13, b + 14, 8, v, n);
    }
  }

  ghost predicate TwoUsers(g: Graph, n: NodeId, u: NodeId, u': NodeId)
  {
    forall v: NodeId :: v < |g.operands| && n in g.operands[v] ==> v == u || v == u'
  }

  /** Between two rounds: the product, its sum, and the turned sum. */
  ghost predicate RoundUsers(g: Graph, c: NodeId)
  {
    OnlyUser(g, c + 2, c + 3) && TwoUsers(g, c + 3, c + 5, c + 8) && OnlyUser(g, c + 5, c + 7)
  }

  lemma UsersOfRound(g: Graph, b: NodeId, lt: NodeId, eq: NodeId, c: NodeId)
    requires Rounds(g, b, lt, eq) && (c == b || c == b + 5 || c == b + 10)
    ensures RoundUsers(g, c)
  {
    assert lt < b && eq < b;
    hide Rounds;
    forall v: NodeId | v < |g.operands| && c + 2 in g.operands[v]
      ensures v == c + 3
    {
      RoundsUse(g, b, lt, eq, v, c + 2);
    }
    forall v: NodeId | v < |g.operands| && c + 3 in g.operands[v]
      ensures v == c + 5 || v == c + 8
    {
      RoundsUse(g, b, lt, eq, v, c + 3);
    }
    forall v: NodeId | v < |g.operands| && c + 5 in g.operands[v]
      ensures v == c + 7
    {
      RoundsUse(g, b, lt, eq, v, c + 5);
    }
  }

  // ----- what is left -----

  /** A node that is left still has its operands. */
  lemma LeftNode(g: Graph, frozen: set<NodeId>, r: Graph, w: seq<multiset<NodeId>>, keys: Keys, n: NodeId, op: Op,
                 operands: seq<NodeId>)
    requires Cleaning(g, frozen, r, w, keys) && NodeIs(g, n, op, operands) && Live(r, n) && !IsSourceOp(op)
    ensures n < |r.operands| == |r.op| && r.op[n] == op && r.operands[n] == operands
    ensures forall i: nat :: i < |operands| ==> Live(r, operands[i])
  {
    CleaningFacts(g, frozen, r, w, keys);
    OperandsAre(r, n);
  }

  /** What uses another node is left. */
  lemma UserIsLeft(g: Graph, frozen: set<NodeId>, r: Graph, w: seq<multiset<NodeId>>, keys: Keys, n: NodeId, u: NodeId,
                   op: Op, operands: seq<NodeId>)
    requires Cleaning(g, frozen, r, w, keys) && NodeIs(g, u, op, operands) && !IsSourceOp(op)
    requires u < |r.operands| && n in r.operands[u]
    ensures r.operands[u] == operands && forall i: nat :: i < |operands| ==> Live(r, operands[i])
  {
    assert Live(r, u);
    LeftNode(g, frozen, r, w, keys, u, op, operands);
  }

  /** A node that is left and gets no more uses is used as before. */
  lemma LeftIsUsed(g: Graph, frozen: set<NodeId>, r: Graph, w: seq<multiset<NodeId>>, keys: Keys, n: NodeId)
    requires Cleaning(g, frozen, r, w, keys) && n in frozen && n < |g.op| && !g.op[n].Output?
    requires n < |r.operands| && r.operands[n] != []
    ensures exists u: NodeId :: u < |r.operands| && u < |g.operands| && n in r.operands[u] && n in g.operands[u]
  {
    CleaningFacts(g, frozen, r, w, keys);
    assert NoNewUse(g, r, n);
    assert r.op[n] == g.op[n];
    assert IsUsed(r, n);
  }

  /** If the product of a round is left, the sum it is added to is left, so is the next product, and so the
      next equality. */
  lemma NextIsLeft(g: Graph, frozen: set<NodeId>, r: Graph, w: seq<multiset<NodeId>>, keys: Keys, b: NodeId,
                   lt: NodeId, eq: NodeId, k: nat, k': nat)
    requires Cleaning(g, frozen, r, w, keys) && RoundNodes(g, b, lt, eq, k) && RoundNodes(g, b + 5, b + 3, b + 4, k')
    requires RoundUsers(g, b) && b + 2 in frozen && b + 3 in frozen && b + 5 in frozen && Live(r, b + 2)
    ensures b + 4 < |r.operands| && r.operands[b + 4] == [eq, b + 1]
  {
    hide Cleaning, Live, OnlyUser, TwoUsers;
    LeftNode(g, frozen, r, w, keys, b + 2, Mul, [b, eq]);
    SumIsLeft(g, frozen, r, w, keys, b, lt);
    ProductIsLeft(g, frozen, r, w, keys, b);
    LeftNode(g, frozen, r, w, keys, b + 7, Mul, [b + 5, b + 4]);
    assert [b + 5, b + 4][1] == b + 4;
    LeftNode(g, frozen, r, w, keys, b + 4, Mul, [eq, b + 1]);
  }

  lemma SumIsLeft(g: Graph, frozen: set<NodeId>, r: Graph, w: seq<multiset<NodeId>>, keys: Keys, b: NodeId, lt: NodeId)
    requires Cleaning(g, frozen, r, w, keys) && NodeIs(g, b + 3, Add, [lt, b + 2]) && b + 2 < |g.op|
    requires OnlyUser(g, b + 2, b + 3) && b + 2 in frozen && b + 2 < |r.operands| && r.operands[b + 2] != []
    requires !g.op[b + 2].Output?
    ensures b + 3 < |r.operands| && r.operands[b + 3] == [lt, b + 2]
  {
    hide Cleaning, Live;
    LeftIsUsed(g, frozen, r, w, keys, b + 2);
    UserIsLeft(g, frozen, r, w, keys, b + 2, b + 3, Add, [lt, b + 2]);
  }

  lemma ProductIsLeft(g: Graph, frozen: set<NodeId>, r: Graph, w: seq<multiset<NodeId>>, keys: Keys, b: NodeId)
    requires Cleaning(g, frozen, r, w, keys) && NodeIs(g, b + 7, Mul, [b + 5, b + 4])
    requires NodeIs(g, b + 8, Add, [b + 3, b + 7]) && b + 5 < |g.op| && g.op[b + 5].RotateLeft?
    requires g.operands[b + 5] == [b + 3] && g.op[b + 3].Add?
    requires TwoUsers(g, b + 3, b + 5, b + 8) && b + 3 in frozen && b + 3 < |r.operands| && r.operands[b + 3] != []
    requires OnlyUser(g, b + 5, b + 7) && b + 5 in frozen
    ensures Live(r, b + 7)
  {
    hide Cleaning;
    LeftIsUsed(g, frozen, r, w, keys, b + 3);
    var u: NodeId :| u < |r.operands| && u < |g.operands| && b + 3 in r.operands[u] && b + 3 in g.operands[u];
    if u == b + 5 {
      LeftIsUsed(g, frozen, r, w, keys, b + 5);
      assert r.operands[b + 7] != [];
    } else {
      UserIsLeft(g, frozen, r, w, keys, b + 3, b + 8, Add, [b + 3, b + 7]);
      assert [b + 3, b + 7][1] == b + 7;
    }
  }

  // ----- labels -----

  /** The product of a round does not merge the equality, which the next equality uses as well. */
  lemma ProductApart(g: Graph, frozen: set<NodeId>, labels: Labelling, b: NodeId, lt: NodeId, eq: NodeId, k: nat,
                     k': nat)
    requires RoundNodes(g, b, lt, eq, k) && RoundNodes(g, b + 5, b + 3, b + 4, k') && RoundUsers(g, b)
    requires b + 2 in frozen && b + 3 in frozen && b + 5 in frozen && b + 2 < |labels| && eq < |labels|
    requires Labelled(g, frozen, labels, b) && Labelled(g, frozen, labels, eq) && labels[b + 2].width == 2
    requires labels[b].depth + 1 <= labels[b + 2].depth && labels[eq].depth + 1 <= labels[b + 2].depth
    ensures Labelled(g, frozen, labels, b + 2)
  {
    hide Cleaning, NodeOk, Reducible, RoundUsers, Live;
    forall r: Graph, w: seq<multiset<NodeId>>, keys: Keys | Cleaning(g, frozen, r, w, keys) && Live(r, b + 2)
      ensures NodeOk(r, w, keys, labels, b + 2)
    {
      LeftNode(g, frozen, r, w, keys, b + 2, Mul, [b, eq]);
      NextIsLeft(g, frozen, r, w, keys, b, lt, eq, k, k');
      assert [b, eq][0] == b && [b, eq][1] == eq;
      assert r.operands[b + 4][0] == eq && r.operands[b + 2][1] == eq;
      TwiceUsed(r, eq, b + 4, b + 2);
      LeftNode(g, frozen, r, w, keys, b, RotateLeft(k), [lt]);
      NotMerged(r, b, b + 2);
      CleaningFacts(g, frozen, r, w, keys);
      ApartOk(r, w, keys, labels, b + 2, b, eq);
    }
  }

  /** A new equality does not merge the old one, which is turned as well. */
  lemma EqualityApart(g: Graph, frozen: set<NodeId>, labels: Labelling, n: NodeId, eq: NodeId, turned: NodeId, k: nat)
    requires NodeIs(g, turned, RotateLeft(k), [eq]) && NodeIs(g, n, Mul, [eq, turned])
    requires n < |labels| && eq < |labels| && turned < |labels| && labels[n].width == 2 && n != turned
    requires Labelled(g, frozen, labels, eq) && Labelled(g, frozen, labels, turned)
    requires labels[eq].depth + 1 <= labels[n].depth && labels[turned].depth + 1 <= labels[n].depth
    ensures Labelled(g, frozen, labels, n)
  {
    hide Cleaning, NodeOk, Reducible, Live;
    forall r: Graph, w: seq<multiset<NodeId>>, keys: Keys | Cleaning(g, frozen, r, w, keys) && Live(r, n)
      ensures NodeOk(r, w, keys, labels, n)
    {
      LeftNode(g, frozen, r, w, keys, n, Mul, [eq, turned]);
      assert [eq, turned][0] == eq && [eq, turned][1] == turned;
      LeftNode(g, frozen, r, w, keys, turned, RotateLeft(k), [eq]);
      assert r.operands[n][0] == eq && r.operands[turned][0] == eq && r.operands[n][1] == turned;
      TwiceUsed(r, eq, n, turned);
      NotMerged(r, turned, n);
      CleaningFacts(g, frozen, r, w, keys);
      ApartOk(r, w, keys, labels, n, eq, turned);
    }
  }

  // ----- lower labels -----

  /** The same labels once more nodes get no more uses. */
  lemma MoreFrozen(g: Graph, frozen: set<NodeId>, more: set<NodeId>, labels: Labelling)
    requires AllLabelled(g, frozen, labels)
    ensures AllLabelled(g, frozen + more, labels)
  {
    hide Labelled;
    var frozen' := frozen + more;
    assert Later(g, frozen, g, frozen');
    forall m: NodeId | m < |g.op|
      ensures Labelled(g, frozen', labels, m)
    {
      LabelledLater(g, frozen, labels, g, frozen', labels, m);
    }
  }

  /** All but the label of n are the same. */
  predicate SameBut(labels: Labelling, labels': Labelling, n: NodeId)
  {
    |labels| == |labels'| && forall m: NodeId :: m < |labels| && m != n ==> labels'[m] == labels[m]
  }

  /** Other labels stay right when the label of n is lowered. */
  lemma OthersStay(g: Graph, frozen: set<NodeId>, labels: Labelling, n: NodeId, labels': Labelling)
    requires AllLabelled(g, frozen, labels) && SameBut(labels, labels', n) && n < |labels|
    requires labels'[n].depth <= labels[n].depth
    ensures forall m: NodeId :: m < |labels| && m != n ==> Labelled(g, frozen, labels', m)
  {
    hide Labelled;
    assert Later(g, frozen, g, frozen);
    forall m: NodeId | m < |labels| && m != n
      ensures Labelled(g, frozen, labels', m)
    {
      LabelledLater(g, frozen, labels, g, frozen, labels', m);
    }
  }

  lemma AllStay(g: Graph, frozen: set<NodeId>, labels: Labelling, n: NodeId, labels': Labelling)
    requires AllLabelled(g, frozen, labels) && SameBut(labels, labels', n) && n < |labels|
    requires labels'[n].depth <= labels[n].depth && labels'[n].width >= 1 && Labelled(g, frozen, labels', n)
    ensures AllLabelled(g, frozen, labels')
  {
    hide Labelled;
    OthersStay(g, frozen, labels, n, labels');
  }

  /** A node that is no product is as deep as its operands. */
  lemma LowerOther(g: Graph, frozen: set<NodeId>, labels: Labelling, n: NodeId, op: Op, operands: seq<NodeId>, d: nat)
    returns (labels': Labelling)
    requires AllLabelled(g, frozen, labels) && NodeIs(g, n, op, operands) && !op.Mul?
    requires forall i: nat :: i < |operands| ==> var o := operands[i]; o < |g.op| && o != n && labels[o].depth <= d
    ensures AllLabelled(g, frozen, labels') && SameBut(labels, labels', n) && labels'[n].depth <= d
  {
    hide Labelled;
    labels' := labels;
    if d <= labels[n].depth {
      labels' := labels[n := Label(d, 1)];
      OthersStay(g, frozen, labels, n, labels');
      OtherLabelled(g, frozen, labels', n);
      AllStay(g, frozen, labels, n, labels');
    }
  }

  lemma EqualityLabelled(g: Graph, frozen: set<NodeId>, labels: Labelling, n: NodeId, eq: NodeId, turned: NodeId,
                         k: nat)
    requires AllLabelled(g, frozen, labels) && n < |labels| && eq < n && turned < n
    requires NodeIs(g, turned, RotateLeft(k), [eq]) && NodeIs(g, n, Mul, [eq, turned])
    requires labels[turned].depth == labels[eq].depth < labels[n].depth
    ensures Labelled(g, frozen, labels[n := Label(labels[eq].depth + 1, 2)], n)
  {
    hide Labelled;
    var labels' := labels[n := Label(labels[eq].depth + 1, 2)];
    OthersStay(g, frozen, labels, n, labels');
    EqualityApart(g, frozen, labels', n, eq, turned, k);
  }

  lemma LowerApart(g: Graph, frozen: set<NodeId>, labels: Labelling, b: NodeId, lt: NodeId, eq: NodeId, k: nat, k': nat,
                   d: nat)
    returns (labels': Labelling)
    requires AllLabelled(g, frozen, labels) && lt < b && eq < b
    requires RoundNodes(g, b, lt, eq, k) && RoundNodes(g, b + 5, b + 3, b + 4, k') && RoundUsers(g, b)
    requires b + 2 in frozen && b + 3 in frozen && b + 5 in frozen && b + 2 < |labels|
    requires labels[b].depth <= d && labels[eq].depth <= d
    ensures AllLabelled(g, frozen, labels') && SameBut(labels, labels', b + 2) && labels'[b + 2].depth <= d + 1
  {
    hide Labelled, RoundNodes, RoundUsers;
    labels' := labels;
    if d + 1 <= labels[b + 2].depth {
      labels' := labels[b + 2 := Label(d + 1, 2)];
      OthersStay(g, frozen, labels, b + 2, labels');
      ProductApart(g, frozen, labels', b, lt, eq, k, k');
      AllStay(g, frozen, labels, b + 2, labels');
    }
  }

  lemma LowerLast(g: Graph, frozen: set<NodeId>, labels: Labelling, b: NodeId, lt: NodeId, eq: NodeId, k: nat, d: nat)
    returns (labels': Labelling)
    requires AllLabelled(g, frozen, labels) && lt < b && eq < b && RoundNodes(g, b, lt, eq, k) && b + 2 < |labels|
    requires labels[b].depth <= d && labels[eq].depth <= d && FactorsOf(g, labels, eq) <= 2
    ensures AllLabelled(g, frozen, labels') && SameBut(labels, labels', b + 2) && labels'[b + 2].depth <= d + 2
  {
    hide Labelled;
    labels' := labels;
    if d + 2 <= labels[b + 2].depth {
      labels' := labels[b + 2 := Label(d + 2, 3)];
      OthersStay(g, frozen, labels, b + 2, labels');
      LastRoom(g, labels, labels', b, eq, d);
      ProductLabelled(g, frozen, labels', b + 2, b, eq);
      AllStay(g, frozen, labels, b + 2, labels');
    }
  }

  lemma LastRoom(g: Graph, labels: Labelling, labels': Labelling, b: NodeId, eq: NodeId, d: nat)
    requires b + 2 < |labels| && labels' == labels[b + 2 := Label(d + 2, 3)] && eq < b
    requires labels[b].depth <= d && labels[eq].depth <= d && FactorsOf(g, labels, eq) <= 2
    requires b < |g.op| && !g.op[b].Mul?
    ensures ProductRoom(g, labels', b + 2, b, eq)
  {
    assert FactorsOf(g, labels', eq) == FactorsOf(g, labels, eq) && FactorsOf(g, labels', b) == 1;
    assert LogUp(3) == 2;
    LogUpGrows(1 + FactorsOf(g, labels, eq), 3);
    hide LogUp, FactorsOf;
  }

  /** All but the labels of three nodes of the round are the same. */
  predicate SameOutside(labels: Labelling, labels': Labelling, b: NodeId)
  {
    && |labels| == |labels'|
    && forall m: NodeId :: m < |labels| && m != b && m != b + 2 && m != b + 3 ==> labels'[m] == labels[m]
  }

  lemma LowerRound(g: Graph, frozen: set<NodeId>, labels: Labelling, b: NodeId, lt: NodeId, eq: NodeId, k: nat, k': nat,
                   d: nat)
    returns (labels': Labelling)
    requires AllLabelled(g, frozen, labels) && lt < b && eq < b && b + 3 < |g.op|
    requires RoundNodes(g, b, lt, eq, k) && RoundNodes(g, b + 5, b + 3, b + 4, k') && RoundUsers(g, b)
    requires b + 2 in frozen && b + 3 in frozen && b + 5 in frozen
    requires labels[lt].depth <= d && labels[eq].depth <= d
    ensures AllLabelled(g, frozen, labels') && SameOutside(labels, labels', b) && labels'[b + 3].depth <= d + 1
  {
    hide AllLabelled, RoundUsers;
    LabelsAre(g, frozen, labels);
    labels' := LowerOther(g, frozen, labels, b, RotateLeft(k), [lt], d);
    labels' := LowerApart(g, frozen, labels', b, lt, eq, k, k', d);
    labels' := LowerOther(g, frozen, labels', b + 3, Add, [lt, b + 2], d + 1);
  }

  lemma LowerLastRound(g: Graph, frozen: set<NodeId>, labels: Labelling, b: NodeId, lt: NodeId, eq: NodeId, k: nat,
                       d: nat)
    returns (labels': Labelling)
    requires AllLabelled(g, frozen, labels) && lt < b && eq < b && b + 3 < |g.op| && RoundNodes(g, b, lt, eq, k)
    requires labels[lt].depth <= d && labels[eq].depth <= d && FactorsOf(g, labels, eq) <= 2
    ensures AllLabelled(g, frozen, labels') && SameOutside(labels, labels', b) && labels'[b + 3].depth <= d + 2
  {
    hide AllLabelled;
    LabelsAre(g, frozen, labels);
    labels' := LowerOther(g, frozen, labels, b, RotateLeft(k), [lt], d);
    assert FactorsOf(g, labels', eq) == FactorsOf(g, labels, eq);
    labels' := LowerLast(g, frozen, labels', b, lt, eq, k, d);
    labels' := LowerOther(g, frozen, labels', b + 3, Add, [lt, b + 2], d + 2);
  }

  lemma LabelsAre(g: Graph, frozen: set<NodeId>, labels: Labelling)
    requires AllLabelled(g, frozen, labels)
    ensures |labels| == |g.op| == |g.operands|
  {
  }

  /** What gets no more uses once the rounds are made. */
  function Between(c: NodeId): set<NodeId>
  {
    {c + 2, c + 3, c + 5}
  }

  function RoundsFrozen(b: NodeId): set<NodeId>
  {
    Between(b) + Between(b + 5) + Between(b + 10)
  }

  /** The equalities are as deep as they are made. */
  predicate EqualitiesAt(g: Graph, labels: Labelling, b: NodeId, lt: NodeId, eq: NodeId, d: nat)
  {
    && |labels| == b + 20 && lt < b && eq < b && labels[lt].depth <= d && labels[eq].depth <= d
    && labels[b + 4].depth <= d + 1 && labels[b + 9].depth <= d + 2 && labels[b + 14].depth <= d + 3
    && FactorsOf(g, labels, b + 14) <= 2
  }

  /** Only labels of the rounds differ, and not those of the equalities. */
  predicate SameOutsideRounds(labels: Labelling, labels': Labelling, b: NodeId)
  {
    && |labels| == |labels'| == b + 20 && (forall m: NodeId :: m < b ==> labels'[m] == labels[m])
    && labels'[b + 19] == labels[b + 19]
  }

  /** Four rounds add five levels to the comparison. */
  lemma LowerRounds(g: Graph, frozen: set<NodeId>, labels: Labelling, b: NodeId, lt: NodeId, eq: NodeId, d: nat)
    returns (labels': Labelling)
    requires AllLabelled(g, frozen, labels) && Rounds(g, b, lt, eq) && EqualitiesAt(g, labels, b, lt, eq, d)
    ensures AllLabelled(g, frozen + RoundsFrozen(b), labels') && SameOutsideRounds(labels, labels', b)
    ensures labels'[b + 18].depth <= d + 5
  {
    var frozen' := frozen + RoundsFrozen(b);
    MoreFrozen(g, frozen, RoundsFrozen(b), labels);
    UsersOfRound(g, b, lt, eq, b);
    UsersOfRound(g, b, lt, eq, b + 5);
    UsersOfRound(g, b, lt, eq, b + 10);
    hide AllLabelled, RoundNodes, RoundUsers, Ordered;
    var labels1 := LowerRound(g, frozen', labels, b, lt, eq, 1, 2, d);
    var labels2 := LowerRound(g, frozen', labels1, b + 5, b + 3, b + 4, 2, 4, d + 1);
    var labels3 := LowerRound(g, frozen', labels2, b + 10, b + 8, b + 9, 4, 8, d + 2);
    labels' := LowerLastRound(g, frozen', labels3, b + 15, b + 13, b + 14, 8, d + 3);
  }
}
