/** The mutable def-use graph: nodes of iyfc/dag/node.cpp kept in one arena by index. */
module Dags {
  import opened Graphs

  function Count(s: seq<NodeId>, x: NodeId): nat { multiset(s)[x] }

  /** std::vector::erase of the first occurrence found, if there is one. */
  function RemoveFirst(s: seq<NodeId>, x: NodeId): (r: seq<NodeId>)
    ensures |r| == if x in s then |s| - 1 else |s|
    ensures x !in s ==> r == s
  {
    if s == [] then []
    else if s[0] == x then s[1..]
    else [s[0]] + RemoveFirst(s[1..], x)
  }

  lemma {:induction false} CountRemoveFirst(s: seq<NodeId>, x: NodeId, y: NodeId)
    ensures Count(RemoveFirst(s, x), y) == if x in s && y == x then Count(s, y) - 1 else Count(s, y)
  {
    if s != [] {
      CountPop(s, y);
      if s[0] != x {
        CountRemoveFirst(s[1..], x, y);
        CountPop([s[0]] + RemoveFirst(s[1..], x), y);
      } else {
        CountPositive(s, x);
      }
    }
  }

  lemma {:induction false} RemoveFirstSubset(s: seq<NodeId>, x: NodeId)
    ensures forall i: nat :: i < |RemoveFirst(s, x)| ==> RemoveFirst(s, x)[i] in s
  {
    if s != [] && s[0] != x {
      RemoveFirstSubset(s[1..], x);
    }
  }

  /** Uses are the multiset inverse of operands: u occurs among the uses of a as often as
      a occurs among the operands of u. */
  ghost predicate UsesInverse(operands: seq<seq<NodeId>>, uses: seq<seq<NodeId>>)
  {
    && |uses| == |operands|
    && forall a: NodeId, u: NodeId :: a < |uses| ==> Balanced(operands, uses, a, u)
  }

  ghost predicate Balanced(operands: seq<seq<NodeId>>, uses: seq<seq<NodeId>>, a: NodeId, u: NodeId)
    requires a < |uses|
  {
    Count(uses[a], u) == if u < |operands| then Count(operands[u], a) else 0
  }

  /** Sinks are exactly the nodes without uses; exempt nodes may be missing. */
  ghost predicate SinksMatch(uses: seq<seq<NodeId>>, sinks: set<NodeId>, exempt: set<NodeId>)
  {
    && (forall n: NodeId :: n in sinks ==> n < |uses| && uses[n] == [])
    && (forall n: NodeId :: n < |uses| && uses[n] == [] ==> n in sinks || n in exempt)
  }

  ghost function Erased(g: Graph): set<NodeId>
  {
    set n: NodeId | 0 <= n < |g.operands| && !Live(g, n)
  }

  lemma CountPositive(s: seq<NodeId>, x: NodeId)
    ensures Count(s, x) > 0 <==> x in s
  {
    assert x in multiset(s) <==> x in s;
  }

  lemma CountAppend(s: seq<NodeId>, t: seq<NodeId>, x: NodeId)
    ensures Count(s + t, x) == Count(s, x) + Count(t, x)
  {
  }

  lemma CountPop(s: seq<NodeId>, x: NodeId)
    requires s != []
    ensures Count(s, x) == Count(s[1..], x) + if s[0] == x then 1 else 0
  {
    assert s == [s[0]] + s[1..];
  }

  function SetAt(s: seq<NodeId>, i: nat, b: NodeId): seq<NodeId>
    requires i < |s|
  {
    s[i := b]
  }

  lemma CountUpdate(s: seq<NodeId>, i: nat, b: NodeId, x: NodeId)
    requires i < |s|
    ensures Count(SetAt(s, i, b), x) + (if s[i] == x then 1 else 0) == Count(s, x) + if b == x then 1 else 0
  {
    assert s == s[..i] + [s[i]] + s[i+1..];
    assert s[i := b] == s[..i] + [b] + s[i+1..];
  }

  lemma UsersAreUses(operands: seq<seq<NodeId>>, uses: seq<seq<NodeId>>, a: NodeId, u: NodeId)
    requires UsesInverse(operands, uses) && a < |operands|
    ensures u in uses[a] <==> u < |operands| && a in operands[u]
  {
    assert Balanced(operands, uses, a, u);
    CountPositive(uses[a], u);
    if u < |operands| {
      CountPositive(operands[u], a);
    }
  }

  class Dag {
    var op: seq<Op>
    var operands: seq<seq<NodeId>>
    var uses: seq<seq<NodeId>>
    var sources: set<NodeId>
    var sinks: set<NodeId>

    ghost function G(): Graph
      reads this
    {
      Graph(op, operands, sources)
    }

    ghost predicate Valid()
      reads this
    {
      && WellFormed(G())
      && UsesInverse(operands, uses)
      && SinksMatch(uses, sinks, Erased(G()))
    }

    constructor ()
      ensures Valid() && G() == Graph([], [], {})
    {
      op, operands, uses, sources, sinks := [], [], [], {}, {};
    }

    method AddUse(a: NodeId, user: NodeId)
      requires a < |uses|
      requires forall n: NodeId :: n in sinks ==> n < |uses| && uses[n] == []
      modifies this`uses, this`sinks
      ensures uses == old(uses)[a := old(uses)[a] + [user]]
      ensures sinks == old(sinks) - {a}
    {
      if uses[a] == [] {
        sinks := sinks - {a};
      }
      uses := uses[a := uses[a] + [user]];
    }

    method EraseUse(a: NodeId, user: NodeId)
      requires a < |uses|
      modifies this`uses, this`sinks
      ensures uses == old(uses)[a := RemoveFirst(old(uses)[a], user)]
      ensures sinks == if user in old(uses)[a] && uses[a] == [] then old(sinks) + {a} else old(sinks)
    {
      if user in uses[a] {
        uses := uses[a := RemoveFirst(uses[a], user)];
        if uses[a] == [] {
          sinks := sinks + {a};
        }
      }
    }

    method AddOperand(n: NodeId, b: NodeId)
      requires Valid() && Live(G(), n) && Live(G(), b)
      modifies this`operands, this`uses, this`sources, this`sinks
      ensures Valid()
      ensures operands == old(operands)[n := old(operands)[n] + [b]]
      ensures sources == old(sources) - {n}
    {
      ghost var ops0, erased := operands, Erased(G());
      if operands[n] == [] {
        sources := sources - {n};
      }
      operands := operands[n := operands[n] + [b]];
      AddUse(b, n);
      assert forall m: NodeId :: Live(G(), m) <==> Live(old(G()), m);
      assert Erased(G()) == erased;
      InverseAfterAdd(ops0, old(uses), n, b);
    }

    /** Removes the first occurrence of b among the operands of n, if there is one. */
    method EraseOperand(n: NodeId, b: NodeId) returns (found: bool)
      requires Valid() && Live(G(), n) && b < |operands|
      modifies this`operands, this`uses, this`sources, this`sinks
      ensures Valid()
      ensures found == (b in old(operands)[n])
      ensures operands == old(operands)[n := RemoveFirst(old(operands)[n], b)]
      ensures sources == if found && operands[n] == [] then old(sources) + {n} else old(sources)
    {
      ghost var erased := Erased(G());
      found := b in operands[n];
      if found {
        EraseUse(b, n);
        operands := operands[n := RemoveFirst(operands[n], b)];
        if operands[n] == [] {
          sources := sources + {n};
        }
        InverseAfterErase(old(operands), old(uses), n, b);
        assert forall m: NodeId :: Live(G(), m) <==> Live(old(G()), m);
        assert Erased(G()) == erased;
        RemoveFirstSubset(old(operands)[n], b);
      }
    }

    /** Drops the operands front to back. The source set is left alone, so a node that had
        operands and still has uses ends up registered nowhere. */
    method EraseAllOperand(n: NodeId)
      requires Valid() && n < |operands| && n !in operands[n]
      modifies this`operands, this`uses, this`sinks
      ensures operands == old(operands)[n := []]
      ensures UsesInverse(operands, uses)
      ensures SinksMatch(uses, sinks, old(Erased(G())))
      ensures Valid() <==> old(operands[n] == [] || uses[n] == [])
    {
      ghost var g0, erased := G(), Erased(G());
      ghost var i := 0;
      while operands[n] != []
        invariant i <= |g0.operands[n]| && operands == g0.operands[n := g0.operands[n][i..]]
        invariant UsesInverse(operands, uses)
        invariant SinksMatch(uses, sinks, erased)
        invariant uses[n] == old(uses[n])
        invariant i == 0 ==> uses == old(uses) && sinks == old(sinks)
        decreases |operands[n]|
      {
        var a := operands[n][0];
        assert a == g0.operands[n][i] && Live(g0, g0.operands[n][i]);
        PopInverse(operands, uses, n);
        SinksAfterErase(uses, sinks, erased, a, n);
        EraseUse(a, n);
        operands := operands[n := operands[n][1..]];
        i := i + 1;
      }
      DetachedValid(g0, G(), uses, sinks, n);
    }

    method EraseSink(n: NodeId)
      modifies this`sinks
      ensures sinks == old(sinks) - {n}
    {
      sinks := sinks - {n};
    }

    method EraseSource(n: NodeId)
      modifies this`sources
      ensures sources == old(sources) - {n}
    {
      sources := sources - {n};
    }

    /** Gives n a new operand list. */
    method SetOperands(n: NodeId, os: seq<NodeId>)
      requires Valid() && Live(G(), n)
      requires forall i: nat :: i < |os| ==> Live(G(), os[i])
      modifies this`operands, this`uses, this`sources, this`sinks
      ensures Valid()
      ensures operands == old(operands)[n := os]
      ensures sources == if os == [] then old(sources) + {n} else old(sources) - {n}
    {
      ghost var g0, erased := G(), Erased(G());
      if operands[n] == [] {
        sources := sources - {n};
      }
      ghost var ops0 := operands;
      assert operands[n := operands[n][0..]] == operands;
      for i := 0 to |operands[n]|
        invariant operands == ops0 && sources == g0.sources - {n}
        invariant UsesInverse(ops0[n := ops0[n][i..]], uses)
        invariant SinksMatch(uses, sinks, erased)
      {
        var a := operands[n][i];
        assert Live(g0, g0.operands[n][i]);
        PopInverse(ops0[n := ops0[n][i..]], uses, n);
        SinksAfterErase(uses, sinks, erased, a, n);
        EraseUse(a, n);
        assert ops0[n := ops0[n][i..]][n := ops0[n][i..][1..]] == ops0[n := ops0[n][i+1..]];
      }
      operands := operands[n := os];
      assert ops0[n][|ops0[n]|..] == os[..0];
      for i := 0 to |os|
        invariant operands == ops0[n := os] && sources == g0.sources - {n}
        invariant UsesInverse(ops0[n := os[..i]], uses)
        invariant SinksMatch(uses, sinks, erased)
      {
        InverseAfterAdd(ops0[n := os[..i]], uses, n, os[i]);
        AddUse(os[i], n);
        assert os[..i+1] == os[..i] + [os[i]];
        assert ops0[n := os[..i]][n := os[..i] + [os[i]]] == ops0[n := os[..i+1]];
      }
      assert os[..|os|] == os;
      if os == [] {
        sources := sources + {n};
      }
      SetOperandsLive(g0, G(), n, os);
    }

    /** A fresh node; Dag::makeNode. */
    method MakeNode(o: Op, os: seq<NodeId>) returns (x: NodeId)
      requires Valid()
      requires forall i: nat :: i < |os| ==> Live(G(), os[i])
      modifies this
      ensures Valid()
      ensures x == old(|operands|)
      ensures G() == AddNode(old(G()), o, os)
    {
      x := |operands|;
      ghost var g0 := G();
      FreshInverse(operands, uses);
      op, operands, uses := op + [o], operands + [[]], uses + [[]];
      sources, sinks := sources + {x}, sinks + {x};
      AddNodeWellFormed(g0, o, []);
      assert G() == AddNode(g0, o, []);
      assert Erased(G()) == Erased(g0);
      assert SinksMatch(uses, sinks, Erased(G()));
      if |os| > 0 {
        assert forall i: nat :: i < |os| ==> Live(g0, os[i]);
        SetOperands(x, os);
        assert x !in g0.sources;
      }
    }

    /** Operand i of n becomes b. */
    method SwapOperand(n: NodeId, i: nat, b: NodeId, ghost erased: set<NodeId>)
      requires UsesInverse(operands, uses) && SinksMatch(uses, sinks, erased)
      requires n < |operands| && i < |operands[n]| && operands[n][i] < |operands| && b < |operands| && b !in erased
      modifies this`operands, this`uses, this`sinks
      ensures operands == old(operands)[n := SetAt(old(operands)[n], i, b)]
      ensures UsesInverse(operands, uses) && SinksMatch(uses, sinks, erased)
    {
      var a := operands[n][i];
      SwapInverse(operands, uses, n, i, b);
      SinksAfterErase(uses, sinks, erased, a, n);
      operands := operands[n := SetAt(operands[n], i, b)];
      EraseUse(a, n);
      AddUse(b, n);
    }

    /** Replaces every occurrence of a among the operands of n by b. */
    method ReplaceOperand(n: NodeId, a: NodeId, b: NodeId) returns (replaced: bool)
      requires Valid() && n < |operands| && a < |operands| && Live(G(), b)
      modifies this`operands, this`uses, this`sinks
      ensures Valid()
      ensures replaced == (a in old(operands)[n])
      ensures G() == ReplaceIn(old(G()), n, a, b)
    {
      ghost var g0, erased := G(), Erased(G());
      ghost var os := Subst(operands[n], a, b);
      replaced := false;
      for i := 0 to |operands[n]|
        invariant |operands| == |g0.operands| && |operands[n]| == |os|
        invariant forall m: NodeId :: m < |operands| && m != n ==> operands[m] == g0.operands[m]
        invariant forall k: nat :: k < |os| ==> operands[n][k] == if k < i then os[k] else g0.operands[n][k]
        invariant UsesInverse(operands, uses)
        invariant SinksMatch(uses, sinks, erased)
        invariant replaced == (a in g0.operands[n][..i])
      {
        if operands[n][i] == a {
          SwapOperand(n, i, b, erased);
          replaced := true;
        }
        assert g0.operands[n][..i+1] == g0.operands[n][..i] + [g0.operands[n][i]];
      }
      assert g0.operands[n][..|g0.operands[n]|] == g0.operands[n];
      assert operands[n] == os;
      assert operands == g0.operands[n := os];
      ReplaceWellFormed(g0, n, a, b);
      assert Erased(G()) == erased;
    }

    /** Visits a snapshot of the uses of a and moves those accepted over to b. */
    method ReplaceUsesWithIf(a: NodeId, b: NodeId, accept: NodeId -> bool)
      requires Valid() && a < |operands| && Live(G(), b)
      modifies this`operands, this`uses, this`sinks
      ensures Valid()
      ensures G() == RedirectIf(old(G()), a, b, accept)
    {
      var snapshot := uses[a];
      ghost var g0 := G();
      RedirectStart(g0, a, b, accept);
      for i := 0 to |snapshot|
        invariant Valid() && a < |operands| && Live(G(), b)
        invariant G() == Redirected(g0, a, b, accept, snapshot[..i])
      {
        UsersAreUses(g0.operands, old(uses), a, snapshot[i]);
        RedirectStep(g0, a, b, accept, snapshot, i);
        if accept(snapshot[i]) {
          ReplaceWellFormed(G(), snapshot[i], a, b);
          var _ := ReplaceOperand(snapshot[i], a, b);
        }
      }
      assert snapshot[..|snapshot|] == snapshot;
      RedirectEnd(g0, old(uses), a, b, accept);
    }

    method ReplaceAllUsesWith(a: NodeId, b: NodeId)
      requires Valid() && a < |operands| && Live(G(), b)
      modifies this`operands, this`uses, this`sinks
      ensures Valid()
      ensures G() == RedirectAll(old(G()), a, b)
    {
      ReplaceUsesWithIf(a, b, _ => true);
    }

    method ReplaceOtherUsesWith(a: NodeId, b: NodeId)
      requires Valid() && a < |operands| && Live(G(), b)
      modifies this`operands, this`uses, this`sinks
      ensures Valid()
      ensures G() == RedirectIf(old(G()), a, b, n => n != b)
    {
      ReplaceUsesWithIf(a, b, n => n != b);
    }
  }

  lemma DetachedValid(g0: Graph, g: Graph, uses: seq<seq<NodeId>>, sinks: set<NodeId>, n: NodeId)
    requires WellFormed(g0) && n < |g0.operands|
    requires g == g0.(operands := g0.operands[n := []])
    requires UsesInverse(g.operands, uses) && SinksMatch(uses, sinks, Erased(g0))
    ensures WellFormed(g) && SinksMatch(uses, sinks, Erased(g)) <==> g0.operands[n] == [] || uses[n] == []
  {
    if g0.operands[n] == [] {
      assert g0.operands[n := []] == g0.operands;
    } else if uses[n] == [] {
      forall m: NodeId, i: nat | m < |g.operands| && i < |g.operands[m]|
        ensures Live(g, g.operands[m][i])
      {
        assert Live(g0, g0.operands[m][i]);
        UsersAreUses(g.operands, uses, n, m);
      }
      assert forall m: NodeId :: Live(g, m) ==> Live(g0, m);
    } else {
      var u := uses[n][0];
      UsersAreUses(g.operands, uses, n, u);
      var i :| 0 <= i < |g.operands[u]| && g.operands[u][i] == n;
      assert !Live(g, g.operands[u][i]);
    }
  }

  lemma SetOperandsLive(g0: Graph, g: Graph, n: NodeId, os: seq<NodeId>)
    requires WellFormed(g0) && Live(g0, n)
    requires forall i: nat :: i < |os| ==> Live(g0, os[i])
    requires g.op == g0.op && g.operands == g0.operands[n := os]
    requires g.sources == if os == [] then g0.sources - {n} + {n} else g0.sources - {n}
    ensures WellFormed(g) && Erased(g) == Erased(g0)
    ensures forall m: NodeId :: Live(g, m) <==> Live(g0, m)
  {
    assert forall m: NodeId :: Live(g, m) <==> Live(g0, m);
    forall m: NodeId, i: nat | m < |g.operands| && i < |g.operands[m]|
      ensures Live(g, g.operands[m][i])
    {
      if m != n {
        assert Live(g0, g0.operands[m][i]);
      }
    }
  }

  /** The uses of a listed in done have been moved over to b. */
  ghost function Redirected(g: Graph, a: NodeId, b: NodeId, accept: NodeId -> bool, done: seq<NodeId>): Graph
  {
    RedirectIf(g, a, b, (n: NodeId) => accept(n) && n in done)
  }

  lemma RedirectStart(g: Graph, a: NodeId, b: NodeId, accept: NodeId -> bool)
    ensures Redirected(g, a, b, accept, []) == g
  {
    assert Redirected(g, a, b, accept, []).operands == g.operands;
  }

  lemma RedirectStep(g: Graph, a: NodeId, b: NodeId, accept: NodeId -> bool, users: seq<NodeId>, i: nat)
    requires i < |users| && users[i] < |g.operands|
    ensures Redirected(g, a, b, accept, users[..i+1]) ==
            if accept(users[i]) then ReplaceIn(Redirected(g, a, b, accept, users[..i]), users[i], a, b)
            else Redirected(g, a, b, accept, users[..i])
  {
    var u := users[i];
    assert users[..i+1] == users[..i] + [u];
    SubstTwice(g.operands[u], a, b);
    var g1, g2 := Redirected(g, a, b, accept, users[..i]), Redirected(g, a, b, accept, users[..i+1]);
    if accept(u) {
      assert ReplaceIn(g1, u, a, b).operands == g2.operands;
    } else {
      assert g1.operands == g2.operands;
    }
  }

  lemma RedirectEnd(g: Graph, uses: seq<seq<NodeId>>, a: NodeId, b: NodeId, accept: NodeId -> bool)
    requires UsesInverse(g.operands, uses) && a < |g.operands|
    ensures Redirected(g, a, b, accept, uses[a]) == RedirectIf(g, a, b, accept)
  {
    var g1, g2 := Redirected(g, a, b, accept, uses[a]), RedirectIf(g, a, b, accept);
    forall m: NodeId | m < |g.operands|
      ensures g1.operands[m] == g2.operands[m]
    {
      UsersAreUses(g.operands, uses, a, m);
      if a !in g.operands[m] {
        assert Subst(g.operands[m], a, b) == g.operands[m];
      }
    }
    assert g1.operands == g2.operands;
  }

  lemma SubstTwice(s: seq<NodeId>, a: NodeId, b: NodeId)
    ensures Subst(Subst(s, a, b), a, b) == Subst(s, a, b)
  {
  }

  lemma PopInverse(operands: seq<seq<NodeId>>, uses: seq<seq<NodeId>>, n: NodeId)
    requires UsesInverse(operands, uses) && n < |operands| && operands[n] != [] && operands[n][0] < |operands|
    ensures n in uses[operands[n][0]]
    ensures UsesInverse(operands[n := operands[n][1..]],
                        uses[operands[n][0] := RemoveFirst(uses[operands[n][0]], n)])
  {
    InverseAfterErase(operands, uses, n, operands[n][0]);
    assert RemoveFirst(operands[n], operands[n][0]) == operands[n][1..];
  }

  lemma SwapInverse(operands: seq<seq<NodeId>>, uses: seq<seq<NodeId>>, n: NodeId, i: nat, b: NodeId)
    requires UsesInverse(operands, uses) && n < |operands| && i < |operands[n]|
    requires operands[n][i] < |operands| && b < |operands|
    ensures n in uses[operands[n][i]]
    ensures var a := operands[n][i]; var uses1 := uses[a := RemoveFirst(uses[a], n)];
            UsesInverse(operands[n := SetAt(operands[n], i, b)], uses1[b := uses1[b] + [n]])
  {
    var a := operands[n][i];
    UsersAreUses(operands, uses, a, n);
    var uses1 := uses[a := RemoveFirst(uses[a], n)];
    var operands', uses' := operands[n := SetAt(operands[n], i, b)], uses1[b := uses1[b] + [n]];
    forall x: NodeId, u: NodeId | x < |uses'|
      ensures Balanced(operands', uses', x, u)
    {
      assert Balanced(operands, uses, x, u);
      CountRemoveFirst(uses[a], n, u);
      CountAppend(uses1[b], [n], u);
      CountUpdate(operands[n], i, b, x);
    }
  }

  lemma FreshInverse(operands: seq<seq<NodeId>>, uses: seq<seq<NodeId>>)
    requires UsesInverse(operands, uses)
    requires forall n: NodeId, i: nat :: n < |operands| && i < |operands[n]| ==> operands[n][i] < |operands|
    ensures UsesInverse(operands + [[]], uses + [[]])
  {
    var operands', uses' := operands + [[]], uses + [[]];
    forall a: NodeId, u: NodeId | a < |uses'|
      ensures Balanced(operands', uses', a, u)
    {
      if a < |uses| {
        assert Balanced(operands, uses, a, u);
      } else if u < |operands| {
        CountPositive(operands[u], a);
      }
    }
  }

  lemma SinksAfterErase(uses: seq<seq<NodeId>>, sinks: set<NodeId>, exempt: set<NodeId>, a: NodeId, user: NodeId)
    requires SinksMatch(uses, sinks, exempt) && a < |uses| && user in uses[a]
    ensures var uses' := uses[a := RemoveFirst(uses[a], user)];
            SinksMatch(uses', if uses'[a] == [] then sinks + {a} else sinks, exempt)
  {
  }

  lemma InverseAfterAdd(operands: seq<seq<NodeId>>, uses: seq<seq<NodeId>>, n: NodeId, b: NodeId)
    requires UsesInverse(operands, uses) && n < |operands| && b < |operands|
    ensures UsesInverse(operands[n := operands[n] + [b]], uses[b := uses[b] + [n]])
  {
    var operands', uses' := operands[n := operands[n] + [b]], uses[b := uses[b] + [n]];
    forall a: NodeId, u: NodeId | a < |uses'|
      ensures Balanced(operands', uses', a, u)
    {
      assert Balanced(operands, uses, a, u);
      CountAppend(uses[b], [n], u);
      CountAppend(operands[n], [b], a);
    }
  }

  lemma InverseAfterErase(operands: seq<seq<NodeId>>, uses: seq<seq<NodeId>>, n: NodeId, b: NodeId)
    requires UsesInverse(operands, uses) && n < |operands| && b < |operands|
    requires b in operands[n]
    ensures n in uses[b]
    ensures UsesInverse(operands[n := RemoveFirst(operands[n], b)], uses[b := RemoveFirst(uses[b], n)])
  {
    UsersAreUses(operands, uses, b, n);
    var operands', uses' := operands[n := RemoveFirst(operands[n], b)], uses[b := RemoveFirst(uses[b], n)];
    forall a: NodeId, u: NodeId | a < |uses'|
      ensures Balanced(operands', uses', a, u)
    {
      assert Balanced(operands, uses, a, u);
      CountRemoveFirst(uses[b], n, u);
      CountRemoveFirst(operands[n], b, a);
    }
  }
}
