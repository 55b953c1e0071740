/** The parameter checker, iyfc/seal/alo/parameter_checker.cpp: along every path the same primes
    must have been dropped; a mod-switch drops a prime not known yet, written as zero. */
module ParameterCheckers {
  import opened Graphs
  import opened Dags
  import opened Traversals
  import opened Types
  import opened ModSwitchSpec
  import opened ModSwitchers
  import opened ModSwitchPass
  import opened Levels
  import opened Kinds
  import opened ChainLevels
  import opened Selectors

  function Entry(list: seq<nat>, i: nat): nat
  {
    if i < |list| then list[i] else 0
  }

  /** Known primes are kept, unknown ones filled in. */
  function Merged(parms: seq<nat>, other: seq<nat>): (r: seq<nat>)
    ensures other == [] ==> r == parms
    ensures other != [] && parms == [] ==> r == other
    ensures other != [] && parms != [] ==> |r| == |parms|
  {
    if other == [] then parms
    else if parms == [] then other
    else seq(|parms|, i requires 0 <= i < |parms| => if parms[i] == 0 then Entry(other, i) else parms[i])
  }

  /** Neither of the two warnings is given. */
  predicate Agrees(parms: seq<nat>, other: seq<nat>)
  {
    other == [] || parms == [] ||
    (|other| == |parms| && forall i: nat :: i < |parms| && parms[i] != 0 && other[i] != 0 ==> parms[i] == other[i])
  }

  function MergedAll(operands: seq<NodeId>, lists: PrimeMap, parms: seq<nat>): seq<nat>
    decreases |operands|
  {
    if operands == [] then parms else MergedAll(operands[1..], lists, Merged(parms, PrimesAt(lists, operands[0])))
  }

  predicate AgreesAll(operands: seq<NodeId>, lists: PrimeMap, parms: seq<nat>)
    decreases |operands|
  {
    operands == [] ||
    (Agrees(parms, PrimesAt(lists, operands[0]))
      && AgreesAll(operands[1..], lists, Merged(parms, PrimesAt(lists, operands[0]))))
  }

  function Dropped(op: Op): seq<nat>
  {
    if op.ModSwitch? then [0] else if op.Rescale? then [op.divisor] else []
  }

  predicate IsChecked(g: Graph, types: TypeMap, n: NodeId)
    requires n < |g.op|
  {
    TypeAt(types, n) != Raw && !g.op[n].Encode?
  }

  function ParmsAt(g: Graph, types: TypeMap, attr: LevelAttr, lists: PrimeMap, n: NodeId): seq<nat>
    requires n < |g.operands| && n < |g.op|
  {
    if !IsChecked(g, types, n) then []
    else if g.operands[n] == [] then Repeat(0, if AttrAt(attr, n) > 0 then AttrAt(attr, n) else 0)
    else MergedAll(g.operands[n], lists, []) + Dropped(g.op[n])
  }

  predicate ParmsAgree(g: Graph, types: TypeMap, lists: PrimeMap, n: NodeId)
    requires n < |g.operands| && n < |g.op|
  {
    IsChecked(g, types, n) ==> AgreesAll(g.operands[n], lists, [])
  }

  ghost predicate ParmsComputed(g: Graph, types: TypeMap, attr: LevelAttr, lists: PrimeMap)
  {
    && |g.op| == |g.operands|
    && forall n: NodeId :: Live(g, n) ==> PrimesAt(lists, n) == ParmsAt(g, types, attr, lists, n)
  }

  ghost predicate AllAgree(g: Graph, types: TypeMap, lists: PrimeMap)
  {
    |g.op| == |g.operands| && forall n: NodeId :: Live(g, n) ==> ParmsAgree(g, types, lists, n)
  }

  // ----- the pass -----

  ghost predicate ParmsUpTo(g: Graph, types: TypeMap, attr: LevelAttr, lists: PrimeMap, quiet: bool,
                            order: seq<NodeId>, k: nat)
    requires k <= |order|
  {
    && (forall j: nat :: j < k ==> ParmsDone(g, types, attr, lists, order[j]))
    && (forall n: NodeId :: n in lists ==> n in order[..k])
    && (quiet <==> AgreeUpTo(g, types, lists, order, k))
  }

  ghost predicate AgreeUpTo(g: Graph, types: TypeMap, lists: PrimeMap, order: seq<NodeId>, k: nat)
    requires k <= |order|
  {
    forall j: nat :: j < k ==> AgreesAt(g, types, lists, order[j])
  }

  predicate AgreesAt(g: Graph, types: TypeMap, lists: PrimeMap, n: NodeId)
  {
    n < |g.operands| && n < |g.op| && ParmsAgree(g, types, lists, n)
  }

  predicate ParmsDone(g: Graph, types: TypeMap, attr: LevelAttr, lists: PrimeMap, n: NodeId)
  {
    n < |g.operands| && n < |g.op| && PrimesAt(lists, n) == ParmsAt(g, types, attr, lists, n)
  }

  lemma {:induction false} MergedFrame(operands: seq<NodeId>, lists: PrimeMap, lists': PrimeMap, parms: seq<nat>)
    requires forall i: nat :: i < |operands| ==> PrimesAt(lists, operands[i]) == PrimesAt(lists', operands[i])
    ensures MergedAll(operands, lists, parms) == MergedAll(operands, lists', parms)
    ensures AgreesAll(operands, lists, parms) <==> AgreesAll(operands, lists', parms)
    decreases |operands|
  {
    if operands != [] {
      MergedFrame(operands[1..], lists, lists', Merged(parms, PrimesAt(lists, operands[0])));
    }
  }

  lemma ParmsFrame(g: Graph, types: TypeMap, attr: LevelAttr, lists: PrimeMap, order: seq<NodeId>, k: nat,
                   list: seq<nat>, j: nat)
    requires WellFormed(g) && j <= k < |order| && TopologicalOrder(g.operands, LiveNodes(g), order)
    ensures order[j] < |g.operands| && order[j] < |g.op|
    ensures ParmsAt(g, types, attr, lists[order[k] := list], order[j]) == ParmsAt(g, types, attr, lists, order[j])
    ensures ParmsAgree(g, types, lists[order[k] := list], order[j]) <==> ParmsAgree(g, types, lists, order[j])
  {
    var lists' := lists[order[k] := list];
    forall i: nat | i < |g.operands[order[j]]|
      ensures g.operands[order[j]][i] != order[k]
    {
      assert g.operands[order[j]][i] in Elems(order[..j]);
      var m :| 0 <= m < j && order[..j][m] == g.operands[order[j]][i];
      assert order[m] != order[k];
    }
    MergedFrame(g.operands[order[j]], lists, lists', []);
  }

  lemma ParmsStep(g: Graph, types: TypeMap, attr: LevelAttr, lists: PrimeMap, quiet: bool, order: seq<NodeId>, k: nat,
                  list: seq<nat>, agrees: bool)
    requires WellFormed(g) && k < |order| && TopologicalOrder(g.operands, LiveNodes(g), order)
    requires order[k] < |g.operands| && order[k] < |g.op| && list == ParmsAt(g, types, attr, lists, order[k])
    requires (agrees <==> ParmsAgree(g, types, lists, order[k])) && ParmsUpTo(g, types, attr, lists, quiet, order, k)
    ensures ParmsUpTo(g, types, attr, lists[order[k] := list], quiet && agrees, order, k + 1)
  {
    hide TopologicalOrder, WellFormed, ParmsAt, ParmsAgree, ParmsDone, AgreesAt;
    ListsStep(g, types, attr, lists, order, k, list, lists[order[k] := list]);
    AgreeStep(g, types, attr, lists, order, k, list, agrees);
  }

  lemma ListsStep(g: Graph, types: TypeMap, attr: LevelAttr, lists: PrimeMap, order: seq<NodeId>, k: nat,
                  list: seq<nat>, lists': PrimeMap)
    requires WellFormed(g) && k < |order| && TopologicalOrder(g.operands, LiveNodes(g), order)
      && lists' == lists[order[k] := list]
    requires order[k] < |g.operands| && order[k] < |g.op| && list == ParmsAt(g, types, attr, lists, order[k])
    requires forall j: nat :: j < k ==> ParmsDone(g, types, attr, lists, order[j])
    requires forall n: NodeId :: n in lists ==> n in order[..k]
    ensures forall j: nat :: j < k + 1 ==> ParmsDone(g, types, attr, lists', order[j])
    ensures forall n: NodeId :: n in lists' ==> n in order[..k+1]
  {
    assert order[..k+1] == order[..k] + [order[k]];
    assert NoDuplicates(order);
    hide TopologicalOrder, WellFormed, ParmsAt, ParmsAgree;
    forall j: nat | j <= k
      ensures ParmsDone(g, types, attr, lists', order[j])
    {
      ParmsFrame(g, types, attr, lists, order, k, list, j);
      assert j < k ==> order[j] != order[k] && ParmsDone(g, types, attr, lists, order[j]);
    }
  }

  lemma AgreeStep(g: Graph, types: TypeMap, attr: LevelAttr, lists: PrimeMap, order: seq<NodeId>, k: nat,
                  list: seq<nat>, agrees: bool)
    requires WellFormed(g) && k < |order| && TopologicalOrder(g.operands, LiveNodes(g), order)
    requires order[k] < |g.operands| && order[k] < |g.op| && (agrees <==> ParmsAgree(g, types, lists, order[k]))
    ensures AgreeUpTo(g, types, lists[order[k] := list], order, k + 1) <==>
      AgreeUpTo(g, types, lists, order, k) && agrees
  {
    var lists' := lists[order[k] := list];
    forall j: nat | j <= k
      ensures AgreesAt(g, types, lists', order[j]) <==> AgreesAt(g, types, lists, order[j])
    {
      ParmsFrame(g, types, attr, lists, order, k, list, j);
    }
    assert AgreesAt(g, types, lists, order[k]) <==> agrees;
    hide AgreesAt, TopologicalOrder, WellFormed;
  }

  lemma ParmsEnd(g: Graph, types: TypeMap, attr: LevelAttr, lists: PrimeMap, quiet: bool, order: seq<NodeId>)
    requires WellFormed(g) && TopologicalOrder(g.operands, LiveNodes(g), order)
      && ParmsUpTo(g, types, attr, lists, quiet, order, |order|)
    ensures ParmsComputed(g, types, attr, lists) && (quiet <==> AllAgree(g, types, lists))
  {
    forall n: NodeId | Live(g, n)
      ensures exists j: nat :: j < |order| && order[j] == n
      ensures PrimesAt(lists, n) == ParmsAt(g, types, attr, lists, n)
    {
      assert n in Elems(order);
      var j :| 0 <= j < |order| && order[j] == n;
      assert ParmsDone(g, types, attr, lists, order[j]);
    }
    forall j: nat | j < |order|
      ensures Live(g, order[j])
    {
      assert order[j] in Elems(order);
    }
    hide ParmsAt, ParmsDone, TopologicalOrder;
    AgreeEnd(g, types, lists, order);
  }

  lemma AgreeEnd(g: Graph, types: TypeMap, lists: PrimeMap, order: seq<NodeId>)
    requires |g.op| == |g.operands| && forall j: nat :: j < |order| ==> Live(g, order[j])
    requires forall n: NodeId :: Live(g, n) ==> exists j: nat :: j < |order| && order[j] == n
    ensures AgreeUpTo(g, types, lists, order, |order|) <==> AllAgree(g, types, lists)
  {
    hide ParmsAgree;
    if AgreeUpTo(g, types, lists, order, |order|) {
      forall n: NodeId | Live(g, n)
        ensures ParmsAgree(g, types, lists, n)
      {
        var j: nat :| j < |order| && order[j] == n;
        assert AgreesAt(g, types, lists, order[j]);
      }
    }
  }

  lemma ParmsStart(g: Graph, types: TypeMap, attr: LevelAttr, order: seq<NodeId>)
    ensures ParmsUpTo(g, types, attr, map[], true, order, 0)
  {
  }

  lemma NotVisitedYet(g: Graph, types: TypeMap, attr: LevelAttr, lists: PrimeMap, quiet: bool, order: seq<NodeId>,
                      k: nat)
    requires WellFormed(g) && TopologicalOrder(g.operands, LiveNodes(g), order) && k < |order|
      && ParmsUpTo(g, types, attr, lists, quiet, order, k)
    ensures Live(g, order[k]) && order[k] < |g.operands| && order[k] < |g.op| && order[k] !in lists
  {
    assert order[k] in Elems(order);
    assert NoDuplicates(order);
  }

  /** The merge of one operand's list into parms, with the two warnings. */
  method MergeLists(parms0: seq<nat>, other: seq<nat>) returns (parms: seq<nat>, agrees: bool)
    ensures parms == Merged(parms0, other) && (agrees <==> Agrees(parms0, other))
  {
    parms, agrees := parms0, true;
    if |other| > 0 {
      if |parms| > 0 {
        if |other| != |parms| {
          agrees := false;
        }
        for i := 0 to |parms0|
          invariant |parms| == |parms0|
          invariant forall j: nat :: j < i ==> parms[j] == if parms0[j] == 0 then Entry(other, j) else parms0[j]
          invariant forall j: nat :: i <= j < |parms| ==> parms[j] == parms0[j]
          invariant agrees <==> |other| == |parms0| && forall j: nat :: j < i && parms0[j] != 0 && other[j] != 0 ==>
            parms0[j] == other[j]
        {
          if parms[i] == 0 {
            parms := parms[i := Entry(other, i)];
          } else if Entry(other, i) != 0 && parms[i] != Entry(other, i) {
            agrees := false;
          }
        }
      } else {
        parms := other;
      }
    }
  }

  /** operator(): the list of a node, and whether no warning was given. */
  method CheckNode(d: Dag, types: TypeMap, attr: LevelAttr, lists: PrimeMap, node: NodeId) returns (parms: seq<nat>,
      agrees: bool)
    requires d.Valid() && Live(d.G(), node) && DivisorsPositive(d.G())
    ensures parms == ParmsAt(d.G(), types, attr, lists, node) && (agrees <==> ParmsAgree(d.G(), types, lists, node))
  {
    parms, agrees := [], true;
    if TypeAt(types, node) == Raw || d.op[node].Encode? { return; }
    var operands := d.operands[node];
    if |operands| > 0 {
      for i := 0 to |operands|
        invariant MergedAll(operands, lists, []) == MergedAll(operands[i..], lists, parms)
        invariant AgreesAll(operands, lists, []) <==> agrees && AgreesAll(operands[i..], lists, parms)
      {
        var fine;
        parms, fine := MergeLists(parms, PrimesAt(lists, operands[i]));
        agrees := agrees && fine;
      }
      if d.op[node].ModSwitch? {
        parms := parms + [0];
      } else if d.op[node].Rescale? {
        assert d.op[node].divisor != 0;
        parms := parms + [d.op[node].divisor];
      }
    } else {
      var level := AttrAt(attr, node);
      ghost var k: nat := 0;
      assert parms == Repeat(0, 0);
      while level > 0
        invariant parms == Repeat(0, k) && level <= AttrAt(attr, node)
        invariant level >= 0 ==> k == AttrAt(attr, node) - level
        invariant AttrAt(attr, node) < 0 ==> k == 0
        invariant level >= 0 || AttrAt(attr, node) < 0
      {
        RepeatNext(0, k);
        parms := parms + [0];
        level, k := level - 1, k + 1;
      }
    }
  }

  /** The forward pass, iyfc/seal/alo/seal_ckks_handler.cpp:77-78; quiet: no warning was given. */
  method CheckParameters(d: Dag, types: TypeMap, attr: LevelAttr) returns (lists: PrimeMap, quiet: bool)
    requires d.Valid() && Acyclic(d.G()) && DivisorsPositive(d.G())
    ensures ParmsComputed(d.G(), types, attr, lists) && (quiet <==> AllAgree(d.G(), types, lists))
  {
    hide ParmsUpTo, ParmsComputed, AllAgree, TopologicalOrder, LiveNodes, ParmsAt, ParmsAgree, UsesInverse,
         SinksMatch, Erased, DivisorsPositive;
    lists, quiet := map[], true;
    var order := ForwardOrder(d);
    ParmsStart(d.G(), types, attr, order);
    for k := 0 to |order|
      invariant ParmsUpTo(d.G(), types, attr, lists, quiet, order, k)
    {
      NotVisitedYet(d.G(), types, attr, lists, quiet, order, k);
      var parms, agrees := CheckNode(d, types, attr, lists, order[k]);
      ParmsStep(d.G(), types, attr, lists, quiet, order, k, parms, agrees);
      lists, quiet := lists[order[k] := parms], quiet && agrees;
    }
    ParmsEnd(d.G(), types, attr, lists, quiet, order);
  }

  // ----- no warning -----

  /** Entries are unknown or the one divisor. */
  predicate Known(list: seq<nat>, fixed: nat)
  {
    forall i: nat :: i < |list| ==> list[i] == 0 || list[i] == fixed
  }

  /** A ciphertext's list is as long as its level; nothing else has one. */
  predicate ListFits(types: TypeMap, levels: LevelAttr, lists: PrimeMap, fixed: nat, n: NodeId)
  {
    && Known(PrimesAt(lists, n), fixed)
    && (if TypeAt(types, n) == Cipher then |PrimesAt(lists, n)| == AttrAt(levels, n) else PrimesAt(lists, n) == [])
  }

  lemma {:induction false} MergeFits(operands: seq<NodeId>, types: TypeMap, levels: LevelAttr, lists: PrimeMap,
                                     fixed: nat, level: int, parms: seq<nat>)
    requires forall i: nat :: i < |operands| ==> ListFits(types, levels, lists, fixed, operands[i])
    requires forall i: nat :: i < |operands| && TypeAt(types, operands[i]) == Cipher ==>
      AttrAt(levels, operands[i]) == level
    requires Known(parms, fixed) && (parms == [] || |parms| == level)
    ensures AgreesAll(operands, lists, parms) && Known(MergedAll(operands, lists, parms), fixed)
    ensures |MergedAll(operands, lists, parms)| == (if exists i: nat ::
      i < |operands| && TypeAt(types, operands[i]) == Cipher then level else |parms|)
    decreases |operands|
  {
    if operands != [] {
      assert ListFits(types, levels, lists, fixed, operands[0]);
      assert forall i: nat :: 0 < i < |operands| ==> operands[i] == operands[1..][i - 1];
      assert forall i: nat :: i < |operands[1..]| ==> operands[1..][i] == operands[i + 1];
      MergeFits(operands[1..], types, levels, lists, fixed, level, Merged(parms, PrimesAt(lists, operands[0])));
    }
  }

  /** What the argument needs to know of the compiled graph and the levels checker's levels. */
  ghost predicate Leveled(g: Graph, types: TypeMap, attr: LevelAttr, levels: LevelAttr, fixed: nat)
  {
    && WellFormed(g) && Typed(g, types) && SourceArity(g) && KindsFit(g, types) && RescalesBy(g, fixed)
    && Checked(g, types, attr, levels) && (forall n: NodeId :: Live(g, n) ==> LevelsMatch(g, types, levels, n))
    && (forall s: NodeId :: s in g.sources ==> AttrAt(attr, s) >= 0)
  }

  lemma {:induction false} ListsFit(g: Graph, rank: seq<nat>, types: TypeMap, attr: LevelAttr, levels: LevelAttr,
                                    fixed: nat, lists: PrimeMap, n: NodeId)
    requires Leveled(g, types, attr, levels, fixed) && Ranked(g, rank) && ParmsComputed(g, types, attr, lists)
      && Live(g, n)
    ensures n < |g.op| && ListFits(types, levels, lists, fixed, n) && ParmsAgree(g, types, lists, n)
    decreases rank[n]
  {
    hide Leveled, ParmsComputed, ParmsAgree, ListFits, Live;
    LiveOperands(g, types, attr, levels, fixed, n);
    forall i: nat | i < |g.operands[n]|
      ensures ListFits(types, levels, lists, fixed, g.operands[n][i])
    {
      ListsFit(g, rank, types, attr, levels, fixed, lists, g.operands[n][i]);
    }
    NodeListFits(g, types, attr, levels, fixed, lists, n);
  }

  lemma LiveOperands(g: Graph, types: TypeMap, attr: LevelAttr, levels: LevelAttr, fixed: nat, n: NodeId)
    requires Leveled(g, types, attr, levels, fixed) && Live(g, n)
    ensures n < |g.op| == |g.operands| && forall i: nat :: i < |g.operands[n]| ==> Live(g, g.operands[n][i])
  {
  }

  lemma NodeListFits(g: Graph, types: TypeMap, attr: LevelAttr, levels: LevelAttr, fixed: nat, lists: PrimeMap,
                     n: NodeId)
    requires Leveled(g, types, attr, levels, fixed) && ParmsComputed(g, types, attr, lists) && Live(g, n)
    requires forall i: nat :: i < |g.operands[n]| ==> ListFits(types, levels, lists, fixed, g.operands[n][i])
    ensures n < |g.op| && ListFits(types, levels, lists, fixed, n) && ParmsAgree(g, types, lists, n)
  {
    assert PrimesAt(lists, n) == ParmsAt(g, types, attr, lists, n);
    TypeDetermined(g, types, n);
    if g.operands[n] == [] {
      SourceList(g, types, attr, levels, fixed, lists, n);
    } else if TypeAt(types, n) == Cipher {
      CipherList(g, types, attr, levels, fixed, lists, n);
    }
  }

  lemma SourceList(g: Graph, types: TypeMap, attr: LevelAttr, levels: LevelAttr, fixed: nat, lists: PrimeMap, n: NodeId)
    requires Leveled(g, types, attr, levels, fixed) && Live(g, n) && g.operands[n] == []
    requires PrimesAt(lists, n) == ParmsAt(g, types, attr, lists, n)
    ensures n < |g.op| && ListFits(types, levels, lists, fixed, n) && ParmsAgree(g, types, lists, n)
  {
    TypeDetermined(g, types, n);
    assert AttrAt(levels, n) == CheckedLevel(g, types, attr, levels, n);
  }

  lemma CipherList(g: Graph, types: TypeMap, attr: LevelAttr, levels: LevelAttr, fixed: nat, lists: PrimeMap, n: NodeId)
    requires Leveled(g, types, attr, levels, fixed) && Live(g, n) && g.operands[n] != [] && TypeAt(types, n) == Cipher
    requires forall i: nat :: i < |g.operands[n]| ==> ListFits(types, levels, lists, fixed, g.operands[n][i])
    requires PrimesAt(lists, n) == ParmsAt(g, types, attr, lists, n)
    ensures n < |g.op| && ListFits(types, levels, lists, fixed, n) && ParmsAgree(g, types, lists, n)
  {
    CipherLevel(g, types, attr, levels, fixed, n);
    DivisorKnown(g, types, attr, levels, fixed, n);
    hide Leveled, LevelsMatch, ListFits;
    MergeFits(g.operands[n], types, levels, lists, fixed, OperandLevel(g.operands[n], types, levels), []);
    FitsIfKnown(types, levels, lists, fixed, n);
  }

  lemma FitsIfKnown(types: TypeMap, levels: LevelAttr, lists: PrimeMap, fixed: nat, n: NodeId)
    requires Known(PrimesAt(lists, n), fixed) && TypeAt(types, n) == Cipher && |PrimesAt(lists, n)| == AttrAt(levels, n)
    ensures ListFits(types, levels, lists, fixed, n)
  {
  }

  lemma CipherLevel(g: Graph, types: TypeMap, attr: LevelAttr, levels: LevelAttr, fixed: nat, n: NodeId)
    requires Leveled(g, types, attr, levels, fixed) && Live(g, n) && g.operands[n] != [] && TypeAt(types, n) == Cipher
    ensures AttrAt(levels, n) == OperandLevel(g.operands[n], types, levels) + Consumes(g.op[n]) && !g.op[n].Encode?
    ensures exists i: nat :: i < |g.operands[n]| && TypeAt(types, g.operands[n][i]) == Cipher
    ensures forall i: nat :: i < |g.operands[n]| && TypeAt(types, g.operands[n][i]) == Cipher ==>
      AttrAt(levels, g.operands[n][i]) == OperandLevel(g.operands[n], types, levels)
  {
    assert AttrAt(levels, n) == CheckedLevel(g, types, attr, levels, n);
    assert TypeAt(types, n) == Inferred(g, types, n);
    assert LevelsMatch(g, types, levels, n);
  }

  lemma DivisorKnown(g: Graph, types: TypeMap, attr: LevelAttr, levels: LevelAttr, fixed: nat, n: NodeId)
    requires Leveled(g, types, attr, levels, fixed) && Live(g, n)
    ensures n < |g.op| && |Dropped(g.op[n])| == Consumes(g.op[n]) && Known(Dropped(g.op[n]), fixed)
  {
  }

  /** The checker gives no warning, and every ciphertext has dropped as many primes as its level says. */
  lemma ParametersNeverWarn(g: Graph, types: TypeMap, attr: LevelAttr, levels: LevelAttr, fixed: nat, lists: PrimeMap)
    requires Leveled(g, types, attr, levels, fixed) && Acyclic(g) && ParmsComputed(g, types, attr, lists)
    ensures AllAgree(g, types, lists)
    ensures forall n: NodeId :: Live(g, n) && TypeAt(types, n) == Cipher ==> |PrimesAt(lists, n)| == AttrAt(levels, n)
  {
    var rank :| Ranked(g, rank);
    hide Leveled, ParmsComputed, ParmsAgree;
    forall n: NodeId | Live(g, n)
      ensures n < |g.op| == |g.operands| && ListFits(types, levels, lists, fixed, n) && ParmsAgree(g, types, lists, n)
    {
      ListsFit(g, rank, types, attr, levels, fixed, lists, n);
      LiveOperands(g, types, attr, levels, fixed, n);
    }
    ComputedCount(g, types, attr, lists);
  }

  lemma ComputedCount(g: Graph, types: TypeMap, attr: LevelAttr, lists: PrimeMap)
    requires ParmsComputed(g, types, attr, lists)
    ensures |g.op| == |g.operands|
  {
  }
}
