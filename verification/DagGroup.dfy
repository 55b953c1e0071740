/** Node indices in a group of graphs that share one pool of them, DagGroup in iyfc/dag/iyfc_dag.cpp.
    Executors and keys of the group tell nodes apart by their index alone. */
module DagGroups {

  /** m_min_node_index before the first node. */
  const NO_INDEX: nat := 0xFFFF_FFFF_FFFF_FFFF

  /** What addDag reads of a Dag: its counters, the indices of its nodes in the order they were made,
      its scale, its vector size, and how many inputs and outputs it has. */
  datatype DagState = DagState(next: nat, min: nat, nodes: seq<nat>, scale: nat, vecSize: nat, inputs: nat,
                               outputs: nat)

  datatype Owner = Root | Child(name: string)

  datatype Group = Group(own: DagState, children: map<string, DagState>)

  function Max(a: nat, b: nat): nat
  {
    if a > b then a else b
  }

  function Min(a: nat, b: nat): nat
  {
    if a < b then a else b
  }

  // ----- one graph -----

  /** makeNode of a Dag */
  function Grown(d: DagState): DagState
  {
    d.(next := d.next + 1, min := Min(d.min, d.next), nodes := d.nodes + [d.next])
  }

  function GrownBy(d: DagState, k: nat): DagState
  {
    if k == 0 then d else Grown(GrownBy(d, k - 1))
  }

  predicate Increasing(nodes: seq<nat>)
  {
    forall i: nat, j: nat :: i < j < |nodes| ==> nodes[i] < nodes[j]
  }

  predicate AllWithin(nodes: seq<nat>, low: nat, high: nat)
  {
    forall i: nat :: i < |nodes| ==> low <= nodes[i] < high
  }

  /** What holds of a Dag whose counter is only ever raised; one with inputs has nodes. */
  predicate Counted(d: DagState)
  {
    && Increasing(d.nodes) && AllWithin(d.nodes, d.min, d.next)
    && (d.inputs > 0 ==> d.nodes != [])
  }

  lemma GrownIsCounted(d: DagState)
    requires Counted(d)
    ensures Counted(Grown(d))
  {
  }

  lemma {:induction false} GrownBySpan(d: DagState, k: nat)
    requires Counted(d)
    ensures Counted(GrownBy(d, k))
    ensures |GrownBy(d, k).nodes| == |d.nodes| + k && GrownBy(d, k).next == d.next + k
    ensures forall i: nat :: i < |d.nodes| ==> GrownBy(d, k).nodes[i] == d.nodes[i]
    ensures forall i: nat :: |d.nodes| <= i < |d.nodes| + k ==> GrownBy(d, k).nodes[i] >= d.next
    ensures k > 0 ==> GrownBy(d, k).nodes[|d.nodes|] == d.next
  {
    if k > 0 {
      GrownBySpan(d, k - 1);
      GrownIsCounted(GrownBy(d, k - 1));
    }
  }

  // ----- the group -----

  predicate Owns(g: Group, o: Owner)
  {
    o.Child? ==> o.name in g.children
  }

  function StateOf(g: Group, o: Owner): DagState
    requires Owns(g, o)
  {
    if o.Root? then g.own else g.children[o.name]
  }

  function WithState(g: Group, o: Owner, d: DagState): (g': Group)
    ensures Owns(g', o) && StateOf(g', o) == d
    ensures forall p: Owner :: p != o ==>
      (Owns(g', p) <==> Owns(g, p)) && (Owns(g, p) ==> StateOf(g', p) == StateOf(g, p))
  {
    if o.Root? then g.(own := d) else g.(children := g.children[o.name := d])
  }

  /** Different nodes have different indices, wherever in the group they are. */
  predicate ApartFrom(c: DagState, d: DagState)
  {
    forall i: nat, j: nat :: i < |c.nodes| && j < |d.nodes| ==> c.nodes[i] != d.nodes[j]
  }

  ghost predicate Distinct(g: Group)
  {
    && (forall o: Owner :: Owns(g, o) ==> Counted(StateOf(g, o)))
    && (forall o: Owner, p: Owner :: Owns(g, o) && Owns(g, p) && o != p ==> ApartFrom(StateOf(g, o), StateOf(g, p)))
  }

  /** All counters stand at n. */
  ghost predicate Settled(g: Group, n: nat)
  {
    forall o: Owner :: Owns(g, o) ==> StateOf(g, o).next == n
  }

  /** n is the largest of the counters. */
  ghost predicate IsTotal(g: Group, n: nat)
  {
    && (forall o: Owner :: Owns(g, o) ==> StateOf(g, o).next <= n)
    && (exists o: Owner :: Owns(g, o) && StateOf(g, o).next == n)
  }

  /** updateGroupIndex, when the largest counter is n */
  function Raised(g: Group, n: nat): (g': Group)
    ensures g'.children.Keys == g.children.Keys
    ensures forall o: Owner :: Owns(g, o) ==> StateOf(g', o) == StateOf(g, o).(next := n)
  {
    Group(g.own.(next := n), map name | name in g.children :: g.children[name].(next := n))
  }

  lemma RaisedIsDistinct(g: Group, n: nat)
    requires Distinct(g) && IsTotal(g, n)
    ensures Distinct(Raised(g, n)) && Settled(Raised(g, n), n)
  {
    var g' := Raised(g, n);
    forall o: Owner | Owns(g', o)
      ensures Counted(StateOf(g', o))
    {
      assert Owns(g, o) && Counted(StateOf(g, o));
    }
    forall o: Owner, p: Owner | Owns(g', o) && Owns(g', p) && o != p
      ensures ApartFrom(StateOf(g', o), StateOf(g', p))
    {
      assert Owns(g, o) && Owns(g, p) && ApartFrom(StateOf(g, o), StateOf(g, p));
    }
  }

  /** Between two operations all counters of a group agree, and indices are distinct and below them. */
  ghost predicate Sound(g: Group)
  {
    Distinct(g) && Settled(g, g.own.next)
  }

  lemma SameIndexSameNode(g: Group, o: Owner, i: nat, p: Owner, j: nat)
    requires Sound(g) && Owns(g, o) && Owns(g, p)
    requires i < |StateOf(g, o).nodes| && j < |StateOf(g, p).nodes|
    ensures StateOf(g, o).nodes[i] < g.own.next
    ensures StateOf(g, o).nodes[i] == StateOf(g, p).nodes[j] <==> o == p && i == j
  {
    assert Counted(StateOf(g, o)) && StateOf(g, o).next == g.own.next;
    if o != p {
      assert ApartFrom(StateOf(g, o), StateOf(g, p));
    } else if i < j {
      assert Increasing(StateOf(g, o).nodes);
    }
  }

  // ----- operations -----

  /** k nodes are made in one graph, then the counters are brought together. */
  function AfterNodes(g: Group, o: Owner, k: nat): Group
    requires Owns(g, o)
  {
    Raised(WithState(g, o, GrownBy(StateOf(g, o), k)), g.own.next + k)
  }

  lemma NewNodesApart(g: Group, o: Owner, p: Owner, k: nat)
    requires Sound(g) && Owns(g, o) && Owns(g, p) && o != p
    ensures ApartFrom(GrownBy(StateOf(g, o), k), StateOf(g, p)) && ApartFrom(StateOf(g, p), GrownBy(StateOf(g, o), k))
  {
    assert Counted(StateOf(g, o)) && Counted(StateOf(g, p));
    assert StateOf(g, o).next == g.own.next && StateOf(g, p).next == g.own.next;
    assert ApartFrom(StateOf(g, o), StateOf(g, p));
    GrownBySpan(StateOf(g, o), k);
  }

  lemma GrownGroup(g: Group, o: Owner, k: nat)
    requires Sound(g) && Owns(g, o)
    ensures var g' := WithState(g, o, GrownBy(StateOf(g, o), k)); Distinct(g') && IsTotal(g', g.own.next + k)
  {
    hide ApartFrom, Counted, GrownBy;
    var d := GrownBy(StateOf(g, o), k);
    var g' := WithState(g, o, d);
    GrownBySpan(StateOf(g, o), k);
    forall p: Owner | Owns(g', p)
      ensures Counted(StateOf(g', p)) && StateOf(g', p).next <= g.own.next + k
    {
      assert Owns(g, p) && Counted(StateOf(g, p));
    }
    forall p: Owner, q: Owner | Owns(g', p) && Owns(g', q) && p != q
      ensures ApartFrom(StateOf(g', p), StateOf(g', q))
    {
      if p == o {
        NewNodesApart(g, o, q, k);
      } else if q == o {
        NewNodesApart(g, o, p, k);
      } else {
        assert ApartFrom(StateOf(g, p), StateOf(g, q));
      }
    }
    assert Owns(g', o) && StateOf(g', o).next == g.own.next + k;
  }

  lemma AfterNodesIsSound(g: Group, o: Owner, k: nat)
    requires Sound(g) && Owns(g, o)
    ensures Sound(AfterNodes(g, o, k))
  {
    hide ApartFrom, Counted, GrownBy, WithState, Distinct, IsTotal;
    GrownGroup(g, o, k);
    RaisedIsDistinct(WithState(g, o, GrownBy(StateOf(g, o), k)), g.own.next + k);
  }

  /** The checks of addDag */
  predicate CanAdd(g: Group, name: string, d: DagState)
  {
    d.min >= g.own.next && name !in g.children && d.inputs > 0 && d.outputs > 0
  }

  /** The scales addDag leaves: a child of a smaller scale takes all others down. */
  function Scaled(g: Group, scale: nat): (g': Group)
    ensures g'.children.Keys == g.children.Keys
    ensures forall o: Owner :: Owns(g, o) ==> StateOf(g', o) == StateOf(g, o).(scale := scale)
  {
    Group(g.own.(scale := scale), map name | name in g.children :: g.children[name].(scale := scale))
  }

  function WithChild(g: Group, name: string, d: DagState): Group
  {
    var larger := g.own.(vecSize := Max(g.own.vecSize, d.vecSize));
    var joined := Group(larger, g.children[name := d]);
    if d.scale < g.own.scale then Scaled(joined, d.scale) else joined
  }

  function AfterAdd(g: Group, name: string, d: DagState): Group
  {
    Raised(WithChild(g, name, d), Max(g.own.next, d.next))
  }

  /** x is the largest of a and b. */
  predicate IsLarger(a: nat, b: nat, x: nat)
  {
    x >= a && x >= b && (x == a || x == b)
  }

  /** What a graph of the group has become by an addition: its counter stands where all do, its scale is the
      new graph's if that was below the group's, and all the rest is as it was. */
  predicate KeptByAdd(before: DagState, lower: bool, scale: nat, next: nat, after: DagState)
  {
    && after.next == next && after.scale == (if lower then scale else before.scale)
    && after.min == before.min && after.nodes == before.nodes
    && after.inputs == before.inputs && after.outputs == before.outputs
  }

  /** The group after a graph was added, field by field. */
  ghost predicate AddedTo(g: Group, name: string, d: DagState, g': Group)
  {
    && g'.children.Keys == g.children.Keys + {name}
    && IsLarger(g.own.next, d.next, g'.own.next) && IsLarger(g.own.vecSize, d.vecSize, g'.own.vecSize)
    && KeptByAdd(g.own, d.scale < g.own.scale, d.scale, g'.own.next, g'.own)
    && forall c: string :: c in g'.children ==>
         var before := if c == name then d else g.children[c];
         && KeptByAdd(before, d.scale < g.own.scale, d.scale, g'.own.next, g'.children[c])
         && g'.children[c].vecSize == before.vecSize
  }

  lemma AfterAddFields(g: Group, name: string, d: DagState)
    requires name !in g.children
    ensures AddedTo(g, name, d, AfterAdd(g, name, d))
  {
  }

  predicate SameIndices(c: DagState, d: DagState)
  {
    c.next == d.next && c.min == d.min && c.nodes == d.nodes && c.inputs == d.inputs
  }

  lemma IndicesWithChild(g: Group, name: string, d: DagState, o: Owner)
    requires name !in g.children && Owns(WithChild(g, name, d), o)
    ensures o == Child(name) ==> SameIndices(StateOf(WithChild(g, name, d), o), d)
    ensures o != Child(name) ==> Owns(g, o) && SameIndices(StateOf(WithChild(g, name, d), o), StateOf(g, o))
  {
  }

  lemma ChildApart(g: Group, d: DagState, o: Owner)
    requires Sound(g) && Owns(g, o) && Counted(d) && d.min >= g.own.next
    ensures ApartFrom(StateOf(g, o), d) && ApartFrom(d, StateOf(g, o))
  {
    assert Counted(StateOf(g, o)) && StateOf(g, o).next == g.own.next;
  }

  lemma AddedGroup(g: Group, name: string, d: DagState)
    requires Sound(g) && Counted(d) && CanAdd(g, name, d)
    ensures Distinct(WithChild(g, name, d)) && IsTotal(WithChild(g, name, d), Max(g.own.next, d.next))
  {
    hide WithChild;
    var g' := WithChild(g, name, d);
    forall o: Owner | Owns(g', o)
      ensures Counted(StateOf(g', o)) && StateOf(g', o).next <= Max(g.own.next, d.next)
    {
      IndicesWithChild(g, name, d, o);
      assert Owns(g, o) ==> Counted(StateOf(g, o)) && StateOf(g, o).next == g.own.next;
    }
    forall o: Owner, p: Owner | Owns(g', o) && Owns(g', p) && o != p
      ensures ApartFrom(StateOf(g', o), StateOf(g', p))
    {
      IndicesWithChild(g, name, d, o);
      IndicesWithChild(g, name, d, p);
      if o == Child(name) {
        ChildApart(g, d, p);
      } else if p == Child(name) {
        ChildApart(g, d, o);
      } else {
        assert ApartFrom(StateOf(g, o), StateOf(g, p));
      }
    }
    TotalAttained(g, name, d);
  }

  lemma TotalAttained(g: Group, name: string, d: DagState)
    requires Sound(g) && Counted(d) && CanAdd(g, name, d)
    ensures Owns(WithChild(g, name, d), Child(name)) && d.next > g.own.next
    ensures StateOf(WithChild(g, name, d), Child(name)).next == d.next
  {
    assert d.min <= d.nodes[0] < d.next;
  }

  lemma AfterAddIsSound(g: Group, name: string, d: DagState)
    requires Sound(g) && Counted(d) && CanAdd(g, name, d)
    ensures Sound(AfterAdd(g, name, d))
  {
    AddedGroup(g, name, d);
    RaisedIsDistinct(WithChild(g, name, d), Max(g.own.next, d.next));
  }

  // ----- runs -----

  datatype Step =
    | AddDag(name: string, dag: DagState)
    | MakeNodes(owner: Owner, k: nat)

  function Stepped(g: Group, s: Step): Group
  {
    match s
    case AddDag(name, d) => if CanAdd(g, name, d) then AfterAdd(g, name, d) else g
    case MakeNodes(o, k) => if Owns(g, o) then AfterNodes(g, o, k) else g
  }

  function Run(g: Group, steps: seq<Step>): Group
  {
    if steps == [] then g else Stepped(Run(g, steps[..|steps| - 1]), steps[|steps| - 1])
  }

  /** Whatever is added and made in whatever order, indices stay distinct and below every counter. */
  lemma {:induction false} RunIsSound(g: Group, steps: seq<Step>)
    requires Sound(g) && forall i: nat :: i < |steps| && steps[i].AddDag? ==> Counted(steps[i].dag)
    ensures Sound(Run(g, steps))
  {
    if steps != [] {
      RunIsSound(g, steps[..|steps| - 1]);
      var g', s := Run(g, steps[..|steps| - 1]), steps[|steps| - 1];
      if s.AddDag? && CanAdd(g', s.name, s.dag) {
        AfterAddIsSound(g', s.name, s.dag);
      } else if s.MakeNodes? && Owns(g', s.owner) {
        AfterNodesIsSound(g', s.owner, s.k);
      }
    }
  }

  /** Step i adds its graph. */
  predicate AddsAt(g: Group, steps: seq<Step>, i: nat)
  {
    i < |steps| && steps[i].AddDag? && CanAdd(Run(g, steps[..i]), steps[i].name, steps[i].dag)
  }

  function VecSizeOf(d: DagState): nat
  {
    d.vecSize
  }

  function ScaleOf(d: DagState): nat
  {
    d.scale
  }

  /** x is the group's own value or that of a graph added on the way. */
  ghost predicate FromGroup(g: Group, steps: seq<Step>, own: nat, of: DagState -> nat, x: nat)
  {
    x == own || exists i: nat :: AddsAt(g, steps, i) && of(steps[i].dag) == x
  }

  /** After any run the group has the largest vector size and the smallest scale of those it started with and
      those of all graphs added, and every graph added is there with its nodes and its own vector size. */
  lemma {:induction false} RunKeeps(g: Group, steps: seq<Step>)
    ensures var r := Run(g, steps);
      && r.own.vecSize >= g.own.vecSize && r.own.scale <= g.own.scale
      && FromGroup(g, steps, g.own.vecSize, VecSizeOf, r.own.vecSize)
      && FromGroup(g, steps, g.own.scale, ScaleOf, r.own.scale)
      && forall i: nat :: AddsAt(g, steps, i) ==> AddedStays(r, steps[i].name, steps[i].dag)
  {
    if steps != [] {
      var k := |steps| - 1;
      var before := steps[..k];
      RunKeeps(g, before);
      StepKeeps(Run(g, before), steps[k]);
      forall i: nat | AddsAt(g, steps, i)
        ensures AddedStays(Run(g, steps), steps[i].name, steps[i].dag)
      {
        assert i < k ==> steps[..i] == before[..i] && AddsAt(g, before, i);
      }
      FromGroupNext(g, steps, g.own.vecSize, VecSizeOf, Run(g, before).own.vecSize);
      FromGroupNext(g, steps, g.own.scale, ScaleOf, Run(g, before).own.scale);
      assert AddsAt(g, steps, k) <==> steps[k].AddDag? && CanAdd(Run(g, before), steps[k].name, steps[k].dag);
    }
  }

  lemma FromGroupNext(g: Group, steps: seq<Step>, own: nat, of: DagState -> nat, x: nat)
    requires steps != [] && FromGroup(g, steps[..|steps| - 1], own, of, x)
    ensures FromGroup(g, steps, own, of, x)
  {
    var before := steps[..|steps| - 1];
    if x != own {
      var i: nat :| AddsAt(g, before, i) && of(before[i].dag) == x;
      assert steps[..i] == before[..i] && AddsAt(g, steps, i);
    }
  }

  predicate AddedStays(g: Group, name: string, d: DagState)
  {
    && name in g.children && g.children[name].vecSize == d.vecSize && d.nodes <= g.children[name].nodes
    && g.own.vecSize >= d.vecSize && g.own.scale <= d.scale
  }

  /** One step takes nothing away. */
  lemma StepKeeps(g: Group, s: Step)
    ensures var r := Stepped(g, s);
      && r.own.vecSize >= g.own.vecSize && r.own.scale <= g.own.scale
      && (if s.AddDag? && CanAdd(g, s.name, s.dag) then
            && AddedStays(r, s.name, s.dag)
            && (r.own.vecSize == g.own.vecSize || r.own.vecSize == s.dag.vecSize)
            && (r.own.scale == g.own.scale || r.own.scale == s.dag.scale)
          else r.own.vecSize == g.own.vecSize && r.own.scale == g.own.scale)
      && forall name: string, d: DagState :: AddedStays(g, name, d) ==> AddedStays(r, name, d)
  {
    if s.AddDag? && CanAdd(g, s.name, s.dag) {
      AfterAddFields(g, s.name, s.dag);
    } else if s.MakeNodes? && Owns(g, s.owner) {
      GrownByKeeps(StateOf(g, s.owner), s.k);
    }
  }

  lemma {:induction false} GrownByKeeps(d: DagState, k: nat)
    ensures var e := GrownBy(d, k);
      && d.nodes <= e.nodes && e.vecSize == d.vecSize && e.scale == d.scale
      && e.inputs == d.inputs && e.outputs == d.outputs
  {
    if k > 0 {
      GrownByKeeps(d, k - 1);
    }
  }

  lemma EmptyGroupIsSound(own: DagState)
    requires Counted(own)
    ensures Sound(Group(own, map[]))
  {
    forall o: Owner | Owns(Group(own, map[]), o)
      ensures o == Root
    {
    }
  }

  /** A new graph whose counter was set to m before its nodes were made can be added exactly when m is
      at least the counter of the group. */
  lemma LiftedCanBeAdded(g: Group, name: string, d: DagState, m: nat, k: nat)
    requires d.nodes == [] && d.min == NO_INDEX && m < NO_INDEX && k > 0
    requires name !in g.children && d.inputs > 0 && d.outputs > 0
    ensures CanAdd(g, name, GrownBy(d.(next := m), k)) <==> m >= g.own.next
  {
    FirstIsLeast(d.(next := m), k);
  }

  lemma {:induction false} FirstIsLeast(d: DagState, k: nat)
    requires d.min == NO_INDEX && d.next < NO_INDEX && k > 0
    ensures var e := GrownBy(d, k);
      e.min == d.next && e.next == d.next + k && e.inputs == d.inputs && e.outputs == d.outputs
  {
    if k > 1 {
      FirstIsLeast(d, k - 1);
    } else {
      assert GrownBy(d, 0) == d;
    }
  }

  /** Nodes made in two children behind the group's back keep their indices distinct exactly when one
      of the two children got none. */
  lemma MadeDirectly(g: Group, a: string, b: string, j: nat, k: nat)
    requires Sound(g) && a in g.children && b in g.children && a != b
    ensures ApartFrom(GrownBy(g.children[a], j), GrownBy(g.children[b], k)) <==> j == 0 || k == 0
  {
    var c, d := StateOf(g, Child(a)), StateOf(g, Child(b));
    assert Owns(g, Child(a)) && Owns(g, Child(b));
    assert Counted(c) && Counted(d) && c.next == d.next == g.own.next;
    GrownBySpan(c, j);
    GrownBySpan(d, k);
    if j == 0 {
      assert GrownBy(c, j) == c;
      NewNodesApart(g, Child(b), Child(a), k);
    } else if k == 0 {
      assert GrownBy(d, k) == d;
      NewNodesApart(g, Child(a), Child(b), j);
    } else {
      assert GrownBy(c, j).nodes[|c.nodes|] == GrownBy(d, k).nodes[|d.nodes|];
    }
  }

  ghost predicate ScalesAgree(g: Group)
  {
    forall o: Owner :: Owns(g, o) ==> StateOf(g, o).scale == g.own.scale
  }

  /** addDag makes the scales agree exactly when the new graph's scale is not above the group's. */
  lemma ScalesAfterAdd(g: Group, name: string, d: DagState)
    requires ScalesAgree(g)
    ensures ScalesAgree(AfterAdd(g, name, d)) <==> d.scale <= g.own.scale
  {
    var g' := AfterAdd(g, name, d);
    assert Owns(g', Child(name));
    forall o: Owner | Owns(g', o) && o != Child(name)
      ensures StateOf(g', o).scale == Min(g.own.scale, d.scale)
    {
      assert Owns(g, o) && StateOf(g, o).scale == g.own.scale;
    }
    assert StateOf(g', Child(name)).scale == d.scale;
    assert StateOf(g', Root).scale == Min(g.own.scale, d.scale);
  }

  // ----- the objects -----

  class Subdag {
    var next: nat
    var min: nat
    var nodes: seq<nat>
    var scale: nat
    var vecSize: nat
    var inputs: nat
    var outputs: nat

    function State(): DagState
      reads this
    {
      DagState(next, min, nodes, scale, vecSize, inputs, outputs)
    }

    constructor (scale: nat, vecSize: nat)
      ensures State() == DagState(0, NO_INDEX, [], scale, vecSize, 0, 0)
    {
      next, min, nodes, this.scale, this.vecSize, inputs, outputs := 0, NO_INDEX, [], scale, vecSize, 0, 0;
    }

    /** allocateIndex, for a new node */
    method AllocateIndex() returns (index: nat)
      modifies this
      ensures index == old(next) && State() == Grown(old(State()))
    {
      index := next;
      next := next + 1;
      min := Min(min, index);
      nodes := nodes + [index];
    }

    /** A pass that makes k nodes */
    method MakeNodes(k: nat)
      modifies this
      ensures State() == GrownBy(old(State()), k)
    {
      for i := 0 to k
        invariant State() == GrownBy(old(State()), i)
      {
        var index := AllocateIndex();
      }
    }

    /** setNextNodeIndex */
    method SetNextNodeIndex(index: nat)
      modifies this`next
      ensures State() == old(State()).(next := index)
    {
      next := index;
    }
  }

  datatype AddResult = Added | IndicesOverlap | SameName | NoInputsOrOutputs

  class DagGroup {
    /** The graph the group itself is. */
    const own: Subdag
    var name2dag: map<string, Subdag>

    ghost predicate Separate()
      reads this
    {
      && own !in name2dag.Values
      && forall a, b :: a in name2dag && b in name2dag && a != b ==> name2dag[a] != name2dag[b]
    }

    ghost function View(): Group
      reads this, own, name2dag.Values
    {
      Group(own.State(), map name | name in name2dag :: name2dag[name].State())
    }

    ghost predicate Valid()
      reads this, own, name2dag.Values
    {
      Separate() && Sound(View()) && AllMade()
    }

    constructor (scale: nat, vecSize: nat)
      ensures Valid() && View() == Group(DagState(0, NO_INDEX, [], scale, vecSize, 0, 0), map[])
      ensures fresh(own)
    {
      own := new Subdag(scale, vecSize);
      name2dag := map[];
      new;
      EmptyGroupIsSound(own.State());
    }

    /** The first loop of updateGroupIndex */
    method LargestIndex() returns (total: nat)
      requires Separate()
      ensures IsTotal(View(), total)
    {
      total := own.next;
      ghost var at := Root;
      var rest := name2dag.Keys;
      assert Owns(View(), at) && StateOf(View(), at).next == total;
      while rest != {}
        invariant rest <= name2dag.Keys && Owns(View(), at) && StateOf(View(), at).next == total
        invariant own.next <= total && forall name :: name in name2dag && name !in rest ==> name2dag[name].next <= total
        decreases rest
      {
        var name :| name in rest;
        if name2dag[name].next > total {
          total, at := name2dag[name].next, Child(name);
        }
        rest := rest - {name};
      }
      forall o: Owner | Owns(View(), o)
        ensures StateOf(View(), o).next <= total
      {
      }
    }

    /** The second loop of updateGroupIndex */
    method RaiseChildren(total: nat)
      requires Separate() && forall name :: name in name2dag ==> name2dag[name].next <= total
      modifies name2dag.Values`next
      ensures View().own == old(View().own) && View().children.Keys == old(View().children.Keys)
      ensures forall name :: name in name2dag ==> name2dag[name].State() == old(name2dag[name].State()).(next := total)
    {
      var rest := name2dag.Keys;
      while rest != {}
        invariant rest <= name2dag.Keys
        invariant forall name :: name in name2dag ==>
          name2dag[name].State() == if name in rest then old(name2dag[name].State())
                                    else old(name2dag[name].State()).(next := total)
        decreases rest
      {
        var name :| name in rest;
        if total > name2dag[name].next {
          name2dag[name].SetNextNodeIndex(total);
        }
        rest := rest - {name};
      }
    }

    /** The children first, then the group. */
    method RaiseAll(total: nat)
      requires Separate() && own.next <= total && forall name :: name in name2dag ==> name2dag[name].next <= total
      modifies own`next, name2dag.Values`next
      ensures own.next == total && own.State() == old(own.State()).(next := total)
      ensures forall name :: name in name2dag ==> name2dag[name].State() == old(name2dag[name].State()).(next := total)
    {
      RaiseChildren(total);
      if total > own.next {
        own.SetNextNodeIndex(total);
      }
    }

    /** updateGroupIndex */
    method UpdateGroupIndex()
      requires Separate()
      modifies own`next, name2dag.Values`next
      ensures Separate() && View() == Raised(old(View()), own.next)
      ensures IsTotal(old(View()), own.next) && (old(AllMade()) ==> AllMade())
    {
      hide IsTotal, Raised;
      ghost var before := View();
      var total := LargestIndex();
      BelowTotal(total);
      RaiseAll(total);
      RaisedView(before, total);
    }

    lemma BelowTotal(total: nat)
      requires IsTotal(View(), total)
      ensures own.next <= total && forall name :: name in name2dag ==> name2dag[name].next <= total
    {
      assert Owns(View(), Root);
      forall name | name in name2dag
        ensures name2dag[name].next <= total
      {
        assert Owns(View(), Child(name));
      }
    }

    lemma RaisedView(before: Group, total: nat)
      requires before.children.Keys == name2dag.Keys && own.State() == before.own.(next := total)
      requires forall name :: name in name2dag ==> name2dag[name].State() == before.children[name].(next := total)
      ensures View() == Raised(before, total)
    {
      assert View().children == Raised(before, total).children;
    }

    method SetScales(scale: nat)
      requires Separate()
      modifies own`scale, name2dag.Values`scale
      ensures own.State() == old(own.State()).(scale := scale)
      ensures forall name :: name in name2dag ==> name2dag[name].State() == old(name2dag[name].State()).(scale := scale)
    {
      own.scale := scale;
      var rest := name2dag.Keys;
      while rest != {}
        invariant rest <= name2dag.Keys && own.State() == old(own.State()).(scale := scale)
        invariant forall name :: name in name2dag ==>
          name2dag[name].State() == if name in rest then old(name2dag[name].State())
                                    else old(name2dag[name].State()).(scale := scale)
        decreases rest
      {
        var name :| name in rest;
        name2dag[name].scale := scale;
        rest := rest - {name};
      }
    }

    /** The loop of addDag over the scales */
    method LowerScales(scale: nat)
      requires Separate()
      modifies own`scale, name2dag.Values`scale
      ensures Separate() && View() == Scaled(old(View()), scale)
    {
      hide Scaled;
      ghost var before := View();
      SetScales(scale);
      ScaledView(before, scale);
    }

    lemma ScaledView(before: Group, scale: nat)
      requires before.children.Keys == name2dag.Keys && own.State() == before.own.(scale := scale)
      requires forall name :: name in name2dag ==> name2dag[name].State() == before.children[name].(scale := scale)
      ensures View() == Scaled(before, scale)
    {
      assert View().children == Scaled(before, scale).children;
    }

    /** The part of addDag after its checks and before updateGroupIndex */
    method Join(name: string, dag: Subdag)
      requires Valid() && dag != own && dag !in name2dag.Values && name !in name2dag
      modifies this`name2dag, own, dag`scale, name2dag.Values`scale
      ensures Separate() && name2dag == old(name2dag)[name := dag]
      ensures View() == WithChild(old(View()), name, old(dag.State()))
    {
      hide Sound, Scaled;
      ghost var before, d := View(), dag.State();
      own.vecSize := Max(own.vecSize, dag.vecSize);
      name2dag := name2dag[name := dag];
      ghost var joined := Group(before.own.(vecSize := Max(before.own.vecSize, d.vecSize)), before.children[name := d]);
      assert View().children == joined.children;
      if dag.scale < own.scale {
        LowerScales(dag.scale);
      }
    }

    lemma NotYetIn(dag: Subdag)
      requires Valid() && dag.min >= own.next
      ensures dag !in name2dag.Values
    {
      forall name | name in name2dag
        ensures name2dag[name] != dag
      {
        var child := name2dag[name];
        assert Owns(View(), Child(name)) && Counted(StateOf(View(), Child(name)));
        assert child.min <= child.nodes[0] < child.next == own.next;
      }
    }

    lemma SameTotal(g: Group, m: nat, n: nat)
      requires IsTotal(g, m) && IsTotal(g, n)
      ensures m == n
    {
    }

    /** addDag */
    method AddDag(name: string, dag: Subdag) returns (r: AddResult)
      requires Valid() && dag != own && Counted(dag.State())
      modifies this`name2dag, own, dag, name2dag.Values
      ensures Valid()
      ensures r == if old(dag.min) < old(own.next) then IndicesOverlap
                   else if name in old(name2dag) then SameName
                   else if old(dag.inputs) == 0 || old(dag.outputs) == 0 then NoInputsOrOutputs
                   else Added
      ensures if r.Added? then
                View() == AfterAdd(old(View()), name, old(dag.State())) && name2dag == old(name2dag)[name := dag]
              else View() == old(View()) && name2dag == old(name2dag) && dag.State() == old(dag.State())
      ensures r.Added? ==> AddedTo(old(View()), name, old(dag.State()), View())
    {
      hide Sound, Distinct, AfterAdd, AddedTo, Counted;
      if dag.min < own.next {
        return IndicesOverlap;
      }
      if name in name2dag {
        return SameName;
      }
      if dag.inputs == 0 || dag.outputs == 0 {
        return NoInputsOrOutputs;
      }
      Enter(name, dag);
      r := Added;
    }

    /** What addDag does after its checks. */
    method Enter(name: string, dag: Subdag)
      requires Valid() && dag != own && Counted(dag.State()) && CanAdd(View(), name, dag.State())
      modifies this`name2dag, own, dag, name2dag.Values
      ensures Valid() && View() == AfterAdd(old(View()), name, old(dag.State()))
      ensures name2dag == old(name2dag)[name := dag] && AddedTo(old(View()), name, old(dag.State()), View())
    {
      NotYetIn(dag);
      ghost var before, d := View(), dag.State();
      AddedGroup(before, name, d);
      AfterAddIsSound(before, name, d);
      AfterAddFields(before, name, d);
      hide AddedTo;
      Join(name, dag);
      UpdateGroupIndex();
      SameTotal(WithChild(before, name, d), own.next, Max(before.own.next, d.next));
    }

    function Member(o: Owner): Subdag
      requires o.Child? ==> o.name in name2dag
      reads this
    {
      if o.Root? then own else name2dag[o.name]
    }

    ghost predicate AllMade()
      reads this, name2dag.Values
    {
      forall name :: name in name2dag ==> name2dag[name].nodes != []
    }

    /** The nodes alone, the counters left apart. */
    method Grow(o: Owner, k: nat)
      requires Separate() && AllMade() && (o.Child? ==> o.name in name2dag)
      modifies own, name2dag.Values
      ensures Separate() && AllMade() && Owns(old(View()), o)
      ensures View() == WithState(old(View()), o, GrownBy(StateOf(old(View()), o), k))
    {
      ghost var before := View();
      assert Owns(before, o) && StateOf(before, o) == Member(o).State();
      hide GrownBy;
      StillMade(Member(o).State(), k);
      Member(o).MakeNodes(k);
      ghost var grown := WithState(before, o, GrownBy(StateOf(before, o), k));
      assert View().children == grown.children;
    }

    lemma StillMade(d: DagState, k: nat)
      ensures d.nodes != [] ==> GrownBy(d, k).nodes != []
    {
    }

    /** makeNode, for operands in the graph o, or for none in the group itself; also a pass over one
        graph that makes k nodes there, between two updates. */
    method MakeNodes(o: Owner, k: nat)
      requires Valid() && (o.Child? ==> o.name in name2dag)
      modifies own, name2dag.Values
      ensures Valid() && Owns(old(View()), o) && View() == AfterNodes(old(View()), o, k)
    {
      hide WithState, GrownBy, Distinct, Settled, IsTotal, Raised, StateOf;
      ghost var before := View();
      Grow(o, k);
      GrownGroup(before, o, k);
      AfterNodesIsSound(before, o, k);
      ghost var grown := View();
      UpdateGroupIndex();
      SameTotal(grown, own.next, before.own.next + k);
    }

    /** The loop of deGroupLibAndAlo: the passes over each child make as many nodes as made says. */
    method DecisionPasses(made: map<string, nat>) returns (ghost steps: seq<Step>)
      requires Valid()
      modifies own, name2dag.Values
      ensures Valid() && View() == Run(old(View()), steps)
      ensures |steps| == |name2dag| && forall i: nat :: i < |steps| ==> steps[i].MakeNodes? && steps[i].owner.Child?
    {
      hide Run, Valid;
      ghost var before := View();
      steps := [];
      assert Run(before, steps) == before by { NoSteps(before); }
      var rest := name2dag.Keys;
      while rest != {}
        invariant rest <= name2dag.Keys && |rest| + |steps| == |name2dag|
        invariant Valid() && View() == Run(before, steps)
        invariant forall i: nat :: i < |steps| ==> steps[i].MakeNodes? && steps[i].owner.Child?
        decreases rest
      {
        var name :| name in rest;
        var k := if name in made then made[name] else 0;
        PassesOver(name, k, before, steps);
        steps := steps + [Step.MakeNodes(Child(name), k)];
        rest := rest - {name};
      }
    }

    method PassesOver(name: string, k: nat, ghost before: Group, ghost steps: seq<Step>)
      requires Valid() && name in name2dag && View() == Run(before, steps)
      modifies own, name2dag.Values
      ensures Valid() && View() == Run(before, steps + [Step.MakeNodes(Child(name), k)])
    {
      hide AfterNodes, Sound;
      Refresh();
      ghost var step := Step.MakeNodes(Child(name), k);
      assert (steps + [step])[..|steps|] == steps;
      MakeNodes(Child(name), k);
    }

    lemma NoSteps(g: Group)
      ensures Run(g, []) == g
    {
    }

    /** updateGroupIndex between operations changes nothing. */
    method Refresh()
      requires Valid()
      modifies own`next, name2dag.Values`next
      ensures Valid() && View() == old(View())
    {
      ghost var before := View();
      UpdateGroupIndex();
      SettledTotal(before, own.next);
    }

    lemma SettledTotal(g: Group, n: nat)
      requires Sound(g) && IsTotal(g, n)
      ensures n == g.own.next && Raised(g, n) == g
    {
      forall name | name in g.children
        ensures g.children[name].(next := n) == g.children[name]
      {
        assert Owns(g, Child(name)) && StateOf(g, Child(name)).next == n;
      }
      assert StateOf(g, Root).next == n;
      assert Raised(g, n).children == g.children;
    }
  }
}
