/** What a graph computes: slot vectors over exact reals, and which nodes are encrypted. */
module Semantics {
  import opened Graphs

  type Slots = seq<real>

  function At(x: Slots, i: int): real
  {
    if 0 <= i < |x| then x[i] else 0.0
  }

  function Fit(size: nat, x: Slots): (r: Slots)
    ensures |r| == size
    ensures |x| == size ==> r == x
  {
    seq(size, i requires 0 <= i < size => At(x, i))
  }

  function Expand(size: nat, values: seq<real>): (r: Slots)
    ensures |r| == size
  {
    seq(size, i requires 0 <= i < size => if values == [] then 0.0 else values[i % |values|])
  }

  function Negated(size: nat, x: Slots): (r: Slots)
    ensures |r| == size
  {
    seq(size, i requires 0 <= i < size => -At(x, i))
  }

  function Plus(size: nat, x: Slots, y: Slots): (r: Slots)
    ensures |r| == size
  {
    seq(size, i requires 0 <= i < size => At(x, i) + At(y, i))
  }

  function Minus(size: nat, x: Slots, y: Slots): (r: Slots)
    ensures |r| == size
  {
    seq(size, i requires 0 <= i < size => At(x, i) - At(y, i))
  }

  function Times(size: nat, x: Slots, y: Slots): (r: Slots)
    ensures |r| == size
  {
    seq(size, i requires 0 <= i < size => At(x, i) * At(y, i))
  }

  /** Slot i of the result is slot i + shift of x, cyclically. */
  function RotatedLeft(size: nat, x: Slots, shift: int): (r: Slots)
    ensures |r| == size
  {
    seq(size, i requires 0 <= i < size => At(x, (i + shift) % size))
  }

  function Sum(size: nat, xs: seq<Slots>): (r: Slots)
    ensures |r| == size
  {
    if xs == [] then seq(size, i => 0.0) else Plus(size, xs[0], Sum(size, xs[1..]))
  }

  function Product(size: nat, xs: seq<Slots>): (r: Slots)
    ensures |r| == size
  {
    if xs == [] then seq(size, i => 1.0) else Times(size, xs[0], Product(size, xs[1..]))
  }

  function Nth(xs: seq<Slots>, i: nat): Slots
  {
    if i < |xs| then xs[i] else []
  }

  /** The meaning of an opcode; the operations that only concern encryption are identities. */
  function Meaning(size: nat, env: NodeId -> Slots, n: NodeId, op: Op, args: seq<Slots>): (r: Slots)
    ensures |r| == size
  {
    match op
    case Input(_) => Fit(size, env(n))
    case Constant(values) => Expand(size, values)
    case Negate => Negated(size, Nth(args, 0))
    case Add => Sum(size, args)
    case Sub => Minus(size, Nth(args, 0), Nth(args, 1))
    case Mul => Product(size, args)
    case RotateLeft(shift) => RotatedLeft(size, Nth(args, 0), shift)
    case RotateRight(shift) => RotatedLeft(size, Nth(args, 0), -shift)
    case Output => Fit(size, Nth(args, 0))
    case Relinearize => Fit(size, Nth(args, 0))
    case ModSwitch => Fit(size, Nth(args, 0))
    case Rescale(_) => Fit(size, Nth(args, 0))
    case Encode => Fit(size, Nth(args, 0))
  }

  /** Whether a node holds a ciphertext, given which of its operands do. */
  function Encrypted(op: Op, args: seq<bool>): bool
  {
    match op
    case Input(encrypted) => encrypted
    case Constant(_) => false
    case Encode => false
    case _ => true in args
  }

  ghost function SlotSem(size: nat, env: NodeId -> Slots): (NodeId, Op, seq<Slots>) -> Slots
  {
    (n: NodeId, op: Op, args: seq<Slots>) => Meaning(size, env, n, op, args)
  }

  ghost function CipherSem(): (NodeId, Op, seq<bool>) -> bool
  {
    (n: NodeId, op: Op, args: seq<bool>) => Encrypted(op, args)
  }

  /** Every interpretation of g extends to one of g' that keeps all former node values. */
  ghost predicate Extends<T(!new)>(g: Graph, g': Graph, sem: (NodeId, Op, seq<T>) -> T)
  {
    forall v :: Interprets(g, sem, v) ==> exists v' :: Interprets(g', sem, v') && v <= v'
  }

  /** g' computes what g computes: old nodes keep their values and their encryption status,
      for all inputs, and no output disappears. */
  ghost predicate Refines(size: nat, g: Graph, g': Graph)
  {
    && g.op <= g'.op
    && (forall n: NodeId :: n < |g.op| && Live(g, n) && g.op[n].Output? ==> Live(g', n))
    && (forall env :: Extends(g, g', SlotSem(size, env)))
    && Extends(g, g', CipherSem())
  }

  predicate IsEnd(op: Op) { op.Input? || op.Output? }

  /** The same inputs and outputs in both graphs. */
  ghost predicate SameEnds(g: Graph, r: Graph)
  {
    && |g.op| == |g.operands| && |r.op| == |r.operands| && g.op <= r.op
    && forall o: NodeId :: (Live(g, o) && o < |g.op| && IsEnd(g.op[o])) <==>
         (Live(r, o) && o < |r.op| && IsEnd(r.op[o]))
  }

  lemma SameEndsTransitive(g: Graph, g': Graph, g'': Graph)
    requires SameEnds(g, g') && SameEnds(g', g'')
    ensures SameEnds(g, g'')
  {
  }

  lemma ExtendsTransitive<T(!new)>(g: Graph, g': Graph, g'': Graph, sem: (NodeId, Op, seq<T>) -> T)
    requires Extends(g, g', sem) && Extends(g', g'', sem)
    ensures Extends(g, g'', sem)
  {
    forall v | Interprets(g, sem, v)
      ensures exists v'' :: Interprets(g'', sem, v'') && v <= v''
    {
      var v' :| Interprets(g', sem, v') && v <= v';
      var v'' :| Interprets(g'', sem, v'') && v' <= v'';
      assert v <= v'';
    }
  }

  lemma RefinesReflexive(size: nat, g: Graph)
    ensures Refines(size, g, g)
  {
    forall env
      ensures Extends(g, g, SlotSem(size, env))
    {
      ExtendsReflexive(g, SlotSem(size, env));
    }
    ExtendsReflexive(g, CipherSem());
  }

  lemma ExtendsReflexive<T(!new)>(g: Graph, sem: (NodeId, Op, seq<T>) -> T)
    ensures Extends(g, g, sem)
  {
    forall v | Interprets(g, sem, v)
      ensures exists v' :: Interprets(g, sem, v') && v <= v'
    {
      assert v <= v;
    }
  }

  lemma RefinesTransitive(size: nat, g: Graph, g': Graph, g'': Graph)
    requires Refines(size, g, g') && Refines(size, g', g'')
    ensures Refines(size, g, g'')
  {
    forall env
      ensures Extends(g, g'', SlotSem(size, env))
    {
      ExtendsTransitive(g, g', g'', SlotSem(size, env));
    }
    ExtendsTransitive(g, g', g'', CipherSem());
  }

  /** The point of Refines: on an acyclic result, any evaluation of g' gives every output of g
      the value it has in any evaluation of g on the same inputs. */
  lemma RefinesOutputs(size: nat, g: Graph, g': Graph, env: NodeId -> Slots, v: seq<Slots>, w: seq<Slots>, n: NodeId)
    requires Refines(size, g, g') && Acyclic(g')
    requires Interprets(g, SlotSem(size, env), v) && Interprets(g', SlotSem(size, env), w)
    requires Live(g, n) && g.op[n].Output?
    ensures Live(g', n) && g'.op[n].Output? && w[n] == v[n]
  {
    assert Extends(g, g', SlotSem(size, env));
    var v' :| Interprets(g', SlotSem(size, env), v') && v <= v';
    var rank :| Ranked(g', rank);
    InterpretationUnique(g', SlotSem(size, env), v', w, rank, n);
  }

  /** Operations on ciphertexts that do not change what is encrypted. */
  predicate IsTransparent(op: Op)
  {
    op.Relinearize? || op.ModSwitch? || op.Rescale?
  }

  lemma TransparentSlots(size: nat, env: NodeId -> Slots, op: Op)
    requires IsTransparent(op)
    ensures PassesThrough(SlotSem(size, env), op)
  {
  }

  lemma TransparentCipher(op: Op)
    requires IsTransparent(op)
    ensures PassesThrough(CipherSem(), op)
  {
    forall n: NodeId, m: NodeId, op', args
      ensures CipherSem()(n, op, [CipherSem()(m, op', args)]) == CipherSem()(m, op', args)
    {
      var x := CipherSem()(m, op', args);
      assert true in [x] <==> x;
    }
  }

  lemma InsertAfterExtends<T(!new)>(g: Graph, sem: (NodeId, Op, seq<T>) -> T, a: NodeId, op: Op)
    requires Live(g, a) && PassesThrough(sem, op)
    ensures Extends(g, InsertAfter(g, a, op), sem)
  {
    forall v | Interprets(g, sem, v)
      ensures exists v' :: Interprets(InsertAfter(g, a, op), sem, v') && v <= v'
    {
      var v' := InterpretInsertAfter(g, sem, v, a, op);
    }
  }

  lemma InsertAfterRefines(size: nat, g: Graph, a: NodeId, op: Op)
    requires WellFormed(g) && Live(g, a) && IsTransparent(op)
    ensures Refines(size, g, InsertAfter(g, a, op))
  {
    forall env
      ensures Extends(g, InsertAfter(g, a, op), SlotSem(size, env))
    {
      TransparentSlots(size, env, op);
      InsertAfterExtends(g, SlotSem(size, env), a, op);
    }
    TransparentCipher(op);
    InsertAfterExtends(g, CipherSem(), a, op);
    AddNodeWellFormed(g, op, [a]);
    RedirectWellFormed(AddNode(g, op, [a]), a, |g.operands|, n => n != |g.operands|);
  }

  /** All that a pass needs to know about putting a transparent operation behind a node. */
  lemma InsertAfterKeeps(size: nat, g: Graph, a: NodeId, op: Op)
    requires WellFormed(g) && Acyclic(g) && Live(g, a) && IsTransparent(op)
    ensures var r := InsertAfter(g, a, op);
      WellFormed(r) && Acyclic(r) && Refines(size, g, r) && Live(r, |g.operands|)
  {
    hide Refines, RedirectIf;
    InsertAfterAcyclic(g, a, op);
    InsertAfterRefines(size, g, a, op);
    AddNodeWellFormed(g, op, [a]);
    RedirectWellFormed(AddNode(g, op, [a]), a, |g.operands|, n => n != |g.operands|);
  }

  lemma AddNodeRefines(size: nat, g: Graph, op: Op, operands: seq<NodeId>)
    requires WellFormed(g)
    requires forall i: nat :: i < |operands| ==> Live(g, operands[i])
    ensures Refines(size, g, AddNode(g, op, operands))
  {
    forall env
      ensures Extends(g, AddNode(g, op, operands), SlotSem(size, env))
    {
      AddNodeExtends(g, SlotSem(size, env), op, operands);
    }
    AddNodeExtends(g, CipherSem(), op, operands);
    AddNodeWellFormed(g, op, operands);
  }

  lemma AddNodeExtends<T(!new)>(g: Graph, sem: (NodeId, Op, seq<T>) -> T, op: Op, operands: seq<NodeId>)
    requires forall i: nat :: i < |operands| ==> Live(g, operands[i])
    ensures Extends(g, AddNode(g, op, operands), sem)
  {
    forall v | Interprets(g, sem, v)
      ensures exists v' :: Interprets(AddNode(g, op, operands), sem, v') && v <= v'
    {
      var v' := InterpretAddNode(g, sem, v, op, operands);
    }
  }

  ghost predicate SameUnder<T(!new)>(g: Graph, sem: (NodeId, Op, seq<T>) -> T, a: NodeId, b: NodeId)
  {
    forall v :: Interprets(g, sem, v) ==> a < |v| && b < |v| && v[a] == v[b]
  }

  /** a and b always hold the same slots and are both encrypted or both not. */
  ghost predicate Interchangeable(size: nat, g: Graph, a: NodeId, b: NodeId)
  {
    && (forall env :: SameUnder(g, SlotSem(size, env), a, b))
    && SameUnder(g, CipherSem(), a, b)
  }

  lemma RedirectRefines(size: nat, g: Graph, a: NodeId, b: NodeId, accept: NodeId -> bool)
    requires WellFormed(g) && Live(g, b) && Interchangeable(size, g, a, b)
    ensures Refines(size, g, RedirectIf(g, a, b, accept))
  {
    RedirectWellFormed(g, a, b, accept);
    forall env
      ensures Extends(g, RedirectIf(g, a, b, accept), SlotSem(size, env))
    {
      assert SameUnder(g, SlotSem(size, env), a, b);
      RedirectExtends(g, SlotSem(size, env), a, b, accept);
    }
    RedirectExtends(g, CipherSem(), a, b, accept);
  }

  lemma RedirectAllRefines(size: nat, g: Graph, a: NodeId, b: NodeId)
    requires WellFormed(g) && Live(g, b) && Interchangeable(size, g, a, b)
    ensures WellFormed(RedirectAll(g, a, b)) && Refines(size, g, RedirectAll(g, a, b))
    ensures forall n: NodeId :: Live(RedirectAll(g, a, b), n) <==> Live(g, n)
  {
    hide Refines, Interchangeable;
    RedirectRefines(size, g, a, b, _ => true);
    RedirectWellFormed(g, a, b, _ => true);
  }

  lemma RedirectExtends<T(!new)>(g: Graph, sem: (NodeId, Op, seq<T>) -> T, a: NodeId, b: NodeId, accept: NodeId -> bool)
    requires Live(g, b) && SameUnder(g, sem, a, b)
    ensures Extends(g, RedirectIf(g, a, b, accept), sem)
  {
    forall v | Interprets(g, sem, v)
      ensures exists v' :: Interprets(RedirectIf(g, a, b, accept), sem, v') && v <= v'
    {
      InterpretRedirect(g, sem, v, a, b, accept);
      assert v <= v;
    }
  }

  lemma RedirectAllExtends<T(!new)>(g: Graph, sem: (NodeId, Op, seq<T>) -> T, a: NodeId, b: NodeId)
    requires Live(g, b) && SameUnder(g, sem, a, b)
    ensures Extends(g, RedirectAll(g, a, b), sem)
  {
    RedirectExtends(g, sem, a, b, _ => true);
  }

  lemma ReplaceRefines(size: nat, g: Graph, n: NodeId, a: NodeId, b: NodeId)
    requires WellFormed(g) && n < |g.operands| && Live(g, b) && Interchangeable(size, g, a, b)
    ensures Refines(size, g, ReplaceIn(g, n, a, b))
  {
    ReplaceWellFormed(g, n, a, b);
    forall env
      ensures Extends(g, ReplaceIn(g, n, a, b), SlotSem(size, env))
    {
      assert SameUnder(g, SlotSem(size, env), a, b);
      ReplaceExtends(g, SlotSem(size, env), n, a, b);
    }
    ReplaceExtends(g, CipherSem(), n, a, b);
  }

  lemma ReplaceExtends<T(!new)>(g: Graph, sem: (NodeId, Op, seq<T>) -> T, n: NodeId, a: NodeId, b: NodeId)
    requires n < |g.operands| && Live(g, b) && SameUnder(g, sem, a, b)
    ensures Extends(g, ReplaceIn(g, n, a, b), sem)
  {
    forall v | Interprets(g, sem, v)
      ensures exists v' :: Interprets(ReplaceIn(g, n, a, b), sem, v') && v <= v'
    {
      InterpretReplace(g, sem, v, n, a, b);
      assert v <= v;
    }
  }
}
