/** One visit of the in-place executor, iyfc/seal/comm/seal_executor.h, as a function on its
    memory. SEAL's evaluator is foreign: what it computes on slots is Meaning. */
module ExecutorSpec {
  import opened Graphs
  import opened Dags
  import opened Semantics
  import opened Types
  import opened ConstantFolding
  import opened Replication

  /** An object in memory; one that has been moved from keeps its kind but holds nothing. */
  datatype Cell = Held(kind: DataType, slots: Slots) | Empty(kind: DataType)

  function Read(c: Cell): Slots
  {
    if c.Held? then c.slots else []
  }

  type Objects = map<NodeId, Cell>
  type Degrees = map<NodeId, int>

  function CellAt(objects: Objects, n: NodeId): Cell
  {
    if n in objects then objects[n] else Empty(Undef)
  }

  function OutAt(out: Degrees, n: NodeId): int
  {
    if n in out then out[n] else 0
  }

  /** failed is m_has_err; misread records that an object holding nothing has been read. */
  datatype Memory = Memory(objects: Objects, out: Degrees, failed: bool, misread: bool)

  /** The out-degrees once every argument has been counted off. */
  function Decrement(out: Degrees, args: seq<NodeId>): Degrees
    decreases |args|
  {
    if args == [] then out else Decrement(out[args[0] := OutAt(out, args[0]) - 1], args[1..])
  }

  lemma {:induction false} DecrementAt(out: Degrees, args: seq<NodeId>, p: NodeId)
    ensures OutAt(Decrement(out, args), p) == OutAt(out, p) - Count(args, p)
    decreases |args|
  {
    if args != [] {
      CountPop(args, p);
      DecrementAt(out[args[0] := OutAt(out, args[0]) - 1], args[1..], p);
    }
  }

  /** vec_agr_inplace: counting off argument i leaves no further use. */
  predicate IsLast(out: Degrees, args: seq<NodeId>, i: nat)
    requires i < |args|
  {
    OutAt(out, args[i]) == Count(args[..i+1], args[i])
  }

  /** Values per vector, and slots per ciphertext. */
  datatype Dims = Dims(vec: nat, slots: nat)

  /** The value of a node: vectors are computed on their own length, encodings replicate them, and
      SEAL computes on all slots. */
  function ValueOf(dims: Dims, n: NodeId, op: Op, kind: DataType, args: seq<Slots>): Slots
  {
    if kind == Raw then Meaning(dims.vec, NoInput, n, op, args)
    else if op.Encode? then Expand(dims.slots, Nth(args, 0))
    else Meaning(dims.slots, NoInput, n, op, args)
  }

  datatype Outcome = Fails | Yields(kind: DataType)

  /** The checks on the kinds of the arguments, and the kind of the result. */
  function ResultKind(op: Op, kinds: seq<DataType>): Outcome
  {
    match op
    case Input(_) => Fails
    case Constant(_) => Yields(Raw)
    case Encode => if kinds == [Raw] then Yields(Plain) else Fails
    case Add => BinaryKind(kinds)
    case Sub => BinaryKind(kinds)
    case Mul => BinaryKind(kinds)
    case RotateLeft(_) => UnaryKind(kinds)
    case RotateRight(_) => UnaryKind(kinds)
    case Negate => UnaryKind(kinds)
    case Relinearize => if kinds == [Cipher] then Yields(Cipher) else Fails
    case ModSwitch => if kinds == [Cipher] then Yields(Cipher) else Fails
    case Rescale(_) => if kinds == [Cipher] then Yields(Cipher) else Fails
    case Output => if |kinds| == 1 then Yields(kinds[0]) else Fails
  }

  function BinaryKind(kinds: seq<DataType>): Outcome
  {
    if kinds == [Raw, Raw] then Yields(Raw)
    else if kinds == [Cipher, Cipher] || kinds == [Cipher, Plain] || kinds == [Plain, Cipher] then Yields(Cipher)
    else Fails
  }

  function UnaryKind(kinds: seq<DataType>): Outcome
  {
    if kinds == [Raw] then Yields(Raw) else if kinds == [Cipher] then Yields(Cipher) else Fails
  }

  /** The argument whose object is overwritten and moved to the result, -1 if there is none. */
  function Consumed(op: Op, kinds: seq<DataType>, last: seq<bool>): (i: int)
    requires |kinds| == |last|
    ensures -1 <= i < |kinds|
    ensures i >= 0 ==> last[i] || op.Output?
  {
    if op.Output? && |kinds| == 1 then 0
    else if (op.Add? || op.Mul?) && |kinds| == 2 then
      if last[0] && kinds[0] == Cipher then 0 else if last[1] && kinds[1] == Cipher then 1 else -1
    else if op.Sub? && |kinds| == 2 then
      if last[0] && kinds[0] == Cipher then 0 else -1
    else if !op.Constant? && !op.Encode? && |kinds| == 1 then
      if last[0] && kinds[0] == Cipher then 0 else -1
    else -1
  }

  function Kinds(objects: Objects, args: seq<NodeId>): (kinds: seq<DataType>)
    ensures |kinds| == |args|
  {
    seq(|args|, i requires 0 <= i < |args| => CellAt(objects, args[i]).kind)
  }

  function Lasts(out: Degrees, args: seq<NodeId>): (last: seq<bool>)
    ensures |last| == |args|
  {
    seq(|args|, i requires 0 <= i < |args| => IsLast(out, args, i))
  }

  function ArgSlots(objects: Objects, args: seq<NodeId>): (slots: seq<Slots>)
    ensures |slots| == |args|
  {
    seq(|args|, i requires 0 <= i < |args| => Read(CellAt(objects, args[i])))
  }

  predicate ReadsEmpty(objects: Objects, args: seq<NodeId>)
  {
    exists i: nat :: i < |args| && CellAt(objects, args[i]).Empty?
  }

  /** The object of args[i] is moved away; the moved-from object stays. */
  function MoveFrom(objects: Objects, args: seq<NodeId>, i: int): Objects
    requires -1 <= i < |args|
  {
    if i < 0 then objects else objects[args[i] := Empty(CellAt(objects, args[i]).kind)]
  }

  function Exec(g: Graph, dims: Dims, m: Memory, n: NodeId): Memory
    requires n < |g.operands| && n < |g.op|
  {
    if m.failed || g.op[n].Input? then m
    else
      var args := g.operands[n];
      var kinds := Kinds(m.objects, args);
      var out := Decrement(m.out, args);
      match ResultKind(g.op[n], kinds)
      case Fails => Memory(m.objects, out, true, m.misread)
      case Yields(kind) =>
        var result := Held(kind, ValueOf(dims, n, g.op[n], kind, ArgSlots(m.objects, args)));
        Memory(MoveFrom(m.objects, args, Consumed(g.op[n], kinds, Lasts(m.out, args)))[n := result],
               out, false, m.misread || ReadsEmpty(m.objects, args))
  }

  /** The memory after the first k nodes of the order have been visited. */
  function Run(g: Graph, dims: Dims, m: Memory, order: seq<NodeId>, k: nat): Memory
    requires |g.op| == |g.operands| && k <= |order|
    requires forall j: nat :: j < |order| ==> order[j] < |g.operands|
  {
    if k == 0 then m else Exec(g, dims, Run(g, dims, m, order, k - 1), order[k-1])
  }

  // ----- counting uses -----

  /** Occurrences of p among the operands of the listed nodes. */
  function Occurrences(operands: seq<seq<NodeId>>, order: seq<NodeId>, p: NodeId): nat
    requires forall j: nat :: j < |order| ==> order[j] < |operands|
  {
    if order == [] then 0
    else Occurrences(operands, order[..|order|-1], p) + Count(operands[order[|order|-1]], p)
  }

  function Tally(s: seq<NodeId>, order: seq<NodeId>): nat
  {
    if order == [] then 0 else Tally(s, order[..|order|-1]) + Count(s, order[|order|-1])
  }

  lemma {:induction false} TallyEmpty(order: seq<NodeId>)
    ensures Tally([], order) == 0
  {
    if order != [] {
      TallyEmpty(order[..|order|-1]);
    }
  }

  lemma {:induction false} TallyDrop(s: seq<NodeId>, order: seq<NodeId>)
    requires s != [] && forall i, j :: 0 <= i < j < |order| ==> order[i] != order[j]
    ensures Tally(s, order) == Tally(s[1..], order) + if s[0] in order then 1 else 0
  {
    if order != [] {
      var last := order[|order|-1];
      TallyDrop(s, order[..|order|-1]);
      CountPop(s, last);
      assert s[0] in order <==> s[0] in order[..|order|-1] || s[0] == last;
    }
  }

  /** Counting the elements of s by value gives its length. */
  lemma {:induction false} TallyIsLength(s: seq<NodeId>, order: seq<NodeId>)
    requires forall i, j :: 0 <= i < j < |order| ==> order[i] != order[j]
    requires forall i: nat :: i < |s| ==> s[i] in order
    ensures Tally(s, order) == |s|
  {
    if s == [] {
      TallyEmpty(order);
    } else {
      TallyDrop(s, order);
      assert s[0] in order;
      TallyIsLength(s[1..], order);
    }
  }

  lemma {:induction false} OccurrencesTally(operands: seq<seq<NodeId>>, uses: seq<seq<NodeId>>, order: seq<NodeId>,
                                            p: NodeId)
    requires UsesInverse(operands, uses) && p < |uses|
    requires forall j: nat :: j < |order| ==> order[j] < |operands|
    ensures Occurrences(operands, order, p) == Tally(uses[p], order)
  {
    if order != [] {
      OccurrencesTally(operands, uses, order[..|order|-1], p);
      assert Balanced(operands, uses, p, order[|order|-1]);
    }
  }

  lemma {:induction false} OccurrencesGrow(operands: seq<seq<NodeId>>, order: seq<NodeId>, k: nat, p: NodeId)
    requires k <= |order| && forall j: nat :: j < |order| ==> order[j] < |operands|
    ensures Occurrences(operands, order[..k], p) <= Occurrences(operands, order, p)
  {
    if k < |order| {
      assert order[..|order|-1][..k] == order[..k];
      OccurrencesGrow(operands, order[..|order|-1], k, p);
    } else {
      assert order[..k] == order;
    }
  }

  /** Without uses from position k on, all occurrences lie before it. */
  lemma {:induction false} OccurrencesNone(operands: seq<seq<NodeId>>, order: seq<NodeId>, k: nat, p: NodeId)
    requires k <= |order| && forall j: nat :: j < |order| ==> order[j] < |operands|
    requires forall j: nat :: k <= j < |order| ==> p !in operands[order[j]]
    ensures Occurrences(operands, order, p) == Occurrences(operands, order[..k], p)
  {
    if k == |order| {
      assert order[..k] == order;
    } else {
      var rest := order[..|order|-1];
      assert rest[..k] == order[..k];
      OccurrencesNone(operands, rest, k, p);
      if Count(operands[order[|order|-1]], p) > 0 {
        CountPositive(operands[order[|order|-1]], p);
      }
    }
  }

  lemma OccurrencesStep(operands: seq<seq<NodeId>>, order: seq<NodeId>, k: nat, p: NodeId)
    requires k < |order| && forall j: nat :: j < |order| ==> order[j] < |operands|
    ensures Occurrences(operands, order[..k+1], p) == Occurrences(operands, order[..k], p) + Count(operands[order[k]],
      p)
  {
    assert order[..k+1][..k] == order[..k];
  }
}
