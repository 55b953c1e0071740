/** Attribute lists of nodes and their messages (iyfc/dag/node_attr.cpp, iyfc/dag/node_attr.h and
    iyfc/proto/iyfc_serialization.cpp). */
module Attributes {

  // ----- values -----

  datatype ConstantValue<T> =
    | Dense(size: nat, values: seq<T>)
    | Sparse(size: nat, entries: seq<(nat, T)>)

  datatype AttrValue =
    | Monostate
    | Uint32(u: nat)
    | Int32(i: int)
    | DataTypeCode(code: nat)
    | Constant(c: ConstantValue<real>)
    | ConstantInt64(k: ConstantValue<int>)
    | NullConstant
    | NullConstantInt64

  type AttrKey = k: nat | k < 256

  datatype Attribute = Attribute(key: AttrKey, value: AttrValue)

  /** isValidAttr: the type each key of the list IYFC_ATTR demands. */
  predicate IsValidAttr(k: AttrKey, v: AttrValue)
  {
    match k
    case 3 => v.Constant? || v.NullConstant?
    case 4 => v.ConstantInt64? || v.NullConstantInt64?
    case 6 => v.DataTypeCode?
    case _ => 1 <= k <= 10 && v.Uint32?
  }

  // ----- constants -----

  datatype ConstantMsg<T> = ConstantMsg(size: nat, values: seq<T>, sparseIndices: seq<nat>)

  datatype LoadedConstant<T> = Loaded(c: ConstantValue<T>) | Null | Thrown

  function SaveConstant<T>(c: ConstantValue<T>): ConstantMsg<T>
  {
    match c
    case Dense(size, values) => ConstantMsg(size, values, [])
    case Sparse(size, entries) =>
      ConstantMsg(size, seq(|entries|, i requires 0 <= i < |entries| => entries[i].1),
                  seq(|entries|, i requires 0 <= i < |entries| => entries[i].0))
  }

  /** deserialize of a constant; the constructor of a dense one throws when its size is no multiple. */
  function LoadConstant<T>(m: ConstantMsg<T>): LoadedConstant<T>
  {
    if m.size == 0 then Null
    else if m.values == [] then Loaded(Sparse(m.size, []))
    else if m.sparseIndices == [] then
      if m.size % |m.values| != 0 then Thrown else Loaded(Dense(m.size, m.values))
    else if |m.sparseIndices| != |m.values| then Null
    else Loaded(Sparse(m.size, seq(|m.values|, i requires 0 <= i < |m.values| => (m.sparseIndices[i], m.values[i]))))
  }

  /** What the constructors accept. */
  predicate Constructible<T>(c: ConstantValue<T>)
  {
    c.Dense? ==> c.values != [] && c.size % |c.values| == 0
  }

  /** A constant survives exactly when its size is not zero. */
  lemma ConstantRoundTrip<T>(c: ConstantValue<T>)
    requires Constructible(c)
    ensures LoadConstant(SaveConstant(c)) == Loaded(c) <==> c.size > 0
  {
    if c.Sparse? && c.entries != [] && c.size > 0 {
      var m := SaveConstant(c);
      assert seq(|m.values|, i requires 0 <= i < |m.values| => (m.sparseIndices[i], m.values[i])) == c.entries;
    }
  }

  // ----- messages -----

  datatype MsgValue =
    | ValueNotSet
    | MsgUint32(u: nat)
    | MsgInt32(i: int)
    | MsgType(code: nat)
    | MsgConstant(c: ConstantMsg<real>)
    | MsgConstantInt64(k: ConstantMsg<int>)

  datatype AttributeMsg = AttributeMsg(key: nat, value: MsgValue)

  predicate Saveable(v: AttrValue)
  {
    !v.NullConstant? && !v.NullConstantInt64?
  }

  function SaveValue(v: AttrValue): MsgValue
    requires Saveable(v)
  {
    match v
    case Monostate => ValueNotSet
    case Uint32(u) => MsgUint32(u)
    case Int32(i) => MsgInt32(i)
    case DataTypeCode(code) => MsgType(code)
    case Constant(c) => MsgConstant(SaveConstant(c))
    case ConstantInt64(k) => MsgConstantInt64(SaveConstant(k))
  }

  datatype LoadedValue = Value(v: AttrValue) | Throws

  function LoadValue(m: MsgValue): LoadedValue
  {
    match m
    case ValueNotSet => Value(Monostate)
    case MsgUint32(u) => Value(Uint32(u))
    case MsgInt32(i) => Value(Int32(i))
    case MsgType(code) => Value(DataTypeCode(code))
    case MsgConstant(c) => DoubleOf(LoadConstant(c))
    case MsgConstantInt64(k) => Int64Of(LoadConstant(k))
  }

  function DoubleOf(c: LoadedConstant<real>): LoadedValue
  {
    match c
    case Loaded(d) => Value(Constant(d))
    case Null => Value(NullConstant)
    case Thrown => Throws
  }

  function Int64Of(k: LoadedConstant<int>): LoadedValue
  {
    match k
    case Loaded(d) => Value(ConstantInt64(d))
    case Null => Value(NullConstantInt64)
    case Thrown => Throws
  }

  predicate Storable(v: AttrValue)
  {
    match v
    case Constant(c) => Constructible(c) && c.size > 0
    case ConstantInt64(k) => Constructible(k) && k.size > 0
    case NullConstant => false
    case NullConstantInt64 => false
    case _ => true
  }

  lemma ValueRoundTrip(v: AttrValue)
    requires Storable(v)
    ensures Saveable(v) && LoadValue(SaveValue(v)) == Value(v)
  {
    if v.Constant? {
      ConstantRoundTrip(v.c);
    } else if v.ConstantInt64? {
      ConstantRoundTrip(v.k);
    }
  }

  // ----- the list -----

  /** Keys strictly increase and are positive. */
  predicate Sorted(s: seq<Attribute>)
  {
    && (forall i: nat :: i < |s| ==> s[i].key > 0)
    && forall i: nat, j: nat :: i < j < |s| ==> s[i].key < s[j].key
  }

  /** The value kept under a key. */
  predicate Maps(s: seq<Attribute>, k: AttrKey, v: AttrValue)
  {
    Attribute(k, v) in s
  }

  predicate HasKey(s: seq<Attribute>, k: AttrKey)
  {
    exists i: nat :: i < |s| && s[i].key == k
  }

  /** s' is s with k mapped to v and nothing else changed. */
  ghost predicate IsUpdate(s: seq<Attribute>, k: AttrKey, v: AttrValue, s': seq<Attribute>)
  {
    && Sorted(s')
    && forall a: Attribute :: a in s' <==> if a.key == k then a.value == v else a in s
  }

  lemma InsertedSorted(s: seq<Attribute>, i: nat, a: Attribute)
    requires Sorted(s) && i <= |s| && a.key > 0
    requires i > 0 ==> s[i - 1].key < a.key
    requires i < |s| ==> s[i].key > a.key
    ensures Sorted(s[..i] + [a] + s[i..])
  {
    var s' := s[..i] + [a] + s[i..];
    forall j: nat, k: nat | j < k < |s'|
      ensures s'[j].key < s'[k].key
    {
      assert j < i ==> s[j].key <= s[i - 1].key;
      assert k > i ==> s[k - 1].key >= s[i].key;
    }
  }

  lemma InsertedAt(s: seq<Attribute>, i: nat, k: AttrKey, v: AttrValue)
    requires Sorted(s) && i <= |s| && k > 0
    requires i > 0 ==> s[i - 1].key < k
    requires i < |s| ==> s[i].key > k
    ensures IsUpdate(s, k, v, s[..i] + [Attribute(k, v)] + s[i..])
  {
    InsertedSorted(s, i, Attribute(k, v));
    forall a | a in s
      ensures a.key != k
    {
      var j: nat :| j < |s| && s[j] == a;
      assert j < i ==> s[j].key <= s[i - 1].key;
      assert j >= i ==> s[j].key >= s[i].key;
    }
    hide Sorted;
    assert s == s[..i] + s[i..];
  }

  lemma ReplacedAt(s: seq<Attribute>, i: nat, v: AttrValue)
    requires Sorted(s) && i < |s|
    ensures IsUpdate(s, s[i].key, v, s[i := Attribute(s[i].key, v)])
  {
    var k := s[i].key;
    var s' := s[i := Attribute(k, v)];
    forall a: Attribute
      ensures a in s' <==> if a.key == k then a.value == v else a in s
    {
      if a in s' {
        var j: nat :| j < |s'| && s'[j] == a;
        assert j != i ==> s[j] == a;
      }
      if a in s && a.key != k {
        var j: nat :| j < |s| && s[j] == a;
        assert s'[j] == a;
      }
      assert s'[i] == Attribute(k, v);
    }
  }

  /** A strictly increasing list is determined by its members. */
  lemma {:induction false} SortedUnique(s: seq<Attribute>, t: seq<Attribute>)
    requires Sorted(s) && Sorted(t) && forall a: Attribute :: a in s <==> a in t
    ensures s == t
  {
    BothEmpty(s, t);
    if s != [] {
      FirstSame(s, t);
      assert s == [s[0]] + s[1..] && t == [t[0]] + t[1..];
      forall a: Attribute
        ensures a in s[1..] <==> a in t[1..]
      {
        TailMembers(s, a);
        TailMembers(t, a);
      }
      SortedUnique(s[1..], t[1..]);
    }
  }

  lemma BothEmpty(s: seq<Attribute>, t: seq<Attribute>)
    requires forall a: Attribute :: a in s <==> a in t
    ensures s == [] <==> t == []
  {
    assert s != [] ==> s[0] in t;
    assert t != [] ==> t[0] in s;
  }

  lemma FirstSame(s: seq<Attribute>, t: seq<Attribute>)
    requires s != [] && t != [] && Sorted(s) && Sorted(t) && forall a: Attribute :: a in s <==> a in t
    ensures s[0] == t[0]
  {
    assert s[0] in t && t[0] in s;
    var i: nat :| i < |t| && t[i] == s[0];
    var j: nat :| j < |s| && s[j] == t[0];
    assert t[0].key <= t[i].key && s[0].key <= s[j].key;
    assert i == 0;
  }

  lemma TailMembers(s: seq<Attribute>, a: Attribute)
    requires s != [] && Sorted(s)
    ensures a in s[1..] <==> a in s && a != s[0]
  {
    if a in s[1..] {
      var i: nat :| i < |s[1..]| && s[1..][i] == a;
      assert s[0].key < s[i + 1].key;
    }
    assert s == [s[0]] + s[1..];
  }

  /** The list with k mapped to v */
  function Updated(s: seq<Attribute>, k: AttrKey, v: AttrValue): seq<Attribute>
  {
    if s == [] || s[0].key > k then [Attribute(k, v)] + s
    else if s[0].key == k then [Attribute(k, v)] + s[1..]
    else [s[0]] + Updated(s[1..], k, v)
  }

  lemma {:induction false} UpdatedMaps(s: seq<Attribute>, k: AttrKey, v: AttrValue)
    requires Sorted(s) && k > 0
    ensures IsUpdate(s, k, v, Updated(s, k, v))
  {
    if s == [] || s[0].key > k {
      InsertedAt(s, 0, k, v);
      assert s[..0] + [Attribute(k, v)] + s[0..] == Updated(s, k, v);
    } else if s[0].key == k {
      ReplacedAt(s, 0, v);
      assert s[0 := Attribute(k, v)] == Updated(s, k, v);
    } else {
      UpdatedMaps(s[1..], k, v);
      UpdateBehind(s, k, v, Updated(s[1..], k, v));
    }
  }

  lemma UpdateBehind(s: seq<Attribute>, k: AttrKey, v: AttrValue, rest: seq<Attribute>)
    requires s != [] && Sorted(s) && s[0].key < k && IsUpdate(s[1..], k, v, rest)
    ensures IsUpdate(s, k, v, [s[0]] + rest)
  {
    var s' := [s[0]] + rest;
    forall i: nat | i < |rest|
      ensures rest[i].key > s[0].key
    {
      assert rest[i] in rest;
      TailMembers(s, rest[i]);
      assert rest[i].key != k ==> rest[i] in s[1..];
    }
    assert s == [s[0]] + s[1..];
  }

  lemma UpdateUnique(s: seq<Attribute>, k: AttrKey, v: AttrValue, s': seq<Attribute>)
    requires Sorted(s) && k > 0 && IsUpdate(s, k, v, s')
    ensures s' == Updated(s, k, v)
  {
    UpdatedMaps(s, k, v);
    SortedUnique(s', Updated(s, k, v));
  }

  /** The cells of the linked list, in order. */
  class AttrList {
    var entries: seq<Attribute>

    ghost predicate Valid()
      reads this
    {
      Sorted(entries)
    }

    constructor ()
      ensures Valid() && entries == []
    {
      entries := [];
    }

    method Has(k: AttrKey) returns (b: bool)
      requires Valid() && k > 0
      ensures b <==> HasKey(entries, k)
    {
      if entries == [] {
        return false;
      }
      var i := 0;
      while true
        invariant i < |entries| && forall j: nat :: j < i ==> entries[j].key < k
        decreases |entries| - i
      {
        if entries[i].key < k {
          if i + 1 < |entries| {
            i := i + 1;
          } else {
            return false;
          }
        } else {
          return entries[i].key == k;
        }
      }
    }

    /** get; nothing when the source throws. */
    method Get(k: AttrKey) returns (found: bool, v: AttrValue)
      requires Valid() && k > 0
      ensures found <==> HasKey(entries, k)
      ensures found ==> Maps(entries, k, v)
    {
      v := Monostate;
      if entries == [] {
        return false, v;
      }
      var i := 0;
      while true
        invariant i < |entries| && forall j: nat :: j < i ==> entries[j].key < k
        decreases |entries| - i
      {
        if entries[i].key == k {
          return true, entries[i].value;
        } else if entries[i].key < k && i + 1 < |entries| {
          i := i + 1;
        } else {
          return false, v;
        }
      }
    }

    method Set(k: AttrKey, v: AttrValue)
      requires Valid() && k > 0
      modifies this
      ensures Valid() && entries == Updated(old(entries), k, v)
    {
      if entries == [] {
        InsertedAt(entries, 0, k, v);
        entries := [Attribute(k, v)];
        UpdateUnique(old(entries), k, v, entries);
        return;
      }
      var i := 0;
      while true
        invariant entries == old(entries) && i < |entries| && forall j: nat :: j < i ==> entries[j].key < k
        decreases |entries| - i
      {
        if entries[i].key < k {
          if i + 1 < |entries| {
            i := i + 1;
          } else {
            InsertedAt(entries, i + 1, k, v);
            entries := entries + [Attribute(k, v)];
            UpdateUnique(old(entries), k, v, entries);
            return;
          }
        } else if entries[i].key > k {
          InsertedAt(entries, i, k, v);
          entries := entries[..i] + [Attribute(k, v)] + entries[i..];
          UpdateUnique(old(entries), k, v, entries);
          return;
        } else {
          assert entries[i].key == k;
          ReplacedAt(entries, i, v);
          entries := entries[i := Attribute(k, v)];
          UpdateUnique(old(entries), k, v, entries);
          return;
        }
      }
    }
  
    /** loadAttr: the key is cut to eight bits, and the value must be of the type of its key. */
    method LoadAttr(m: AttributeMsg) returns (r: LoadResult)
      requires Valid()
      modifies this
      ensures Valid()
      ensures r == LoadOutcome(m)
      ensures r == LoadOk ==> entries == Updated(old(entries), m.key % 256, LoadValue(m.value).v)
      ensures r != LoadOk ==> entries == old(entries)
    {
      var key: AttrKey := m.key % 256;
      var value := LoadValue(m.value);
      if value.Throws? {
        return LoadThrows;
      }
      if !IsValidAttr(key, value.v) {
        return LoadInvalid;
      }
      Set(key, value.v);
      r := LoadOk;
    }

    /** serializeAttr */
    method SerializeAttr() returns (msgs: seq<AttributeMsg>)
      requires Valid() && AllSaveable(entries)
      ensures msgs == SavedAttrs(entries)
    {
      msgs := [];
      if entries == [] {
        return;
      }
      var curr := 0;
      while curr < |entries|
        invariant curr <= |entries| && msgs == SavedAttrs(entries)[..curr]
      {
        msgs := msgs + [AttributeMsg(entries[curr].key, SaveValue(entries[curr].value))];
        curr := curr + 1;
      }
    }
  }

  datatype LoadResult = LoadOk | LoadInvalid | LoadThrows

  function LoadOutcome(m: AttributeMsg): LoadResult
  {
    var value := LoadValue(m.value);
    if value.Throws? then LoadThrows
    else if IsValidAttr(m.key % 256, value.v) then LoadOk else LoadInvalid
  }

  predicate AllSaveable(s: seq<Attribute>)
  {
    forall i: nat :: i < |s| ==> Saveable(s[i].value)
  }

  predicate AllAccepted(msgs: seq<AttributeMsg>)
  {
    forall i: nat :: i < |msgs| ==> LoadOutcome(msgs[i]) == LoadOk
  }

  function SavedAttrs(s: seq<Attribute>): (msgs: seq<AttributeMsg>)
    requires AllSaveable(s)
    ensures |msgs| == |s|
  {
    seq(|s|, i requires 0 <= i < |s| => AttributeMsg(s[i].key, SaveValue(s[i].value)))
  }

  /** What lists hold when their attributes were set through the typed interface. */
  predicate WellTyped(s: seq<Attribute>)
  {
    Sorted(s) && forall i: nat :: i < |s| ==> IsValidAttr(s[i].key, s[i].value) && Storable(s[i].value)
  }

  /** The list that loading the messages one after the other gives, if all are accepted. */
  function LoadedAttrs(msgs: seq<AttributeMsg>): seq<Attribute>
    requires AllAccepted(msgs)
  {
    if msgs == [] then []
    else
      var m := msgs[|msgs| - 1];
      Updated(LoadedAttrs(msgs[..|msgs| - 1]), m.key % 256, LoadValue(m.value).v)
  }

  lemma {:induction false} UpdatedAppends(s: seq<Attribute>, a: Attribute)
    requires forall i: nat :: i < |s| ==> s[i].key < a.key
    ensures Updated(s, a.key, a.value) == s + [a]
  {
    if s != [] {
      UpdatedAppends(s[1..], a);
      assert s == [s[0]] + s[1..];
    }
  }

  lemma LoadsBack(a: Attribute)
    requires IsValidAttr(a.key, a.value) && Storable(a.value)
    ensures Saveable(a.value)
    ensures var m := AttributeMsg(a.key, SaveValue(a.value));
      LoadOutcome(m) == LoadOk && LoadValue(m.value) == Value(a.value)
    ensures a.key % 256 == a.key
  {
    ValueRoundTrip(a.value);
  }

  lemma AllLoadBack(s: seq<Attribute>)
    requires WellTyped(s)
    ensures AllSaveable(s) && AllAccepted(SavedAttrs(s))
  {
    forall i: nat | i < |s|
      ensures Saveable(s[i].value)
    {
      LoadsBack(s[i]);
    }
    var msgs := SavedAttrs(s);
    forall i: nat | i < |s|
      ensures LoadOutcome(msgs[i]) == LoadOk
    {
      LoadsBack(s[i]);
    }
  }

  /** Loading the messages of a list gives the same list. */
  lemma {:induction false} AttributesRoundTrip(s: seq<Attribute>)
    requires WellTyped(s)
    ensures AllSaveable(s) && AllAccepted(SavedAttrs(s))
    ensures LoadedAttrs(SavedAttrs(s)) == s
  {
    AllLoadBack(s);
    if s != [] {
      hide LoadOutcome, LoadValue, SaveValue, Saveable, IsValidAttr, Storable, Updated;
      var n: nat := |s| - 1;
      var m := SavedAttrs(s)[n];
      assert WellTyped(s[..n]);
      AttributesRoundTrip(s[..n]);
      LoadsBack(s[n]);
      assert SavedAttrs(s)[..n] == SavedAttrs(s[..n]);
      UpdatedAppends(s[..n], s[n]);
      assert m == AttributeMsg(s[n].key, SaveValue(s[n].value));
      assert LoadedAttrs(SavedAttrs(s)) == Updated(s[..n], s[n].key, s[n].value);
      assert s == s[..n] + [s[n]];
    }
  }
}
