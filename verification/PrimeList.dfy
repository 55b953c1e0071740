/** The list of modulus primes, getEncryptionParameters in
    iyfc/seal/alo/encryption_parameter_selector.cpp: primes that hold the outputs, one prime for
    every rescale of the longest chain, and the key prime. */
module PrimeLists {
  import opened Graphs
  import opened ModSwitchers
  import opened ConstantFolding
  import opened Selectors

  type RangeMap = map<NodeId, nat>

  /** RangeAttr of an output. */
  function RangeAt(ranges: RangeMap, o: NodeId): nat
  {
    if o in ranges then ranges[o] else 0
  }

  /** Bits an output needs: its range and its scale. */
  function OutputBits(ranges: RangeMap, scale: ScaleMap, o: NodeId): nat
  {
    RangeAt(ranges, o) + ScaleAt(scale, o)
  }

  function TotalBits(bits: seq<nat>): nat
  {
    if bits == [] then 0 else bits[0] + TotalBits(bits[1..])
  }

  lemma {:induction false} SumAppend(a: seq<nat>, b: seq<nat>)
    ensures TotalBits(a + b) == TotalBits(a) + TotalBits(b)
  {
    if a == [] {
      assert a + b == b;
    } else {
      assert (a + b)[1..] == a[1..] + b;
      SumAppend(a[1..], b);
    }
  }

  lemma {:induction false} SumRepeat(x: nat, k: nat)
    ensures TotalBits(Repeat(x, k)) == k * x
  {
    if k > 0 {
      assert Repeat(x, k)[1..] == Repeat(x, k - 1);
      SumRepeat(x, k - 1);
    }
  }

  /** bits is the largest number of bits an output needs. */
  ghost predicate IsLargestBits(outputs: seq<NodeId>, ranges: RangeMap, scale: ScaleMap, bits: nat)
  {
    && (forall i: nat :: i < |outputs| ==> OutputBits(ranges, scale, outputs[i]) <= bits)
    && (bits == 0 || exists i: nat :: i < |outputs| && OutputBits(ranges, scale, outputs[i]) == bits)
  }

  /** The primes of one of the outputs with the most of them. */
  ghost predicate IsLongest(outputs: seq<NodeId>, primes: PrimeMap, middle: seq<nat>)
  {
    && (forall i: nat :: i < |outputs| ==> |PrimesAt(primes, outputs[i])| <= |middle|)
    && (middle == [] || exists i: nat :: i < |outputs| && PrimesAt(primes, outputs[i]) == middle)
  }

  function BackToFront(s: seq<nat>): (r: seq<nat>)
    ensures |r| == |s| && forall i: nat :: i < |s| ==> r[i] == s[|s| - 1 - i]
  {
    seq(|s|, i requires 0 <= i < |s| => s[|s| - 1 - i])
  }

  function Max(a: nat, b: nat): nat
  {
    if a > b then a else b
  }

  /** The primes for the outputs: all but the last have the bits of the scale, there are just enough of them,
      and together they have exactly the bits needed, except that what is left for the last is at least 20. */
  ghost predicate HeadFits(bits: nat, scaleBits: nat, head: seq<nat>)
    requires scaleBits > 0
  {
    && (|head| - 1) * scaleBits < bits <= |head| * scaleBits
    && (forall i: nat :: i < |head| - 1 ==> head[i] == scaleBits)
    && TotalBits(head) == if 0 < bits % scaleBits < 20 then bits - bits % scaleBits + 20 else bits
  }

  /** The primes for the outputs cover what is left of bits in steps of the scale. */
  method SplitBits(bits: nat, scaleBits: nat) returns (head: seq<nat>)
    requires 0 < scaleBits <= bits
    ensures HeadFits(bits, scaleBits, head)
  {
    head := [];
    var left: nat, k: nat := bits, 0;
    assert head == Repeat(scaleBits, 0);
    while left >= scaleBits
      invariant bits == k * scaleBits + left && head == Repeat(scaleBits, k)
    {
      RepeatNext(scaleBits, k);
      head := head + [scaleBits];
      left, k := left - scaleBits, k + 1;
    }
    SplitDone(bits, scaleBits, k, left, head);
    if left > 0 {
      head := head + [Max(20, left)];
    }
  }

  lemma SplitDone(bits: nat, scaleBits: nat, k: nat, left: nat, head: seq<nat>)
    requires 0 < scaleBits <= bits && left < scaleBits && bits == k * scaleBits + left && head == Repeat(scaleBits, k)
    ensures HeadFits(bits, scaleBits, if left > 0 then head + [Max(20, left)] else head)
  {
    QuotientIs(bits, scaleBits, k, left);
    SumRepeat(scaleBits, k);
    SumAppend(head, [Max(20, left)]);
    assert TotalBits([Max(20, left)]) == Max(20, left);
    assert (k - 1) * scaleBits == k * scaleBits - scaleBits && (k + 1) * scaleBits == k * scaleBits + scaleBits;
  }

  /** How many there are, and what the last one is. */
  lemma HeadLast(bits: nat, scaleBits: nat, head: seq<nat>)
    requires 0 < scaleBits <= bits && HeadFits(bits, scaleBits, head)
    ensures var q, r := bits / scaleBits, bits % scaleBits;
      |head| == (if r == 0 then q else q + 1) && head[|head| - 1] == if r == 0 then scaleBits else Max(20, r)
  {
    var n, q, r := |head|, bits / scaleBits, bits % scaleBits;
    assert n > 0;
    assert bits == scaleBits * q + r;
    BlockCount(n, q, r, scaleBits);
    TotalWithLast(scaleBits, head);
    LastLeft(n, q, r, scaleBits, TotalBits(head), head[n - 1]);
  }

  lemma LastLeft(n: nat, q: nat, r: nat, s: nat, total: nat, last: nat)
    requires n == (if r == 0 then q else q + 1) && total == (n - 1) * s + last
    requires total == s * q + if 0 < r < 20 then 20 else r
    ensures last == if r == 0 then s else Max(20, r)
  {
    assert (q - 1) * s == s * q - s && q * s == s * q;
  }

  lemma TotalWithLast(scaleBits: nat, head: seq<nat>)
    requires head != [] && forall i: nat :: i < |head| - 1 ==> head[i] == scaleBits
    ensures TotalBits(head) == (|head| - 1) * scaleBits + head[|head| - 1]
  {
    var n := |head|;
    assert head == Repeat(scaleBits, n - 1) + [head[n - 1]];
    SumRepeat(scaleBits, n - 1);
    SumAppend(Repeat(scaleBits, n - 1), [head[n - 1]]);
    assert TotalBits([head[n - 1]]) == head[n - 1];
  }

  lemma BlockCount(n: nat, q: nat, r: nat, s: nat)
    requires 0 < s && r < s && (n - 1) * s < s * q + r <= n * s
    ensures n == if r == 0 then q else q + 1
  {
    assert s * (n - q) == n * s - s * q;
    assert s * (n - 1 - q) == (n - 1) * s - s * q;
    SmallMultiple(s, n - q);
    SmallMultiple(s, n - 1 - q);
  }

  lemma QuotientIs(a: nat, m: nat, q: nat, r: nat)
    requires m > 0 && a == q * m + r && r < m
    ensures a / m == q && a % m == r
  {
    var d := a / m - q;
    assert m * d == r - a % m;
    SmallMultiple(m, d);
  }

  /** The primes that hold the outputs, and the key prime. */
  ghost predicate HeadAndKey(bits: nat, scaleBits: nat, largest: nat, head: seq<nat>, key: nat)
    requires scaleBits > 0
  {
    if bits > scaleBits then key == scaleBits && HeadFits(bits, scaleBits, head)
    else head == [key] && key >= bits && key >= largest && (key == bits || key == largest)
  }

  /** getEncryptionParameters; ok is its assertion that there is something to hold. */
  method GetEncryptionParameters(outputs: seq<NodeId>, ranges: RangeMap, scale: ScaleMap, primes: PrimeMap,
                                 scaleBits: nat)
    returns (ok: bool, parms: seq<nat>, ghost head: seq<nat>, ghost middle: seq<nat>, ghost key: nat, ghost bits: nat)
    requires scaleBits > 0
    ensures IsLargestBits(outputs, ranges, scale, bits) && (ok <==> bits > 0)
    ensures ok ==> parms == head + BackToFront(middle) + [key] && IsLongest(outputs, primes, middle)
    ensures ok ==>
      exists largest: nat :: IsLargestPrime(outputs, primes, largest) && HeadAndKey(bits, scaleBits, largest, head, key)
  {
    var maxOutputSize: nat, maxParm: nat, maxLen: nat := 0, 0, 0;
    for i := 0 to |outputs|
      invariant IsLargestBits(outputs[..i], ranges, scale, maxOutputSize)
      invariant IsLargestPrime(outputs[..i], primes, maxParm)
      invariant IsLargestLength(outputs[..i], primes, maxLen)
    {
      LargestStep(outputs, ranges, scale, primes, i, maxOutputSize, maxParm, maxLen);
      maxOutputSize := Max(OutputBits(ranges, scale, outputs[i]), maxOutputSize);
      maxLen := Max(|PrimesAt(primes, outputs[i])|, maxLen);
      maxParm := LargestOf(PrimesAt(primes, outputs[i]), maxParm);
    }
    assert outputs[..|outputs|] == outputs;
    ok, parms, head, middle, key, bits := maxOutputSize != 0, [], [], [], 0, maxOutputSize;
    if !ok { return; }
    ghost var largest := maxParm;
    if maxOutputSize > scaleBits {
      maxParm := scaleBits;
      parms := SplitBits(maxOutputSize, scaleBits);
    } else {
      maxParm := Max(maxOutputSize, maxParm);
      parms := [maxParm];
    }
    head, key := parms, maxParm;
    assert HeadAndKey(bits, scaleBits, largest, head, key);
    var chosen := FirstLongest(outputs, primes, maxLen);
    middle := chosen;
    parms := parms + BackToFront(chosen) + [maxParm];
  }

  /** Appends the primes of the first output that has maxLen of them. */
  method FirstLongest(outputs: seq<NodeId>, primes: PrimeMap, maxLen: nat) returns (middle: seq<nat>)
    requires IsLargestLength(outputs, primes, maxLen)
    ensures IsLongest(outputs, primes, middle) && |middle| == maxLen
  {
    middle := [];
    for i := 0 to |outputs|
      invariant forall j: nat :: j < i ==> |PrimesAt(primes, outputs[j])| != maxLen
    {
      if |PrimesAt(primes, outputs[i])| == maxLen {
        return PrimesAt(primes, outputs[i]);
      }
    }
  }

  function LargestOf(list: seq<nat>, so: nat): (largest: nat)
    ensures largest >= so && forall i: nat :: i < |list| ==> list[i] <= largest
    ensures largest == so || largest in list
  {
    if list == [] then so
    else
      var rest := LargestOf(list[1..], so);
      assert forall i: nat :: 0 < i < |list| ==> list[i] == list[1..][i - 1];
      Max(list[0], rest)
  }

  ghost predicate IsLargestPrime(outputs: seq<NodeId>, primes: PrimeMap, largest: nat)
  {
    && (forall i: nat :: i < |outputs| ==> AllAtMost(PrimesAt(primes, outputs[i]), largest))
    && (largest == 0 || exists i: nat :: i < |outputs| && largest in PrimesAt(primes, outputs[i]))
  }

  predicate AllAtMost(list: seq<nat>, bound: nat)
  {
    forall i: nat :: i < |list| ==> list[i] <= bound
  }

  ghost predicate IsLargestLength(outputs: seq<NodeId>, primes: PrimeMap, length: nat)
  {
    && (forall i: nat :: i < |outputs| ==> |PrimesAt(primes, outputs[i])| <= length)
    && (length == 0 || exists i: nat :: i < |outputs| && |PrimesAt(primes, outputs[i])| == length)
  }

  lemma LargestStep(outputs: seq<NodeId>, ranges: RangeMap, scale: ScaleMap, primes: PrimeMap, k: nat, bits: nat,
                    prime: nat, length: nat)
    requires k < |outputs| && IsLargestBits(outputs[..k], ranges, scale, bits)
    requires IsLargestPrime(outputs[..k], primes, prime) && IsLargestLength(outputs[..k], primes, length)
    ensures IsLargestBits(outputs[..k+1], ranges, scale, Max(OutputBits(ranges, scale, outputs[k]), bits))
    ensures IsLargestPrime(outputs[..k+1], primes, LargestOf(PrimesAt(primes, outputs[k]), prime))
    ensures IsLargestLength(outputs[..k+1], primes, Max(|PrimesAt(primes, outputs[k])|, length))
  {
    var next := outputs[..k+1];
    assert forall i: nat :: i < k ==> next[i] == outputs[..k][i];
    assert next[k] == outputs[k];
    BitsStep(outputs, ranges, scale, k, bits);
    LengthStep(outputs, primes, k, length);
    PrimeStep(outputs, primes, k, prime);
  }

  lemma BitsStep(outputs: seq<NodeId>, ranges: RangeMap, scale: ScaleMap, k: nat, bits: nat)
    requires k < |outputs| && IsLargestBits(outputs[..k], ranges, scale, bits)
    ensures IsLargestBits(outputs[..k+1], ranges, scale, Max(OutputBits(ranges, scale, outputs[k]), bits))
  {
    var next, before := outputs[..k+1], outputs[..k];
    assert next[k] == outputs[k] && forall i: nat :: i < k ==> next[i] == before[i];
    if bits != 0 {
      var i: nat :| i < |before| && OutputBits(ranges, scale, before[i]) == bits;
      assert OutputBits(ranges, scale, next[i]) == bits;
    }
  }

  lemma LengthStep(outputs: seq<NodeId>, primes: PrimeMap, k: nat, length: nat)
    requires k < |outputs| && IsLargestLength(outputs[..k], primes, length)
    ensures IsLargestLength(outputs[..k+1], primes, Max(|PrimesAt(primes, outputs[k])|, length))
  {
    var next, before := outputs[..k+1], outputs[..k];
    assert next[k] == outputs[k] && forall i: nat :: i < k ==> next[i] == before[i];
    if length != 0 {
      var i: nat :| i < |before| && |PrimesAt(primes, before[i])| == length;
      assert |PrimesAt(primes, next[i])| == length;
    }
  }

  lemma PrimeStep(outputs: seq<NodeId>, primes: PrimeMap, k: nat, prime: nat)
    requires k < |outputs| && IsLargestPrime(outputs[..k], primes, prime)
    ensures IsLargestPrime(outputs[..k+1], primes, LargestOf(PrimesAt(primes, outputs[k]), prime))
  {
    var next, before := outputs[..k+1], outputs[..k];
    assert next[k] == outputs[k] && forall i: nat :: i < k ==> next[i] == before[i];
    var largest := LargestOf(PrimesAt(primes, outputs[k]), prime);
    forall i: nat | i < |next|
      ensures AllAtMost(PrimesAt(primes, next[i]), largest)
    {
      assert i < k ==> AllAtMost(PrimesAt(primes, before[i]), prime);
    }
    if largest != 0 && largest == prime {
      var i: nat :| i < |before| && prime in PrimesAt(primes, before[i]);
      assert prime in PrimesAt(primes, next[i]);
    } else if largest != 0 {
      assert largest in PrimesAt(primes, next[k]);
    }
  }

  // ----- what the list is good for -----

  /** The first primes hold what any output needs. */
  lemma HeadHolds(bits: nat, scaleBits: nat, largest: nat, head: seq<nat>, key: nat)
    requires scaleBits > 0 && HeadAndKey(bits, scaleBits, largest, head, key)
    ensures TotalBits(head) >= bits
  {
    if bits > scaleBits {
      assert bits % scaleBits < scaleBits;
    }
  }

  /** The key prime is the largest of all, unless the scale has fewer than 20 bits and does not
      divide what the outputs need. */
  predicate KeyMayBeSmall(bits: nat, scaleBits: nat)
    requires scaleBits > 0
  {
    bits > scaleBits && bits % scaleBits != 0 && scaleBits < 20
  }

  lemma KeyIsLargest(bits: nat, scaleBits: nat, fixed: nat, head: seq<nat>, middle: seq<nat>, key: nat,
                     outputs: seq<NodeId>, primes: PrimeMap, largest: nat)
    requires scaleBits > 0 && HeadAndKey(bits, scaleBits, largest, head, key) && fixed <= scaleBits
    requires IsLongest(outputs, primes, middle) && IsLargestPrime(outputs, primes, largest)
    requires forall i: nat :: i < |middle| ==> middle[i] == fixed
    ensures AllAtMost(head + BackToFront(middle) + [key], key) <==> !KeyMayBeSmall(bits, scaleBits)
  {
    var parms := head + BackToFront(middle) + [key];
    if middle != [] {
      var i: nat :| i < |outputs| && PrimesAt(primes, outputs[i]) == middle;
      assert AllAtMost(PrimesAt(primes, outputs[i]), largest) && middle[0] <= largest;
    }
    if bits > scaleBits {
      HeadLast(bits, scaleBits, head);
      assert parms[|head| - 1] == head[|head| - 1];
      assert bits % scaleBits < scaleBits;
    }
  }

  /** With range and scale equal to the rescale divisor s, and d rescales on the longest chain,
      there are d + 3 primes of s bits. */
  lemma UniformList(s: nat, d: nat, head: seq<nat>, middle: seq<nat>, key: nat, largest: nat)
    requires s > 0 && HeadAndKey(2 * s, s, largest, head, key) && middle == Repeat(s, d)
    ensures head + BackToFront(middle) + [key] == Repeat(s, d + 3)
    ensures TotalBits(head + BackToFront(middle) + [key]) == (d + 3) * s
  {
    QuotientIs(2 * s, s, 2, 0);
    HeadLast(2 * s, s, head);
    assert head == Repeat(s, 2);
    assert head + BackToFront(middle) + [key] == Repeat(s, d + 3);
    SumRepeat(s, d + 3);
  }
}
