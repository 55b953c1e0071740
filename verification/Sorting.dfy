/** Comparing every pair of up to sixteen numbers, for sorting (iyfc/iyfc_include.cpp). */
module Sorting {
  import opened Semantics
  import opened ConstantFolding
  import opened QuerySums
  import opened Comparison
  import opened CmpNumbers

  const MAX_SORT: nat := 16

  datatype SortInput = SortInput(x: Slots, y: Slots) | TooManyToSort

  lemma PairBelow(n: nat, row: nat, column: nat)
    requires row < n && column < n
    ensures n * row + column < n * n
  {
    calc {
      n * row + column;
    <
      n * row + n;
    ==
      n * (row + 1);
    <= { LargerFactor(n, row + 1, n); }
      n * n;
    }
  }

  lemma LargerFactor(n: nat, a: nat, b: nat)
    requires a <= b
    ensures n * a <= n * b
  {
  }

  // ----- the inputs -----

  predicate Ups(nums: seq<uint32>, up: seq<uint32>, rows: nat)
  {
    && rows <= |nums| && |up| == |nums| * rows
    && forall row: nat, column: nat :: row < rows && column < |nums| ==> PairIs(nums, up, row, column, nums[row])
  }

  predicate Downs(nums: seq<uint32>, down: seq<uint32>, rows: nat)
  {
    && rows <= |nums| && |down| == |nums| * rows
    && forall row: nat, column: nat :: row < rows && column < |nums| ==> PairIs(nums, down, row, column, nums[column])
  }

  predicate PairIs(nums: seq<uint32>, pairs: seq<uint32>, row: nat, column: nat, num: uint32)
  {
    var k := |nums| * row + column;
    k < |pairs| && pairs[k] == num
  }

  lemma RowAdded(nums: seq<uint32>, pairs: seq<uint32>, more: seq<uint32>, row: nat, column: nat, num: uint32)
    requires PairIs(nums, pairs, row, column, num)
    ensures PairIs(nums, pairs + more, row, column, num)
  {
  }

  /** encodeSortUpInput: each number as often as there are numbers. */
  method EncodeSortUpInput(nums: seq<uint32>) returns (up: seq<uint32>)
    ensures Ups(nums, up, |nums|)
  {
    up := [];
    for row := 0 to |nums|
      invariant Ups(nums, up, row)
    {
      ghost var before := up;
      up := up + seq(|nums|, i => nums[row]);
      UpsNext(nums, before, row);
    }
  }

  lemma UpsNext(nums: seq<uint32>, up: seq<uint32>, row: nat)
    requires row < |nums| && Ups(nums, up, row)
    ensures Ups(nums, up + seq(|nums|, i => nums[row]), row + 1)
  {
    var more: seq<uint32> := seq(|nums|, i => nums[row]);
    forall r: nat, column: nat | r < row + 1 && column < |nums|
      ensures PairIs(nums, up + more, r, column, nums[r])
    {
      if r < row {
        RowAdded(nums, up, more, r, column, nums[r]);
      }
    }
  }

  /** encodeSortDownInput: the numbers as often as there are numbers. */
  method EncodeSortDownInput(nums: seq<uint32>) returns (down: seq<uint32>)
    ensures Downs(nums, down, |nums|)
  {
    down := [];
    for row := 0 to |nums|
      invariant Downs(nums, down, row)
    {
      ghost var before := down;
      down := down + nums;
      DownsNext(nums, before, row);
    }
  }

  lemma DownsNext(nums: seq<uint32>, down: seq<uint32>, row: nat)
    requires row < |nums| && Downs(nums, down, row)
    ensures Downs(nums, down + nums, row + 1)
  {
    forall r: nat, column: nat | r < row + 1 && column < |nums|
      ensures PairIs(nums, down + nums, r, column, nums[column])
    {
      if r < row {
        RowAdded(nums, down, nums, r, column, nums[column]);
      }
    }
  }

  /** Both inputs encode all pairs of the numbers. */
  ghost predicate EncodesPairs(nums: seq<uint32>, e: SortInput)
  {
    && e.SortInput?
    && exists up, down :: Ups(nums, up, |nums|) && Downs(nums, down, |nums|) && Encodes(up, e.x) && Encodes(down, e.y)
  }

  lemma FewPairs(n: nat)
    requires n <= MAX_SORT
    ensures n * n <= MAX_NUMBERS
  {
    assert n * n <= MAX_SORT * n;
  }

  /** encodeOrgInputforSort */
  method EncodeOrgInputforSort(nums: seq<uint32>) returns (e: SortInput)
    ensures e.TooManyToSort? <==> |nums| > MAX_SORT
    ensures e.SortInput? ==> EncodesPairs(nums, e)
  {
    hide Ups, Downs, Encodes;
    if |nums| > MAX_SORT {
      return TooManyToSort;
    }
    var up := EncodeSortUpInput(nums);
    var down := EncodeSortDownInput(nums);
    PairsCounted(nums, up, down);
    FewPairs(|nums|);
    var x := EncodeOrgInputforCmp(up);
    var y := EncodeOrgInputforCmp(down);
    e := SortInput(x.slots, y.slots);
  }

  lemma PairsCounted(nums: seq<uint32>, up: seq<uint32>, down: seq<uint32>)
    requires Ups(nums, up, |nums|) && Downs(nums, down, |nums|)
    ensures |up| == |down| == |nums| * |nums|
  {
  }

  // ----- the circuit and its results -----

  /** The head of block n * row + column tells whether number row is below number column. */
  predicate SortsPairs(nums: seq<uint32>, lt: Slots)
  {
    && |lt| == DAG_SIZE && |nums| <= MAX_SORT
    && forall row: nat, column: nat :: row < |nums| && column < |nums| ==>
      PairTold(lt, |nums|, row, column, nums[row] < nums[column])
  }

  predicate PairTold(lt: Slots, n: nat, row: nat, column: nat, less: bool)
  {
    var k := n * row + column;
    BLOCK * k < |lt| && lt[BLOCK * k] == Bit(less)
  }

  lemma PairCompared(nums: seq<uint32>, up: seq<uint32>, down: seq<uint32>, lt: Slots, eq: Slots, row: nat, column: nat)
    requires |nums| <= MAX_SORT && row < |nums| && column < |nums|
    requires Compares(DigitsOf(up), DigitsOf(down), lt, eq, BLOCK)
    requires PairIs(nums, up, row, column, nums[row]) && PairIs(nums, down, row, column, nums[column])
    ensures PairTold(lt, |nums|, row, column, nums[row] < nums[column])
  {
    PairBelow(|nums|, row, column);
    FewPairs(|nums|);
    hide DigitsOf;
    HeadTells(up, down, lt, eq, |nums| * row + column);
  }

  /** The circuit on the inputs, without mask and fill, sorts the pairs. */
  lemma PairsSorted(nums: seq<uint32>, x: Slots, y: Slots)
    requires EncodesPairs(nums, SortInput(x, y)) && |nums| <= MAX_SORT
    ensures |x| == |y| == DAG_SIZE && SortsPairs(nums, CmpExprP7(Minus(DAG_SIZE, x, y)).0)
  {
    hide CmpExprP7, Compares, Encodes, PairIs, Minus;
    var up, down :| Ups(nums, up, |nums|) && Downs(nums, down, |nums|) && Encodes(up, x) && Encodes(down, y);
    PairsCompare(up, down, x, y);
    var (lt, eq) := CmpExprP7(Minus(DAG_SIZE, x, y));
    CmpExprLengths(Minus(DAG_SIZE, x, y));
    forall row: nat, column: nat | row < |nums| && column < |nums|
      ensures PairTold(lt, |nums|, row, column, nums[row] < nums[column])
    {
      PairCompared(nums, up, down, lt, eq, row, column);
    }
  }

  lemma PairsCompare(up: seq<uint32>, down: seq<uint32>, x: Slots, y: Slots)
    requires Encodes(up, x) && Encodes(down, y)
    ensures |x| == |y| == DAG_SIZE
    ensures var (lt, eq) := CmpExprP7(Minus(DAG_SIZE, x, y)); Compares(DigitsOf(up), DigitsOf(down), lt, eq, BLOCK)
  {
    hide Compares, CmpExprP7, DigitsOf;
    CmpExprCompares(DigitsOf(up), DigitsOf(down), x, y);
  }

  predicate RowRead(v: Slots, cast: int -> nat, n: nat, row: nat, cells: seq<nat>)
  {
    forall column: nat :: column < |cells| ==> CellRead(v, cast, n, row, column, cells[column])
  }

  predicate CellRead(v: Slots, cast: int -> nat, n: nat, row: nat, column: nat, cell: nat)
  {
    var k := n * row + column;
    BLOCK * k < |v| && cell == cast(Rounded(v[BLOCK * k])) % 7
  }

  datatype SortOutputs = Matrix(rows: seq<seq<nat>>) | NoSortOutput

  const LESS_OUTPUT: string := "result_out_less"

  /** getSortOutputs, on the decrypted outputs by name */
  method GetSortOutputs(outputs: map<string, Slots>, numCnt: nat, cast: int -> nat) returns (r: SortOutputs)
    requires LESS_OUTPUT in outputs ==> BLOCK * (numCnt * numCnt) <= |outputs[LESS_OUTPUT]|
    ensures r.Matrix? <==> LESS_OUTPUT in outputs
    ensures r.Matrix? ==> |r.rows| == numCnt && forall row: nat :: row < numCnt ==>
      |r.rows[row]| == numCnt && RowRead(outputs[LESS_OUTPUT], cast, numCnt, row, r.rows[row])
  {
    hide RowRead;
    if LESS_OUTPUT !in outputs {
      return NoSortOutput;
    }
    var rows := ReadRows(outputs[LESS_OUTPUT], numCnt, cast);
    r := Matrix(rows);
  }

  method ReadRows(v: Slots, numCnt: nat, cast: int -> nat) returns (matrix: seq<seq<nat>>)
    requires BLOCK * (numCnt * numCnt) <= |v|
    ensures |matrix| == numCnt
    ensures forall row: nat :: row < numCnt ==> |matrix[row]| == numCnt && RowRead(v, cast, numCnt, row, matrix[row])
  {
    hide RowRead, Rounded;
    var len := BLOCK * (numCnt * numCnt);
    matrix := [];
    var one: seq<nat> := [];
    assert RowRead(v, cast, numCnt, 0, one) by { NoCells(v, cast, numCnt, 0); }
    ghost var k: nat := 0;
    for i := 0 to len
      invariant BLOCK * k < i + BLOCK && i <= BLOCK * k && (numCnt == 0 ==> matrix == [])
      invariant k == numCnt * |matrix| + |one| && (numCnt > 0 ==> |one| < numCnt)
      invariant RowRead(v, cast, numCnt, |matrix|, one)
      invariant forall row: nat :: row < |matrix| ==>
        |matrix[row]| == numCnt && RowRead(v, cast, numCnt, row, matrix[row])
    {
      if i % BLOCK == 0 {
        assert i == BLOCK * k;
        var cell := cast(Rounded(v[i])) % 7;
        CellAdded(v, cast, numCnt, |matrix|, one, cell);
        one := one + [cell];
        k := k + 1;
        if |one| == numCnt {
          assert numCnt * (|matrix| + 1) == numCnt * |matrix| + numCnt;
          matrix := matrix + [one];
          one := [];
          NoCells(v, cast, numCnt, |matrix|);
        }
      }
    }
    AllRows(numCnt, k, |matrix|, |one|);
  }

  lemma NoCells(v: Slots, cast: int -> nat, n: nat, row: nat)
    ensures RowRead(v, cast, n, row, [])
  {
  }

  lemma CellAdded(v: Slots, cast: int -> nat, n: nat, row: nat, cells: seq<nat>, cell: nat)
    requires RowRead(v, cast, n, row, cells) && CellRead(v, cast, n, row, |cells|, cell)
    ensures RowRead(v, cast, n, row, cells + [cell])
  {
    hide CellRead;
  }

  lemma AllRows(n: nat, k: nat, rows: nat, rest: nat)
    requires k == n * n == n * rows + rest && (n > 0 ==> rest < n) && (n == 0 ==> rows == 0)
    ensures rows == n
  {
    if n > 0 {
      assert n * (n - rows) == rest;
      SmallMultiple(n, n - rows);
    }
  }

  /** Decrypted slots that are off by less than a half at the heads of the blocks. */
  predicate NearHeads(v: Slots, lt: Slots, n: nat)
  {
    && |v| == |lt| == DAG_SIZE && n <= MAX_NUMBERS
    && forall k: nat :: k < n ==> -0.5 < v[BLOCK * k] - lt[BLOCK * k] < 0.5
  }

  /** Says of every pair whether the first number is below the second. */
  predicate IsOrder(nums: seq<uint32>, matrix: seq<seq<nat>>)
  {
    && |matrix| == |nums| && (forall row: nat :: row < |nums| ==> |matrix[row]| == |nums|)
    && forall row: nat, column: nat :: row < |nums| && column < |nums| ==>
         matrix[row][column] == if nums[row] < nums[column] then 1 else 0
  }

  method ReadOrder(outputs: map<string, Slots>, ghost nums: seq<uint32>, ghost lt: Slots, numCnt: nat, cast: int -> nat)
    returns (matrix: seq<seq<nat>>)
    requires LESS_OUTPUT in outputs && IsCast(cast) && numCnt == |nums| <= MAX_SORT
    requires SortsPairs(nums, lt) && NearHeads(outputs[LESS_OUTPUT], lt, numCnt * numCnt)
    ensures IsOrder(nums, matrix)
  {
    hide RowRead;
    FewPairs(numCnt);
    var r := GetSortOutputs(outputs, numCnt, cast);
    matrix := r.rows;
    forall row: nat, column: nat | row < |nums| && column < |nums|
      ensures matrix[row][column] == if nums[row] < nums[column] then 1 else 0
    {
      CellIs(nums, outputs[LESS_OUTPUT], cast, lt, row, column, matrix[row]);
    }
  }

  lemma CellIs(nums: seq<uint32>, v: Slots, cast: int -> nat, lt: Slots, row: nat, column: nat, cells: seq<nat>)
    requires SortsPairs(nums, lt) && NearHeads(v, lt, |nums| * |nums|) && row < |nums| && column < |nums|
    requires |cells| == |nums| && RowRead(v, cast, |nums|, row, cells) && IsCast(cast)
    ensures cells[column] == if nums[row] < nums[column] then 1 else 0
  {
    assert PairTold(lt, |nums|, row, column, nums[row] < nums[column]);
    assert CellRead(v, cast, |nums|, row, column, cells[column]);
    PairBelow(|nums|, row, column);
    hide SortsPairs, RowRead, Rounded, Bit;
    var k := |nums| * row + column;
    assert -0.5 < v[BLOCK * k] - lt[BLOCK * k] < 0.5;
    RoundedBit(v[BLOCK * k], nums[row] < nums[column]);
  }

  lemma ExactHeads(nums: seq<uint32>, lt: Slots)
    requires SortsPairs(nums, lt)
    ensures NearHeads(lt, lt, |nums| * |nums|)
  {
    FewPairs(|nums|);
  }
}
