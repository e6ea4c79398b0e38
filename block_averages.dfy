/**
 * Block averages of per-file timer statistics, as shown on the consumer's
 * `/timers` page: the stream of `{total, match}` records is cut into
 * consecutive blocks of `blockSize` records (the last one may be short), and
 * each block yields one row with its index range and the rounded means of
 * its `total` and `match` times.
 */
module BlockAverages {
  import opened Wrappers

  /** One timer record; an absent field counts as 0 (`item.total || 0`). */
  datatype Record = Record(totalTime: Option<int>, matchTime: Option<int>)

  /** The two fields a block is averaged over. */
  datatype Field = Total | Match

  /** One result row: the inclusive index range and the two rounded means. */
  datatype Row = Row(rangeStart: int, rangeEnd: int, avgTotal: int, avgMatch: int)

  /** The value a record contributes to the sum of field `f`. */
  function Value(r: Record, f: Field): int {
    match f
    case Total => r.totalTime.GetOr(0)
    case Match => r.matchTime.GetOr(0)
  }

  /** A row's average of field `f`. */
  function Avg(row: Row, f: Field): int {
    match f
    case Total => row.avgTotal
    case Match => row.avgMatch
  }

  function Min(a: int, b: int): int {
    if a <= b then a else b
  }

  /** Sum of one field over a block, accumulated left to right as `reduce` does. */
  function FieldSum(block: seq<Record>, f: Field): int {
    if block == [] then 0 else FieldSum(block[..|block| - 1], f) + Value(block[|block| - 1], f)
  }

  /**
   * `Math.round(sum / n)` on exact integers: the nearest integer to the mean,
   * halves rounded towards +infinity.
   */
  function RoundedMean(sum: int, n: int): (r: int)
    requires n > 0
    ensures 2 * n * r <= 2 * sum + n < 2 * n * (r + 1)
  {
    (2 * sum + n) / (2 * n)
  }

  /** The row for the block that starts at index `i`. */
  function MakeRow(data: seq<Record>, blockSize: nat, i: nat): Row
    requires blockSize > 0 && i < |data|
  {
    var block := data[i..Min(i + blockSize, |data|)];
    Row(i, Min(i + |block| - 1, |data| - 1),
        RoundedMean(FieldSum(block, Total), |block|),
        RoundedMean(FieldSum(block, Match), |block|))
  }

  /** The rows for the blocks starting at `i`, `i + blockSize`, ... */
  function AveragesFrom(data: seq<Record>, blockSize: nat, i: nat): seq<Row>
    requires blockSize > 0
    decreases |data| - i
  {
    if i >= |data| then [] else [MakeRow(data, blockSize, i)] + AveragesFrom(data, blockSize, i + blockSize)
  }

  /** What `calculateAveragesByBlock(data, blockSize)` returns. */
  function Averages(data: seq<Record>, blockSize: nat): seq<Row>
    requires blockSize > 0
  {
    AveragesFrom(data, blockSize, 0)
  }

  /** `ceil(n / blockSize)`: the number of blocks `n` records fall into. */
  function NumBlocks(n: nat, blockSize: nat): nat
    requires blockSize > 0
  {
    (n + blockSize - 1) / blockSize
  }

  /** The `reduce` over one block: both field sums, absent fields counting as 0. */
  method SumBlock(block: seq<Record>) returns (totalSum: int, matchSum: int)
    ensures totalSum == FieldSum(block, Total)
    ensures matchSum == FieldSum(block, Match)
  {
    totalSum, matchSum := 0, 0;
    for k := 0 to |block|
      invariant totalSum == FieldSum(block[..k], Total)
      invariant matchSum == FieldSum(block[..k], Match)
    {
      assert block[..k + 1][..k] == block[..k];
      totalSum := totalSum + Value(block[k], Total);
      matchSum := matchSum + Value(block[k], Match);
    }
    assert block[..|block|] == block;
  }

  /**
   * Partitions `data` into blocks of `blockSize` and averages each block.
   * The input is read only; the rows are accumulated in a fresh sequence.
   */
  method CalculateAveragesByBlock(data: seq<Record>, blockSize: nat) returns (results: seq<Row>)
    requires blockSize > 0
    ensures results == Averages(data, blockSize)
  {
    results := [];
    var i: nat := 0;
    while i < |data|
      invariant results + AveragesFrom(data, blockSize, i) == Averages(data, blockSize)
      decreases |data| - i
    {
      var block := data[i..Min(i + blockSize, |data|)];
      var totalSum, matchSum := SumBlock(block);
      var rangeStart := i;
      var rangeEnd := Min(i + |block| - 1, |data| - 1);
      var avgTotal := RoundedMean(totalSum, |block|);
      var avgMatch := RoundedMean(matchSum, |block|);
      assert Row(rangeStart, rangeEnd, avgTotal, avgMatch) == MakeRow(data, blockSize, i);
      assert AveragesFrom(data, blockSize, i)
          == [MakeRow(data, blockSize, i)] + AveragesFrom(data, blockSize, i + blockSize);
      results := results + [Row(rangeStart, rangeEnd, avgTotal, avgMatch)];
      i := i + blockSize;
    }
  }

  /** Row `row` spans index `k`. */
  predicate Covers(row: Row, k: int) {
    row.rangeStart <= k <= row.rangeEnd
  }

  /** The records a row was computed from, taken back from its own range. */
  function RowBlock(data: seq<Record>, row: Row): seq<Record>
    requires 0 <= row.rangeStart <= row.rangeEnd + 1 <= |data|
  {
    data[row.rangeStart..row.rangeEnd + 1]
  }

  // ---------------------------------------------------------------------------
  // Arithmetic helpers

  /** Floor division is the unique `q` with `d * q <= x < d * (q + 1)`. */
  lemma DivUnique(x: int, d: int, q: int)
    requires d > 0 && d * q <= x < d * (q + 1)
    ensures x / d == q
  {
    var r := x / d;
    if r < q {
      MulLe(r + 1, q, d);
      assert false;
    } else if r > q {
      MulLe(q + 1, r, d);
      assert false;
    }
  }

  /** Multiplying by a positive number keeps the order. */
  lemma MulLe(a: int, b: int, d: int)
    requires d > 0 && a <= b
    ensures d * a <= d * b && a * d <= b * d
  {
  }

  lemma MulStep(k: int, b: int)
    ensures (k + 1) * b == k * b + b == b * (k + 1)
  {
  }

  /** The block after block `j` starts no later than block `m`, for `j < m`. */
  lemma NextBlockStart(j: int, m: int, b: int)
    requires b > 0 && j < m
    ensures j * b + b <= m * b
  {
    MulLe(j + 1, m, b);
    MulStep(j, b);
  }

  lemma MulComm(a: int, b: int)
    ensures a * b == b * a
  {
  }

  // ---------------------------------------------------------------------------
  // Shape of the result

  /** Row `j` from index `i` on is the block starting at `i + j * blockSize`. */
  lemma {:induction false} AveragesFromAt(data: seq<Record>, blockSize: nat, i: nat, j: nat)
    requires blockSize > 0
    requires j < |AveragesFrom(data, blockSize, i)|
    ensures i + j * blockSize < |data|
    ensures AveragesFrom(data, blockSize, i)[j] == MakeRow(data, blockSize, i + j * blockSize)
    decreases j
  {
    if j > 0 {
      AveragesFromAt(data, blockSize, i + blockSize, j - 1);
      MulStep(j - 1, blockSize);
      assert i + blockSize + (j - 1) * blockSize == i + j * blockSize;
    }
  }

  /** How many rows there are from index `i` on. */
  lemma {:induction false} AveragesFromLength(data: seq<Record>, blockSize: nat, i: nat)
    requires blockSize > 0
    ensures i >= |data| ==> AveragesFrom(data, blockSize, i) == []
    ensures i < |data| ==>
      var k := |AveragesFrom(data, blockSize, i)|;
      k > 0 && (k - 1) * blockSize < |data| - i <= k * blockSize
    decreases |data| - i
  {
    if i < |data| {
      var rest := AveragesFrom(data, blockSize, i + blockSize);
      AveragesFromLength(data, blockSize, i + blockSize);
      assert |AveragesFrom(data, blockSize, i)| == |rest| + 1;
      if i + blockSize < |data| {
        MulStep(|rest| - 1, blockSize);
        MulStep(|rest|, blockSize);
      }
    }
  }

  /**
   * There are ceil(|data| / blockSize) rows, and none for empty input.
   */
  lemma RowCount(data: seq<Record>, blockSize: nat)
    requires blockSize > 0
    ensures |Averages(data, blockSize)| == NumBlocks(|data|, blockSize)
    ensures Averages(data, blockSize) == [] <==> data == []
    ensures data != [] ==>
      (|Averages(data, blockSize)| - 1) * blockSize < |data| <= |Averages(data, blockSize)| * blockSize
  {
    var rows := Averages(data, blockSize);
    AveragesFromLength(data, blockSize, 0);
    if data != [] {
      CeilDiv(|data|, blockSize, |rows|);
    } else {
      DivUnique(blockSize - 1, blockSize, 0);
    }
  }

  /** `k` blocks of `b` are just enough for `n` items exactly when `k` is `ceil(n / b)`. */
  lemma CeilDiv(n: int, b: int, k: int)
    requires b > 0 && (k - 1) * b < n <= k * b
    ensures (n + b - 1) / b == k
  {
    MulStep(k - 1, b);
    DivUnique(n + b - 1, b, k);
  }

  /**
   * Row `j` starts at `j * blockSize` and ends at the last index of its block.
   * Every block but the last holds exactly `blockSize` records; the last
   * holds the remaining `|data| - (rows - 1) * blockSize`, at least one.
   */
  lemma RowRange(data: seq<Record>, blockSize: nat, j: nat)
    requires blockSize > 0
    requires j < |Averages(data, blockSize)|
    ensures var rows := Averages(data, blockSize);
      && rows[j].rangeStart == j * blockSize
      && rows[j].rangeEnd == Min(j * blockSize + blockSize, |data|) - 1
      && 0 <= rows[j].rangeStart <= rows[j].rangeEnd < |data|
      && (j < |rows| - 1 ==> rows[j].rangeEnd - rows[j].rangeStart + 1 == blockSize)
      && (j == |rows| - 1 ==>
            rows[j].rangeEnd - rows[j].rangeStart + 1 == |data| - (|rows| - 1) * blockSize >= 1)
  {
    var rows := Averages(data, blockSize);
    AveragesFromLength(data, blockSize, 0);
    AveragesFromAt(data, blockSize, 0, j);
    MakeRowRange(data, blockSize, j * blockSize);
    BlockLength(|data|, blockSize, j, |rows|);
  }

  /** The row of the block at `i` spans `i` up to the block's last index. */
  lemma MakeRowRange(data: seq<Record>, blockSize: nat, i: nat)
    requires blockSize > 0 && i < |data|
    ensures MakeRow(data, blockSize, i).rangeStart == i
    ensures MakeRow(data, blockSize, i).rangeEnd == Min(i + blockSize, |data|) - 1
  {
  }

  /**
   * With `k` blocks of `b` just enough for `n` items, block `j` starts inside
   * the items, every block but the last is full, and the last holds the rest.
   */
  lemma BlockLength(n: int, b: int, j: int, k: int)
    requires b > 0 && 0 <= j < k && (k - 1) * b < n <= k * b
    ensures j * b < n
    ensures j < k - 1 ==> Min(j * b + b, n) - j * b == b
    ensures j == k - 1 ==> Min(j * b + b, n) - j * b == n - (k - 1) * b >= 1
  {
    if j < k - 1 {
      NextBlockStart(j, k - 1, b);
    } else {
      MulStep(k - 1, b);
    }
  }

  /** Index `k` lies in row `k / blockSize`. */
  lemma RowOfIndex(data: seq<Record>, blockSize: nat, k: int)
    requires blockSize > 0 && 0 <= k < |data|
    ensures 0 <= k / blockSize < |Averages(data, blockSize)|
    ensures Covers(Averages(data, blockSize)[k / blockSize], k)
  {
    var rows := Averages(data, blockSize);
    var q := k / blockSize;
    DivBounds(k, blockSize);
    assert q < |rows| by {
      AveragesFromLength(data, blockSize, 0);
      if q >= |rows| {
        MulLe(|rows|, q, blockSize);
        assert false;
      }
    }
    RowRange(data, blockSize, q);
  }

  /** Floor division of a non-negative number, in terms of multiplication. */
  lemma DivBounds(k: int, d: int)
    requires 0 <= k && d > 0
    ensures 0 <= k / d
    ensures (k / d) * d <= k < (k / d) * d + d
  {
    var q := k / d;
    assert d * q <= k < d * (q + 1);
    if q < 0 {
      MulLe(q + 1, 0, d);
      assert false;
    }
    MulStep(q, d);
    MulComm(q, d);
  }

  /** Only row `k / blockSize` spans index `k`. */
  lemma RowOfIndexUnique(data: seq<Record>, blockSize: nat, j: nat, k: int)
    requires blockSize > 0 && j < |Averages(data, blockSize)|
    requires Covers(Averages(data, blockSize)[j], k)
    ensures j == k / blockSize
  {
    RowRange(data, blockSize, j);
    MulStep(j, blockSize);
    MulComm(j, blockSize);
    DivUnique(k, blockSize, j);
  }

  /**
   * The rows' ranges are consecutive and ascending, start at 0, end at the
   * last index, and every index lies in exactly one of them: row `k / blockSize`.
   */
  lemma RowsPartition(data: seq<Record>, blockSize: nat)
    requires blockSize > 0
    ensures var rows := Averages(data, blockSize);
      && (rows != [] ==> rows[0].rangeStart == 0 && rows[|rows| - 1].rangeEnd == |data| - 1)
      && (forall j :: 0 <= j < |rows| - 1 ==> rows[j + 1].rangeStart == rows[j].rangeEnd + 1)
      && (forall k :: 0 <= k < |data| ==> 0 <= k / blockSize < |rows| && Covers(rows[k / blockSize], k))
      && (forall j, k :: 0 <= j < |rows| && Covers(rows[j], k) ==> j == k / blockSize)
  {
    var rows := Averages(data, blockSize);
    if rows != [] {
      RowRange(data, blockSize, 0);
      RowRange(data, blockSize, |rows| - 1);
    }
    forall j | 0 <= j < |rows| - 1
      ensures rows[j + 1].rangeStart == rows[j].rangeEnd + 1
    {
      RowRange(data, blockSize, j);
      RowRange(data, blockSize, j + 1);
      MulStep(j, blockSize);
    }
    forall j, k | 0 <= j < |rows| && Covers(rows[j], k)
      ensures j == k / blockSize
    {
      RowOfIndexUnique(data, blockSize, j, k);
    }
    forall k | 0 <= k < |data|
      ensures 0 <= k / blockSize < |rows| && Covers(rows[k / blockSize], k)
    {
      RowOfIndex(data, blockSize, k);
    }
  }

  // ---------------------------------------------------------------------------
  // The averages

  /**
   * Each row's average of field `f` is the mean of `f` over exactly the
   * records of the row's own range, rounded to the nearest integer with
   * halves going up; absent fields count as 0.
   */
  lemma RowAverage(data: seq<Record>, blockSize: nat, j: nat, f: Field)
    requires blockSize > 0
    requires j < |Averages(data, blockSize)|
    ensures var row := Averages(data, blockSize)[j];
      && 0 <= row.rangeStart <= row.rangeEnd < |data|
      && var n := |RowBlock(data, row)|;
      && n == row.rangeEnd - row.rangeStart + 1
      && 2 * n * Avg(row, f) <= 2 * FieldSum(RowBlock(data, row), f) + n < 2 * n * (Avg(row, f) + 1)
  {
    AveragesFromAt(data, blockSize, 0, j);
    MakeRowAverage(data, blockSize, j * blockSize, f);
  }

  lemma MakeRowAverage(data: seq<Record>, blockSize: nat, i: nat, f: Field)
    requires blockSize > 0 && i < |data|
    ensures var row := MakeRow(data, blockSize, i);
      && 0 <= row.rangeStart <= row.rangeEnd < |data|
      && var n := |RowBlock(data, row)|;
      && n == row.rangeEnd - row.rangeStart + 1
      && 2 * n * Avg(row, f) <= 2 * FieldSum(RowBlock(data, row), f) + n < 2 * n * (Avg(row, f) + 1)
  {
    var row := MakeRow(data, blockSize, i);
    var block := data[i..Min(i + blockSize, |data|)];
    assert RowBlock(data, row) == block;
    assert Avg(row, f) == RoundedMean(FieldSum(block, f), |block|);
  }

  /** A sum of `n` values in `[lo, hi]` lies in `[n * lo, n * hi]`. */
  lemma {:induction false} FieldSumBounds(block: seq<Record>, f: Field, lo: int, hi: int)
    requires forall k :: 0 <= k < |block| ==> lo <= Value(block[k], f) <= hi
    ensures |block| * lo <= FieldSum(block, f) <= |block| * hi
  {
    if block != [] {
      var init := block[..|block| - 1];
      FieldSumBounds(init, f, lo, hi);
      MulStep(|init|, lo);
      MulStep(|init|, hi);
    }
  }

  /**
   * The nearest integer to a mean of values in `[lo, hi]` is in `[lo, hi]`:
   * any `r` within one half of `sum / n` will do.
   */
  lemma NearestBounds(sum: int, n: int, r: int, lo: int, hi: int)
    requires n > 0 && 2 * n * r <= 2 * sum + n < 2 * n * (r + 1)
    requires n * lo <= sum <= n * hi
    ensures lo <= r <= hi
  {
    if r < lo {
      MulLe(r + 1, lo, 2 * n);
      assert false;
    }
    if r > hi {
      MulLe(hi + 1, r, 2 * n);
      assert false;
    }
  }

  /** Rounding the mean of values in `[lo, hi]` stays in `[lo, hi]`. */
  lemma RoundedMeanBounds(sum: int, n: int, lo: int, hi: int)
    requires n > 0 && n * lo <= sum <= n * hi
    ensures lo <= RoundedMean(sum, n) <= hi
  {
    NearestBounds(sum, n, RoundedMean(sum, n), lo, hi);
  }

  /** Field bounds on the records of a row's range bound the sum over its block. */
  lemma RowBlockBounds(data: seq<Record>, row: Row, f: Field, lo: int, hi: int)
    requires 0 <= row.rangeStart <= row.rangeEnd + 1 <= |data|
    requires forall k :: 0 <= k < |data| && Covers(row, k) ==> lo <= Value(data[k], f) <= hi
    ensures |RowBlock(data, row)| * lo <= FieldSum(RowBlock(data, row), f) <= |RowBlock(data, row)| * hi
  {
    var block := RowBlock(data, row);
    forall k | 0 <= k < |block| ensures lo <= Value(block[k], f) <= hi {
      assert block[k] == data[row.rangeStart + k];
      assert Covers(row, row.rangeStart + k);
    }
    FieldSumBounds(block, f, lo, hi);
  }

  /**
   * When every record of a block has field `f` in `[lo, hi]`, so has the
   * row's average of `f`.
   */
  lemma RowAverageBounds(data: seq<Record>, blockSize: nat, j: nat, f: Field, lo: int, hi: int)
    requires blockSize > 0
    requires j < |Averages(data, blockSize)|
    requires forall k :: 0 <= k < |data| && Covers(Averages(data, blockSize)[j], k) ==>
               lo <= Value(data[k], f) <= hi
    ensures lo <= Avg(Averages(data, blockSize)[j], f) <= hi
  {
    var row := Averages(data, blockSize)[j];
    RowAverage(data, blockSize, j, f);
    RowBlockBounds(data, row, f, lo, hi);
    var block := RowBlock(data, row);
    NearestBounds(FieldSum(block, f), |block|, Avg(row, f), lo, hi);
  }
}
