/**
 * The statistics the consumer derives from per-file timers: nanosecond
 * durations shown in microseconds, the list of `{total, match}` records
 * collected over all processed files, the two block-average tables (every
 * 100 and every 1000 files) and the console report every `STATS_FREQ` files.
 */
module TimerStatistics {
  import opened Wrappers
  import opened BlockAverages

  /** The console report is printed once every `STATS_FREQ` processed files. */
  const STATS_FREQ: nat := 100

  /** Nanoseconds in one microsecond (the BigInt divisor `1000n`). */
  const NANOS_PER_MICRO: nat := 1000

  /** The `total` and `match` durations the timer store holds for one file, in nanoseconds. */
  datatype FileTimers = FileTimers(totalNanos: int, matchNanos: int)

  /**
   * A nanosecond count in whole microseconds: BigInt division, which
   * truncates towards zero.
   */
  function NanosToMicros(t: int): (us: int)
    ensures 0 <= t ==> 0 <= us && NANOS_PER_MICRO * us <= t < NANOS_PER_MICRO * (us + 1)
    ensures t < 0 ==> us <= 0 && NANOS_PER_MICRO * (us - 1) < t <= NANOS_PER_MICRO * us
  {
    if t >= 0 then t / NANOS_PER_MICRO else -((-t) / NANOS_PER_MICRO)
  }

  /**
   * The record pushed for a file that has timers: both fields present, each
   * the file's duration in whole microseconds.
   */
  function ToStat(t: FileTimers): (r: Record)
    ensures r.totalTime.Some? && r.matchTime.Some?
    ensures 0 <= t.totalNanos ==>
      0 <= Value(r, Total) && NANOS_PER_MICRO * Value(r, Total) <= t.totalNanos < NANOS_PER_MICRO * (Value(r, Total) + 1)
    ensures 0 <= t.matchNanos ==>
      0 <= Value(r, Match) && NANOS_PER_MICRO * Value(r, Match) <= t.matchNanos < NANOS_PER_MICRO * (Value(r, Match) + 1)
  {
    Record(Some(NanosToMicros(t.totalNanos)), Some(NanosToMicros(t.matchNanos)))
  }

  /**
   * The records collected over the processed files, in order; a file for
   * which the timer store has nothing is skipped.
   */
  function Collected(timers: seq<Option<FileTimers>>): seq<Record> {
    if timers == [] then []
    else
      Collected(timers[..|timers| - 1]) +
      match timers[|timers| - 1]
      case None => []
      case Some(t) => [ToStat(t)]
  }

  /** Builds the statistics list file by file, pushing one record per timed file. */
  method CollectTimerStats(timers: seq<Option<FileTimers>>) returns (timerStats: seq<Record>)
    ensures timerStats == Collected(timers)
  {
    timerStats := [];
    for index := 0 to |timers|
      invariant timerStats == Collected(timers[..index])
    {
      assert timers[..index + 1][..index] == timers[..index];
      if timers[index].Some? {
        var t := timers[index].value;
        var total := NanosToMicros(t.totalNanos);
        var match_ := NanosToMicros(t.matchNanos);
        timerStats := timerStats + [Record(Some(total), Some(match_))];
      }
    }
    assert timers[..|timers|] == timers;
  }

  /**
   * One averages table: absent ("no averages to calculate for now") while
   * fewer than `blockSize` records exist, otherwise the block averages.
   */
  function AverageTable(stats: seq<Record>, blockSize: nat): (table: Option<seq<Row>>)
    requires blockSize > 0
    ensures table.Some? <==> |stats| >= blockSize
    ensures table.Some? ==>
      && |table.value| >= 1
      && table.value[0].rangeStart == 0
      && table.value[0].rangeEnd == blockSize - 1
  {
    if |stats| < blockSize then None
    else
      RowCount(stats, blockSize);
      RowRange(stats, blockSize, 0);
      Some(Averages(stats, blockSize))
  }

  /** The two averages tables of the timers page, every 100 and every 1000 files. */
  method ViewTimerAverages(timers: seq<Option<FileTimers>>)
    returns (perHundred: Option<seq<Row>>, perThousand: Option<seq<Row>>)
    ensures perHundred == AverageTable(Collected(timers), 100)
    ensures perThousand == AverageTable(Collected(timers), 1000)
  {
    var timerStats := CollectTimerStats(timers);
    if |timerStats| < 100 {
      perHundred := None;
    } else {
      var rows := CalculateAveragesByBlock(timerStats, 100);
      perHundred := Some(rows);
    }
    if |timerStats| < 1000 {
      perThousand := None;
    } else {
      var rows := CalculateAveragesByBlock(timerStats, 1000);
      perThousand := Some(rows);
    }
  }

  /** The file count after `q` whole reporting rounds. */
  function Rounds(q: nat): nat {
    STATS_FREQ * q
  }

  /**
   * Whether the console report is due after `processed` files: exactly when
   * the count is a whole number of `STATS_FREQ`-file rounds.
   */
  function ShouldPrintStatistics(processed: nat): (due: bool)
    ensures due <==> exists q: nat :: processed == Rounds(q)
  {
    if processed % STATS_FREQ == 0 then
      assert processed == Rounds(processed / STATS_FREQ);
      true
    else
      false
  }

  /** How many reports are printed while the file count runs from 1 to `n`. */
  function ReportsUpTo(n: nat): nat {
    if n == 0 then 0 else ReportsUpTo(n - 1) + (if ShouldPrintStatistics(n) then 1 else 0)
  }

  // ---------------------------------------------------------------------------
  // Lemmas

  /** Truncation towards zero is symmetric in the sign of the duration. */
  lemma NanosToMicrosOdd(t: int)
    ensures NanosToMicros(-t) == -NanosToMicros(t)
  {
  }

  /** Collecting is done file by file: it distributes over concatenation. */
  lemma {:induction false} CollectedAppend(a: seq<Option<FileTimers>>, b: seq<Option<FileTimers>>)
    ensures Collected(a + b) == Collected(a) + Collected(b)
    decreases |b|
  {
    if b == [] {
      assert a + b == a;
    } else {
      var b' := b[..|b| - 1];
      assert (a + b)[..|a + b| - 1] == a + b';
      assert (a + b)[|a + b| - 1] == b[|b| - 1];
      CollectedAppend(a, b');
    }
  }

  /** A file without timers contributes nothing; a file with timers, exactly its record. */
  lemma CollectedOne(t: Option<FileTimers>)
    ensures Collected([t]) == if t.Some? then [ToStat(t.value)] else []
  {
    assert [t][..0] == [];
  }

  /**
   * When every file has timers there is one record per file, in file order,
   * holding both durations in microseconds.
   */
  lemma {:induction false} CollectedAllTimed(timers: seq<Option<FileTimers>>)
    requires forall k :: 0 <= k < |timers| ==> timers[k].Some?
    ensures |Collected(timers)| == |timers|
    ensures forall k :: 0 <= k < |timers| ==>
      && Value(Collected(timers)[k], Total) == NanosToMicros(timers[k].value.totalNanos)
      && Value(Collected(timers)[k], Match) == NanosToMicros(timers[k].value.matchNanos)
  {
    if timers != [] {
      CollectedAllTimed(timers[..|timers| - 1]);
    }
  }

  /** Never more records than files. */
  lemma {:induction false} CollectedLength(timers: seq<Option<FileTimers>>)
    ensures |Collected(timers)| <= |timers|
  {
    if timers != [] {
      CollectedLength(timers[..|timers| - 1]);
    }
  }

  /** Over the first `n` files the report is printed `n / STATS_FREQ` times. */
  lemma {:induction false} ReportsUpToCount(n: nat)
    ensures ReportsUpTo(n) == n / STATS_FREQ
  {
    if n > 0 {
      ReportsUpToCount(n - 1);
    }
  }

  /**
   * A report is printed after `n` files exactly when `n` is a whole number of
   * `STATS_FREQ`-file rounds, and then the next one is `STATS_FREQ` files later.
   */
  lemma NextReport(n: nat, d: nat)
    requires ShouldPrintStatistics(n) && 0 < d <= STATS_FREQ
    ensures ShouldPrintStatistics(n + d) <==> d == STATS_FREQ
  {
    var q := n / STATS_FREQ;
    assert n == STATS_FREQ * q;
    if d < STATS_FREQ {
      DivUnique(n + d, STATS_FREQ, q);
    } else {
      DivUnique(n + d, STATS_FREQ, q + 1);
    }
  }

  /**
   * The thousand-file table's row `j` covers exactly the indices of the
   * hundred-file table's rows `10 * j` up to its last row within the block.
   */
  lemma ThousandRowSpansHundredRows(stats: seq<Record>, j: nat)
    requires j < |Averages(stats, 1000)|
    ensures 10 * j < |Averages(stats, 100)|
    ensures Averages(stats, 1000)[j].rangeStart == Averages(stats, 100)[10 * j].rangeStart
    ensures var last := if 10 * j + 9 < |Averages(stats, 100)| then 10 * j + 9 else |Averages(stats, 100)| - 1;
      Averages(stats, 1000)[j].rangeEnd == Averages(stats, 100)[last].rangeEnd
  {
    var big := Averages(stats, 1000);
    var small := Averages(stats, 100);
    RowRange(stats, 1000, j);
    RowCount(stats, 100);
    assert 10 * j < |small| by {
      if |small| <= 10 * j {
        MulLe(|small|, 10 * j, 100);
        assert false;
      }
    }
    RowRange(stats, 100, 10 * j);
    if 10 * j + 9 < |small| {
      RowRange(stats, 100, 10 * j + 9);
    } else {
      RowRange(stats, 100, |small| - 1);
      MulLe(|small|, 10 * j + 9, 100);
    }
  }
}
