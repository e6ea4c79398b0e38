# CodeStream consumer: timer statistics

A model of the statistics logic of the CodeStream consumer, a service that receives
source files one at a time, runs them through a clone detector and reports progress.
Its `/timers` page lists, for each processed file that has timers, the `total` and `match`
durations measured by the timer store. It converts them from nanoseconds to
microseconds and shows block averages over the stream of these records: one table
for every 100 files and one for every 1000 files. Separately, every `STATS_FREQ`
(100) processed files, the service prints a progress report to the console.

The model has three modules:

- `Wrappers` (`wrappers.dfy`): the `Option` type, used for a record field that may be absent.
- `BlockAverages` (`block_averages.dfy`): `calculateAveragesByBlock`.
  - The pure specification is `Averages` (built from `AveragesFrom` and `MakeRow`).
  - The source's loop is the method `CalculateAveragesByBlock`, and its `reduce` is the method `SumBlock`. Both are proved against that specification.
  - Lemmas prove the row count, the row ranges, the partition of the indices, the meaning of each average and the bounds of each average.
- `TimerStatistics` (`timer_statistics.dfy`):
  - the nanosecond to microsecond conversion;
  - collecting the `{total, match}` records over the processed files;
  - the gating of the two averages tables;
  - the `STATS_FREQ` test that decides when the console report is printed.

Modelling choices:

- A record is `Record(totalTime, matchTime)` and each field is an `Option<int>`. An absent field contributes 0, as `item.total || 0` does. A field holding 0 is falsy and contributes 0 either way.
- A row is `Row(rangeStart, rangeEnd, avgTotal, avgMatch)`. The source formats the range as the string `start-end`; the model keeps the two numbers.
- `Math.round(s / n)` rounds halves toward +infinity. For an integer sum `s` and a block length `n > 0`, this is the exact integer `(2s + n) div (2n)` with floor division. `RoundedMean` characterises it as the unique `r` with `2nr <= 2s + n < 2n(r + 1)`.
- `blockSize > 0` is a precondition. With `blockSize` 0 and non-empty data the source's loop never ends; with empty data it returns `[]` at once. Both callers pass 100 or 1000.
- The input list is a `seq`, a value. `CalculateAveragesByBlock` has no `modifies` clause and builds its rows in a fresh sequence, so the input is unchanged after every call.
- BigInt division `t / 1000n` truncates toward zero. `NanosToMicros` models this for negative durations too.
- The timer store's answer for a file is a parameter: `Option<FileTimers>`, where `None` means no timers. The processed-file count passed to `ShouldPrintStatistics` is also a parameter.

## Model

| member | source | states |
|---|---|---|
| `BlockAverages.RoundedMean` | Containers/CodeStreamConsumer/src/index.js:113-114 | the result is the mean `sum / n` rounded to the nearest integer with halves going up: `2n*r <= 2*sum + n < 2n*(r+1)` |
| `BlockAverages.SumBlock` | Containers/CodeStreamConsumer/src/index.js:102-109 | the `reduce` returns the sums of `total` and of `match` over the whole block, absent fields counting 0 |
| `BlockAverages.CalculateAveragesByBlock` | Containers/CodeStreamConsumer/src/index.js:96-124 | the loop stepping by `blockSize` returns exactly the rows of the specification `Averages(data, blockSize)`, one per block in order |
| `BlockAverages.AveragesFromAt` | Containers/CodeStreamConsumer/src/index.js:99-120 | the `j`-th row pushed after starting at index `i` is the row of the block starting at `i + j*blockSize`, which is inside the data |
| `BlockAverages.AveragesFromLength` | Containers/CodeStreamConsumer/src/index.js:99-100 | from index `i` there are no rows once `i` is past the end, otherwise `k > 0` rows with `(k-1)*blockSize < L - i <= k*blockSize`, `L` the data length |
| `BlockAverages.RowCount` | Containers/CodeStreamConsumer/src/index.js:97-123 | the number of rows is `ceil(L / blockSize)`, `L` the data length; the result is empty exactly when the input is empty |
| `BlockAverages.RowRange` | Containers/CodeStreamConsumer/src/index.js:99-112 | row `j` has `rangeStart = j*blockSize` and `rangeEnd = min(j*blockSize + blockSize, L) - 1`, `L` the data length; every block but the last holds `blockSize` records, and the last holds `L - (rows-1)*blockSize >= 1` |
| `BlockAverages.RowOfIndex` | Containers/CodeStreamConsumer/src/index.js:99-112 | every index `k` of the data lies in the range of row `k / blockSize` |
| `BlockAverages.RowOfIndexUnique` | Containers/CodeStreamConsumer/src/index.js:99-112 | a row whose range contains `k` is row `k / blockSize`, so no index lies in two rows |
| `BlockAverages.RowsPartition` | Containers/CodeStreamConsumer/src/index.js:99-112 | the ranges start at 0, end at the last index of the data, are consecutive (each starts one past the previous end), and every index lies in exactly one of them |
| `BlockAverages.MakeRowAverage` | Containers/CodeStreamConsumer/src/index.js:100-114 | the row built for the block at `i` has a range within the data, and each average is the round-half-up mean of that field over exactly the records of that range |
| `BlockAverages.RowAverage` | Containers/CodeStreamConsumer/src/index.js:100-114 | for every returned row, `avgTotal` (resp. `avgMatch`) is the round-half-up mean of `total` (resp. `match`) over the records of the row's own range, absent fields counting 0 |
| `BlockAverages.FieldSumBounds` | Containers/CodeStreamConsumer/src/index.js:102-109 | a block sum of values in `[lo, hi]` lies in `[n*lo, n*hi]` |
| `BlockAverages.RoundedMeanBounds` | Containers/CodeStreamConsumer/src/index.js:113-114 | rounding a mean of values in `[lo, hi]` stays within `[lo, hi]` |
| `BlockAverages.RowAverageBounds` | Containers/CodeStreamConsumer/src/index.js:100-114 | if every record in a row's range has the field in `[lo, hi]`, the row's average of that field is in `[lo, hi]` |
| `TimerStatistics.NanosToMicros` | Containers/CodeStreamConsumer/src/index.js:167-168 | `t / 1000n` truncates toward zero: for `t >= 0`, `1000*us <= t < 1000*(us+1)`; for `t < 0`, `1000*(us-1) < t <= 1000*us` |
| `TimerStatistics.ToStat` | Containers/CodeStreamConsumer/src/index.js:167-170 | the record pushed for a timed file has both fields present, so the default of 0 never applies to it, and each holds the duration in whole microseconds: `1000*us <= ns < 1000*(us+1)` for a non-negative duration |
| `TimerStatistics.NanosToMicrosOdd` | Containers/CodeStreamConsumer/src/index.js:47 | the conversion is symmetric in the sign of the duration (truncation, not floor) |
| `TimerStatistics.CollectTimerStats` | Containers/CodeStreamConsumer/src/index.js:164-178 | the `forEach` over the files builds exactly `Collected(timers)`: one µs record per file that has timers, in file order |
| `TimerStatistics.CollectedAppend` | Containers/CodeStreamConsumer/src/index.js:164-170 | collecting distributes over concatenation of the file list, so each file contributes independently and in order |
| `TimerStatistics.CollectedOne` | Containers/CodeStreamConsumer/src/index.js:165-170 | a file without timers contributes nothing; a file with timers contributes exactly its converted record |
| `TimerStatistics.CollectedAllTimed` | Containers/CodeStreamConsumer/src/index.js:164-170 | when every file has timers there is one record per file, and record `k` holds file `k`'s total and match times in µs |
| `TimerStatistics.CollectedLength` | Containers/CodeStreamConsumer/src/index.js:164-170 | there are never more records than files |
| `TimerStatistics.AverageTable` | Containers/CodeStreamConsumer/src/index.js:187-217 | a table exists exactly when at least `blockSize` records exist, and then its first row covers the full block `0 .. blockSize-1` |
| `TimerStatistics.ViewTimerAverages` | Containers/CodeStreamConsumer/src/index.js:187-217 | the page's two tables are the gated block averages of the collected records for blocks of 100 and of 1000 |
| `TimerStatistics.ThousandRowSpansHundredRows` | Containers/CodeStreamConsumer/src/index.js:191-217 | row `j` of the 1000-table starts where row `10j` of the 100-table starts and ends where the last 100-row of the same thousand ends |
| `TimerStatistics.ShouldPrintStatistics` | Containers/CodeStreamConsumer/src/index.js:254-259 | the report is due exactly when the processed-file count is `STATS_FREQ * q` (100 times a whole number `q`) |
| `TimerStatistics.ReportsUpToCount` | Containers/CodeStreamConsumer/src/index.js:254-259 | while the processed-file count runs from 1 to `n`, the report is printed `n / 100` times |
| `TimerStatistics.NextReport` | Containers/CodeStreamConsumer/src/index.js:259 | after a report at count `n`, the next report comes exactly 100 files later |

## Left out

- The clone-detection pipeline is not part of this model: `Timer`, `CloneDetector`, `CloneStorage` and `FileStorage`. Their code is outside this model; `index.js` only `require`s them. The timer store's answer and the processed-file count are parameters instead.
- The Express server, its routes, `res.send`/`res.end`, the formidable upload parsing and `fs.readFile`. These are network and file I/O.
- The HTML builders `getStatistics`, `lastFileTimersHTML`, `listClonesHTML`, `listProcessedFilesHTML`, `viewClones`, and the page text of `viewTimers`. This includes the `index + 1` numbering and the `start-end` range string. All of this is string rendering. The µs value each label shows at line 47 is `NanosToMicros`.
- `processFile`'s promise chain and the `PASS` helper. They sequence stages whose code is outside this model.
- `console.log` output and the `URL` environment lookup in `maybePrintStatistics`. Only its `% STATS_FREQ` test is modelled.
- Floating point. `Math.round(a / b)` is modelled by its exact integer value, so rounding error for sums beyond 2^53 is not captured, and neither is `Number()` losing precision on large BigInt values.
- Falsy field values other than an absent field and 0 (`null`, `NaN`, `false`, `''`). The records the page builds always hold numbers.
- The `!timerStats` test at lines 187 and 213. It is always false for the array the page builds, so the gate is only the length test.
- `calculateAveragesByBlock`'s default argument `blockSize=100` (line 96). Both callers pass the size explicitly (lines 191 and 217), so the model takes it as a required parameter.
- `FileTimers` assumes that every file with timers has both `total` and `match` as BigInt nanosecond counts. If either is absent or is a Number, `timers.total / 1000n` (lines 167-168) throws a TypeError and `viewTimers` sends no page. At lines 47 and 264 a label whose value is a Number throws likewise; an absent label is skipped by their `for ... in` loops, and the throw at line 264 is caught by the `.catch` at line 298. This can happen: the file is registered (line 290) before its `total` timer is ended (line 291), so a failing or asynchronous end leaves a registered file without `total`. The model does not capture this failure.
- `ReportsUpToCount` and `NextReport` assume that `maybePrintStatistics` sees the processed-file counts 1, 2, 3, ... once each, in order. Uploads are not awaited (line 21), and a new `CloneDetector` is made per file (line 276). So concurrent files may read the same count or skip one, and a report may then be printed twice or not at all. How that count is kept is outside this model.
