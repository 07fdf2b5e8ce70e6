# Storage I/O benchmark (myio.c), modelled in Dafny

`myio.c` is a single `main` with two modes. Mode 1 creates a file of N zero-filled
4096-byte blocks and syncs it to storage. Mode 2 probes an existing file. It draws
`samples` random block-aligned offsets and times one `lseek` plus one `read` of
`io_size` bytes at each. It then sorts the latencies with `qsort` and prints their median.

The model covers that program. The system calls, the clock and the random number
generator are inputs: an `Env` holds the kernel's answer to every call, and each
probe sample is an `Attempt` (the `random()` draw, the `lseek` result, the `read`
reply and the measured latency). Every `exit(EXIT_FAILURE)` becomes an `Error`
inside `Exit.Fatal`.

Modules, one per part of `main`:

- `Common`: the block size, the kernel `Reply`, `Error`, `Status` and `Exit`.
- `Comparator`: the `qsort` comparator.
- `Statistics`: the in-place sort (an array insertion sort driven by the same
  comparator), a reference sort on sequences, and median selection.
- `Offsets`: `max_offset`, `num_blocks` and the block-aligned offset step.
- `Validation`: the argument and file-size checks, in source order.
- `Writer`: a `File` class (bytes plus a durability flag) and the zero-block write loop.
- `Prober`: the sampling loop over a `latencies` array, then sort and median.
- `Benchmark`: the dispatch in `main` (`Run`) and its specification `Outcome`.

Each loop is a method proved against a pure function: `WriteZeroBlocks` against
`WriterStatus`/`WrittenBytes`, `SampleLatencies` against `SamplingStatus`/`Latencies`,
`SortInPlace` against `SortedSeq`, and `Run` against `Outcome`. The lemmas are stated
about those functions.

Three facts about the offset arithmetic, as the code computes it:

- `max_offset == 0` gives zero blocks, and the offset step then evaluates `random() % 0`
  (`Offsets.NoBlocksIffNoSlack`).
- Whenever the offset step is defined, every drawn offset is strictly below `max_offset`,
  even when `max_offset` is not block-aligned (`Offsets.OffsetStaysInFile`).
- Creating a one-block file and probing it with `io_size` 4096 does not print a median:
  the model ends the probe with `Fatal(DivisionByZero)` (`Benchmark.OneBlockScenario`), and on
  x86-64 the program traps there.

## Model

| member | source | states |
|---|---|---|
| `Comparator.Compare` | myio.c:13-16 | returns -1, 0 or 1, positive exactly when a > b, negative exactly when a < b, zero exactly when they are equal |
| `Comparator.CompareAntisymmetric` | myio.c:13-16 | compare(a, b) == -compare(b, a) |
| `Comparator.CompareTransitive` | myio.c:13-16 | "not greater" is transitive, so the comparator is a consistent total preorder for qsort |
| `Statistics.SortedSeq` | myio.c:159 | the reference sort is sorted and a permutation (same multiset) of its input |
| `Statistics.SortedUnique` | myio.c:159 | two sorted sequences with the same multiset are equal, so the sorted result of qsort is determined by the input |
| `Statistics.SortInPlace` | myio.c:159 | sorting the latency array in place leaves it sorted, a permutation of the old contents, and equal to the reference sort |
| `Statistics.Median` | myio.c:160-165 | on sorted input the selected median lies between the first and the last element |
| `Statistics.SelectMedian` | myio.c:160-165 | selecting from the sorted latency array yields the median of its contents |
| `Statistics.MedianSplitsSamples` | myio.c:160-165 | on sorted input the first ceil(n/2) elements are at most the median and the last ceil(n/2) are at least it |
| `Statistics.MedianIgnoresOrder` | myio.c:159-165 | the median of the sorted samples depends only on their multiset, not on the order they were collected |
| `Statistics.MedianBetweenSamples` | myio.c:159-165 | the median of the sorted samples is at least one sample and at most one sample |
| `Statistics.MedianExamples` | myio.c:160-165 | [1,2,3] has median 2 and [1,2,3,4] has median 2.5 |
| `Offsets.MaxOffset` | myio.c:128 | max_offset plus io_size is exactly the file size |
| `Offsets.NumBlocks` | myio.c:129 | num_blocks is the ceiling of max_offset/4096: num_blocks*4096 >= max_offset, (num_blocks-1)*4096 < max_offset when max_offset > 0, and num_blocks == 0 exactly when max_offset == 0 |
| `Offsets.BlockOffset` | myio.c:132-133 | defined only for num_blocks > 0; the offset is a multiple of 4096 and its block ends within num_blocks*4096 |
| `Offsets.OffsetStaysInFile` | myio.c:128-133 | when num_blocks > 0, every drawn offset is block-aligned and strictly below max_offset, so offset + io_size <= file_size |
| `Offsets.NoBlocksIffNoSlack` | myio.c:128-132 | num_blocks is 0, and so the modulo step is undefined, exactly when file_size == io_size |
| `Offsets.AlignedOffsetCount` | myio.c:129 | corrected count: positive, and exactly the number of block-aligned offsets in [0, max_offset] |
| `Offsets.CorrectedOffsetsCoverRange` | myio.c:129-133 | with the corrected count every drawn offset is <= max_offset and every aligned offset up to max_offset is drawn by some value |
| `Offsets.AsWrittenCountMissesAlignedEnd` | myio.c:129-133 | the count as written is one short exactly when max_offset is a multiple of 4096; then, above 0, offset max_offset is never drawn |
| `Validation.Validate` | myio.c:19-177 | covers the argument and file-size checks (lines 19-97) and the mode dispatch (lines 174-177); succeeds exactly for mode 1 with argc == 4 and a positive block count, or mode 2 with argc == 5, positive io_size and samples, stat succeeding and file_size >= io_size; the command carries those values |
| `Validation.RejectionReasons` | myio.c:19-97 | each failing case ends with its own diagnostic: usage for argc < 2 or a wrong count for the mode, invalid file size, invalid io_size or samples, stat failure, file too small |
| `Validation.UnknownModeRejected` | myio.c:174-177 | any mode other than 1 or 2 fails with "Invalid mode" whatever the other arguments |
| `Validation.ArgumentErrorsPrecedeStat` | myio.c:75-97 | the outcome of invalid arguments does not depend on the file: stat is consulted only after the argument checks |
| `Validation.EqualSizesAccepted` | myio.c:94-97 | file_size == io_size passes validation: only file_size < io_size is rejected |
| `Writer.File.Truncate` | myio.c:39 | opening with O_TRUNC leaves the file empty and not synced |
| `Writer.File.Write` | myio.c:56 | write returns -1 and leaves the file unchanged, or appends the bytes it accepted (never more than requested) and returns their count |
| `Writer.File.Fsync` | myio.c:65 | fsync leaves the bytes unchanged and marks them durable on success, returning 0, or returns -1 |
| `Writer.FirstShortWrite` | myio.c:55-62 | the index of the first write that does not return 4096: all earlier writes were complete, that one was not |
| `Writer.WrittenBytes` | myio.c:52-62 | whatever happens, the writer leaves at most blocks*4096 bytes in the file, all of them zero |
| `Writer.WriterSucceedsIff` | myio.c:52-70 | the writer succeeds exactly when all block-count writes return 4096 and fsync succeeds; any short write aborts it |
| `Writer.CompletedFileIsZeroBlocks` | myio.c:52-62 | on success the file holds exactly block_count*4096 bytes, all zero |
| `Writer.AbortedFileIsShort` | myio.c:55-61 | after a short write the file left behind is shorter than block_count*4096 bytes and all zero |
| `Writer.WriteZeroBlocks` | myio.c:52-70 | the loop leaves the file equal to the written-bytes specification and ends with the writer status; the file is synced exactly when the run completes, so a short write aborts before fsync |
| `Prober.FirstFailedAttempt` | myio.c:130-150 | the index of the first sample whose lseek or read fails: all earlier samples succeeded, that one did not |
| `Prober.Latencies` | myio.c:130-156 | the collected latencies: entry i is the latency measured in sample i |
| `Prober.SamplingCompletesIff` | myio.c:130-150 | the sampling loop completes exactly when num_blocks > 0 and every sample's seek and full read succeed |
| `Prober.CorrectedSamplingNeverTraps` | myio.c:129-132 | run with the corrected block count, the sampling loop never divides by zero |
| `Prober.SampleLatencies` | myio.c:130-156 | the loop ends with the sampling status; on completion latencies[i] is sample i's latency for every i; every lseek offset is the block offset of that sample's draw; a failure stops at the first failing sample |
| `Prober.PrintedMedianWithinLatencies` | myio.c:159-168 | a printed median lies between the smallest and the largest measured latency |
| `Prober.FailedSampleDiscardsRun` | myio.c:137-150 | if any sample's lseek or read fails, no median is printed and the run ends fatally |
| `Prober.MedianIndependentOfOrder` | myio.c:159-165 | two runs whose latencies have the same multiset print the same median |
| `Prober.NoSlackTraps` | myio.c:128-132 | probing a file exactly io_size bytes long ends in the division-by-zero trap |
| `Prober.Probe` | myio.c:114-168 | the probe's result equals its specification (abort error, or the median of the sorted latencies), and every offset it seeks to is block-aligned with offset + io_size <= file_size |
| `Benchmark.Run` | myio.c:18-180 | the run ends as the specification Outcome says; mode 1 leaves the file equal to the written bytes, synced exactly on success; mode 2 and every failure before open leave the file untouched; every probe offset stays inside the file |
| `Benchmark.ExitZeroMeansCompleted` | myio.c:27-179 | exit status 0 means either mode 1 created the file with exactly blocks*4096 bytes, or mode 2 printed a median for a file strictly longer than io_size |
| `Benchmark.CreateSucceedsIff` | myio.c:27-73 | mode 1 with valid arguments succeeds exactly when open, every block write and fsync succeed |
| `Benchmark.ProbePrintsIff` | myio.c:75-168 | mode 2 with valid arguments prints a median exactly when stat and open succeed, the file is strictly longer than io_size, and every sample succeeds |
| `Benchmark.EqualSizesDivideByZero` | myio.c:94-132 | with file_size == io_size, stat and open succeeding, a mode 2 run ends in the division-by-zero trap |
| `Benchmark.OneBlockScenario` | myio.c:27-132 | creating a one-block file succeeds with 4096 bytes, and probing it with io_size 4096 and 5 samples traps |
| `Common.ExitCode` | myio.c:174-179 | the exit status is 0 exactly when the run did not end fatally |

## Left out

- Argument parsing: `atoi`/`atol` and the argument strings are not modelled. `Args` holds `argc` and the values already parsed. Out-of-range numerals and garbage text are not covered.
- The file name is not modelled. `Run` receives the file it names as a `File` object, and `stat` reports that file's length when `Env.statOk` holds.
- `malloc` failures at myio.c:46-51, 107-121 and `free`/`close` are not modelled. They are allocation and cleanup plumbing; `close`'s result is ignored by the source.
- `clock_gettime` and the latency conversion at myio.c:154 are not modelled. They are clock and floating-point work; each latency is an input `real`.
- `srandom(time(NULL))` and `random()` are not modelled. The draw is an input natural number. Its range `[0, 2^31-1]` and the modulo bias of `% num_blocks` are not modelled.
- Doubles are modelled as `real`. NaN cannot arise from a latency. The comparator's subtraction decides sign exactly for finite doubles. The mean of the two middle values is exact in the model, where the source rounds it.
- The `%.2f` formatting of the median at myio.c:168 is not modelled. `Exit.Printed` carries the median value itself. The text of the diagnostics is not modelled either; each is one `Error` value.
- `qsort` is modelled as an insertion sort with the same comparator. Any sorted permutation is the same sequence (`Statistics.SortedUnique`), so the result is identical.
- `random() % 0` is undefined behaviour in C, and the model ends the run with `Fatal(DivisionByZero)` at the offset step. What actually happens depends on the hardware. On x86-64 the division traps with SIGFPE. On AArch64 the remainder is the draw itself. A nonzero draw sends the seek past the end of the file, and the run then fails at `read` with a diagnostic. A draw of 0 gives offset 0, and that read succeeds. So unless every draw is 0, the exit status is nonzero, and `Fatal(DivisionByZero)` keeps that. In the rare run where every draw is 0, the program prints a median, which the model does not capture.
- 64-bit `long`/`off_t` widths are not modelled. On every validated path each derived quantity (max_offset, num_blocks, offset) is at most the file size, so nothing wraps. The size passed to `malloc(samples * sizeof(double))` may wrap in the source; that is not modelled.
- File creation is not modelled. The model's `File` already exists, and `Writer.File.Truncate` only empties it. So `O_CREAT` and the permission bits `S_IRUSR|S_IWUSR|S_IRGRP|S_IWGRP|S_IROTH` at myio.c:39 are not captured.
- The bytes read into the probe buffer are not modelled. The source discards them.
- `Writer.File.Fsync`: durability is one flag ("contents flushed since the last change"). Storage caching and crash behaviour are not modelled.
- plot_io.py is not part of this model. It only draws a chart from hard-coded numbers.

## Findings

| source | as written | input that shows it | evidently intended | confidence | as-written member | corrected member |
|---|---|---|---|---|---|---|
| myio.c:94 | `file_size < io_size` admits `file_size == io_size`; then `max_offset` and `num_blocks` are 0 and `random() % num_blocks` divides by zero | a 4096-byte file probed with `2 <file> 4096 5` | a file exactly one probe long has one valid offset (0) and is probed there | high, not executed | `Benchmark.EqualSizesDivideByZero` | `Offsets.CorrectedOffsetsCoverRange` |
| myio.c:129 | the ceiling count omits the aligned offset `max_offset` itself whenever `max_offset` is a positive multiple of 4096 | an 8192-byte file probed with io_size 4096: `max_offset` 4096, `num_blocks` 1, only offset 0 is ever read although offset 4096 fits | every block-aligned offset in [0, max_offset] can be drawn: `max_offset / 4096 + 1` offsets | medium, not executed | `Offsets.AsWrittenCountMissesAlignedEnd` | `Offsets.CorrectedOffsetsCoverRange` |

The program model (`Prober.Probe`, `Benchmark.Run`) keeps the count as written, so it
reproduces the trap. The sampling loop and its specification accept any block count.
`Prober.CorrectedSamplingNeverTraps` runs that specification with the corrected count
(`Offsets.AlignedOffsetCount`).
