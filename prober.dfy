/** Random-read mode: sampling loop, sort and median (myio.c:126-168). */
module Prober {
  import opened Common
  import opened Offsets
  import opened Statistics

  /**
   * What the environment does in sample `i`: the value `random()` returns, whether
   * `lseek` succeeds, the kernel's answer to `read`, and the latency the clock yields
   * for the pair (microseconds).
   */
  datatype Attempt = Attempt(draw: nat, seekOk: bool, read: Reply, latency: real)

  /** The sample survives both checks of myio.c:137-150. */
  predicate AttemptSucceeds(a: Attempt, ioSize: nat)
  {
    a.seekOk && Complete(a.read, ioSize)
  }

  /** The diagnostic of a failed sample: `lseek` is checked before `read`. */
  function AttemptError(a: Attempt): (e: Error)
  {
    if !a.seekOk then SeekFailed else ReadFailed
  }

  /** The index of the first of the first `n` samples that fails, or `n` when none does. */
  function FirstFailedAttempt(probes: nat -> Attempt, ioSize: nat, n: nat): (k: nat)
    ensures k <= n
    ensures forall j: nat :: j < k ==> AttemptSucceeds(probes(j), ioSize)
    ensures k < n ==> !AttemptSucceeds(probes(k), ioSize)
  {
    if n == 0 then 0
    else
      var k := FirstFailedAttempt(probes, ioSize, n - 1);
      if k < n - 1 then k
      else if AttemptSucceeds(probes(n - 1), ioSize) then n
      else n - 1
  }

  /** The search finds sample `i` when every sample before it succeeds and it fails. */
  lemma FirstFailureAt(probes: nat -> Attempt, ioSize: nat, n: nat, i: nat)
    requires i < n && !AttemptSucceeds(probes(i), ioSize)
    requires forall j: nat :: j < i ==> AttemptSucceeds(probes(j), ioSize)
    ensures FirstFailedAttempt(probes, ioSize, n) == i
  {
  }

  /** The latencies of the first `n` samples, in the order they were measured. */
  function Latencies(probes: nat -> Attempt, n: nat): (s: seq<real>)
    ensures |s| == n
    ensures forall i: nat :: i < n ==> s[i] == probes(i).latency
  {
    if n == 0 then [] else Latencies(probes, n - 1) + [probes(n - 1).latency]
  }

  /**
   * How the sampling loop of `samples` iterations ends: it traps on `random() % 0` in
   * its first iteration when there are no blocks, aborts at the first failed `lseek` or
   * short `read`, and otherwise completes.
   */
  function SamplingStatus(numBlocks: nat, ioSize: nat, samples: nat, probes: nat -> Attempt): (status: Status)
  {
    if samples == 0 then Done
    else if numBlocks == 0 then Abort(DivisionByZero)
    else
      var k := FirstFailedAttempt(probes, ioSize, samples);
      if k < samples then Abort(AttemptError(probes(k))) else Done
  }

  /** The loop completes exactly when every offset step is defined and every sample succeeds. */
  lemma SamplingCompletesIff(numBlocks: nat, ioSize: nat, samples: nat, probes: nat -> Attempt)
    requires samples > 0
    ensures SamplingStatus(numBlocks, ioSize, samples, probes) == Done <==>
      numBlocks > 0 && forall j: nat :: j < samples ==> AttemptSucceeds(probes(j), ioSize)
  {
  }

  /** With the corrected block count the offset step never traps. */
  lemma CorrectedSamplingNeverTraps(maxOffset: nat, ioSize: nat, samples: nat, probes: nat -> Attempt)
    ensures SamplingStatus(AlignedOffsetCount(maxOffset), ioSize, samples, probes) != Abort(DivisionByZero)
  {
  }

  /**
   * The sampling loop (myio.c:130-156): for each `i`, draw a block, seek to its offset,
   * read `io_size` bytes, and store the latency in `latencies[i]`. `offsets` records the
   * offset handed to each `lseek` call.
   */
  method SampleLatencies(latencies: array<real>, ioSize: nat, numBlocks: nat, probes: nat -> Attempt)
    returns (status: Status, ghost offsets: seq<nat>)
    modifies latencies
    ensures status == SamplingStatus(numBlocks, ioSize, latencies.Length, probes)
    ensures status == Done ==> latencies[..] == Latencies(probes, latencies.Length)
    ensures |offsets| == match status
      case Done => latencies.Length
      case Abort(e) => if e == DivisionByZero then 0 else FirstFailedAttempt(probes, ioSize, latencies.Length) + 1
    ensures forall i :: 0 <= i < |offsets| ==> numBlocks > 0 && offsets[i] == BlockOffset(probes(i).draw, numBlocks)
  {
    offsets := [];
    var i: nat := 0;
    while i < latencies.Length
      invariant i <= latencies.Length
      invariant i > 0 ==> numBlocks > 0
      invariant forall j: nat :: j < i ==> AttemptSucceeds(probes(j), ioSize)
      invariant forall j :: 0 <= j < i ==> latencies[j] == probes(j).latency
      invariant |offsets| == i
      invariant forall j :: 0 <= j < i ==> numBlocks > 0 && offsets[j] == BlockOffset(probes(j).draw, numBlocks)
    {
      if numBlocks == 0 {
        // `random() % num_blocks` with num_blocks == 0
        return Abort(DivisionByZero), offsets;
      }
      var block := probes(i).draw % numBlocks;
      var offset := block * BLOCK_SIZE;
      assert offset == BlockOffset(probes(i).draw, numBlocks);
      offsets := offsets + [offset];
      if !probes(i).seekOk {
        FirstFailureAt(probes, ioSize, latencies.Length, i);
        assert SamplingStatus(numBlocks, ioSize, latencies.Length, probes) == Abort(SeekFailed);
        return Abort(SeekFailed), offsets;
      }
      var n := Returned(probes(i).read, ioSize);
      if n != ioSize {
        FirstFailureAt(probes, ioSize, latencies.Length, i);
        assert SamplingStatus(numBlocks, ioSize, latencies.Length, probes) == Abort(ReadFailed);
        return Abort(ReadFailed), offsets;
      }
      latencies[i] := probes(i).latency;
      i := i + 1;
    }
    assert SamplingStatus(numBlocks, ioSize, latencies.Length, probes) == Done;
    assert latencies[..] == Latencies(probes, latencies.Length);
    status := Done;
  }

  /**
   * What a probe run on a file of `fileSize` bytes yields once the file is open:
   * the error that aborted the sampling loop, or the median of the sorted latencies.
   */
  function ProbeOutcome(ioSize: nat, samples: nat, fileSize: nat, probes: nat -> Attempt): (exit: Exit)
    requires ioSize <= fileSize && samples > 0
  {
    match SamplingStatus(NumBlocks(MaxOffset(fileSize, ioSize)), ioSize, samples, probes)
    case Abort(e) => Fatal(e)
    case Done =>
      assert |SortedSeq(Latencies(probes, samples))| == |multiset(Latencies(probes, samples))| == samples;
      Printed(Median(SortedSeq(Latencies(probes, samples))))
  }

  /** A printed median lies between the smallest and the largest latency measured. */
  lemma PrintedMedianWithinLatencies(ioSize: nat, samples: nat, fileSize: nat, probes: nat -> Attempt)
    requires ioSize <= fileSize && samples > 0
    requires ProbeOutcome(ioSize, samples, fileSize, probes).Printed?
    ensures exists i: nat :: i < samples && probes(i).latency <= ProbeOutcome(ioSize, samples, fileSize, probes).median
    ensures exists j: nat :: j < samples && ProbeOutcome(ioSize, samples, fileSize, probes).median <= probes(j).latency
  {
    var s := Latencies(probes, samples);
    MedianBetweenSamples(s);
    var i :| 0 <= i < |s| && s[i] <= Median(SortedSeq(s));
    var j :| 0 <= j < |s| && Median(SortedSeq(s)) <= s[j];
    assert probes(i).latency == s[i];
    assert probes(j).latency == s[j];
  }

  /**
   * Any failed sample means no median is printed: the samples collected so far are
   * discarded and the run ends with the first failure's diagnostic.
   */
  lemma FailedSampleDiscardsRun(ioSize: nat, samples: nat, fileSize: nat, probes: nat -> Attempt, j: nat)
    requires ioSize <= fileSize && samples > 0
    requires j < samples && !AttemptSucceeds(probes(j), ioSize)
    ensures ProbeOutcome(ioSize, samples, fileSize, probes).Fatal?
  {
  }

  /** The printed median depends only on the multiset of measured latencies, not on their order. */
  lemma MedianIndependentOfOrder(ioSize: nat, samples: nat, fileSize: nat, p: nat -> Attempt, q: nat -> Attempt)
    requires ioSize <= fileSize && samples > 0
    requires ProbeOutcome(ioSize, samples, fileSize, p).Printed?
    requires ProbeOutcome(ioSize, samples, fileSize, q).Printed?
    requires multiset(Latencies(p, samples)) == multiset(Latencies(q, samples))
    ensures ProbeOutcome(ioSize, samples, fileSize, p) == ProbeOutcome(ioSize, samples, fileSize, q)
  {
    MedianIgnoresOrder(Latencies(p, samples), Latencies(q, samples));
  }

  /** A file exactly `io_size` bytes long leaves no blocks, so the first offset step traps. */
  lemma NoSlackTraps(ioSize: nat, samples: nat, probes: nat -> Attempt)
    requires samples > 0
    ensures ProbeOutcome(ioSize, samples, ioSize, probes) == Fatal(DivisionByZero)
  {
  }

  /**
   * The probe once the file is open (myio.c:114-168): allocate the latency array, compute
   * the offset space, sample, sort, and select the median.
   * Every offset handed to `lseek` is block-aligned and leaves room for a full read.
   */
  method Probe(ioSize: nat, samples: nat, fileSize: nat, probes: nat -> Attempt)
    returns (exit: Exit, ghost offsets: seq<nat>)
    requires ioSize <= fileSize && samples > 0
    ensures exit == ProbeOutcome(ioSize, samples, fileSize, probes)
    ensures |offsets| <= samples
    ensures forall i :: 0 <= i < |offsets| ==> offsets[i] % BLOCK_SIZE == 0 && offsets[i] + ioSize <= fileSize
  {
    var latencies := new real[samples];
    var maxOffset := fileSize - ioSize;
    var numBlocks := maxOffset / BLOCK_SIZE + (if maxOffset % BLOCK_SIZE != 0 then 1 else 0);
    assert numBlocks == NumBlocks(MaxOffset(fileSize, ioSize));
    var status;
    status, offsets := SampleLatencies(latencies, ioSize, numBlocks, probes);
    forall i | 0 <= i < |offsets|
      ensures offsets[i] % BLOCK_SIZE == 0 && offsets[i] + ioSize <= fileSize
    {
      OffsetStaysInFile(fileSize, ioSize, probes(i).draw);
    }
    if status.Abort? {
      return Fatal(status.error), offsets;
    }
    SortInPlace(latencies);
    var median := SelectMedian(latencies);
    exit := Printed(median);
  }
}
