/** `main`: validation, then dispatch to the writer or the prober (myio.c:18-180). */
module Benchmark {
  import opened Common
  import opened Validation
  import opened Offsets
  import opened Writer
  import opened Prober

  /**
   * The answers of everything outside the program for one run: whether `stat` and `open`
   * succeed, the kernel's reply to each `write` call in order, whether `fsync` succeeds,
   * and what happens in each probe sample.
   */
  datatype Env = Env(
    statOk: bool,
    openOk: bool,
    writes: nat -> Reply,
    fsyncOk: bool,
    probes: nat -> Attempt)

  /** `stat(filename)`: the size of the named file, or failure. */
  function Stat(env: Env, fileLen: nat): (size: Option<int>)
  {
    if env.statOk then Some(fileLen) else None
  }

  /** How a run ends, for a target file that is `fileLen` bytes long when the run starts. */
  function Outcome(args: Args, env: Env, fileLen: nat): (exit: Exit)
  {
    match Validate(args, Stat(env, fileLen))
    case Err(e) => Fatal(e)
    case Ok(Create(blocks)) =>
      if !env.openOk then Fatal(OpenFailed)
      else if WriterStatus(env.writes, blocks, env.fsyncOk) == Done then Created
      else Fatal(WriterStatus(env.writes, blocks, env.fsyncOk).error)
    case Ok(Probe(ioSize, samples, fileSize)) =>
      if !env.openOk then Fatal(OpenFailed)
      else ProbeOutcome(ioSize, samples, fileSize, env.probes)
  }

  /**
   * One run of the program on the file `f` named by `argv[2]`. Mode 1 truncates and
   * rewrites `f`; mode 2 only reads it, and every offset it seeks to leaves room for a
   * full read inside the file.
   */
  method Run(args: Args, env: Env, f: File) returns (exit: Exit, ghost offsets: seq<nat>)
    modifies f
    ensures exit == Outcome(args, env, old(|f.data|))
    ensures CreateAdmissible(args) && env.openOk ==>
      f.data == WrittenBytes(env.writes, args.size) && (f.synced <==> exit == Created)
    ensures !(CreateAdmissible(args) && env.openOk) ==> f.data == old(f.data) && f.synced == old(f.synced)
    ensures forall i :: 0 <= i < |offsets| ==>
      offsets[i] % BLOCK_SIZE == 0 && offsets[i] + args.size <= old(|f.data|)
  {
    offsets := [];
    var checked := Validate(args, Stat(env, |f.data|));
    if checked.Err? {
      return Fatal(checked.error), offsets;
    }
    match checked.value
    case Create(blocks) =>
      if !env.openOk {
        return Fatal(OpenFailed), offsets;
      }
      f.Truncate();
      var status := WriteZeroBlocks(f, blocks, env.writes, env.fsyncOk);
      exit := if status == Done then Created else Fatal(status.error);
    case Probe(ioSize, samples, fileSize) =>
      if !env.openOk {
        return Fatal(OpenFailed), offsets;
      }
      exit, offsets := Prober.Probe(ioSize, samples, fileSize, env.probes);
  }

  /**
   * Exit status 0 means one of two things: in mode 1 every block was written and the
   * file holds exactly `blocks * BLOCK_SIZE` zero bytes; in mode 2 a median was printed
   * for a file strictly longer than `io_size`.
   */
  lemma ExitZeroMeansCompleted(args: Args, env: Env, fileLen: nat)
    requires ExitCode(Outcome(args, env, fileLen)) == 0
    ensures CreateAdmissible(args) ==>
      && Outcome(args, env, fileLen) == Created
      && |WrittenBytes(env.writes, args.size)| == args.size * BLOCK_SIZE
    ensures !CreateAdmissible(args) ==>
      ProbeArgsAdmissible(args) && Outcome(args, env, fileLen).Printed? && fileLen > args.size
  {
    if CreateAdmissible(args) {
      CompletedFileIsZeroBlocks(env.writes, args.size, env.fsyncOk);
    } else {
      ProbePrintsIff(args, env, fileLen);
    }
  }

  /** Mode 1 succeeds exactly when the arguments pass, `open` succeeds, every block is written in full, and `fsync` succeeds. */
  lemma CreateSucceedsIff(args: Args, env: Env, fileLen: nat)
    requires CreateAdmissible(args)
    ensures Outcome(args, env, fileLen) == Created <==>
      env.openOk && env.fsyncOk && forall j: nat :: j < args.size ==> Complete(env.writes(j), BLOCK_SIZE)
  {
    WriterSucceedsIff(env.writes, args.size, env.fsyncOk);
  }

  /**
   * Mode 2 prints a median exactly when the arguments pass, `stat` and `open` succeed,
   * the file is strictly longer than `io_size`, and every sample's seek and read succeed.
   */
  lemma ProbePrintsIff(args: Args, env: Env, fileLen: nat)
    requires ProbeArgsAdmissible(args)
    ensures Outcome(args, env, fileLen).Printed? <==>
      && env.statOk && env.openOk && fileLen > args.size
      && forall j: nat :: j < args.samples ==> AttemptSucceeds(env.probes(j), args.size)
  {
    if env.statOk && fileLen >= args.size && env.openOk {
      NoBlocksIffNoSlack(fileLen, args.size);
      SamplingCompletesIff(NumBlocks(MaxOffset(fileLen, args.size)), args.size, args.samples, env.probes);
    }
  }

  /**
   * As written, a file exactly `io_size` bytes long passes validation and then divides
   * by zero at the first offset step instead of printing a median.
   */
  lemma EqualSizesDivideByZero(ioSize: int, samples: int, env: Env)
    requires ioSize > 0 && samples > 0
    requires env.statOk && env.openOk
    ensures Outcome(Args(5, 2, ioSize, samples), env, ioSize) == Fatal(DivisionByZero)
  {
    EqualSizesAccepted(ioSize, samples);
    NoSlackTraps(ioSize, samples, env.probes);
  }

  /**
   * Creating a one-block file and then probing it with `io_size` 4096 and 5 samples:
   * the creation succeeds with a 4096-byte file, and the probe of that file traps.
   */
  lemma OneBlockScenario(create: Env, probe: Env)
    requires create.openOk && create.fsyncOk && Complete(create.writes(0), BLOCK_SIZE)
    requires probe.statOk && probe.openOk
    ensures Outcome(Args(4, 1, 1, 0), create, 0) == Created
    ensures |WrittenBytes(create.writes, 1)| == 4096
    ensures Outcome(Args(5, 2, 4096, 5), probe, |WrittenBytes(create.writes, 1)|) == Fatal(DivisionByZero)
  {
    CreateSucceedsIff(Args(4, 1, 1, 0), create, 0);
    CompletedFileIsZeroBlocks(create.writes, 1, create.fsyncOk);
    EqualSizesDivideByZero(4096, 5, probe);
  }
}
