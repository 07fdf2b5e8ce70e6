/** Argument checking and mode dispatch of `main` (myio.c:19-36, 75-97, 174-177). */
module Validation {
  import opened Common

  /**
   * The command line after `atoi`/`atol`: `argc` and the parsed values of `argv[1]`
   * (mode), `argv[3]` (block count or io_size) and `argv[4]` (samples). A value whose
   * argument is absent is never consulted.
   */
  datatype Args = Args(argc: int, mode: int, size: int, samples: int)

  /** A validated run: mode 1 writes `blocks` zero blocks, mode 2 probes a file of `fileSize` bytes. */
  datatype Command =
    | Create(blocks: nat)
    | Probe(ioSize: nat, samples: nat, fileSize: nat)

  /** Mode 1 arguments that pass: exactly three arguments and a positive block count. */
  predicate CreateAdmissible(args: Args)
  {
    args.argc >= 2 && args.mode == 1 && args.argc == 4 && args.size > 0
  }

  /** Mode 2 arguments that pass before the file is looked at: four arguments, both numbers positive. */
  predicate ProbeArgsAdmissible(args: Args)
  {
    args.argc >= 2 && args.mode == 2 && args.argc == 5 && args.size > 0 && args.samples > 0
  }

  /**
   * The checks of `main` in source order. `statSize` is `st.st_size` from `stat`, or
   * `None` when `stat` fails; it is consulted only in mode 2 after the argument checks.
   */
  function Validate(args: Args, statSize: Option<int>): (r: Result<Command>)
    ensures r.Ok? <==>
      CreateAdmissible(args) ||
      (ProbeArgsAdmissible(args) && statSize.Some? && statSize.value >= args.size)
    ensures r.Ok? && r.value.Create? ==> r.value.blocks == args.size > 0
    ensures r.Ok? && r.value.Probe? ==>
      && r.value.ioSize == args.size
      && r.value.samples == args.samples > 0
      && statSize == Some(r.value.fileSize)
      && 0 < r.value.ioSize <= r.value.fileSize
  {
    if args.argc < 2 then Err(Usage)
    else if args.mode == 1 then
      if args.argc != 4 then Err(Usage)
      else if args.size <= 0 then Err(InvalidFileSize)
      else Ok(Create(args.size))
    else if args.mode == 2 then
      if args.argc != 5 then Err(Usage)
      else if args.size <= 0 || args.samples <= 0 then Err(InvalidIoSizeOrSamples)
      else if statSize.None? then Err(StatFailed)
      else if statSize.value < args.size then Err(FileTooSmall)
      else Ok(Probe(args.size, args.samples, statSize.value))
    else Err(InvalidMode)
  }

  /** Each rejected case, with the diagnostic it leads to. */
  lemma RejectionReasons(args: Args, statSize: Option<int>)
    ensures args.argc < 2 ==> Validate(args, statSize) == Err(Usage)
    ensures args.argc >= 2 && args.mode == 1 && args.argc != 4 ==> Validate(args, statSize) == Err(Usage)
    ensures args.argc == 4 && args.mode == 1 && args.size <= 0 ==> Validate(args, statSize) == Err(InvalidFileSize)
    ensures args.argc >= 2 && args.mode == 2 && args.argc != 5 ==> Validate(args, statSize) == Err(Usage)
    ensures args.argc == 5 && args.mode == 2 && (args.size <= 0 || args.samples <= 0) ==>
      Validate(args, statSize) == Err(InvalidIoSizeOrSamples)
    ensures ProbeArgsAdmissible(args) && statSize.None? ==> Validate(args, statSize) == Err(StatFailed)
    ensures ProbeArgsAdmissible(args) && statSize.Some? && statSize.value < args.size ==>
      Validate(args, statSize) == Err(FileTooSmall)
  {
  }

  /** Any mode other than 1 or 2 is rejected, whatever the argument count beyond the mode. */
  lemma UnknownModeRejected(args: Args, statSize: Option<int>)
    requires args.argc >= 2 && args.mode != 1 && args.mode != 2
    ensures Validate(args, statSize) == Err(InvalidMode)
  {
  }

  /** Argument errors are decided before the file is examined: `stat` cannot change them. */
  lemma ArgumentErrorsPrecedeStat(args: Args, s1: Option<int>, s2: Option<int>)
    requires !ProbeArgsAdmissible(args)
    ensures Validate(args, s1) == Validate(args, s2)
  {
  }

  /** A file exactly one probe long is accepted: only `file_size < io_size` is rejected. */
  lemma EqualSizesAccepted(ioSize: int, samples: int)
    requires ioSize > 0 && samples > 0
    ensures Validate(Args(5, 2, ioSize, samples), Some(ioSize)) == Ok(Probe(ioSize, samples, ioSize))
  {
  }
}
