/** Definitions shared by the two modes of the storage benchmark (myio.c). */
module Common {

  /** BLOCK_SIZE: the unit of the writer's fill and of the prober's offset alignment. */
  const BLOCK_SIZE: nat := 4096

  newtype byte = x: int | 0 <= x < 256

  /** `n` zero bytes, the content of the writer's memset buffer. */
  function Zeros(n: nat): (z: seq<byte>)
    ensures |z| == n
    ensures forall i :: 0 <= i < n ==> z[i] == 0
  {
    seq(n, _ => 0)
  }

  function Min(a: int, b: int): (m: int)
    ensures m <= a && m <= b && (m == a || m == b)
  {
    if a <= b then a else b
  }

  datatype Option<+T> = None | Some(value: T)

  /** What the kernel answers to one `read` or `write` call: a byte count, or -1. */
  datatype Reply = Transferred(count: nat) | Failed

  /**
   * The value the system call returns for a request of `requested` bytes: the kernel
   * never transfers more than was asked for.
   */
  function Returned(reply: Reply, requested: nat): (n: int)
    ensures reply.Failed? ==> n == -1
    ensures reply.Transferred? ==> 0 <= n <= requested && n <= reply.count
  {
    match reply
    case Transferred(count) => Min(count, requested)
    case Failed => -1
  }

  /** The call transferred all `requested` bytes; anything less is treated as a fatal error. */
  predicate Complete(reply: Reply, requested: nat)
  {
    Returned(reply, requested) == requested
  }

  /** Every way a run ends with a diagnostic instead of completing. */
  datatype Error =
    | Usage                    // wrong argument count for the mode
    | InvalidFileSize          // mode 1: block count <= 0
    | InvalidIoSizeOrSamples   // mode 2: io_size <= 0 or samples <= 0
    | StatFailed
    | FileTooSmall             // mode 2: file_size < io_size
    | InvalidMode
    | OpenFailed
    | WriteFailed              // failed or short write
    | FsyncFailed
    | SeekFailed
    | ReadFailed               // failed or short read
    | DivisionByZero           // `random() % num_blocks` with num_blocks == 0

  datatype Result<+T> = Ok(value: T) | Err(error: Error)

  /** The outcome of a loop that either runs to the end or aborts with an error. */
  datatype Status = Done | Abort(error: Error)

  /** How one run of the program ends. */
  datatype Exit =
    | Created                  // mode 1: file written and synced
    | Printed(median: real)    // mode 2: one median line on standard output
    | Fatal(error: Error)

  /** The process exit status: 0 on success, EXIT_FAILURE (1) otherwise. */
  function ExitCode(e: Exit): (code: int)
    ensures code == 0 <==> !e.Fatal?
  {
    if e.Fatal? then 1 else 0
  }
}
