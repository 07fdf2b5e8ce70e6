/** File-creation mode: the zero-filled writer loop and its sync (myio.c:38-73). */
module Writer {
  import opened Common

  /**
   * The file named on the command line, as the writer sees it through its descriptor:
   * its bytes, and whether they have been flushed to stable storage since the last change.
   * The kernel's answers are parameters of the system calls.
   */
  class File {
    var data: seq<byte>
    var synced: bool

    /** `open` with O_TRUNC: the file becomes empty. */
    method Truncate()
      modifies this
      ensures data == [] && !synced
    {
      data := [];
      synced := false;
    }

    /**
     * `write(fd, buf, |buf|)`: the kernel appends the first `count` bytes it accepts and
     * returns that count, or fails and returns -1 leaving the file as it was.
     */
    method Write(buf: seq<byte>, reply: Reply) returns (n: int)
      modifies this
      ensures n == Returned(reply, |buf|)
      ensures reply.Failed? ==> data == old(data) && synced == old(synced)
      ensures reply.Transferred? ==> data == old(data) + buf[..n] && !synced
    {
      n := Returned(reply, |buf|);
      if n >= 0 {
        data := data + buf[..n];
        synced := false;
      }
    }

    /** `fsync(fd)`: returns 0 and marks the contents durable, or returns -1. */
    method Fsync(ok: bool) returns (r: int)
      modifies this
      ensures data == old(data)
      ensures ok ==> r == 0 && synced
      ensures !ok ==> r == -1 && synced == old(synced)
    {
      if ok {
        r := 0;
        synced := true;
      } else {
        r := -1;
      }
    }
  }

  /**
   * The index of the first of the first `n` write calls that does not return the full
   * BLOCK_SIZE, or `n` when all of them do. `writes(i)` is the kernel's answer to call `i`.
   */
  function FirstShortWrite(writes: nat -> Reply, n: nat): (k: nat)
    ensures k <= n
    ensures forall j: nat :: j < k ==> Complete(writes(j), BLOCK_SIZE)
    ensures k < n ==> !Complete(writes(k), BLOCK_SIZE)
  {
    if n == 0 then 0
    else
      var k := FirstShortWrite(writes, n - 1);
      if k < n - 1 then k
      else if Complete(writes(n - 1), BLOCK_SIZE) then n
      else n - 1
  }

  /** The bytes a short write leaves behind: what the kernel accepted of the zero block. */
  function ShortWriteBytes(reply: Reply): (tail: seq<byte>)
    ensures |tail| <= BLOCK_SIZE
  {
    if reply.Failed? then [] else Zeros(Returned(reply, BLOCK_SIZE))
  }

  /**
   * The contents of the file after the writer loop for `blocks` blocks: the blocks
   * written in full, then whatever the aborting write appended. No cleanup follows.
   */
  function WrittenBytes(writes: nat -> Reply, blocks: nat): (bytes: seq<byte>)
    ensures |bytes| <= blocks * BLOCK_SIZE
    ensures forall i :: 0 <= i < |bytes| ==> bytes[i] == 0
  {
    var k := FirstShortWrite(writes, blocks);
    Zeros(k * BLOCK_SIZE) + (if k < blocks then ShortWriteBytes(writes(k)) else [])
  }

  /** How the writer ends: at the first short write, else at `fsync`, else completed. */
  function WriterStatus(writes: nat -> Reply, blocks: nat, fsyncOk: bool): (status: Status)
  {
    if FirstShortWrite(writes, blocks) < blocks then Abort(WriteFailed)
    else if !fsyncOk then Abort(FsyncFailed)
    else Done
  }

  /**
   * The writer succeeds exactly when every one of the `blocks` writes transfers a full
   * block and `fsync` succeeds; a short write aborts before `fsync` is reached.
   */
  lemma WriterSucceedsIff(writes: nat -> Reply, blocks: nat, fsyncOk: bool)
    ensures WriterStatus(writes, blocks, fsyncOk) == Done <==>
      (forall j: nat :: j < blocks ==> Complete(writes(j), BLOCK_SIZE)) && fsyncOk
    ensures (exists j: nat :: j < blocks && !Complete(writes(j), BLOCK_SIZE)) ==>
      WriterStatus(writes, blocks, fsyncOk) == Abort(WriteFailed)
  {
  }

  /** On success the file is exactly `blocks * BLOCK_SIZE` zero bytes. */
  lemma CompletedFileIsZeroBlocks(writes: nat -> Reply, blocks: nat, fsyncOk: bool)
    requires WriterStatus(writes, blocks, fsyncOk) == Done
    ensures |WrittenBytes(writes, blocks)| == blocks * BLOCK_SIZE
    ensures forall i :: 0 <= i < |WrittenBytes(writes, blocks)| ==> WrittenBytes(writes, blocks)[i] == 0
  {
  }

  /** After a short write the file is left holding a prefix shorter than the requested size. */
  lemma AbortedFileIsShort(writes: nat -> Reply, blocks: nat)
    requires FirstShortWrite(writes, blocks) < blocks
    ensures |WrittenBytes(writes, blocks)| < blocks * BLOCK_SIZE
    ensures forall i :: 0 <= i < |WrittenBytes(writes, blocks)| ==> WrittenBytes(writes, blocks)[i] == 0
  {
    var k := FirstShortWrite(writes, blocks);
    var tail := ShortWriteBytes(writes(k));
    assert |tail| < BLOCK_SIZE;
    assert |WrittenBytes(writes, blocks)| == k * BLOCK_SIZE + |tail|;
    assert (k + 1) * BLOCK_SIZE <= blocks * BLOCK_SIZE;
  }

  /**
   * The writer loop (myio.c:52-70) on a freshly truncated file: write the zero buffer
   * `blocks` times in order, abort on the first short or failed write, then `fsync`.
   */
  method WriteZeroBlocks(f: File, blocks: nat, writes: nat -> Reply, fsyncOk: bool) returns (status: Status)
    requires f.data == [] && !f.synced
    modifies f
    ensures status == WriterStatus(writes, blocks, fsyncOk)
    ensures f.data == WrittenBytes(writes, blocks)
    ensures f.synced <==> status == Done
  {
    var buffer := Zeros(BLOCK_SIZE);
    var i: nat := 0;
    while i < blocks
      invariant i <= blocks
      invariant forall j: nat :: j < i ==> Complete(writes(j), BLOCK_SIZE)
      invariant f.data == Zeros(i * BLOCK_SIZE)
      invariant !f.synced
    {
      var n := f.Write(buffer, writes(i));
      if n != BLOCK_SIZE {
        assert FirstShortWrite(writes, blocks) == i;
        if writes(i).Transferred? {
          assert buffer[..n] == Zeros(n);
        }
        return Abort(WriteFailed);
      }
      assert buffer[..n] == buffer;
      assert Zeros(i * BLOCK_SIZE) + Zeros(BLOCK_SIZE) == Zeros((i + 1) * BLOCK_SIZE);
      i := i + 1;
    }
    assert FirstShortWrite(writes, blocks) == blocks;
    var r := f.Fsync(fsyncOk);
    if r == -1 {
      return Abort(FsyncFailed);
    }
    return Done;
  }
}
