/** The I/O executor of the FILEIO backend: vectored read and write of a
    command's scatter/gather list at byte offset lba * block_size
    (fd_do_readv, fd_do_writev), SYNCHRONIZE CACHE (fd_execute_sync_cache)
    and the read/write dispatch with Forced Unit Access emulation
    (fd_execute_rw).

    The byte count vfs_readv / vfs_writev return and the result of
    vfs_fsync_range are oracle parameters.  Every call the backend makes on
    a command's behalf -- the vectored transfer it issues, the flush, and
    target_complete_cmd -- is appended, in order, to the command's log. */
module FileIo {
  import opened Kernel
  import opened FileDevice

  /** One scatter/gather entry: its kernel virtual address (sg_virt) and length. */
  datatype SgEntry = SgEntry(addr: nat, length: nat)

  /** struct iovec. */
  datatype IoVec = IoVec(base: nat, len: nat)

  /** A vectored transfer as issued: the iovec array and the file position. */
  datatype VecIo = VecIo(iov: seq<IoVec>, pos: nat)

  /** enum dma_data_direction. */
  datatype DataDirection = Bidirectional | ToDevice | FromDevice | NoData

  /** The SAM status codes this backend completes commands with:
      GOOD (0x00) and CHECK CONDITION (0x02). */
  datatype SamStatus = Good | CheckCondition

  /** The sense reason this backend records (TCM_LOGICAL_UNIT_COMMUNICATION_FAILURE). */
  datatype SenseReason = LogicalUnitCommunicationFailure

  /** A call made on a command's behalf. */
  datatype Event =
    | VfsReadv(req: VecIo)
    | VfsWritev(req: VecIo)
    | VfsFsync(start: nat, end: nat)
    | Completed(status: SamStatus)

  /** The device attributes the backend reads (se_dev_attrib). */
  datatype DevAttrib = DevAttrib(blockSize: nat, emulateFuaWrite: nat)

  /** The part of struct se_cmd this backend reads and writes. */
  class SeCmd {
    var lba: nat
    var dataLength: nat
    var cdb: seq<bv8>
    var direction: DataDirection
    /** SCF_FUA in se_cmd_flags. */
    var fua: bool
    var sgl: seq<SgEntry>
    var senseReason: Option<SenseReason>
    var log: seq<Event>
  }

  /** The number of completions in a log. */
  function Completions(log: seq<Event>): nat {
    if log == [] then 0 else (if log[0].Completed? then 1 else 0) + Completions(log[1..])
  }

  lemma {:induction false} CompletionsAppend(a: seq<Event>, b: seq<Event>)
    ensures Completions(a + b) == Completions(a) + Completions(b)
  {
    if a == [] {
      assert a + b == b;
    } else {
      assert (a + b)[0] == a[0];
      assert (a + b)[1..] == a[1..] + b;
      CompletionsAppend(a[1..], b);
    }
  }

  /** Appending one event adds one completion exactly when it is one. */
  lemma CompletionsPush(log: seq<Event>, e: Event)
    ensures Completions(log + [e]) == Completions(log) + (if e.Completed? then 1 else 0)
  {
    CompletionsAppend(log, [e]);
    assert [e][1..] == [];
  }

  // ---------------------------------------------------------------------------
  // fd_do_readv / fd_do_writev

  /** The iovec array that mirrors a scatter/gather list. */
  function IovecOf(sgl: seq<SgEntry>): (iov: seq<IoVec>) {
    seq(|sgl|, i requires 0 <= i < |sgl| => IoVec(sgl[i].addr, sgl[i].length))
  }

  /** The for_each_sg loop: one iovec per entry, same order, same lengths. */
  method BuildIovec(sgl: seq<SgEntry>) returns (iov: array<IoVec>)
    ensures iov.Length == |sgl|
    ensures forall i :: 0 <= i < |sgl| ==> iov[i].base == sgl[i].addr && iov[i].len == sgl[i].length
  {
    iov := new IoVec[|sgl|];
    for i := 0 to |sgl|
      invariant forall k :: 0 <= k < i ==> iov[k] == IoVec(sgl[k].addr, sgl[k].length)
    {
      iov[i] := IoVec(sgl[i].addr, sgl[i].length);
    }
  }

  /** How fd_do_readv judges vfs_readv's byte count: from a block device it
      must be exactly the command's length, from anything else only a
      negative count is an error.  1 means success. */
  function ReadvStatus(isBlk: bool, count: int, dataLength: nat): (r: int)
    ensures r == 1 || r < 0
    ensures r == 1 <==> (if isBlk then count == dataLength else count >= 0)
    ensures count < 0 ==> r == count
    ensures count >= 0 && r != 1 ==> r == -EINVAL
  {
    if isBlk then
      if count < 0 || count != dataLength then (if count < 0 then count else -EINVAL) else 1
    else
      if count < 0 then count else 1
  }

  /** How fd_do_writev judges vfs_writev's byte count: exactly the command's
      length, whatever the backing object. */
  function WritevStatus(count: int, dataLength: nat): (r: int)
    ensures r == 1 || r < 0
    ensures r == 1 <==> count == dataLength
    ensures count < 0 ==> r == count
    ensures count >= 0 && r != 1 ==> r == -EINVAL
  {
    if count < 0 || count != dataLength then (if count < 0 then count else -EINVAL) else 1
  }

  /** A short transfer (fewer bytes than asked, none negative) fails a write
      and a block-device read, and passes a read from a plain file. */
  lemma ShortTransfer(count: int, dataLength: nat)
    requires 0 <= count < dataLength
    ensures WritevStatus(count, dataLength) == -EINVAL
    ensures ReadvStatus(true, count, dataLength) == -EINVAL
    ensures ReadvStatus(false, count, dataLength) == 1
  {
  }

  /** A write is judged exactly as a read from a block device. */
  lemma WriteJudgedAsBlockRead(count: int, dataLength: nat)
    ensures WritevStatus(count, dataLength) == ReadvStatus(true, count, dataLength)
  {
  }

  /** fd_do_readv.  iovAllocOk is the outcome of the iovec allocation, count
      what vfs_readv returns.  Returns 1 or a negative error, and the transfer
      it issued, if any. */
  method DoReadv(cmd: SeCmd, sgl: seq<SgEntry>, dev: FdDev, attrib: DevAttrib, iovAllocOk: bool, count: int)
    returns (ret: int, issued: Option<VecIo>)
    requires dev.file.Some?
    ensures !iovAllocOk ==> ret == -ENOMEM && issued == None
    ensures iovAllocOk ==> issued == Some(VecIo(IovecOf(sgl), cmd.lba * attrib.blockSize))
    ensures iovAllocOk ==> ret == ReadvStatus(dev.file.value.kind.BlockDevice?, count, cmd.dataLength)
  {
    var pos := cmd.lba * attrib.blockSize;
    if !iovAllocOk {
      return -ENOMEM, None;
    }
    var iov := BuildIovec(sgl);
    assert iov[..] == IovecOf(sgl);
    issued := Some(VecIo(iov[..], pos));
    ret := count;
    if dev.file.value.kind.BlockDevice? {
      if ret < 0 || ret != cmd.dataLength {
        return (if ret < 0 then ret else -EINVAL), issued;
      }
    } else {
      if ret < 0 {
        return ret, issued;
      }
    }
    ret := 1;
  }

  /** fd_do_writev.  Same shape as DoReadv, with the write policy. */
  method DoWritev(cmd: SeCmd, sgl: seq<SgEntry>, dev: FdDev, attrib: DevAttrib, iovAllocOk: bool, count: int)
    returns (ret: int, issued: Option<VecIo>)
    requires dev.file.Some?
    ensures !iovAllocOk ==> ret == -ENOMEM && issued == None
    ensures iovAllocOk ==> issued == Some(VecIo(IovecOf(sgl), cmd.lba * attrib.blockSize))
    ensures iovAllocOk ==> ret == WritevStatus(count, cmd.dataLength)
  {
    var pos := cmd.lba * attrib.blockSize;
    if !iovAllocOk {
      return -ENOMEM, None;
    }
    var iov := BuildIovec(sgl);
    assert iov[..] == IovecOf(sgl);
    issued := Some(VecIo(iov[..], pos));
    ret := count;
    if ret < 0 || ret != cmd.dataLength {
      return (if ret < 0 then ret else -EINVAL), issued;
    }
    ret := 1;
  }

  // ---------------------------------------------------------------------------
  // fd_execute_sync_cache

  /** The IMMED bit of SYNCHRONIZE CACHE: bit 1 of CDB byte 1. */
  function Immed(cdb: seq<bv8>): (immed: bool)
    requires |cdb| > 1
    ensures immed <==> cdb[1] as int % 4 >= 2
  {
    cdb[1] & 0x02 != 0
  }

  /** The byte range handed to vfs_fsync_range.  The special case for lba 0
      and length 0 agrees with the general rule: start at lba * block size,
      end length bytes further on, or at LLONG_MAX when the length is 0. */
  function FlushRange(lba: nat, dataLength: nat, blockSize: nat): (r: (nat, nat))
    ensures r.0 == lba * blockSize
    ensures r.1 == if dataLength == 0 then LLONG_MAX else lba * blockSize + dataLength
  {
    if lba == 0 && dataLength == 0 then (0, LLONG_MAX)
    else
      var start := lba * blockSize;
      (start, if dataLength != 0 then start + dataLength else LLONG_MAX)
  }

  /** fd_execute_sync_cache.  flushResult is what vfs_fsync_range returns.
      The command is completed exactly once: with GOOD before the flush when
      IMMED is set (so a failed flush goes unreported), otherwise after the
      flush, with CHECK CONDITION and a communication-failure sense reason
      when the flush failed. */
  method ExecuteSyncCache(cmd: SeCmd, dev: FdDev, attrib: DevAttrib, flushResult: int) returns (ret: int)
    requires dev.file.Some? && |cmd.cdb| > 1
    modifies cmd`log, cmd`senseReason
    ensures ret == 0
    ensures Completions(cmd.log) == Completions(old(cmd.log)) + 1
    ensures var range := FlushRange(cmd.lba, cmd.dataLength, attrib.blockSize);
      if Immed(cmd.cdb) then
        && cmd.log == old(cmd.log) + [Completed(Good), VfsFsync(range.0, range.1)]
        && cmd.senseReason == old(cmd.senseReason)
      else
        && cmd.log == old(cmd.log) + [VfsFsync(range.0, range.1),
                                      Completed(if flushResult != 0 then CheckCondition else Good)]
        && cmd.senseReason == if flushResult != 0 then Some(LogicalUnitCommunicationFailure) else old(cmd.senseReason)
  {
    var immed := Immed(cmd.cdb);
    if immed {
      CompletionsPush(cmd.log, Completed(Good));
      cmd.log := cmd.log + [Completed(Good)];
    }
    var (start, end) := FlushRange(cmd.lba, cmd.dataLength, attrib.blockSize);
    CompletionsPush(cmd.log, VfsFsync(start, end));
    cmd.log := cmd.log + [VfsFsync(start, end)];
    if !immed {
      var status := if flushResult != 0 then CheckCondition else Good;
      if flushResult != 0 {
        cmd.senseReason := Some(LogicalUnitCommunicationFailure);
      }
      CompletionsPush(cmd.log, Completed(status));
      cmd.log := cmd.log + [Completed(status)];
    }
    ret := 0;
  }

  // ---------------------------------------------------------------------------
  // fd_execute_rw

  /** The transfer a read or write command issues. */
  function Request(cmd: SeCmd, attrib: DevAttrib): VecIo
    reads cmd
  {
    VecIo(IovecOf(cmd.sgl), cmd.lba * attrib.blockSize)
  }

  /** What fd_do_readv (for a FromDevice command) or fd_do_writev (for any
      other direction) returns. */
  function TransferStatus(isRead: bool, isBlk: bool, iovAllocOk: bool, count: int, dataLength: nat): (r: int)
    ensures r == 1 || r < 0
    ensures !iovAllocOk ==> r == -ENOMEM
  {
    if !iovAllocOk then -ENOMEM
    else if isRead then ReadvStatus(isBlk, count, dataLength)
    else WritevStatus(count, dataLength)
  }

  /** fd_execute_rw.  A FromDevice command is read, every other direction is
      written.  After a successful write on a device emulating FUA, a command
      with FUA set calls vfs_fsync_range from lba * block_size with end
      argument start + data_length, ignoring the flush's result.  A failed
      transfer records the communication-failure sense reason and returns its
      negative code without completing the command (the core does that);
      otherwise the command is completed with GOOD
      exactly once and 0 is returned. */
  method ExecuteRw(cmd: SeCmd, dev: FdDev, attrib: DevAttrib, iovAllocOk: bool, count: int) returns (ret: int)
    requires dev.file.Some?
    modifies cmd`log, cmd`senseReason
    ensures
      var isRead := cmd.direction == FromDevice;
      var io := TransferStatus(isRead, dev.file.value.kind.BlockDevice?, iovAllocOk, count, cmd.dataLength);
      var transfer := if !iovAllocOk then [] else if isRead then [VfsReadv(Request(cmd, attrib))] else [VfsWritev(Request(cmd, attrib))];
      var start := cmd.lba * attrib.blockSize;
      var flush := if !isRead && io > 0 && attrib.emulateFuaWrite > 0 && cmd.fua
                   then [VfsFsync(start, start + cmd.dataLength)] else [];
      && ret == (if io < 0 then io else 0)
      && cmd.log == old(cmd.log) + transfer + flush + (if io < 0 then [] else [Completed(Good)])
      && cmd.senseReason == if io < 0 then Some(LogicalUnitCommunicationFailure) else old(cmd.senseReason)
    ensures Completions(cmd.log) == Completions(old(cmd.log)) + (if ret == 0 then 1 else 0)
  {
    var sgl := cmd.sgl;
    var issued: Option<VecIo>;
    if cmd.direction == FromDevice {
      ret, issued := DoReadv(cmd, sgl, dev, attrib, iovAllocOk, count);
      if issued.Some? {
        CompletionsPush(cmd.log, VfsReadv(issued.value));
        cmd.log := cmd.log + [VfsReadv(issued.value)];
      }
    } else {
      ret, issued := DoWritev(cmd, sgl, dev, attrib, iovAllocOk, count);
      if issued.Some? {
        CompletionsPush(cmd.log, VfsWritev(issued.value));
        cmd.log := cmd.log + [VfsWritev(issued.value)];
      }
      if ret > 0 && attrib.emulateFuaWrite > 0 && cmd.fua {
        var start := cmd.lba * attrib.blockSize;
        var end := start + cmd.dataLength;
        CompletionsPush(cmd.log, VfsFsync(start, end));
        cmd.log := cmd.log + [VfsFsync(start, end)];
      }
    }
    if ret < 0 {
      cmd.senseReason := Some(LogicalUnitCommunicationFailure);
    } else {
      if ret != 0 {
        CompletionsPush(cmd.log, Completed(Good));
        cmd.log := cmd.log + [Completed(Good)];
      }
      ret := 0;
    }
  }
}
