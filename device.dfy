/** Device lifecycle and geometry of the FILEIO backend: the per-HBA host
    context (fd_attach_hba, fd_detach_hba), the per-device descriptor
    (fd_allocate_virtdevice, fd_create_virtdevice, fd_free_device), the
    configfs parameter loop that fills it in (fd_set_configfs_dev_params), the
    block count (fd_get_blocks) and the fixed identity queries.

    The VFS and the block layer are oracles: filp_open's outcome (an error, or
    the kind of object opened with the block device's published limits),
    i_size_read's current size, and transport_add_device_to_core_hba's outcome
    (failure, or the queue depth of the new se_device) are parameters. */
module FileDevice {
  import opened Kernel
  import opened FileParams
  import Kstrtox

  // Constants of target_core_file.h (not part of this model) and of the SCSI headers.
  const FD_BLOCKSIZE: nat := 512
  const FD_MAX_SECTORS: nat := 1024
  const FD_DEVICE_QUEUE_DEPTH: nat := 32
  const FD_MAX_DEVICE_QUEUE_DEPTH: nat := 128
  const SCSI_SPC_2: nat := 5
  const TYPE_DISK: nat := 0

  /** The open(2) flags the backing object is opened with. */
  datatype OpenFlag = ReadWrite | Create | LargeFile | DataSync
  const FD_OPEN_FLAGS: set<OpenFlag> := {ReadWrite, Create, LargeFile, DataSync}
  /** Permission bits 0600. */
  const FD_OPEN_MODE: nat := 0x180

  /** What the opened path turned out to be: a block device with the limits
      its request queue publishes, or anything else (S_ISBLK false). */
  datatype FileKind =
    | BlockDevice(logicalBlockSize: nat, maxHwSectors: nat, maxSectors: nat)
    | RegularFile

  /** An open struct file. */
  datatype OpenFile = OpenFile(path: string, flags: set<OpenFlag>, mode: nat, kind: FileKind)

  /** struct se_dev_limits as handed to the target core. */
  datatype DevLimits = DevLimits(logicalBlockSize: nat, maxHwSectors: nat, maxSectors: nat,
                                 hwQueueDepth: nat, queueDepth: nat)

  /** struct fd_host: one per attached HBA. */
  class FdHost {
    var hostId: nat
    var devIdCount: nat

    ghost predicate Valid()
      reads this
    {
      hostId < U32_LIMIT && devIdCount < U32_LIMIT
    }

    /** kzalloc, then the host id recorded. */
    constructor (hostId: nat)
      requires hostId < U32_LIMIT
      ensures Valid() && this.hostId == hostId && devIdCount == 0
    {
      this.hostId := hostId;
      devIdCount := 0;
    }
  }

  /** The part of struct se_hba this backend touches. */
  class Hba {
    var hbaPtr: FdHost?
  }

  /** struct fd_dev: one per virtual device. */
  class FdDev {
    var devName: string
    var devSize: nat
    var flags: set<Flag>
    var blockSize: nat
    var file: Option<OpenFile>
    var devId: nat
    var queueDepth: nat
    var host: FdHost?

    /** The fields configuration writes. */
    function Params(): DevParams
      reads this
    {
      DevParams(devName, devSize, flags)
    }

    ghost predicate Valid()
      reads this
    {
      WellFormed(Params()) && devId < U32_LIMIT
    }

    /** kzalloc: every field zero, owned by host. */
    constructor (host: FdHost?)
      ensures Valid() && this.host == host
      ensures Params() == DevParams([], 0, {}) && blockSize == 0 && file == None
      ensures devId == 0 && queueDepth == 0
    {
      devName, devSize, flags := [], 0, {};
      blockSize, file, devId, queueDepth := 0, None, 0, 0;
      this.host := host;
    }
  }

  /** The host's device-id counter after one post-increment (u32). */
  function NextDevId(count: nat): (next: nat)
    requires count < U32_LIMIT
    ensures next < U32_LIMIT
    ensures count < U32_LIMIT - 1 ==> next == count + 1
    ensures count == U32_LIMIT - 1 ==> next == 0
  {
    (count + 1) % U32_LIMIT
  }

  /** The ids n successful creations on one host hand out, starting from the
      counter value count. */
  function IdsFrom(count: nat, n: nat): seq<nat>
    requires count < U32_LIMIT
    decreases n
  {
    if n == 0 then [] else [count] + IdsFrom(NextDevId(count), n - 1)
  }

  /** While the u32 counter does not wrap, successive creations on one host
      get the consecutive ids count, count + 1, ..., hence distinct and
      strictly increasing ones. */
  lemma {:induction false} IdsConsecutive(count: nat, n: nat)
    requires count + n <= U32_LIMIT && count < U32_LIMIT
    ensures |IdsFrom(count, n)| == n
    ensures forall i :: 0 <= i < n ==> IdsFrom(count, n)[i] == count + i
    ensures forall i, j :: 0 <= i < j < n ==> IdsFrom(count, n)[i] < IdsFrom(count, n)[j]
    decreases n
  {
    if n > 0 {
      IdsConsecutive(NextDevId(count), n - 1);
    }
  }

  /** The counter is a u32: the creation after id 2^32 - 1 gets id 0 again. */
  lemma IdsWrap()
    ensures IdsFrom(U32_LIMIT - 1, 2) == [U32_LIMIT - 1, 0]
  {
    assert NextDevId(U32_LIMIT - 1) == 0;
    assert IdsFrom(0, 1) == [0] + IdsFrom(1, 0) == [0];
  }

  /** fd_attach_hba: a zeroed host context holding host_id becomes the HBA's
      private pointer, or -ENOMEM when the allocation fails. */
  method AttachHba(hba: Hba, hostId: nat, allocOk: bool) returns (ret: int)
    requires hostId < U32_LIMIT
    modifies hba`hbaPtr
    ensures allocOk ==> ret == 0 && hba.hbaPtr != null && fresh(hba.hbaPtr)
    ensures allocOk ==> hba.hbaPtr.Valid() && hba.hbaPtr.hostId == hostId && hba.hbaPtr.devIdCount == 0
    ensures !allocOk ==> ret == -ENOMEM && hba.hbaPtr == old(hba.hbaPtr)
  {
    if !allocOk {
      return -ENOMEM;
    }
    var host := new FdHost(hostId);
    hba.hbaPtr := host;
    ret := 0;
  }

  /** fd_detach_hba: the host context is released and the pointer cleared. */
  method DetachHba(hba: Hba)
    requires hba.hbaPtr != null
    modifies hba`hbaPtr
    ensures hba.hbaPtr == null
  {
    hba.hbaPtr := null;
  }

  /** fd_allocate_virtdevice: a zeroed descriptor bound to the HBA's host
      context, or null when the allocation fails. */
  method AllocateVirtdevice(hba: Hba, allocOk: bool) returns (dev: FdDev?)
    ensures allocOk <==> dev != null
    ensures dev != null ==> fresh(dev) && dev.Valid() && dev.host == hba.hbaPtr
    ensures dev != null ==> dev.Params() == DevParams([], 0, {}) && dev.file == None
    ensures dev != null ==> dev.blockSize == 0 && dev.devId == 0 && dev.queueDepth == 0
  {
    if !allocOk {
      return null;
    }
    dev := new FdDev(hba.hbaPtr);
  }

  /** The limits fd_create_virtdevice hands to the target core for the
      object it opened. */
  function DevLimitsFor(kind: FileKind): (limits: DevLimits)
    ensures limits.hwQueueDepth == FD_MAX_DEVICE_QUEUE_DEPTH && limits.queueDepth == FD_DEVICE_QUEUE_DEPTH
    ensures limits.queueDepth <= limits.hwQueueDepth
    ensures kind.BlockDevice? ==>
      && limits.logicalBlockSize == kind.logicalBlockSize
      && limits.maxHwSectors == kind.maxHwSectors && limits.maxSectors == kind.maxSectors
    ensures kind.RegularFile? ==>
      limits.logicalBlockSize == FD_BLOCKSIZE && limits.maxHwSectors == limits.maxSectors == FD_MAX_SECTORS
  {
    match kind
    case BlockDevice(lbs, hw, max) =>
      DevLimits(lbs, hw, max, FD_MAX_DEVICE_QUEUE_DEPTH, FD_DEVICE_QUEUE_DEPTH)
    case RegularFile =>
      DevLimits(FD_BLOCKSIZE, FD_MAX_SECTORS, FD_MAX_SECTORS, FD_MAX_DEVICE_QUEUE_DEPTH, FD_DEVICE_QUEUE_DEPTH)
  }

  /** fd_create_virtdevice.  openResult is filp_open's outcome, added that of
      transport_add_device_to_core_hba (the new device's queue depth).
      Returns the error code (0 on success), the limits handed to the core if
      it got that far, and the handle filp_close'd on the failure path. */
  method CreateVirtdevice(hba: Hba, dev: FdDev, openResult: Result<FileKind>, added: Option<nat>)
    returns (ret: int, limits: Option<DevLimits>, closed: Option<OpenFile>)
    requires hba.hbaPtr != null && hba.hbaPtr.Valid() && dev.Valid()
    modifies dev`file, dev`blockSize, dev`devId, dev`queueDepth, hba.hbaPtr`devIdCount
    ensures dev.Valid() && hba.hbaPtr.Valid()
    // the opened handle
    ensures openResult.Err? ==> ret == openResult.code && limits == None && closed == old(dev.file)
    ensures openResult.Ok? ==>
      var handle := OpenFile(dev.devName, FD_OPEN_FLAGS, FD_OPEN_MODE, openResult.value);
      if ret == 0 then dev.file == Some(handle) && closed == None
      else dev.file == None && closed == Some(handle)
    // the geometry branch
    ensures openResult.Ok? && openResult.value.RegularFile? && HasSize !in dev.flags ==>
      ret == -EINVAL && limits == None && dev.blockSize == old(dev.blockSize)
    ensures openResult.Ok? && (openResult.value.BlockDevice? || HasSize in dev.flags) ==>
      && limits == Some(DevLimitsFor(openResult.value))
      && dev.blockSize == limits.value.logicalBlockSize
      && (added.None? ==> ret == -EINVAL)
    ensures openResult.Err? ==> dev.blockSize == old(dev.blockSize)
    // success and failure
    ensures ret == 0 <==> openResult.Ok? && (openResult.value.BlockDevice? || HasSize in dev.flags) && added.Some?
    ensures ret <= 0
    ensures ret == 0 ==>
      && dev.devId == old(hba.hbaPtr.devIdCount)
      && hba.hbaPtr.devIdCount == NextDevId(old(hba.hbaPtr.devIdCount))
      && dev.queueDepth == added.value
    ensures ret != 0 ==>
      && dev.file == None
      && hba.hbaPtr.devIdCount == old(hba.hbaPtr.devIdCount)
      && dev.devId == old(dev.devId) && dev.queueDepth == old(dev.queueDepth)
  {
    var host := hba.hbaPtr;
    ret := -EINVAL;
    limits := None;
    closed := None;
    if openResult.Err? {
      ret := openResult.code;
    } else {
      var kind := openResult.value;
      dev.file := Some(OpenFile(dev.devName, FD_OPEN_FLAGS, FD_OPEN_MODE, kind));
      var haveGeometry := true;
      if kind.BlockDevice? {
        dev.blockSize := kind.logicalBlockSize;
      } else if HasSize !in dev.flags {
        haveGeometry := false;
      } else {
        dev.blockSize := FD_BLOCKSIZE;
      }
      if haveGeometry {
        limits := Some(DevLimitsFor(kind));
        if added.Some? {
          dev.devId := host.devIdCount;
          host.devIdCount := NextDevId(host.devIdCount);
          dev.queueDepth := added.value;
          return 0, limits, None;
        }
      }
    }
    // fail:
    if dev.file.Some? {
      closed := dev.file;
      dev.file := None;
    }
  }

  /** fd_free_device: the open handle, if any, is closed. */
  method FreeDevice(dev: FdDev) returns (closed: Option<OpenFile>)
    modifies dev`file
    ensures dev.file == None && closed == old(dev.file)
  {
    closed := dev.file;
    if dev.file.Some? {
      dev.file := None;
    }
  }

  /** One pass of the switch in fd_set_configfs_dev_params on a non-empty
      token: the device fields, ret and the match_strdup call count change as
      ApplyToken says, and stop reports the "goto out". */
  method ProcessToken(dev: FdDev, tok: string, ret: int, dupCalls: nat, dupFail: set<nat>)
    returns (ret': int, dupCalls': nat, stop: bool)
    requires dev.Valid()
    modifies dev`devName, dev`devSize, dev`flags
    ensures dev.Valid()
    ensures ApplyToken(tok, dupFail, ParseState(old(dev.Params()), ret, dupCalls)) ==
      if stop then Stop(ParseState(dev.Params(), ret', dupCalls'))
      else Continue(ParseState(dev.Params(), ret', dupCalls'))
  {
    ret', dupCalls', stop := ret, dupCalls, false;
    match MatchToken(tok) {
      case DevName(arg) =>
        dev.devName := NameCopy(arg);
        if |arg| == 0 {
          ret' := -EINVAL;
        } else {
          dev.flags := dev.flags + {HasPath};
        }
      case DevSize(arg) =>
        if dupCalls in dupFail {
          ret' := -ENOMEM;
          dupCalls' := dupCalls + 1;
        } else {
          dupCalls' := dupCalls + 1;
          var v := Kstrtox.StrictStrtoull(arg);
          if v.Err? {
            ret', stop := v.code, true;  // goto out
            return;
          }
          dev.devSize := v.value;
          ret' := 0;
          dev.flags := dev.flags + {HasSize};
        }
      case Unknown =>
    }
  }

  /** fd_set_configfs_dev_params: the strsep loop over the parameter text,
      updating the device's name, size and flags in place.  pageDupOk is the
      outcome of kstrdup(page); dupFail numbers the match_strdup calls that
      fail. */
  method SetConfigfsDevParams(dev: FdDev, page: string, count: int, pageDupOk: bool, dupFail: set<nat>)
    returns (r: int)
    requires dev.Valid()
    modifies dev`devName, dev`devSize, dev`flags
    ensures dev.Valid()
    ensures SetResult(dev.Params(), r) == SetParams(old(dev.Params()), page, count, pageDupOk, dupFail)
  {
    if !pageDupOk {
      return -ENOMEM;
    }
    ghost var whole := ApplyTokens(Split(CStr(page)), dupFail, ParseState(dev.Params(), 0, 0));
    var ret := 0;
    var dupCalls := 0;
    var opts: Option<string> := Some(CStr(page));
    while opts.Some?
      invariant dev.Valid()
      invariant opts.Some? ==> whole == ApplyTokens(Split(opts.value), dupFail, ParseState(dev.Params(), ret, dupCalls))
      invariant opts.None? ==> whole == Continue(ParseState(dev.Params(), ret, dupCalls))
      decreases if opts.Some? then |opts.value| + 1 else 0
    {
      var (tok, rest) := StrSep(opts.value);
      StrSepSplits(opts.value);
      ApplyTokensCons(tok, if rest.Some? then Split(rest.value) else [], dupFail, ParseState(dev.Params(), ret, dupCalls));
      opts := rest;
      if tok == [] {
        continue;
      }
      var stop;
      ret, dupCalls, stop := ProcessToken(dev, tok, ret, dupCalls, dupFail);
      if stop {
        break;  // goto out
      }
    }
    r := if ret == 0 then count else ret;
  }

  /** The byte count fd_get_blocks divides (its dev_size): the block
      device's current size (iSize, i_size_read) less one logical block, in
      u64 arithmetic that wraps when the device is smaller than one block; or
      the configured size for anything else. */
  function CapacityBytes(dev: FdDev, iSize: nat): (bytes: nat)
    reads dev
    requires dev.file.Some?
    ensures dev.file.value.kind.RegularFile? ==> bytes == dev.devSize
    ensures dev.file.value.kind.BlockDevice? && dev.blockSize <= iSize < U64_LIMIT + dev.blockSize ==>
      bytes == iSize - dev.blockSize
    ensures dev.file.value.kind.BlockDevice? && iSize < dev.blockSize <= U64_LIMIT ==>
      bytes == iSize + U64_LIMIT - dev.blockSize
  {
    if dev.file.value.kind.BlockDevice? then (iSize - dev.blockSize) % U64_LIMIT else dev.devSize
  }

  /** fd_get_blocks: the number of whole blocks of the framework's block size
      in CapacityBytes, which is recomputed from the object's current size on
      every call. */
  function GetBlocks(dev: FdDev, iSize: nat, attribBlockSize: nat): (r: nat)
    reads dev
    requires dev.file.Some? && attribBlockSize > 0
    ensures r * attribBlockSize <= CapacityBytes(dev, iSize) < r * attribBlockSize + attribBlockSize
  {
    var bytes := CapacityBytes(dev, iSize);
    DivBounds(bytes, attribBlockSize);
    bytes / attribBlockSize
  }

  lemma DivBounds(x: nat, d: nat)
    requires d > 0
    ensures (x / d) * d <= x < (x / d) * d + d
  {
  }

  /** A block device that reports a size below one logical block (an empty
      device, say) is given an enormous capacity by the wrapped subtraction. */
  lemma TinyBlockDeviceWraps(dev: FdDev)
    requires dev.file.Some? && dev.file.value.kind.BlockDevice? && dev.blockSize == FD_BLOCKSIZE
    ensures GetBlocks(dev, 0, FD_BLOCKSIZE) == 0x7F_FFFF_FFFF_FFFF
  {
  }

  /** A plain file configured with fd_dev_size=1048576 has 2048 blocks of the
      default 512 bytes. */
  lemma MegabyteFileBlocks(dev: FdDev, iSize: nat)
    requires dev.file.Some? && dev.file.value.kind.RegularFile? && dev.devSize == 1048576
    ensures GetBlocks(dev, iSize, FD_BLOCKSIZE) == 2048
  {
  }

  /** fd_get_device_rev: returns SCSI_SPC_2 (5), which INQUIRY shows as SPC-3. */
  function GetDeviceRev(): (r: nat)
    ensures r == SCSI_SPC_2
  {
    SCSI_SPC_2
  }

  /** fd_get_device_type: the backend is a direct-access block device. */
  function GetDeviceType(): (r: nat)
    ensures r == TYPE_DISK
  {
    TYPE_DISK
  }
}
