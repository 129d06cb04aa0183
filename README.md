# FILEIO backend of the Linux SCSI target core, in Dafny

This project models the FILEIO storage backend (`drivers/target/target_core_file.c`).
The backend exports a plain file or a block device as a SCSI disk through the target
core's backend interface. The model covers five parts:

- **Configuration intake** (module `FileParams`, the loop in `FileDevice`):
  - The text written to the device's configfs control attribute is cut by
    `strsep(",\n")`, and empty tokens are skipped.
  - `fd_dev_name=` sets the name and `FBDF_HAS_PATH`. `fd_dev_size=` sets the size and
    `FBDF_HAS_SIZE`. Every other token is ignored.
  - The completeness check looks only at `FBDF_HAS_PATH`.
  - The status text shows the id, the name and the size.
  - The number parser the loop calls (`strict_strtoull` with base 0) is written out in
    module `Kstrtox`, together with the decimal text `sprintf` prints. This lets the
    round trip between the status text and the parser be proved.
- **Device lifecycle and geometry** (module `FileDevice`):
  - The HBA host context and the per-device descriptor are classes, updated in place.
  - Device creation branches on block device versus plain file, closes the handle on
    every failure path, and post-increments the host's u32 device-id counter on success.
  - The block count is recomputed from the object's current size, with the u64
    wrap-around of the subtraction written out.
- **I/O result classification** (module `FileIo`):
  - Vectored read and write build one iovec per scatter/gather entry, at byte offset
    `lba * block_size`.
  - They classify the byte count the VFS returns.
- **SYNCHRONIZE CACHE** (module `FileIo`), the command of T10 SBC-3:
  - the IMMED bit is bit 1 of CDB byte 1;
  - the flush range;
  - the early GOOD completion when IMMED is set;
  - otherwise GOOD or CHECK CONDITION, the status codes of section 5.3 of T10 SAM-4.
- **Read/write dispatch** (module `FileIo`):
  - commands are routed by data direction;
  - a Forced Unit Access flush follows a successful write;
  - the sense reason is recorded on failure;
  - a successful command is completed exactly once.

The VFS and the block layer are oracle parameters. These are:

- the outcome of `filp_open`: an error, or the kind of object opened with its published limits;
- `i_size_read`;
- the byte counts of `vfs_readv` and `vfs_writev`;
- the result of `vfs_fsync_range`;
- the outcome of `transport_add_device_to_core_hba`;
- the outcome of each allocation.

Every call the backend makes on a command's behalf is appended, in order, to the
command's `log`: the transfer it issues, the flush, and `target_complete_cmd`. The
contracts of the command executors are stated over that log.

Facts about the configuration code that the model keeps:

- The keys are `fd_dev_name=` and `fd_dev_size=`.
- A name longer than 255 characters is silently cut by `match_strlcpy`; it is not refused.
- An `fd_dev_name` token can never reach the `-EINVAL` branch at line 438. `match_token`'s
  `%s` only matches a non-empty argument, so `match_strlcpy` never returns 0. The
  branch is kept in `FileParams.ApplyToken` as written.
- The parameter text is the C string `kstrdup` copies: it ends at the first NUL.

Constants that come from `target_core_file.h` are as follows; that header is not part of
this model:

- `FD_BLOCKSIZE` 512
- `FD_MAX_SECTORS` 1024
- `FD_DEVICE_QUEUE_DEPTH` 32
- `FD_MAX_DEVICE_QUEUE_DEPTH` 128
- `FD_MAX_DEV_NAME` 256

Constants from the SCSI headers, which are not part of this model either:

- `SCSI_SPC_2` 5 (an INQUIRY version of 5 announces SPC-3, as the comment at line 504 says)
- `TYPE_DISK` 0

Files:

- `kernel.dfy`: error codes, `Option`/`Result`, integer limits.
- `kstrtox.dfy`: the parser and the decimal rendering.
- `params.dfy`: the configuration specification.
- `device.dfy`: the classes and the lifecycle.
- `io.dfy`: the command executors.

## Model

| member | source | states |
|---|---|---|
| Kstrtox.StrictStrtoull | drivers/target/target_core_file.c:451 | an accepted number is never above ULLONG_MAX; a refusal is -EINVAL or -ERANGE, and the empty string is refused with -EINVAL; the value of each kind of base-0 literal is stated in the rows below |
| Kstrtox.HexLiteral | drivers/target/target_core_file.c:451 | a `0x` or `0X` literal followed by hex digits is read in base 16 and yields its value, when that fits in 64 bits |
| Kstrtox.OctalLiteral | drivers/target/target_core_file.c:451 | a literal with a leading '0' followed by octal digits is read in base 8 and yields its value, when that fits in 64 bits |
| Kstrtox.Decimal | drivers/target/target_core_file.c:492-494 | the `%u`/`%llu` text of a number is a non-empty run of decimal digits that starts with '0' only for the number 0 |
| Kstrtox.DecimalValue | drivers/target/target_core_file.c:492-494 | the printed digits denote exactly the printed number |
| Kstrtox.ZeroRoundTrip | drivers/target/target_core_file.c:451 | the text "0", read in base 8 because of its leading zero, yields 0 |
| Kstrtox.DecimalRoundTrip | drivers/target/target_core_file.c:451 | every number up to ULLONG_MAX, printed in decimal, is parsed back to the same number |
| Kstrtox.TooLargeIsRange | drivers/target/target_core_file.c:451-457 | a decimal number above ULLONG_MAX is refused with -ERANGE |
| FileParams.CStr | drivers/target/target_core_file.c:423 | the text kstrdup copies is the longest NUL-free prefix of the page: the page up to, not including, its first NUL |
| FileParams.CStrEndsAtNul | drivers/target/target_core_file.c:423 | a NUL-free page is copied whole, and nothing after a NUL is copied |
| FileParams.StrSep | drivers/target/target_core_file.c:429 | one strsep call returns the text before the first ',' or '\n' and leaves the text after it, or returns the whole text and leaves NULL when there is no separator |
| FileParams.Split | drivers/target/target_core_file.c:429 | the tokens of the parameter text: one more than it has separators, none containing ',' or '\n', and joined back with its separators they give the text again |
| FileParams.StrSepSplits | drivers/target/target_core_file.c:429 | the strsep calls of the loop return exactly those tokens, one per call, in order |
| FileParams.MatchToken | drivers/target/target_core_file.c:407-433 | a token is `fd_dev_name`/`fd_dev_size` exactly when it starts with that key followed by a non-empty argument, which is the rest of the token |
| FileParams.NameCopy | drivers/target/target_core_file.c:436-437 | the stored name is a prefix of the argument: the whole argument when it has fewer than 256 characters, and exactly its first 255 characters otherwise |
| FileParams.ApplyToken | drivers/target/target_core_file.c:432-464 | per token: the name is stored and HAS_PATH set; a failed allocation records -ENOMEM and continues; a parsed size is stored with HAS_SIZE and ret reset to 0; a refused size stops with the parser's code and nothing changed; other tokens change nothing; flags only grow |
| FileParams.ApplyTokens | drivers/target/target_core_file.c:429-465 | the loop only adds flags, keeps the name within its buffer and the size within 64 bits, keeps ret among 0, -ENOMEM, -EINVAL, -ERANGE, and stops only with -EINVAL or -ERANGE |
| FileParams.NameKeptWithoutNameTokens | drivers/target/target_core_file.c:429-465 | a text without fd_dev_name tokens leaves the device name as it was |
| FileParams.SizeKeptWithoutSizeTokens | drivers/target/target_core_file.c:429-465 | a text without fd_dev_size tokens is processed to the end and leaves the size and ret as they were |
| FileParams.SetParams | drivers/target/target_core_file.c:413-470 | the call returns count, -ENOMEM, -EINVAL or -ERANGE; it only adds flags; a failed copy of the page changes nothing and returns -ENOMEM; otherwise the fields are what the token loop over the copied text leaves, and the return is count exactly when the loop's final ret is 0, else that ret |
| FileParams.NoSizeTokensReturnsCount | drivers/target/target_core_file.c:429-469 | a text without fd_dev_size tokens is accepted: the call returns count and leaves the size as it was |
| FileParams.TextEndsAtNul | drivers/target/target_core_file.c:423-429 | whatever follows a NUL in the page has no effect on the device or the return |
| FileParams.ApplyTokensAppend | drivers/target/target_core_file.c:429-465 | the loop over two token lists is the loop over the first, continued over the second unless the first stopped it |
| FileParams.TokenInContext | drivers/target/target_core_file.c:429-465 | a token met after some tokens acts on the state they left, and the rest of the loop continues from its outcome |
| FileParams.IgnoredTokenChangesNothing | drivers/target/target_core_file.c:430-464 | inserting an empty or unrecognised token anywhere leaves the loop's result unchanged |
| FileParams.InvalidSizeStopsRest | drivers/target/target_core_file.c:451-457 | a refused size value ends the loop whatever follows, with that value's error code and the size and flags as they were |
| FileParams.AllocFailureDoesNotStop | drivers/target/target_core_file.c:446-450 | a failed argument copy records -ENOMEM and the following tokens are processed as usual |
| FileParams.NameTokenSetsPath | drivers/target/target_core_file.c:435-443 | a name token reached by the loop leaves HAS_PATH set, and the loop ends with its name unless a later token renames the device |
| FileParams.CheckParams | drivers/target/target_core_file.c:472-482 | the check returns 0 exactly when HAS_PATH is set and -EINVAL otherwise |
| FileParams.CheckIgnoresSize | drivers/target/target_core_file.c:472-482 | HAS_SIZE never changes the check's verdict |
| FileParams.SetThenCheck | drivers/target/target_core_file.c:413-496 | parameters with a name token that no invalid size stops before it pass the check, and the status text shows that name |
| FileParams.ShowText | drivers/target/target_core_file.c:492-495 | the status text starts with "TCM FILEIO ID: ", ends with a newline, and its length, which is the value returned, counts the labels, the id, the name and the size |
| FileParams.ShowLayout | drivers/target/target_core_file.c:484-496 | the status text starts with its label and holds the id, the name and the size at known positions |
| FileParams.ShowFields | drivers/target/target_core_file.c:484-496 | the status text shows the name verbatim, and the id and size in a form the size parser reads back to the same numbers |
| FileDevice.FdHost.constructor | drivers/target/target_core_file.c:54-62 | a new host context holds the host id and a zero device-id counter |
| FileDevice.FdDev.constructor | drivers/target/target_core_file.c:90-98 | a new descriptor is zeroed (no name, size, flags or file) and bound to the HBA's host context |
| FileDevice.AttachHba | drivers/target/target_core_file.c:50-72 | on success the HBA points to a fresh host context with the given id and counter 0; a failed allocation returns -ENOMEM and leaves the HBA as it was |
| FileDevice.DetachHba | drivers/target/target_core_file.c:74-83 | the HBA's host pointer is cleared |
| FileDevice.AllocateVirtdevice | drivers/target/target_core_file.c:85-101 | a descriptor is returned exactly when the allocation succeeds, fresh, bound to the HBA's host, and zeroed: no name, size, flags or file, and block size, id and queue depth 0 |
| FileDevice.DevLimitsFor | drivers/target/target_core_file.c:150-183 | a block device hands on its own logical block size and sector limits, a plain file 512-byte blocks and 1024 sectors; the queue depths are 128 for the hardware and 32 for the device |
| FileDevice.CreateVirtdevice | drivers/target/target_core_file.c:107-205 | an open failure returns its code; a plain file without HAS_SIZE returns -EINVAL; a block device gets its logical block size, a plain file 512; success exactly when the object opened, has a geometry and the core added it; only then the device gets the counter's old value as id, the counter advances by one (u32), and the queue depth is the core's; every failure leaves no open handle and returns the handle it closed |
| FileDevice.NextDevId | drivers/target/target_core_file.c:191 | the post-incremented u32 counter is the old value plus one, and 0 after 2^32-1 |
| FileDevice.IdsConsecutive | drivers/target/target_core_file.c:191 | successive creations on one host get consecutive, hence distinct and strictly increasing, ids while the u32 counter does not wrap |
| FileDevice.IdsWrap | drivers/target/target_core_file.c:191 | the creation after id 2^32-1 gets id 0 again |
| FileDevice.FreeDevice | drivers/target/target_core_file.c:211-221 | the open handle, if any, is closed and cleared |
| FileDevice.ProcessToken | drivers/target/target_core_file.c:433-464 | one pass of the switch updates the device fields, ret and the copy count exactly as ApplyToken specifies, and reports the goto out |
| FileDevice.SetConfigfsDevParams | drivers/target/target_core_file.c:413-470 | the in-place strsep loop leaves the device fields and returns exactly what SetParams gives for the old fields and the text, and it keeps the fields well-formed |
| FileDevice.CapacityBytes | drivers/target/target_core_file.c:527-530 | the bytes counted are the configured size for a plain file; for a block device they are its current size less one block, wrapped modulo 2^64 when that size is below one block |
| FileDevice.GetBlocks | drivers/target/target_core_file.c:516-533 | the block count is the number of whole framework-size blocks in those bytes: r*bs ≤ bytes < (r+1)*bs |
| FileDevice.TinyBlockDeviceWraps | drivers/target/target_core_file.c:527-532 | an empty block device with 512-byte blocks reports 2^55-1 blocks |
| FileDevice.MegabyteFileBlocks | drivers/target/target_core_file.c:529-532 | a plain file configured with 1048576 bytes has 2048 blocks of 512 bytes |
| FileDevice.GetDeviceRev | drivers/target/target_core_file.c:502-505 | the backend returns `SCSI_SPC_2` (5), which INQUIRY shows as SPC-3 |
| FileDevice.GetDeviceType | drivers/target/target_core_file.c:511-514 | the backend is a direct-access device |
| FileIo.BuildIovec | drivers/target/target_core_file.c:242-245 | one iovec per scatter/gather entry, in the same order, with the same address and length |
| FileIo.ReadvStatus | drivers/target/target_core_file.c:258-273 | a read succeeds (1) exactly when a block device transferred data_length bytes, or a plain file returned a non-negative count; a negative count is returned as is, any other failure is -EINVAL |
| FileIo.WritevStatus | drivers/target/target_core_file.c:306-312 | a write succeeds (1) exactly when it transferred data_length bytes; a negative count is returned as is, any other failure is -EINVAL |
| FileIo.ShortTransfer | drivers/target/target_core_file.c:258-312 | a short, non-negative count fails a write and a block-device read, and passes a plain-file read |
| FileIo.WriteJudgedAsBlockRead | drivers/target/target_core_file.c:258-312 | a write is judged exactly like a read from a block device |
| FileIo.DoReadv | drivers/target/target_core_file.c:223-274 | a failed allocation returns -ENOMEM and issues nothing; otherwise the read is issued with the mirrored iovecs at lba*block_size and its count is classified by ReadvStatus |
| FileIo.DoWritev | drivers/target/target_core_file.c:276-313 | a failed allocation returns -ENOMEM and issues nothing; otherwise the write is issued with the mirrored iovecs at lba*block_size and its count is classified by WritevStatus |
| FileIo.Immed | drivers/target/target_core_file.c:319 | IMMED is set exactly when bit 1 of CDB byte 1 is set |
| FileIo.FlushRange | drivers/target/target_core_file.c:330-342 | the flush's start argument is lba*block_size and its end argument is start + data_length, or LLONG_MAX when data_length is 0; the lba 0 special case agrees with this |
| FileIo.ExecuteSyncCache | drivers/target/target_core_file.c:315-359 | returns 0 and completes the command exactly once: GOOD before the flush when IMMED is set, so a flush error goes unreported; otherwise after the flush, with CHECK CONDITION and the communication-failure sense reason exactly when the flush failed |
| FileIo.TransferStatus | drivers/target/target_core_file.c:373-376 | the dispatched transfer yields 1 or a negative code, -ENOMEM when the iovec allocation fails |
| FileIo.ExecuteRw | drivers/target/target_core_file.c:361-401 | FromDevice commands are read, all others written; a FUA flush with start lba*block_size and end argument start + data_length follows only a successful write with FUA emulation and SCF_FUA, and its result is ignored; a failed transfer records the sense reason and returns its code with no completion; otherwise there is exactly one GOOD completion and 0 is returned |

## Left out

- Calls into the VFS and block layer: `filp_open`, `vfs_readv`, `vfs_writev`, `vfs_fsync_range`, `i_size_read`, `bdev_logical_block_size` and the queue limits. They are oracle parameters, and no bytes on disk are modelled.
- Calls into the target core: `transport_add_device_to_core_hba`, `target_complete_cmd` and `fd_parse_cdb`/`sbc_parse_cdb` CDB decoding. The first is an oracle; the completion is a log event; CDB decoding is not modelled.
- Module registration: `fileio_template`, `fileio_module_init` and `fileio_module_exit`. They only register the backend.
- `kzalloc`/`kstrdup`/`match_strdup` failures are oracle booleans or a set of failing call numbers. `kfree` and the release of the host context and descriptor are not modelled.
- `set_fs`/`get_fs` address-space switching and the `sg_virt` translation are not modelled. A scatter/gather entry carries its virtual address directly.
- lib/kstrtox.c and lib/parser.c are not part of this model. `strict_strtoull` and `match_token`/`match_strlcpy` are written out from their documented rules.
- `pr_debug`/`pr_err` logging is not modelled. The block-device size computed at line 160 is only logged, so it is not modelled either.
- The `sprintf` output is modelled as text. The destination buffer's size is not modelled.
- Concurrency is not modelled. The host counter is updated without a lock, and the model is sequential.
- FileIo.DoReadv: the contents of the read buffer are not modelled. That includes the zero-fill of a short plain-file read, which the comment at line 254 promises but the code never does.
- FileIo.DoReadv: the byte count is an unbounded integer. The truncation of `vfs_readv`'s `ssize_t` to `int` is not modelled.
- FileIo.DoWritev: the same holds for `vfs_writev`'s count.
- FileIo.ExecuteRw: the model records the arguments passed to `vfs_fsync_range`, not which bytes it flushes. Its end offset is inclusive, so `start + data_length` reaches one byte past the written range.
- FileIo.FlushRange: `loff_t` is a signed 64-bit value. Overflow of `lba * block_size` and of `start + data_length` is not modelled.
- FileIo.ExecuteRw: the same `loff_t` overflow is not modelled for the FUA flush range and the transfer position.
- FileParams.NameCopy: the 255-character limit counts characters; in C it counts bytes. The model treats every character as one byte, so names with characters outside one byte are not modelled.
- FileParams.SetParams: the text is a sequence of characters, not of bytes; apart from the NUL that ends it, byte-level encoding is not modelled.
- FileDevice.GetBlocks: the width of `sector_t` is not imposed on the result. It is below 2^64 whenever the configured size is.
