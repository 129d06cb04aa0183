/** Kernel vocabulary shared by the FILEIO backend model: error returns,
    optional values and the integer widths the C code works in. */
module Kernel {

  /** A negative kernel error return such as -EINVAL. */
  type NegErrno = e: int | e < 0 witness -1

  datatype Option<+T> = None | Some(value: T)

  /** A value, or the negative error code a kernel call returned instead. */
  datatype Result<+T> = Ok(value: T) | Err(code: NegErrno)

  const ENOMEM: int := 12
  const EINVAL: int := 22
  const ERANGE: int := 34

  /** 2^32: u32 counters wrap around here. */
  const U32_LIMIT: nat := 0x1_0000_0000
  /** 2^64: u64 / unsigned long long arithmetic wraps around here. */
  const U64_LIMIT: nat := 0x1_0000_0000_0000_0000
  const ULLONG_MAX: nat := 0xFFFF_FFFF_FFFF_FFFF
  const LLONG_MAX: nat := 0x7FFF_FFFF_FFFF_FFFF
}
