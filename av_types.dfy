/**
 * Machine types and error codes shared by the track-reference registry,
 * the timed-metadata codec and the metadata reader.
 */
module AvTypes {

  /** An unsigned 8-bit byte (`uint8_t`, `unsigned char`). */
  newtype uint8 = x: int | 0 <= x < 0x100

  /** An unsigned 32-bit value (`uint32_t`), used for four-character codes. */
  newtype uint32 = x: int | 0 <= x < 0x1_0000_0000

  /** A signed 64-bit timestamp (`int64_t`). */
  newtype int64 = x: int | -0x8000_0000_0000_0000 <= x < 0x8000_0000_0000_0000

  /** The POSIX error number for "out of memory". */
  const ENOMEM: int := 12

  /** `AVERROR(e)`: FFmpeg reports POSIX errors as their negation. */
  function AVERROR(e: nat): (r: int)
    ensures e > 0 ==> r < 0
  {
    -(e as int)
  }

  /** `AV_NOPTS_VALUE`: the timestamp of a frame or packet that has none. */
  const AV_NOPTS_VALUE: int64 := -0x8000_0000_0000_0000

  datatype Option<+T> = None | Some(value: T)
}
