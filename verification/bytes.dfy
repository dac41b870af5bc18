/** Byte sequences, little-endian reads and the result types shared by every component. */
module Bytes {
  type byte = b: int | 0 <= b < 256

  datatype Option<+T> = None | Some(value: T)

  /** The 16-bit little-endian value at `p`. */
  function U16(data: seq<byte>, p: nat): (v: nat)
    requires p + 2 <= |data|
    ensures v < 0x1_0000
  {
    data[p] as int + 0x100 * (data[p + 1] as int)
  }

  /** The 32-bit little-endian value at `p`. */
  function U32(data: seq<byte>, p: nat): (v: nat)
    requires p + 4 <= |data|
    ensures v < 0x1_0000_0000
  {
    U16(data, p) + 0x1_0000 * U16(data, p + 2)
  }

  /** `1 << k` for the bits of one byte. */
  function Power(k: nat): (r: nat)
    requires k < 8
    ensures r > 0
  {
    [1, 2, 4, 8, 16, 32, 64, 128][k]
  }

  /** Bit `k` of a byte. */
  predicate Bit(b: byte, k: nat)
    requires k < 8
  {
    b / Power(k) % 2 == 1
  }
}
