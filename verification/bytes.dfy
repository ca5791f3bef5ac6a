/** Bytes as they appear in the driver's buffers and on the wire (Rust `u8`). */
module Bytes {
  type Byte = b: int | 0 <= b < 256

  /** n zero bytes (`[0; n]`). */
  function Zeroes(n: nat): (z: seq<Byte>)
    ensures |z| == n && forall i | 0 <= i < n :: z[i] == 0
  {
    seq(n, _ => 0)
  }
}
