/** Rust's fixed-width unsigned integers and the 32-byte array `[u8; 32]`. */
module Numeric {

  type byte = x: int | 0 <= x < 0x100
  type u8 = byte
  type u16 = x: int | 0 <= x < 0x1_0000
  type u32 = x: int | 0 <= x < 0x1_0000_0000
  type u64 = x: int | 0 <= x < 0x1_0000_0000_0000_0000

  /** `[u8; 32]`: public keys, hashes and proof nodes all have this shape. */
  type Bytes32 = s: seq<byte> | |s| == 32 witness seq(32, _ => 0)

  /** Rust's `n as u32` on a `u64`: only the low 32 bits are kept. */
  function TruncateToU32(n: u64): (r: u32)
    ensures n < 0x1_0000_0000 ==> r == n
    ensures (n - r) % 0x1_0000_0000 == 0
  {
    n % 0x1_0000_0000
  }
}
