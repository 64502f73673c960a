/** Machine integers of the C sources, and the option type shared by all modules. */
module Machine {

  datatype Option<+T> = None | Some(value: T)

  const TWO31: int := 0x8000_0000
  const TWO32: int := 0x1_0000_0000
  const TWO64: int := 0x1_0000_0000_0000_0000

  type u8 = bv8
  type u16 = x: int | 0 <= x < 0x1_0000
  type u32 = x: int | 0 <= x < 0x1_0000_0000
  type u64 = x: int | 0 <= x < 0x1_0000_0000_0000_0000

  /** A block of bytes whose length is a uint32_t. */
  type Bytes = s: seq<u8> | |s| < 0x1_0000_0000

  // uint32_t and uint64_t arithmetic wraps around.

  function Add32(a: u32, b: u32): u32 {
    if a + b < TWO32 then a + b else a + b - TWO32
  }

  function Sub32(a: u32, b: u32): u32 {
    if a >= b then a - b else a - b + TWO32
  }

  function Sub64(a: u64, b: u64): u64 {
    if a >= b then a - b else a - b + TWO64
  }
}
