/** Rust's fixed-width unsigned integers. Arithmetic on them is written out modulo their size. */
module MachineInts {
  const TWO_32: nat := 0x1_0000_0000
  const TWO_64: nat := 0x1_0000_0000_0000_0000

  type u32 = x: int | 0 <= x < TWO_32

  type u64 = x: int | 0 <= x < TWO_64

  const U32_MAX: u32 := 0xFFFF_FFFF

  function WrapU32(x: int): u32 {
    x % TWO_32
  }
}
