/** Bytes, the 32-bit range and IPv4 addresses. */
module Net {
  type Byte = b: int | 0 <= b < 256

  /** Times are nanoseconds. */
  const SECOND: nat := 1_000_000_000

  const U32_SIZE: nat := 0x1_0000_0000

  datatype Ipv4Addr = Ipv4Addr(a: Byte, b: Byte, c: Byte, d: Byte) {

    /** The address as a 32-bit number. */
    function Bits(): (n: nat)
      ensures n < U32_SIZE
    {
      0x100_0000 * a as int + 0x1_0000 * b as int + 0x100 * c as int + d as int
    }
  }
}
