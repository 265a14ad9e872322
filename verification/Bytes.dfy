/** Machine integers, byte strings and the two byte orders. The programs modelled here run on
    little-endian hosts and exchange big-endian fields, so both orders are spelled out. */
module Bytes {
  type byte = b: int | 0 <= b < 0x100
  type uint16 = n: int | 0 <= n < 0x1_0000
  type uint32 = n: int | 0 <= n < 0x1_0000_0000
  type bytes = seq<byte>

  /** An in_addr_t: four bytes in network order, as they lie in memory. */
  type address = b: bytes | |b| == 4 witness [0, 0, 0, 0]

  datatype Option<+T> = None | Some(value: T)

  /** The two bytes of `n` as a little-endian host stores them. */
  function Le16(n: uint16): (b: bytes)
    ensures |b| == 2 && FromLe16(b) == n
  {
    [n % 0x100, n / 0x100]
  }

  function FromLe16(b: bytes): uint16
    requires |b| == 2
  {
    b[0] as int + 0x100 * b[1] as int
  }

  /** The bytes of `htons(n)`: most significant first. */
  function Be16(n: uint16): (b: bytes)
    ensures |b| == 2 && FromBe16(b) == n
  {
    [n / 0x100, n % 0x100]
  }

  function FromBe16(b: bytes): uint16
    requires |b| == 2
  {
    0x100 * b[0] as int + b[1] as int
  }

  function Le32(n: uint32): (b: bytes)
    ensures |b| == 4
  {
    Le16(n % 0x1_0000) + Le16(n / 0x1_0000)
  }

  function FromLe32(b: bytes): uint32
    requires |b| == 4
  {
    FromLe16(b[..2]) + 0x1_0000 * FromLe16(b[2..])
  }

  lemma Le32RoundTrip(n: uint32)
    ensures FromLe32(Le32(n)) == n
  {
    var low, high := Le16(n % 0x1_0000), Le16(n / 0x1_0000);
    assert (low + high)[..2] == low && (low + high)[2..] == high;
  }

  /** The bytes of `htonl(n)`. */
  function Be32(n: uint32): (b: bytes)
    ensures |b| == 4 && FromBe32(b) == n
  {
    Be16(n / 0x1_0000) + Be16(n % 0x1_0000)
  }

  /** `ntohl` of four bytes in memory. */
  function FromBe32(b: bytes): uint32
    requires |b| == 4
  {
    0x1_0000 * FromBe16(b[..2]) + FromBe16(b[2..])
  }

  /** `n` zero bytes. */
  function Zeros(n: nat): (b: bytes)
    ensures |b| == n
  {
    seq(n, _ => 0)
  }
}
