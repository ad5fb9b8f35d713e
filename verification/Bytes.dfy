/** Bytes and the little-endian integers that the wire formats are made of. */
module Bytes {

  type byte = x: int | 0 <= x < 256

  const U16: nat := 0x1_0000
  const U32: nat := 0x1_0000_0000
  const I32_MAX: int := 0x7FFF_FFFF

  type u32 = n: int | 0 <= n < U32

  datatype Option<+T> = None | Some(value: T)

  /** A uint16_t as the host (little endian) stores it. */
  function Le16(n: nat): (bs: seq<byte>)
    requires n < U16
    ensures |bs| == 2 && FromLe16(bs[0], bs[1]) == n
  {
    [n % 256, n / 256]
  }

  function FromLe16(b0: byte, b1: byte): (n: nat)
    ensures n < U16
  {
    b0 + 256 * b1
  }

  /** A uint32_t as the host stores it. */
  function Le32(n: nat): (bs: seq<byte>)
    requires n < U32
    ensures |bs| == 4 && FromLe32(bs) == n
  {
    Le16(n % U16) + Le16(n / U16)
  }

  function FromLe32(bs: seq<byte>): (n: nat)
    requires |bs| == 4
    ensures n < U32
  {
    FromLe16(bs[0], bs[1]) + U16 * FromLe16(bs[2], bs[3])
  }

  lemma FromLe32Injective(a: seq<byte>, b: seq<byte>)
    requires |a| == 4 && |b| == 4 && FromLe32(a) == FromLe32(b)
    ensures a == b
  {
    SameHalves(FromLe16(a[0], a[1]), FromLe16(a[2], a[3]), FromLe16(b[0], b[1]), FromLe16(b[2], b[3]));
    SameBytes(a[0], a[1], b[0], b[1]);
    SameBytes(a[2], a[3], b[2], b[3]);
  }

  lemma SameHalves(lo: nat, hi: nat, lo': nat, hi': nat)
    requires lo < U16 && lo' < U16 && lo + U16 * hi == lo' + U16 * hi'
    ensures lo == lo' && hi == hi'
  {
  }

  lemma SameBytes(a: byte, b: byte, a': byte, b': byte)
    requires FromLe16(a, b) == FromLe16(a', b')
    ensures a == a' && b == b'
  {
  }

  lemma Le32Back(bs: seq<byte>)
    requires |bs| == 4
    ensures Le32(FromLe32(bs)) == bs
  {
    FromLe32Injective(Le32(FromLe32(bs)), bs);
  }

  /** Two's complement: an int32_t read as the uint32_t with the same bits, and back. */
  function Unsigned(n: int): (u: nat)
    requires -I32_MAX - 1 <= n <= I32_MAX
    ensures u < U32 && Signed(u) == n
  {
    if n < 0 then n + U32 else n
  }

  function Signed(u: nat): (n: int)
    requires u < U32
    ensures -I32_MAX - 1 <= n <= I32_MAX
  {
    if u <= I32_MAX then u else u - U32
  }
}
