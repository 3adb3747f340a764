/** Numbers several parts share: bytes, powers of two, and the side of a sector of the world. */
module Numbers {
  type Byte = b: int | 0 <= b < 256

  const SECTOR_SIZE := 32

  function Power2(n: nat): (p: nat)
    ensures p > 0
  {
    if n == 0 then 1 else 2 * Power2(n - 1)
  }
}
