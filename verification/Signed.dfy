/** Signed 64-bit arithmetic and its wrap-around. */
module Signed {

  const MIN64 := -0x8000_0000_0000_0000
  const MAX64 := 0x7FFF_FFFF_FFFF_FFFF
  type Int64 = x: int | MIN64 <= x <= MAX64

  function AsInt64(x: int): Int64 {
    (x - MIN64) % 0x1_0000_0000_0000_0000 + MIN64
  }

  // In range nothing changes; beyond it the value comes round every 2^64.
  lemma Periodic(x: int)
    ensures AsInt64(x + 0x1_0000_0000_0000_0000) == AsInt64(x)
  {
    assert (x + 0x1_0000_0000_0000_0000 - MIN64) % 0x1_0000_0000_0000_0000 == (x - MIN64) % 0x1_0000_0000_0000_0000;
  }

  lemma InRange(x: int)
    requires MIN64 <= x <= MAX64
    ensures AsInt64(x) == x
  {
  }
}
