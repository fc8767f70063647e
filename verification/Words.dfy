/** Reductions of integers to fixed widths, as the C code's unsigned types apply them, and least and greatest. */
module Words {
  const TWO31: nat := 0x8000_0000
  const TWO32: nat := 0x1_0000_0000
  const TWO64: nat := 0x1_0000_0000_0000_0000
  const UINT64_MAX: nat := TWO64 - 1
  /** The largest clock the transmit code accepts (serialqueue.h). */
  const MAX_CLOCK: nat := 0x7fff_ffff_ffff_ffff

  /** Conversion to uint32_t. */
  function U32(x: int): (r: nat)
    ensures r < TWO32
  {
    x % 0x1_0000_0000
  }

  /** Conversion to uint64_t. */
  function U64(x: int): (r: nat)
    ensures r < TWO64
  {
    x % 0x1_0000_0000_0000_0000
  }

  /** Conversion of a uint32_t to int32_t. */
  function S32(x: nat): (r: int)
    requires x < TWO32
    ensures -0x8000_0000 <= r < 0x8000_0000
  {
    if x < 0x8000_0000 then x else x - 0x1_0000_0000
  }

  function Min(a: int, b: int): int {
    if a < b then a else b
  }

  function Max(a: int, b: int): int {
    if a < b then b else a
  }

  function MaxReal(a: real, b: real): real {
    if a < b then b else a
  }

  function MinReal(a: real, b: real): real {
    if b < a then b else a
  }

  lemma U32Identity(x: int)
    requires 0 <= x < 0x1_0000_0000
    ensures U32(x) == x
  {
  }

  /** Reducing an operand first does not change a reduced difference. */
  lemma U32Difference(x: int, y: int)
    requires 0 <= x - y < 0x1_0000_0000
    ensures U32(U32(x) - y) == x - y
  {
    assert U32(x) - y == x - y + -(x / 0x1_0000_0000) * 0x1_0000_0000;
  }

  /** Reducing a running sum at each step is reducing it once. */
  lemma U32Sum(x: int, y: int)
    ensures U32(U32(x) + U32(y)) == U32(x + y)
    ensures U32(U32(x) + y) == U32(x + y)
  {
    var a, b := x / 0x1_0000_0000, y / 0x1_0000_0000;
    assert U32(x) + U32(y) == x + y - (a + b) * 0x1_0000_0000;
    assert U32(x) + y == x + y - a * 0x1_0000_0000;
  }
}
