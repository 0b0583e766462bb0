/** The machine integers of lib/com_util/common.h, as ranges of int.  Every place where
    the C code narrows or wraps a value goes through one of the conversions below. */
module Words {
  type U8 = x: int | 0 <= x < 0x100
  type U16 = x: int | 0 <= x < 0x1_0000
  type U32 = x: int | 0 <= x < 0x1_0000_0000

  function ToU8(x: int): (r: U8)
    ensures 0 <= x < 0x100 ==> r == x
  {
    x % 0x100
  }

  function ToU16(x: int): (r: U16)
    ensures 0 <= x < 0x1_0000 ==> r == x
  {
    x % 0x1_0000
  }

  function ToU32(x: int): (r: U32)
    ensures 0 <= x < 0x1_0000_0000 ==> r == x
  {
    x % 0x1_0000_0000
  }

  /** Narrowing drops whole multiples of the width, of any sign. */
  lemma Narrow8(x: int, k: int)
    ensures ToU8(x + 0x100 * k) == ToU8(x)
  {
    var q := x / 0x100;
    assert x + 0x100 * k == 0x100 * (q + k) + x % 0x100;
  }

  lemma Narrow16(x: int, k: int)
    ensures ToU16(x + 0x1_0000 * k) == ToU16(x)
  {
    var q := x / 0x1_0000;
    assert x + 0x1_0000 * k == 0x1_0000 * (q + k) + x % 0x1_0000;
  }

  lemma Narrow32(x: int, k: int)
    ensures ToU32(x + 0x1_0000_0000 * k) == ToU32(x)
  {
    var q := x / 0x1_0000_0000;
    assert x + 0x1_0000_0000 * k == 0x1_0000_0000 * (q + k) + x % 0x1_0000_0000;
  }
}
