/** The fixed-width integers of the source, and its narrowing conversions in two's complement. */
module Integers {
  const TWO32: int := 0x1_0000_0000

  type byte = x: int | 0 <= x < 0x100
  type int8 = x: int | -0x80 <= x < 0x80
  type int16 = x: int | -0x8000 <= x < 0x8000
  type int32 = x: int | -0x8000_0000 <= x < 0x8000_0000
  type uint32 = x: int | 0 <= x < TWO32

  function NarrowTo8(x: int): int8 {
    (x + 0x80) % 0x100 - 0x80
  }

  function NarrowTo16(x: int): int16 {
    (x + 0x8000) % 0x1_0000 - 0x8000
  }

  function NarrowTo32(x: int): int32 {
    (x + 0x8000_0000) % TWO32 - 0x8000_0000
  }

  /** Narrowing keeps a number that fits and otherwise changes it by a multiple of 2^8. */
  lemma NarrowsTo8(x: int)
    ensures (x - NarrowTo8(x)) % 0x100 == 0
    ensures -0x80 <= x < 0x80 ==> NarrowTo8(x) == x
  {
  }

  /** The same for 2^16; so the narrowed number is the only one of its width that is congruent. */
  lemma NarrowsTo16(x: int, y: int16)
    ensures (x - NarrowTo16(x)) % 0x1_0000 == 0
    ensures -0x8000 <= x < 0x8000 ==> NarrowTo16(x) == x
    ensures NarrowTo16(x) == y <==> (x - y) % 0x1_0000 == 0
  {
  }

  /** The same for 2^32. */
  lemma NarrowsTo32(x: int)
    ensures (x - NarrowTo32(x)) % 0x1_0000_0000 == 0
    ensures -0x8000_0000 <= x < 0x8000_0000 ==> NarrowTo32(x) == x
  {
  }
}
