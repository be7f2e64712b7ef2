/** Machine data that several parts share. */
module Bytes {
  type Byte = b: nat | b < 256

  /** One more than the largest unsigned 32-bit integer. */
  const WORD: nat := 0x1_0000_0000

  /** portMAX_DELAY: the value of every list's end marker and, as a block time, for ever. */
  const MAX_DELAY: nat := 0xffff_ffff

  /** What an unsigned 32-bit integer keeps of a number. */
  function Low32(a: nat): nat {
    a % WORD
  }

  /** Unsigned 32-bit addition. */
  function Add32(a: nat, b: nat): nat {
    (a + b) % WORD
  }
}
