/** Machine words and the C integer conversions the monitor relies on (i386, 32-bit). */
module Base {

  /** 2^32, the number of values of a `uint32_t`. */
  const WORD_RANGE: int := 0x1_0000_0000

  /** A `uint32_t`: an address or a word of memory. */
  type Word = x: int | 0 <= x < 0x1_0000_0000

  /** The C null pointer, or a pointer given by its index into a buffer. */
  datatype Option<T> = None | Some(value: T)

  /** `a + b` on `uint32_t` (also pointer arithmetic on i386): wraps modulo 2^32. */
  function Add32(a: Word, b: int): (r: Word)
    ensures (r - a - b) % WORD_RANGE == 0
  {
    (a + b) % WORD_RANGE
  }

  /** `a - b` on `uint32_t`: wraps modulo 2^32. */
  function Sub32(a: Word, b: Word): (r: Word)
    ensures (r + b) % WORD_RANGE == a
    ensures a >= b ==> r == a - b
  {
    (a - b) % WORD_RANGE
  }

  /** A 32-bit pattern read as a two's-complement `int` (`%d`, `%+d`). */
  function Signed32(x: Word): (r: int)
    ensures -0x8000_0000 <= r < 0x8000_0000
    ensures (r - x) % WORD_RANGE == 0
  {
    if x < 0x8000_0000 then x else x - WORD_RANGE
  }
}
