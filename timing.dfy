/** The cycle arithmetic of `mon_time`: two `rdtsc` readings, each returned as 32-bit halves
    in edx:eax, are rebuilt into 64-bit counters and their difference is printed with `%lld`. */
module Timing {
  import opened Base

  /** 2^64, the number of values of a `uint64_t`. */
  const U64_RANGE: int := 0x1_0000_0000_0000_0000

  /** One `rdtsc` reading: the low half (eax) and the high half (edx) of the counter. */
  datatype Reading = Reading(lo: Word, hi: Word)

  function Pow2(n: nat): (r: nat)
    ensures r >= 1
  {
    if n == 0 then 1 else 2 * Pow2(n - 1)
  }

  /** Bitwise exclusive or of two naturals, one bit at a time from the least significant. */
  function Xor(a: nat, b: nat): (r: nat)
    ensures r <= a + b
    decreases a + b
  {
    if a == 0 then b
    else if b == 0 then a
    else 2 * Xor(a / 2, b / 2) + (if a % 2 == b % 2 then 0 else 1)
  }

  /** `(uint64_t) hi << 32`: the shift drops every bit above bit 63, but a 32-bit high half
      has none there, so no bit is lost and the low 32 bits stay free. */
  function ShiftHigh(hi: Word): (r: nat)
    ensures r == hi * WORD_RANGE
    ensures r + WORD_RANGE <= U64_RANGE
  {
    var x := hi * WORD_RANGE;
    assert x <= (WORD_RANGE - 1) * WORD_RANGE;
    x % U64_RANGE
  }

  /** `(uint64_t) lo ^ ((uint64_t) hi << 32)`: the 64-bit counter value of a reading.
      Because the two halves occupy disjoint bits, the exclusive or is the sum. */
  function Counter(t: Reading): (c: nat)
    ensures c == t.hi * WORD_RANGE + t.lo
    ensures c < U64_RANGE
  {
    Pow2At32();
    XorDisjoint(t.lo, t.hi, 32);
    Xor(t.lo, ShiftHigh(t.hi))
  }

  /** `time_full_2 - time_full` on `uint64_t`: the difference modulo 2^64. */
  function Delta(before: Reading, after: Reading): (d: nat)
    ensures d < U64_RANGE
    ensures (Counter(before) + d) % U64_RANGE == Counter(after)
  {
    (Counter(after) - Counter(before)) % U64_RANGE
  }

  /** A 64-bit pattern read as a two's-complement `long long` (`%lld`). */
  function Signed64(x: nat): (r: int)
    requires x < U64_RANGE
    ensures -0x8000_0000_0000_0000 <= r < 0x8000_0000_0000_0000
    ensures (r - x) % U64_RANGE == 0
  {
    if x < 0x8000_0000_0000_0000 then x else x - U64_RANGE
  }

  /** The cycle count that `mon_time` prints for a pair of readings. Whenever the counter moved
      by an amount a `long long` can hold, forward or back, that amount is what is printed. */
  function Cycles(before: Reading, after: Reading): (n: int)
    ensures -0x8000_0000_0000_0000 <= n < 0x8000_0000_0000_0000
    ensures -0x8000_0000_0000_0000 <= Counter(after) - Counter(before) < 0x8000_0000_0000_0000 ==>
      n == Counter(after) - Counter(before)
  {
    Signed64(Delta(before, after))
  }

  lemma {:induction false} Pow2Add(a: nat, b: nat)
    ensures Pow2(a + b) == Pow2(a) * Pow2(b)
  {
    if a > 0 {
      Pow2Add(a - 1, b);
    }
  }

  lemma Pow2At32()
    ensures Pow2(32) == WORD_RANGE
  {
    assert Pow2(4) == 16;
    Pow2Add(4, 4);
    Pow2Add(8, 8);
    Pow2Add(16, 16);
  }

  /** A value below 2^k and a multiple of 2^k share no set bit, so their exclusive or is their sum. */
  lemma {:induction false} XorDisjoint(a: nat, b: nat, k: nat)
    requires a < Pow2(k)
    ensures Xor(a, b * Pow2(k)) == a + b * Pow2(k)
  {
    if a != 0 && b != 0 {
      var c := b * Pow2(k - 1);
      DoubleProduct(b, Pow2(k - 1));
      XorDisjoint(a / 2, b, k - 1);
      XorEven(a, c);
    }
  }

  lemma DoubleProduct(b: nat, p: nat)
    ensures b * (2 * p) == 2 * (b * p)
  {
  }

  /** The low bit of `a` against the zero low bit of `2 * c`, then the remaining bits. */
  lemma XorEven(a: nat, c: nat)
    requires a != 0 && c != 0
    ensures Xor(a, 2 * c) == 2 * Xor(a / 2, c) + a % 2
  {
  }
}
