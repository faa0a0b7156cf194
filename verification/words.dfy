/**
 Fixed-width machine integers of the C++ models, written as bounded `int`s, and
 the bit-level conversions between them that the models rely on.
 */
module Words {

  const TWO_24: int := 0x100_0000
  const TWO_32: int := 0x1_0000_0000
  const TWO_39: int := 0x80_0000_0000
  const TWO_40: int := 0x100_0000_0000
  const TWO_63: int := 0x8000_0000_0000_0000
  const TWO_64: int := 0x1_0000_0000_0000_0000

  type u32 = x: int | 0 <= x < 0x1_0000_0000
  type u64 = x: int | 0 <= x < 0x1_0000_0000_0000_0000
  type i64 = x: int | -0x8000_0000_0000_0000 <= x < 0x8000_0000_0000_0000

  /** `x + 1` on a `uint64_t`: wraps to zero past the top. */
  function Inc64(x: u64): (r: u64)
    ensures x < TWO_64 - 1 ==> r == x + 1
    ensures x == TWO_64 - 1 ==> r == 0
  {
    (x + 1) % TWO_64
  }

  /** Reading the bits of a `uint64_t` as a two's-complement `signed long long`. */
  function ToSigned64(x: u64): (r: i64)
    ensures (r - x) % TWO_64 == 0
    ensures x < TWO_63 <==> r >= 0
  {
    if x < TWO_63 then x else x - TWO_64
  }

  /**
   The low 40 bits of `x` read as a 40-bit two's-complement number: the one
   integer in [-2^39, 2^39) congruent to `x` modulo 2^40.
   */
  function SignExtend40(x: u64): (r: int)
    ensures -TWO_39 <= r < TWO_39
    ensures (r - x) % TWO_40 == 0
  {
    var low := x % TWO_40;
    if low < TWO_39 then low else low - TWO_40
  }

  /** `x << 24` on a `signed long long`: bits pushed past bit 63 are lost. */
  function ShiftLeft24(x: i64): i64
  {
    ToSigned64((x * TWO_24) % TWO_64)
  }

  /** `x >> 24` on a `signed long long`: an arithmetic shift, which rounds toward minus infinity. */
  function ShiftRight24(x: i64): i64
  {
    x / TWO_24
  }

  lemma ModOfShiftedSum(q: int, low: int)
    requires 0 <= low < TWO_40
    ensures (q * TWO_64 + low * TWO_24) % TWO_64 == low * TWO_24
  {
    assert 0 <= low * TWO_24 < TWO_64;
  }

  /**
   The shift pair `(pc << 24) >> 24` that the trace recorder applies to the
   decode-stage program counter is exactly 40-bit sign extension.
   */
  lemma ShiftPairIsSignExtend40(pc: u64)
    ensures ShiftRight24(ShiftLeft24(ToSigned64(pc))) == SignExtend40(pc)
  {
    var s := ToSigned64(pc);
    var low := pc % TWO_40;
    var q := pc / TWO_40;
    assert pc == q * TWO_40 + low;
    var k := if pc < TWO_63 then q else q - TWO_24;
    assert s * TWO_24 == k * TWO_64 + low * TWO_24;
    ModOfShiftedSum(k, low);
    assert (s * TWO_24) % TWO_64 == low * TWO_24;
    if low < TWO_39 {
      assert ShiftLeft24(s) == low * TWO_24;
      assert ShiftRight24(low * TWO_24) == low;
    } else {
      assert ShiftLeft24(s) == (low - TWO_40) * TWO_24;
      assert ShiftRight24((low - TWO_40) * TWO_24) == low - TWO_40;
    }
  }

  /** Bits 40 to 63 of the program counter never reach the printed value. */
  lemma SignExtend40IgnoresHighBits(a: u64, b: u64)
    requires a % TWO_40 == b % TWO_40
    ensures SignExtend40(a) == SignExtend40(b)
  {
  }
}
