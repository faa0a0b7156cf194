/**
 Bus geometry of the perfect-memory model and the mask that aligns a byte
 address to the start of its bus line. Addresses are the 64-bit vectors the
 DPI layer hands over, so the mask is applied with bit-vector `&`.
 */
module Bus {
  import opened Words

  /** `BUS_WIDTH`: the data bus carries 512 bits. */
  const BusWidth: nat := 512
  /** `BUS_ADDR_BITS`: address bits that select a byte within one bus line. */
  const BusAddrBits: nat := 6

  function Pow2(n: nat): nat
  {
    if n == 0 then 1 else 2 * Pow2(n - 1)
  }

  /** Bytes per bus line, `1 << BUS_ADDR_BITS`. */
  const LineBytes: nat := Pow2(BusAddrBits)

  /** `BUS_ADDR_MASK`, `~((1 << BUS_ADDR_BITS) - 1)`, as the C `int` the macro yields (`~x == -x - 1`). */
  const MaskInt: int := -(LineBytes - 1) - 1

  /** An `int` converted to `uint64_t` for the `&` with a 64-bit address: sign extension, then reinterpretation. */
  function IntToU64(x: int): (r: u64)
    requires -0x8000_0000 <= x < 0x8000_0000
    ensures (r - x) % TWO_64 == 0
  {
    if x < 0 then x + TWO_64 else x
  }

  /** The 64-bit pattern `addr & BUS_ADDR_MASK` applies; `BusGeometry` shows it is the widened mask. */
  const AddrMask64: bv64 := 0xFFFF_FFFF_FFFF_FFC0

  lemma {:induction false} Pow2Six()
    ensures Pow2(6) == 64
  {
    assert Pow2(0) == 1;
    assert Pow2(1) == 2;
    assert Pow2(2) == 4;
    assert Pow2(3) == 8;
    assert Pow2(4) == 16;
    assert Pow2(5) == 32;
  }

  /**
   The bus line is as wide as the address bits say (512 / 8 == 1 << 6 == 64), and
   the `int` mask, -64, widens to 0xFFFF_FFFF_FFFF_FFC0 against a 64-bit address.
   */
  lemma BusGeometry()
    ensures BusWidth / 8 == LineBytes == 64
    ensures MaskInt == -64
    ensures IntToU64(MaskInt) == AddrMask64 as int
  {
    Pow2Six();
  }

  /**
   `addr & BUS_ADDR_MASK`: the start of the bus line holding `addr`, the
   largest multiple of 64 that is not above it.
   */
  function Align(addr: bv64): (a: bv64)
    ensures a % 64 == 0
    ensures a <= addr
    ensures addr - a < 64
  {
    addr & AddrMask64
  }

  /** Masking an address that is already line-aligned leaves it unchanged, so masking twice is masking once. */
  lemma AlignIdempotent(addr: bv64)
    ensures addr % 64 == 0 ==> Align(addr) == addr
    ensures Align(Align(addr)) == Align(addr)
  {
  }
}
