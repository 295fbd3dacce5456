/** Go's 64-bit signed arithmetic, and the rates and bursts computed with it. */
module Int64 {

  const MAX := 0x7fff_ffff_ffff_ffff

  // The value a 64-bit product or sum wraps to.
  function Wrap(x: int): int { (x + 0x8000_0000_0000_0000) % 0x1_0000_0000_0000_0000 - 0x8000_0000_0000_0000 }

  // Division by a positive number, truncated toward zero.
  function Quotient(x: int, y: int): int
    requires y > 0
  {
    if x >= 0 then x / y else -((-x) / y)
  }

  const MAX_WRITE_CHUNK := 64 * 1024
  const BURST_WINDOW := 200_000_000    // nanoseconds
  const SECOND := 1_000_000_000

  // The burst of a limiter: what it lets through in 200 ms, but at least one
  // write chunk. The product is taken in 64 bits.
  function BurstFor(bytesPerSecond: int): int {
    var burst := Quotient(Wrap(bytesPerSecond * BURST_WINDOW), SECOND);
    if burst < MAX_WRITE_CHUNK then MAX_WRITE_CHUNK else burst
  }

  function MbpsToBytes(mbps: int): int {
    if mbps <= 0 then 0 else Quotient(Wrap(Wrap(mbps * 1000) * 1000), 8)
  }

  function AtLeastChunk(n: int): int { if n < MAX_WRITE_CHUNK then MAX_WRITE_CHUNK else n }

  lemma WrapFits(x: int)
    ensures -MAX - 1 <= x <= MAX ==> Wrap(x) == x
    ensures -MAX - 1 <= Wrap(x) <= MAX
  {}

  // A wrapped value differs from the exact one by a multiple of 2^64.
  lemma WrapIsCongruent(x: int)
    ensures (x - Wrap(x)) % 0x1_0000_0000_0000_0000 == 0
  {}

  lemma QuotientTruncates(x: int, y: int)
    requires y > 0
    ensures 0 <= x ==> 0 <= x - Quotient(x, y) * y < y
    ensures x < 0 ==> -y < x - Quotient(x, y) * y <= 0
  {}

  // The burst is a fifth of the rate exactly up to 46116860184 bytes per second;
  // above that the 64-bit product overflows and the burst is too small.
  lemma BurstIsAFifth(bytesPerSecond: int)
    requires 0 < bytesPerSecond <= MAX
    ensures BurstFor(bytesPerSecond) == AtLeastChunk(bytesPerSecond / 5) <==> bytesPerSecond <= 46116860184
    ensures BurstFor(bytesPerSecond) <= AtLeastChunk(bytesPerSecond / 5)
  {
    WrapFits(bytesPerSecond * BURST_WINDOW);
    if bytesPerSecond <= 46116860184 {
      assert bytesPerSecond * BURST_WINDOW / SECOND == bytesPerSecond / 5;
    } else {
      assert Quotient(Wrap(bytesPerSecond * BURST_WINDOW), SECOND) <= MAX / SECOND < bytesPerSecond / 5;
    }
  }

  // The conversion from Mbps is exact as long as the product fits.
  lemma MbpsIsExact(mbps: int)
    requires 0 < mbps <= MAX
    ensures MbpsToBytes(mbps) == mbps * 125_000 <==> mbps <= 9_223_372_036_854
  {
    WrapFits(mbps * 1000);
    WrapFits(Wrap(mbps * 1000) * 1000);
    if mbps <= 9_223_372_036_854 {
      assert mbps * 1000 * 1000 / 8 == mbps * 125_000;
    } else {
      assert Quotient(Wrap(Wrap(mbps * 1000) * 1000), 8) <= MAX / 8 < mbps * 125_000;
    }
  }

  // For a configured rate in Mbps the burst is 25000 bytes per Mbps, or one
  // chunk, exactly up to 368934 Mbps.
  lemma BurstOfMbps(mbps: int)
    requires 0 < mbps <= 9_223_372_036_854
    ensures BurstFor(MbpsToBytes(mbps)) == AtLeastChunk(mbps * 25_000) <==> mbps <= 368_934
  {
    MbpsIsExact(mbps);
    BurstIsAFifth(mbps * 125_000);
    assert mbps * 125_000 / 5 == mbps * 25_000;
  }
}
