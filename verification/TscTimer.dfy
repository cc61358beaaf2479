/** Calibrating the TSC against the HPET (`src/arch/tsc_timer.rs`). */
module TscTimer {

  const U64_LIMIT: nat := 0x1_0000_0000_0000_0000
  const U128_LIMIT: nat := 0x1_0000_0000_0000_0000_0000_0000_0000_0000
  const FEMTO: nat := 1_000_000_000_000_000

  /** `u128::saturating_mul` */
  function SaturatingMul(a: nat, b: nat): nat { if a * b < U128_LIMIT then a * b else U128_LIMIT - 1 }

  /** The product, or the largest 128-bit number if it does not fit. */
  lemma SaturatingMulIsProduct(a: nat, b: nat)
    ensures a * b <= 0xFFFF_FFFF_FFFF_FFFF_FFFF_FFFF_FFFF_FFFF ==> SaturatingMul(a, b) == a * b
    ensures a * b > 0xFFFF_FFFF_FFFF_FFFF_FFFF_FFFF_FFFF_FFFF ==>
      SaturatingMul(a, b) == 0xFFFF_FFFF_FFFF_FFFF_FFFF_FFFF_FFFF_FFFF
  {
  }

  /** `u64::wrapping_sub` */
  function WrappingSub(a: nat, b: nat): nat
    requires a < U64_LIMIT && b < U64_LIMIT
  {
    if a >= b then a - b else a + U64_LIMIT - b
  }

  /** The difference modulo 2^64: what a 64-bit counter advanced by, even if it wrapped once. */
  lemma WrappingSubIsAdvance(a: nat, b: nat)
    requires a < 0x1_0000_0000_0000_0000 && b < 0x1_0000_0000_0000_0000
    ensures WrappingSub(a, b) < 0x1_0000_0000_0000_0000
    ensures (b + WrappingSub(a, b)) % 0x1_0000_0000_0000_0000 == a
    ensures b <= a ==> WrappingSub(a, b) == a - b
  {
  }

  /** Cycles in `ms` milliseconds, given the counter deltas and the HPET period in femtoseconds. */
  function Cycles(hdelta: nat, tdelta: nat, period: nat, ms: nat): nat
    requires hdelta * period > 0
  {
    tdelta * FEMTO / (hdelta * period) * ms / 1000
  }

  lemma ProductBound(a: nat, b: nat, x: nat, y: nat)
    requires a < x && b < y
    ensures a * b < x * y
  {
    assert a * b <= a * y;
    assert a * y < x * y;
  }

  lemma FloorBounds(a: nat, d: nat)
    requires d > 0
    ensures (a / d) * d <= a < (a / d) * d + d
  {
  }

  lemma QuotientBound(a: nat, d: nat)
    requires d > 0
    ensures a / d <= a
  {
    FloorBounds(a, d);
    TimesAtLeast(a / d, d);
  }

  lemma TimesAtLeast(x: nat, d: nat)
    requires d > 0
    ensures x <= x * d
  {
  }

  /** Nothing saturates or overflows 128 bits for 64-bit deltas, a 32-bit period and less than 2^14 milliseconds. */
  lemma NoOverflow(hdelta: nat, tdelta: nat, period: nat, ms: nat)
    requires 0 < hdelta < U64_LIMIT && tdelta < U64_LIMIT && 0 < period < 0x1_0000_0000 && ms < 0x4000
    ensures SaturatingMul(tdelta, FEMTO) == tdelta * FEMTO
    ensures hdelta * period > 0 && SaturatingMul(hdelta, period) == hdelta * period
    ensures tdelta * FEMTO / (hdelta * period) * ms < U128_LIMIT
  {
    ProductBound(hdelta, period, U64_LIMIT, 0x1_0000_0000);
    QuotientFits(tdelta * FEMTO, hdelta * period, ms);
  }

  lemma QuotientFits(num: nat, den: nat, ms: nat)
    requires num < U64_LIMIT * FEMTO && den > 0 && ms < 0x4000
    ensures num / den * ms < U128_LIMIT
  {
    QuotientBound(num, den);
    ProductBound(num / den, ms, U64_LIMIT * FEMTO, 0x4000);
  }

  /**
   The two floors together lose less than `1000 + ms` units of the denominator: the error
   of the computed cycle count against the exact ratio.
   */
  lemma CalibrationError(hdelta: nat, tdelta: nat, period: nat, ms: nat)
    requires hdelta > 0 && period > 0
    ensures hdelta * period > 0
    ensures
      var den := hdelta * period;
      var error := tdelta * FEMTO * ms - Cycles(hdelta, tdelta, period, ms) * 1000 * den;
      0 <= error < (1000 + ms) * den
  {
    FlooredTwice(tdelta * FEMTO, hdelta * period, ms);
  }

  lemma FlooredTwice(num: nat, den: nat, ms: nat)
    requires den > 0
    ensures 0 <= num * ms - num / den * ms / 1000 * 1000 * den < (1000 + ms) * den
  {
    var hz := num / den;
    FloorBounds(num, den);
    var product := hz * ms;
    var cycles := product / 1000;
    ErrorSplits(num, den, hz, ms, product, cycles);
  }

  /** The error is the remainder of the first floor, scaled, plus that of the second. */
  lemma ErrorSplits(num: nat, den: nat, hz: nat, ms: nat, product: nat, cycles: nat)
    requires hz * den <= num < hz * den + den && product == hz * ms
    requires cycles * 1000 <= product < cycles * 1000 + 1000
    ensures 0 <= num * ms - cycles * 1000 * den < (1000 + ms) * den
  {
    var r, q := num - hz * den, product - cycles * 1000;
    SplitNumerator(hz, den, r, ms);
    SplitCycles(product, q, den);
    SwapFactors(hz, den, ms);
    assert num == hz * den + r && cycles * 1000 == product - q;
    assert num * ms - (cycles * 1000) * den == r * ms + q * den;
    RemainderBound(r, q, den, ms);
  }

  lemma SplitNumerator(hz: nat, den: nat, r: nat, ms: nat)
    ensures (hz * den + r) * ms == hz * den * ms + r * ms
  {
  }

  lemma SplitCycles(product: int, q: int, den: int)
    ensures (product - q) * den == product * den - q * den
  {
  }

  lemma SwapFactors(hz: nat, den: nat, ms: nat)
    ensures hz * den * ms == hz * ms * den
  {
  }

  lemma RemainderBound(r: nat, q: nat, den: nat, ms: nat)
    requires r < den && q < 1000
    ensures 0 <= r * ms + q * den < (1000 + ms) * den
  {
    ProductAtMost(r, den, ms);
    ProductBelow(q, 1000, den);
    SumTimes(1000, ms, den);
  }

  lemma ProductAtMost(a: nat, b: nat, c: nat)
    requires a <= b
    ensures 0 <= a * c <= b * c
  {
  }

  lemma ProductBelow(a: nat, b: nat, c: nat)
    requires a < b && c > 0
    ensures 0 <= a * c < b * c
  {
  }

  lemma SumTimes(a: nat, b: nat, c: nat)
    ensures (a + b) * c == a * c + c * b
  {
  }

  /** A value in a 128-bit register. */
  function Wrapped(x: nat): (r: nat)
    ensures x < U128_LIMIT ==> r == x
  {
    x % U128_LIMIT
  }

  /** Frequency, then cycles, in 128-bit arithmetic. */
  method FloorCycles(num: nat, den: nat, ms: nat) returns (cycles: nat)
    requires den > 0
    ensures num / den * ms < U128_LIMIT ==> cycles == num / den * ms / 1000
  {
    var tscHz := num / den;
    var product := tscHz * ms;
    cycles := Wrapped(product) / 1000;
  }

  /** `cycles` is the exact number of cycles in `ms` milliseconds, less than `1000 + ms` units of the denominator too low. */
  predicate Accurate(hdelta: nat, tdelta: nat, period: nat, ms: nat, cycles: nat) {
    var den := hdelta * period;
    0 <= tdelta * 1_000_000_000_000_000 * ms - cycles * 1000 * den < (1000 + ms) * den
  }

  /** Within the ranges nothing overflows, so what is computed is the floored count, and it is accurate. */
  lemma ComputedIsAccurate(hdelta: nat, tdelta: nat, period: nat, ms: nat)
    requires 0 < hdelta < U64_LIMIT && tdelta < U64_LIMIT && 0 < period < 0x1_0000_0000 && ms < 0x4000
    ensures hdelta * period > 0 && tdelta * FEMTO / (hdelta * period) * ms < U128_LIMIT
    ensures Accurate(hdelta, tdelta, period, ms, Cycles(hdelta, tdelta, period, ms))
  {
    NoOverflow(hdelta, tdelta, period, ms);
    CalibrationError(hdelta, tdelta, period, ms);
  }

  /**
   The value of `PERIOD_CYCLES` after calibration; `previous` is what it held before.  As
   long as the product fits 128 bits, the stored period is the floored cycle count modulo
   2^64; below 2^14 milliseconds it fits, and a count that fits 64 bits is stored as it is,
   with a bounded error.
   */
  method Calibrate(h1: nat, h2: nat, t1: nat, t2: nat, period: nat, ms: nat, previous: nat) returns (stored: nat)
    requires h1 < U64_LIMIT && h2 < U64_LIMIT && t1 < U64_LIMIT && t2 < U64_LIMIT
    requires period < 0x1_0000_0000 && ms < U64_LIMIT
    ensures WrappingSub(h2, h1) == 0 || period == 0 ==> stored == previous
    ensures
      var hdelta, tdelta := WrappingSub(h2, h1), WrappingSub(t2, t1);
      hdelta > 0 && period > 0 ==>
        && hdelta * period > 0
        && var cycles := Cycles(hdelta, tdelta, period, ms);
        && (tdelta * FEMTO / (hdelta * period) * ms < U128_LIMIT ==>
              stored == if cycles == 0 then previous else cycles % U64_LIMIT)
        && (ms < 0x4000 ==> stored == if cycles == 0 then previous else cycles % U64_LIMIT)
        && (ms < 0x4000 && 0 < cycles < U64_LIMIT ==>
              stored == cycles && Accurate(hdelta, tdelta, period, ms, stored))
        && (ms < 0x4000 && 0 < cycles < U64_LIMIT && h1 <= h2 && t1 <= t2 ==>
              Accurate(h2 - h1, t2 - t1, period, ms, stored))
  {
    WrappingSubIsAdvance(h2, h1);
    WrappingSubIsAdvance(t2, t1);
    stored := previous;
    var hdelta, tdelta := WrappingSub(h2, h1), WrappingSub(t2, t1);
    if period != 0 && hdelta != 0 {
      stored := Measure(hdelta, tdelta, period, ms, previous);
      if ms < 0x4000 {
        ComputedIsAccurate(hdelta, tdelta, period, ms);
        SmallRemainder(Cycles(hdelta, tdelta, period, ms));
      }
    }
  }

  lemma SmallRemainder(x: nat)
    ensures x < U64_LIMIT ==> x % U64_LIMIT == x
  {
  }

  /** The measured case. */
  method Measure(hdelta: nat, tdelta: nat, period: nat, ms: nat, previous: nat) returns (stored: nat)
    requires 0 < hdelta < U64_LIMIT && tdelta < U64_LIMIT && 0 < period < 0x1_0000_0000
    ensures hdelta * period > 0
    ensures tdelta * FEMTO / (hdelta * period) * ms < U128_LIMIT ==>
      var cycles := Cycles(hdelta, tdelta, period, ms);
      stored == if cycles == 0 then previous else cycles % U64_LIMIT
  {
    stored := previous;
    NoOverflow(hdelta, tdelta, period, 0);
    var num := SaturatingMul(tdelta, FEMTO);
    var den := SaturatingMul(hdelta, period);
    if den != 0 {
      var cycles := FloorCycles(num, den, ms);
      if cycles > 0 {
        stored := cycles % U64_LIMIT;
      }
    }
  }
}
