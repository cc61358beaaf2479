/**
 Sizing the base address registers of a PCI function (`src/devices/pci.rs`): write all
 ones, read the mask back, restore.  A register may latch a write in any way; a BAR of
 size 2^k keeps the address bits from k up and hardwires its flag bits, as section
 6.2.5.1 of the PCI Local Bus Specification 3.0 says.
 */
module PciBars {
  import opened Common

  datatype Kind = PortIo | MemoryMapped
  datatype Resource = Resource(kind: Kind, addr: nat, len: nat)

  const WORD: nat := 0x1_0000_0000
  const ALL_ONES: nat := 0xFFFF_FFFF

  /** The dword registers from offset 0x10: six BARs and the dword after them (0x28). */
  const REGISTERS: nat := 7

  // ---------------------------------------------------------------- address bits

  /** The low `k` bits of `x` are zero: `x` is a multiple of 2^k. */
  predicate Aligned(x: nat, k: nat) {
    k == 0 || (x % 2 == 0 && Aligned(x / 2, k - 1))
  }

  /** `v` with its low `k` bits cleared. */
  function ClearLow(v: nat, k: nat): nat {
    if k == 0 then v else 2 * ClearLow(v / 2, k - 1)
  }

  /** A register of a block of 2^k bytes: the address bits below k are wired to the flags. */
  function Latch(k: nat, flags: nat, v: nat): nat { ClearLow(v, k) + flags }

  /** Clearing low bits rounds down to the nearest multiple of 2^k. */
  lemma {:induction false} ClearLowRounds(v: nat, k: nat)
    ensures v - Pow2(k) < ClearLow(v, k) <= v && Aligned(ClearLow(v, k), k)
  {
    if k == 0 {
    } else {
      ClearLowRounds(v / 2, k - 1);
    }
  }

  /** Bit by bit: a block's register keeps the address bits from k up and none below. */
  lemma {:induction false} ClearLowBits(v: nat, k: nat, j: nat)
    ensures Bit(ClearLow(v, k), j) <==> j >= k && Bit(v, j)
  {
    if k == 0 || j == 0 {
    } else {
      ClearLowBits(v / 2, k - 1, j - 1);
    }
  }

  /** The mask a sizing write reads back: all ones above the block size. */
  lemma {:induction false} ClearLowOnes(n: nat, k: nat)
    requires k <= n
    ensures Pow2(k) <= Pow2(n) && ClearLow(Pow2(n) - 1, k) == Pow2(n) - Pow2(k)
  {
    if k == 0 {
    } else {
      assert (Pow2(n) - 1) / 2 == Pow2(n - 1) - 1;
      ClearLowOnes(n - 1, k - 1);
    }
  }

  /** Flags below the block size are all that clearing removes from an aligned address. */
  lemma {:induction false} ClearLowFlags(base: nat, flags: nat, k: nat)
    requires Aligned(base, k) && flags < Pow2(k)
    ensures ClearLow(base + flags, k) == base
  {
    if k == 0 {
    } else {
      assert (base + flags) / 2 == base / 2 + flags / 2;
      ClearLowFlags(base / 2, flags / 2, k - 1);
    }
  }

  lemma {:induction false} CoarserAlignment(x: nat, j: nat, k: nat)
    requires j <= k && Aligned(x, k)
    ensures Aligned(x, j)
  {
    if j == 0 {
    } else {
      CoarserAlignment(x / 2, j - 1, k - 1);
    }
  }

  lemma Aligned4(x: nat)
    requires Aligned(x, 2)
    ensures x % 4 == 0
  {
    assert Aligned(x / 2, 1) && x / 2 % 2 == 0;
  }

  lemma Aligned16(x: nat)
    requires Aligned(x, 4)
    ensures x % 16 == 0
  {
    assert Aligned(x / 2, 3) && Aligned(x / 2 / 2, 2);
    Aligned4(x / 2 / 2);
    QuarterQuarter(x);
  }

  lemma QuarterQuarter(x: nat)
    requires x % 2 == 0 && x / 2 % 2 == 0 && x / 2 / 2 % 4 == 0
    ensures x % 16 == 0
  {
    var h := x / 2;
    var q := h / 2;
    var m := q / 4;
    assert x == 2 * h;
    assert h == 2 * q;
    assert q == 4 * m;
    Remainder16(m, 0);
  }

  lemma Pow2Halves(k: nat)
    requires k >= 4
    ensures Pow2(k) == 4 * Pow2(k - 2) == 16 * Pow2(k - 4)
  {
    assert Pow2(k) == 2 * Pow2(k - 1) && Pow2(k - 1) == 2 * Pow2(k - 2);
    assert Pow2(k - 2) == 2 * Pow2(k - 3) && Pow2(k - 3) == 2 * Pow2(k - 4);
  }

  lemma {:induction false} Pow2Grows(j: nat, k: nat)
    requires j <= k
    ensures Pow2(j) <= Pow2(k)
  {
    if j == k {
    } else {
      Pow2Grows(j, k - 1);
    }
  }

  lemma Pow2Words()
    ensures Pow2(4) == 16 && Pow2(16) == 0x1_0000 && Pow2(31) == 0x8000_0000 && Pow2(32) == WORD
  {
    assert Pow2(4) == 16;
    assert Pow2(8) == 0x100;
    assert Pow2(12) == 0x1000;
    assert Pow2(16) == 0x1_0000;
    assert Pow2(20) == 0x10_0000;
    assert Pow2(24) == 0x100_0000;
    assert Pow2(28) == 0x1000_0000;
    assert Pow2(31) == 0x8000_0000;
  }

  // ---------------------------------------------------------------- what a function implements

  /** One BAR slot of a function's layout; a size is 2 to the given exponent. */
  datatype Slot =
    | Empty
    | Io(base: nat, exponent: nat, width: nat)                      // decodes `width` address bits
    | Memory32(base: nat, exponent: nat, flags: nat)
    | Memory64(low: nat, high: nat, exponent: nat, prefetch: bool)  // base = high * 2^32 + low
    | UpperHalf                                                     // second dword of the Memory64 before it

  function LowBits(k: nat): nat { if k <= 32 then k else 32 }

  function HighBits(k: nat): nat { if k <= 32 then 0 else k - 32 }

  /** Naturally aligned, no smaller than the encoding allows, and in the address space. */
  predicate WellFormed(s: Slot) {
    match s
    case Empty => true
    case UpperHalf => true
    case Io(base, k, n) => 2 <= k < n <= 32 && base < Pow2(n) && Aligned(base, k)
    case Memory32(base, k, flags) =>
      4 <= k <= 31 && base < WORD && Aligned(base, k) && flags in {0, 2, 6, 8, 10, 14}
    case Memory64(low, high, k, _) =>
      4 <= k <= 63 && low < WORD && high < WORD && Aligned(low, LowBits(k)) && Aligned(high, HighBits(k))
  }

  function WideFlags(prefetch: bool): nat { if prefetch then 12 else 4 }

  /** A layout: a 64-bit BAR is followed by its upper half and does not sit in the last slot. */
  predicate Layout(slots: seq<Slot>) {
    && |slots| == 6
    && (forall i :: 0 <= i < 6 ==> WellFormed(slots[i]))
    && (forall i :: 0 <= i < 6 && slots[i].Memory64? ==> i < 5 && slots[i + 1].UpperHalf?)
    && (forall i :: 0 < i < 6 && slots[i].UpperHalf? ==> slots[i - 1].Memory64?)
    && !slots[0].UpperHalf?
  }

  /** A BAR whose register reads zero cannot be told from an absent one. */
  predicate Visible(s: Slot) {
    match s
    case Empty => false
    case UpperHalf => false
    case Io(_, _, _) => true
    case Memory32(base, _, flags) => base != 0 || flags != 0
    case Memory64(_, _, _, _) => true
  }

  function Claim(s: Slot): Resource
    requires Visible(s)
  {
    match s
    case Io(base, k, _) => Resource(PortIo, base, Pow2(k))
    case Memory32(base, k, _) => Resource(MemoryMapped, base, Pow2(k))
    case Memory64(low, high, k, _) => Resource(MemoryMapped, high * WORD + low, Pow2(k))
  }

  /** The address ranges the slots from `i` on decode, in slot order. */
  function Claims(slots: seq<Slot>, i: nat): seq<Resource>
    decreases |slots| - i
  {
    if i >= |slots| then []
    else (if Visible(slots[i]) then [Claim(slots[i])] else []) + Claims(slots, i + 1)
  }

  /** What the loop makes of a slot: an IO BAR seems to reach over all the address bits it does not decode. */
  function Reported(s: Slot): Resource
    requires Visible(s) && WellFormed(s)
  {
    match s
    case Io(base, k, n) =>
      WordBits(n);
      Resource(PortIo, base, WORD - Pow2(n) + Pow2(k))
    case _ => Claim(s)
  }

  function Reports(slots: seq<Slot>, i: nat): seq<Resource>
    requires forall j :: 0 <= j < |slots| ==> WellFormed(slots[j])
    decreases |slots| - i
  {
    if i >= |slots| then []
    else (if Visible(slots[i]) then [Reported(slots[i])] else []) + Reports(slots, i + 1)
  }

  /** A slot is reported as what it decodes exactly if it is no IO BAR or decodes all 32 bits. */
  lemma ReportedIsClaim(s: Slot)
    requires Visible(s) && WellFormed(s)
    ensures Reported(s) == Claim(s) <==> (s.Io? ==> s.width == 32)
  {
    if s.Io? {
      WordBits(s.width);
    }
  }

  /** The report is right exactly if every IO BAR decodes all 32 address bits. */
  lemma {:induction false} ReportsAreClaims(slots: seq<Slot>, i: nat)
    requires forall j :: 0 <= j < |slots| ==> WellFormed(slots[j])
    ensures |Reports(slots, i)| == |Claims(slots, i)|
    ensures Reports(slots, i) == Claims(slots, i) <==> forall j :: i <= j < |slots| && slots[j].Io? ==> slots[j].width == 32
    decreases |slots| - i
  {
    if i >= |slots| {
    } else {
      ReportsAreClaims(slots, i + 1);
      if Visible(slots[i]) {
        ReportedIsClaim(slots[i]);
        var a, b := [Reported(slots[i])] + Reports(slots, i + 1), [Claim(slots[i])] + Claims(slots, i + 1);
        assert a == b <==> a[0] == b[0] && a[1..] == b[1..];
        assert a[1..] == Reports(slots, i + 1) && b[1..] == Claims(slots, i + 1);
      } else {
        assert Reports(slots, i) == Reports(slots, i + 1) && Claims(slots, i) == Claims(slots, i + 1);
      }
    }
  }

  // ---------------------------------------------------------------- mask arithmetic

  /** `(!(mask & 0xFFFF_FFFC)).wrapping_add(1)` */
  function IoLength(mask: nat): nat { (ALL_ONES - (mask - mask % 4) + 1) % WORD }

  /** `(!(mask & !0xF)).wrapping_add(1)` in 32 bits */
  function MemLength(mask: nat): nat { (ALL_ONES - (mask - mask % 16) + 1) % WORD }

  /** `(!(mask64 & !0xF)).wrapping_add(1)` in 64 bits, from the two halves */
  function WideLength(high: nat, low: nat): nat {
    var mask := high * WORD + low;
    (WORD * WORD - 1 - (mask - mask % 16) + 1) % (WORD * WORD)
  }

  lemma Remainder16(b: nat, flags: nat)
    requires flags < 16
    ensures (16 * b + flags) % 16 == flags
  {
  }

  lemma Remainder2(b: nat, flags: nat)
    ensures (16 * b + flags) % 2 == flags % 2
  {
    assert 16 * b + flags == 2 * (8 * b) + flags;
  }

  lemma TypeBits(b: nat, flags: nat)
    ensures (16 * b + flags) / 2 % 4 == flags / 2 % 4
  {
    assert (16 * b + flags) / 2 == 8 * b + flags / 2;
    Remainder4(b, flags / 2);
  }

  lemma Remainder4(b: nat, f: nat)
    ensures (8 * b + f) % 4 == f % 4
  {
  }

  /** How the loop reads a register that holds an aligned memory address and its flags. */
  lemma MemoryBits(base: nat, flags: nat)
    requires base % 16 == 0 && flags < 16
    ensures
      var orig := base + flags;
      && orig - orig % 16 == base && orig % 2 == flags % 2 && orig / 2 % 4 == flags / 2 % 4
  {
    var b := base / 16;
    assert base == 16 * b;
    Remainder16(b, flags);
    Remainder2(b, flags);
    TypeBits(b, flags);
  }

  /** How the loop reads a register that holds an aligned port address and its flag. */
  lemma IoBits(base: nat)
    requires base % 4 == 0
    ensures (base + 1) % 2 == 1 && base + 1 - (base + 1) % 4 == base && base + 1 != ALL_ONES
  {
    var b := base / 4;
    assert base == 4 * b;
    assert (4 * b + 1) % 4 == 1;
    assert ALL_ONES % 4 == 3;
  }

  lemma MemLengthExact(q: nat, flags: nat)
    requires 0 < 16 * q < WORD && flags < 16
    ensures MemLength(WORD - 16 * q + flags) == 16 * q
  {
    Remainder16(WORD / 16 - q, flags);
  }

  lemma WideLengthExact(mask: nat, maskHigh: nat, q: nat, p: nat, flags: nat, size: nat)
    requires 0 < 16 * q <= WORD && 0 < p < WORD && flags < 16
    requires mask == WORD - 16 * q + flags && maskHigh == WORD - p && size == (p - 1) * WORD + 16 * q
    ensures WideLength(maskHigh, mask) == size
  {
    Remainder16((WORD - p) * (WORD / 16) + WORD / 16 - q, flags);
  }

  /** The mask a 32-bit register of 2^k bytes reads back. */
  lemma MaskReadBack(k: nat, flags: nat)
    requires k <= 32
    ensures 0 < Pow2(k) <= WORD && Latch(k, flags, ALL_ONES) == WORD - Pow2(k) + flags
  {
    Pow2Words();
    ClearLowOnes(32, k);
  }

  /** The register of an IO slot takes the IO branch and yields its base and the apparent size. */
  lemma IoDecodes(base: nat, k: nat, n: nat)
    requires 2 <= k < n <= 32 && Aligned(base, k)
    ensures base % 4 == 0 && Pow2(n) <= WORD
    ensures IoLength(Latch(k, 1, Pow2(n) - 1)) == WORD - Pow2(n) + Pow2(k)
  {
    CoarserAlignment(base, 2, k);
    Aligned4(base);
    NarrowMask(k, n);
    WordBits(n);
    Pow2Doubles(k);
    Pow2Doubles(n);
    NarrowIoLength(Pow2(n - 2), Pow2(k - 2));
  }

  /** The register of a 32-bit memory slot yields the slot's range. */
  lemma Mem32Decodes(base: nat, k: nat, flags: nat)
    requires 4 <= k <= 31 && Aligned(base, k) && flags < 16
    ensures base % 16 == 0 && MemLength(Latch(k, flags, ALL_ONES)) == Pow2(k)
    ensures Latch(k, flags, base + flags) == base + flags
  {
    CoarserAlignment(base, 4, k);
    Aligned16(base);
    MaskReadBack(k, flags);
    WordBits(k);
    Pow2Halves(k);
    MemLengthExact(Pow2(k - 4), flags);
    ClearLowFlags(base, flags, k);
  }

  /** The low dword decodes the size up to 4 GiB, the high dword what lies beyond. */
  lemma SizeHalves(k: nat)
    requires 4 <= k <= 63
    ensures Pow2(LowBits(k)) == 16 * Pow2(LowBits(k) - 4) && Pow2(LowBits(k)) <= WORD && Pow2(HighBits(k)) < WORD
    ensures (Pow2(HighBits(k)) - 1) * WORD + Pow2(LowBits(k)) == Pow2(k)
  {
    Pow2Words();
    Pow2Halves(LowBits(k));
    Pow2Grows(LowBits(k), 32);
    Pow2Grows(HighBits(k), 31);
    if k > 32 {
      Pow2PastWord(k);
    }
  }

  lemma {:induction false} Pow2PastWord(k: nat)
    requires k >= 32
    ensures Pow2(k) == Pow2(k - 32) * WORD
  {
    if k == 32 {
      Pow2Words();
    } else {
      Pow2PastWord(k - 1);
    }
  }

  /** The masks of a 64-bit memory slot yield its size. */
  lemma WideMasks(k: nat, flags: nat)
    requires 4 <= k <= 63 && flags < 16
    ensures WideLength(Latch(HighBits(k), 0, ALL_ONES), Latch(LowBits(k), flags, ALL_ONES)) == Pow2(k)
  {
    SizeHalves(k);
    MaskReadBack(LowBits(k), flags);
    MaskReadBack(HighBits(k), 0);
    WideLengthExact(Latch(LowBits(k), flags, ALL_ONES), Latch(HighBits(k), 0, ALL_ONES),
                    Pow2(LowBits(k) - 4), Pow2(HighBits(k)), flags, Pow2(k));
  }

  /** The registers of a 64-bit memory slot yield the slot's range. */
  lemma Mem64Decodes(low: nat, high: nat, k: nat, flags: nat)
    requires 4 <= k <= 63 && Aligned(low, LowBits(k)) && Aligned(high, HighBits(k)) && flags < 16
    ensures low % 16 == 0
    ensures WideLength(Latch(HighBits(k), 0, ALL_ONES), Latch(LowBits(k), flags, ALL_ONES)) == Pow2(k)
    ensures Latch(LowBits(k), flags, low + flags) == low + flags && Latch(HighBits(k), 0, high) == high
  {
    CoarserAlignment(low, 4, LowBits(k));
    Aligned16(low);
    WideMasks(k, flags);
    Pow2AtLeast16(LowBits(k));
    ClearLowFlags(low, flags, LowBits(k));
    ClearLowFlags(high, 0, HighBits(k));
  }

  lemma Pow2AtLeast16(k: nat)
    requires k >= 4
    ensures Pow2(k) >= 16
  {
    Pow2Grows(4, k);
    Pow2Words();
  }

  /** An IO BAR of 4q bytes that decodes 4p addresses is reported as long as the whole undecoded range and its size. */
  lemma NarrowIoLength(p: nat, q: nat)
    requires 0 < q < p && 4 * p <= WORD
    ensures IoLength(4 * p - 4 * q + 1) == WORD - 4 * p + 4 * q
  {
    assert 4 * p - 4 * q + 1 == 4 * (p - q) + 1;
  }

  /** The mask such a register reads back. */
  lemma NarrowMask(k: nat, n: nat)
    requires k < n
    ensures Pow2(k) < Pow2(n) && Latch(k, 1, Pow2(n) - 1) == Pow2(n) - Pow2(k) + 1
  {
    ClearLowOnes(n, k);
    Pow2Rises(k, n);
  }

  lemma WordBits(n: nat)
    requires n <= 32
    ensures Pow2(n) <= WORD && (Pow2(n) == WORD <==> n == 32)
  {
    Pow2Words();
    Pow2Grows(n, 32);
    if n < 32 {
      Pow2Rises(n, 32);
    }
  }

  /**
   An IO BAR that decodes only the low `n` address bits reads zeros above them: the size
   reported is the true one exactly when all 32 bits are decoded.
   */
  lemma IoSizeExactly(k: nat, n: nat)
    requires 2 <= k < n <= 32
    ensures IoLength(Latch(k, 1, Pow2(n) - 1)) == Pow2(k) <==> n == 32
  {
    NarrowMask(k, n);
    WordBits(n);
    Pow2Doubles(k);
    Pow2Doubles(n);
    NarrowIoLength(Pow2(n - 2), Pow2(k - 2));
  }

  lemma Pow2Doubles(k: nat)
    requires k >= 2
    ensures Pow2(k) == 4 * Pow2(k - 2)
  {
    assert Pow2(k) == 2 * Pow2(k - 1) && Pow2(k - 1) == 2 * Pow2(k - 2);
  }

  lemma Pow2Rises(j: nat, k: nat)
    requires j < k
    ensures Pow2(j) < Pow2(k)
  {
    Pow2Grows(j, k - 1);
  }

  // ---------------------------------------------------------------- decoding one slot

  /** The register values and read-back masks of a slot that follows the sizing rule. */
  predicate Matches(s: Slot, orig: nat, origHigh: nat, mask: nat, maskHigh: nat) {
    match s
    case Empty => orig == 0
    case UpperHalf => true
    case Io(base, k, n) => orig == base + 1 && mask == Latch(k, 1, Pow2(n) - 1)
    case Memory32(base, k, flags) => orig == base + flags && mask == Latch(k, flags, ALL_ONES)
    case Memory64(low, high, k, prefetch) =>
      && orig == low + WideFlags(prefetch) && origHigh == high
      && mask == Latch(LowBits(k), WideFlags(prefetch), ALL_ONES) && maskHigh == Latch(HighBits(k), 0, ALL_ONES)
  }

  /** What one round of the loop reports and how many slots it consumes. */
  function Report(orig: nat, origHigh: nat, mask: nat, maskHigh: nat): (seq<Resource>, nat) {
    if orig == 0 || orig == ALL_ONES then ([], 1)
    else if orig % 2 == 1 then ([Resource(PortIo, orig - orig % 4, IoLength(mask))], 1)
    else if orig / 2 % 4 == 2 then
      ([Resource(MemoryMapped, origHigh * WORD + (orig - orig % 16), WideLength(maskHigh, mask))], 2)
    else ([Resource(MemoryMapped, orig - orig % 16, MemLength(mask))], 1)
  }

  /** A slot that follows the rule is reported as `Reported` says, a 64-bit one together with its upper half. */
  lemma ReportsClaim(s: Slot, orig: nat, origHigh: nat, mask: nat, maskHigh: nat)
    requires WellFormed(s) && !s.UpperHalf? && Matches(s, orig, origHigh, mask, maskHigh)
    ensures Report(orig, origHigh, mask, maskHigh) ==
      (if Visible(s) then [Reported(s)] else [], if s.Memory64? then 2 else 1)
  {
    match s {
      case Io(base, k, n) => IoReports(base, k, n, origHigh, maskHigh);
      case Memory32(base, k, flags) => Mem32Reports(base, k, flags, origHigh, maskHigh);
      case Memory64(low, high, k, prefetch) => Mem64Reports(low, high, k, prefetch);
      case Empty =>
    }
  }

  lemma IoReports(base: nat, k: nat, n: nat, origHigh: nat, maskHigh: nat)
    requires 2 <= k < n <= 32 && Aligned(base, k)
    ensures Pow2(n) <= WORD
    ensures Report(base + 1, origHigh, Latch(k, 1, Pow2(n) - 1), maskHigh) ==
      ([Resource(PortIo, base, WORD - Pow2(n) + Pow2(k))], 1)
  {
    IoDecodes(base, k, n);
    IoBits(base);
  }

  lemma Mem32Reports(base: nat, k: nat, flags: nat, origHigh: nat, maskHigh: nat)
    requires 4 <= k <= 31 && Aligned(base, k) && flags in {0, 2, 6, 8, 10, 14}
    ensures
      Report(base + flags, origHigh, Latch(k, flags, ALL_ONES), maskHigh) ==
        (if base + flags == 0 then [] else [Resource(MemoryMapped, base, Pow2(k))], 1)
  {
    Mem32Decodes(base, k, flags);
    NarrowReport(base, flags, Latch(k, flags, ALL_ONES), origHigh, maskHigh);
  }

  lemma NarrowReport(base: nat, flags: nat, mask: nat, origHigh: nat, maskHigh: nat)
    requires base % 16 == 0 && flags in {0, 2, 6, 8, 10, 14}
    ensures
      Report(base + flags, origHigh, mask, maskHigh) ==
        (if base + flags == 0 then [] else [Resource(MemoryMapped, base, MemLength(mask))], 1)
  {
    MemoryBits(base, flags);
  }

  lemma Mem64Reports(low: nat, high: nat, k: nat, prefetch: bool)
    requires 4 <= k <= 63 && Aligned(low, LowBits(k)) && Aligned(high, HighBits(k))
    ensures
      Report(low + WideFlags(prefetch), high,
             Latch(LowBits(k), WideFlags(prefetch), ALL_ONES), Latch(HighBits(k), 0, ALL_ONES)) ==
        ([Resource(MemoryMapped, high * WORD + low, Pow2(k))], 2)
  {
    Mem64Decodes(low, high, k, WideFlags(prefetch));
    WideReport(low, high, WideFlags(prefetch),
               Latch(LowBits(k), WideFlags(prefetch), ALL_ONES), Latch(HighBits(k), 0, ALL_ONES), Pow2(k));
  }

  lemma WideReport(low: nat, high: nat, flags: nat, mask: nat, maskHigh: nat, size: nat)
    requires low % 16 == 0 && (flags == 4 || flags == 12) && WideLength(maskHigh, mask) == size
    ensures Report(low + flags, high, mask, maskHigh) == ([Resource(MemoryMapped, high * WORD + low, size)], 2)
  {
    MemoryBits(low, flags);
  }

  // ---------------------------------------------------------------- the probe

  class ConfigSpace {
    const latch: (nat, nat) -> nat   // what register `i` holds after `v` is written to it
    const regs: array<nat>

    constructor (latch: (nat, nat) -> nat, regs: array<nat>)
      ensures this.latch == latch && this.regs == regs
    {
      this.latch, this.regs := latch, regs;
    }

    /** Writing a register's current value back leaves it as it is. */
    ghost predicate Valid()
      reads this, regs
    {
      regs.Length == REGISTERS && forall i :: 0 <= i < REGISTERS ==> latch(i, regs[i]) == regs[i]
    }

    /** `ecam_write` */
    method Write(i: nat, v: nat)
      requires i < regs.Length
      modifies regs
      ensures regs[i] == latch(i, v) && forall j :: 0 <= j < regs.Length && j != i ==> regs[j] == old(regs[j])
    {
      regs[i] := latch(i, v);
    }
  }

  /** The registers hold and latch what the layout says. */
  ghost predicate Implements(slots: seq<Slot>, regs: seq<nat>, latch: (nat, nat) -> nat) {
    && Layout(slots) && |regs| == REGISTERS
    && forall i :: 0 <= i < 6 ==>
         Matches(slots[i], regs[i], regs[i + 1], latch(i, ALL_ONES), latch(i + 1, ALL_ONES))
  }

  /** Write all ones, read the mask, restore. */
  method SizeRegister(c: ConfigSpace, i: nat) returns (mask: nat)
    requires c.Valid() && i < REGISTERS
    modifies c.regs
    ensures c.regs[..] == old(c.regs[..]) && mask == c.latch(i, ALL_ONES)
  {
    var orig := c.regs[i];
    c.Write(i, ALL_ONES);
    mask := c.regs[i];
    c.Write(i, orig);
  }

  /** Write all ones to both halves, read both masks, restore both. */
  method SizePair(c: ConfigSpace, i: nat) returns (low: nat, high: nat)
    requires c.Valid() && i + 1 < REGISTERS
    modifies c.regs
    ensures c.regs[..] == old(c.regs[..]) && low == c.latch(i, ALL_ONES) && high == c.latch(i + 1, ALL_ONES)
  {
    var orig, origHigh := c.regs[i], c.regs[i + 1];
    c.Write(i, ALL_ONES);
    c.Write(i + 1, ALL_ONES);
    low, high := c.regs[i], c.regs[i + 1];
    c.Write(i, orig);
    c.Write(i + 1, origHigh);
  }

  /** The body of the loop: the ranges found and the slots consumed, for any register contents. */
  method ReadSlot(c: ConfigSpace, i: nat) returns (found: seq<Resource>, step: nat)
    requires c.Valid() && i < 6
    modifies c.regs
    ensures c.regs[..] == old(c.regs[..])
    ensures (found, step) == Report(c.regs[i], c.regs[i + 1], c.latch(i, ALL_ONES), c.latch(i + 1, ALL_ONES))
  {
    var orig := c.regs[i];
    found, step := [], 1;
    if orig == 0 || orig == ALL_ONES {
      return;
    }
    if orig % 2 == 1 {
      var mask := SizeRegister(c, i);
      found := [Resource(PortIo, orig - orig % 4, IoLength(mask))];
    } else if orig / 2 % 4 == 2 {
      var origHigh := c.regs[i + 1];
      var low, high := SizePair(c, i);
      found := [Resource(MemoryMapped, origHigh * WORD + (orig - orig % 16), WideLength(high, low))];
      step := 2;
    } else {
      var mask := SizeRegister(c, i);
      found := [Resource(MemoryMapped, orig - orig % 16, MemLength(mask))];
    }
  }

  lemma ReportStep(slots: seq<Slot>, regs: seq<nat>, latch: (nat, nat) -> nat, i: nat)
    requires Implements(slots, regs, latch) && i < 6 && !slots[i].UpperHalf?
    ensures
      var (found, step) := Report(regs[i], regs[i + 1], latch(i, ALL_ONES), latch(i + 1, ALL_ONES));
      && Reports(slots, i) == found + Reports(slots, i + step)
      && (i + step < 6 ==> !slots[i + step].UpperHalf?)
  {
    assert Matches(slots[i], regs[i], regs[i + 1], latch(i, ALL_ONES), latch(i + 1, ALL_ONES));
    ReportsClaim(slots[i], regs[i], regs[i + 1], latch(i, ALL_ONES), latch(i + 1, ALL_ONES));
    SlotStep(slots, i);
  }

  /** What the loop returns from slot `i` on, having found `done`, for any register contents. */
  function LoopFrom(regs: seq<nat>, latch: (nat, nat) -> nat, i: nat, done: seq<Resource>): seq<Resource>
    requires |regs| == REGISTERS
    decreases 6 - i
  {
    if i >= 6 then done
    else
      var (found, step) := Report(regs[i], regs[i + 1], latch(i, ALL_ONES), latch(i + 1, ALL_ONES));
      if step == 2 then LoopFrom(regs, latch, i + 2, done + found) else LoopFrom(regs, latch, i + 1, done + found)
  }

  lemma ReportSteps(orig: nat, origHigh: nat, mask: nat, maskHigh: nat)
    ensures Report(orig, origHigh, mask, maskHigh).1 == 1 || Report(orig, origHigh, mask, maskHigh).1 == 2
  {
  }

  /** On hardware that follows the rule the loop reports each slot once. */
  lemma {:induction false} LoopReportsSlots(slots: seq<Slot>, regs: seq<nat>, latch: (nat, nat) -> nat, i: nat, done: seq<Resource>)
    requires Implements(slots, regs, latch) && (i < 6 ==> !slots[i].UpperHalf?)
    ensures LoopFrom(regs, latch, i, done) == done + Reports(slots, i)
    decreases 6 - i
  {
    if i >= 6 {
      assert done + [] == done;
    } else {
      var (found, step) := Report(regs[i], regs[i + 1], latch(i, ALL_ONES), latch(i + 1, ALL_ONES));
      ReportSteps(regs[i], regs[i + 1], latch(i, ALL_ONES), latch(i + 1, ALL_ONES));
      ReportStep(slots, regs, latch, i);
      LoopReportsSlots(slots, regs, latch, i + step, done + found);
      Regroup(done, found, Reports(slots, i + step));
    }
  }

  lemma Regroup(a: seq<Resource>, b: seq<Resource>, c: seq<Resource>)
    ensures a + b + c == a + (b + c)
  {
  }

  /**
   The BAR loop.  Whatever the registers latch, every register ends at its original
   value; and on hardware that follows the sizing rule the result is the list of slots as
   `Reported` says, and the address ranges the function decodes exactly if every IO BAR
   decodes all 32 address bits.
   */
  method ProbeBars(c: ConfigSpace, ghost slots: seq<Slot>) returns (resources: seq<Resource>)
    requires c.Valid()
    modifies c.regs
    ensures c.regs[..] == old(c.regs[..])
    ensures Implements(slots, old(c.regs[..]), c.latch) ==>
      && resources == Reports(slots, 0)
      && (resources == Claims(slots, 0) <==> forall j :: 0 <= j < 6 && slots[j].Io? ==> slots[j].width == 32)
  {
    resources := ProbeFrom(c, 0);
    if Implements(slots, c.regs[..], c.latch) {
      LoopReportsSlots(slots, c.regs[..], c.latch, 0, []);
      assert [] + Reports(slots, 0) == Reports(slots, 0);
      ReportsAreClaims(slots, 0);
    }
  }

  method ProbeFrom(c: ConfigSpace, first: nat) returns (resources: seq<Resource>)
    requires c.Valid()
    modifies c.regs
    ensures c.regs[..] == old(c.regs[..]) && resources == LoopFrom(c.regs[..], c.latch, first, [])
  {
    ghost var before := c.regs[..];
    resources := [];
    var i := first;
    while i < 6
      invariant c.regs[..] == before && c.Valid()
      invariant LoopFrom(before, c.latch, i, resources) == LoopFrom(before, c.latch, first, [])
      decreases if i < 6 then 6 - i else 0
    {
      i, resources := Round(c, i, resources);
    }
  }

  /** One round of the loop. */
  method Round(c: ConfigSpace, i: nat, done: seq<Resource>) returns (next: nat, more: seq<Resource>)
    requires c.Valid() && i < 6
    modifies c.regs
    ensures c.regs[..] == old(c.regs[..]) && c.Valid() && next > i
    ensures LoopFrom(c.regs[..], c.latch, next, more) == LoopFrom(c.regs[..], c.latch, i, done)
  {
    var found, step := ReadSlot(c, i);
    ReportSteps(c.regs[i], c.regs[i + 1], c.latch(i, ALL_ONES), c.latch(i + 1, ALL_ONES));
    next, more := i + step, done + found;
  }

  /** Consuming a slot, with its upper half if it has one, yields that slot's range. */
  lemma SlotStep(slots: seq<Slot>, i: nat)
    requires Layout(slots) && i < 6
    ensures
      var next := if slots[i].Memory64? then i + 2 else i + 1;
      && Reports(slots, i) == (if Visible(slots[i]) then [Reported(slots[i])] else []) + Reports(slots, next)
      && (next < 6 ==> !slots[next].UpperHalf?)
  {
    if slots[i].Memory64? {
      assert slots[i + 1].UpperHalf?;
      assert Reports(slots, i + 1) == [] + Reports(slots, i + 2);
    }
  }
}
