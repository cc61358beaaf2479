/**
 Programming the IOAPIC redirection tables (`src/hal/ioapic.rs`, `src/hal/hal.rs`).
 An IOAPIC is reached through a select register and a data window; entry `e` of its table
 is the pair of 32-bit registers `0x10 + 2e` (low) and `0x11 + 2e` (high).
 */
module Ioapic {
  import opened Common

  datatype IoApic = IoApic(id: nat, physAddr: nat, gsiBase: nat, entries: nat)
  datatype Iso = Iso(bus: nat, source: Byte, gsi: nat, flags: nat)

  /** One redirection entry. */
  datatype Entry = Entry(low: nat, high: nat)

  type Registers = seq<seq<nat>>

  // ---------------------------------------------------------------- fields of an entry

  const MASK_BIT: nat := 0x1_0000
  const DEST_UNIT: nat := 0x100_0000

  predicate Masked(low: nat) { low / MASK_BIT % 2 == 1 }

  function Vector(low: nat): nat { low % 256 }

  function Destination(high: nat): nat { high / DEST_UNIT }

  lemma UpperHalf(h: nat, b: nat)
    requires b < MASK_BIT
    ensures (MASK_BIT * h + b) / MASK_BIT == h
  {
  }

  lemma LowByte(h: nat, b: nat)
    ensures (MASK_BIT * h + b) % 256 == b % 256
  {
    assert MASK_BIT * h + b == 256 * (256 * h) + b;
  }

  lemma ReplacedByte(q: nat, v: nat)
    requires v < 256
    ensures (256 * q + v) % 256 == v
  {
  }

  lemma UpperOfByte(q: nat, v: nat)
    requires v < 256
    ensures (256 * q + v) / MASK_BIT == q / 256
  {
    assert q == 256 * (q / 256) + q % 256;
    UpperHalf(q / 256, 256 * (q % 256) + v);
  }

  /** `low & !(1 << 16)`: clears the mask bit and nothing else. */
  function Unmask(low: nat): (r: nat)
    ensures !Masked(r) && Vector(r) == Vector(low) && (!Masked(low) ==> r == low)
  {
    if !Masked(low) then low
    else
      var h, b := low / MASK_BIT, low % MASK_BIT;
      assert low == MASK_BIT * h + b && low - MASK_BIT == MASK_BIT * (h - 1) + b;
      UpperHalf(h - 1, b);
      LowByte(h - 1, b);
      LowByte(h, b);
      low - MASK_BIT
  }

  /** `(low & !0xFF) | vector`: sets the vector and leaves the mask bit alone. */
  function WithVector(low: nat, vector: Byte): (r: nat)
    ensures Vector(r) == vector && (Masked(r) <==> Masked(low))
  {
    var q := low / 256;
    assert low == 256 * q + low % 256;
    ReplacedByte(q, vector);
    UpperOfByte(q, vector);
    UpperOfByte(q, low % 256);
    low - low % 256 + vector
  }

  /** `(vector & 0xFF) | (1 << 16)` */
  function MaskedVector(vector: nat): (r: nat)
    ensures Masked(r) && Vector(r) == vector % 256
  {
    UpperHalf(1, vector % 256);
    LowByte(1, vector % 256);
    vector % 256 + MASK_BIT
  }

  // ---------------------------------------------------------------- bit by bit

  lemma MaskIsBit16(low: nat)
    ensures Masked(low) <==> Bit(low, 16)
  {
    BitsOfByteQuotient(low, 8);
    BitsOfByteQuotient(low / 256, 0);
    assert low / 256 / 256 == low / 0x1_0000;
  }

  /** Unmasking clears bit 16 and keeps every other bit: vector, delivery and destination mode, polarity, trigger. */
  lemma UnmaskBits(low: nat, k: nat)
    ensures Bit(Unmask(low), k) <==> k != 16 && Bit(low, k)
  {
    MaskIsBit16(low);
    if Masked(low) {
      assert Pow2(8) == 0x100;
      assert Pow2(16) == 0x1_0000;
      BitCleared(low, 16, k);
    } else if k == 16 {
      MaskIsBit16(Unmask(low));
    }
  }

  /** Setting the vector replaces the low eight bits and keeps every bit from 8 up. */
  lemma WithVectorBits(low: nat, vector: Byte, k: nat)
    ensures Bit(WithVector(low, vector), k) <==> if k < 8 then Bit(vector, k) else Bit(low, k)
  {
    var q := low / 256;
    assert WithVector(low, vector) == 256 * q + vector;
    if k < 8 {
      assert Pow2(8) == 256;
      BitsBelow(q, vector, 8, k);
    } else {
      BitsOfByteQuotient(WithVector(low, vector), k - 8);
      BitsOfByteQuotient(low, k - 8);
      ByteQuotient(q, vector);
    }
  }

  lemma ByteQuotient(q: nat, v: Byte)
    ensures (256 * q + v) / 256 == q
  {
  }

  // ---------------------------------------------------------------- routing

  /** The first IOAPIC whose window contains the interrupt, and the entry within it. */
  function Find(table: seq<IoApic>, gsi: nat): Option<(nat, nat)> {
    FindFrom(table, gsi, 0)
  }

  function FindFrom(table: seq<IoApic>, gsi: nat, from: nat): Option<(nat, nat)>
    decreases |table| - from
  {
    if from >= |table| then None
    else if table[from].gsiBase <= gsi < table[from].gsiBase + table[from].entries
    then Some((from, gsi - table[from].gsiBase))
    else FindFrom(table, gsi, from + 1)
  }

  lemma {:induction false} FindFromIsFirst(table: seq<IoApic>, gsi: nat, from: nat)
    ensures
      match FindFrom(table, gsi, from)
      case None => forall j :: from <= j < |table| ==> !(table[j].gsiBase <= gsi < table[j].gsiBase + table[j].entries)
      case Some((i, e)) =>
        && from <= i < |table| && e < table[i].entries && table[i].gsiBase + e == gsi
        && forall j :: from <= j < i ==> !(table[j].gsiBase <= gsi < table[j].gsiBase + table[j].entries)
    decreases |table| - from
  {
    if from >= |table| || table[from].gsiBase <= gsi < table[from].gsiBase + table[from].entries {
    } else {
      FindFromIsFirst(table, gsi, from + 1);
    }
  }

  /** `0x10 + (local * 2) as u8`, in 8-bit arithmetic. */
  function LowRegister(local: nat): nat { (0x10 + local * 2 % 256) % 256 }

  function HighRegister(local: nat): nat { (LowRegister(local) + 1) % 256 }

  /** The 8-bit register index reaches the right registers for exactly 120 entries. */
  lemma RegisterIndexWraps(local: nat)
    requires local < 256
    ensures LowRegister(local) == 0x10 + 2 * local && HighRegister(local) == 0x11 + 2 * local <==> local < 120
    ensures LowRegister(local) == (0x10 + 2 * local) % 256 && HighRegister(local) == (0x11 + 2 * local) % 256
  {
  }

  predicate Configured(table: seq<IoApic>) {
    forall i :: 0 <= i < |table| ==> table[i].entries <= 120
  }

  /** Every IOAPIC has its 256 indexed registers. */
  predicate Shaped(table: seq<IoApic>, regs: Registers) {
    |regs| == |table| && forall i :: 0 <= i < |regs| ==> |regs[i]| == 256
  }

  function EntryAt(table: seq<IoApic>, regs: Registers, i: nat, e: nat): Entry
    requires Configured(table) && Shaped(table, regs) && i < |table| && e < table[i].entries
  {
    Entry(regs[i][0x10 + 2 * e], regs[i][0x11 + 2 * e])
  }

  function SetReg(table: seq<IoApic>, regs: Registers, i: nat, reg: nat, val: nat): (r: Registers)
    requires Shaped(table, regs) && i < |table| && reg < 256
    ensures Shaped(table, r)
  {
    var row: seq<nat> := regs[i][reg := val];
    regs[i := row]
  }

  lemma SetHighOnly(table: seq<IoApic>, regs: Registers, i: nat, e: nat, high: nat, j: nat, f: nat)
    requires Configured(table) && Shaped(table, regs) && i < |table| && e < table[i].entries
    requires j < |table| && f < table[j].entries
    ensures
      var was := EntryAt(table, regs, j, f);
      EntryAt(table, SetReg(table, regs, i, 0x11 + 2 * e, high), j, f) ==
        if j == i && f == e then was.(high := high) else was
  {
  }

  lemma SetLowOnly(table: seq<IoApic>, regs: Registers, i: nat, e: nat, low: nat, j: nat, f: nat)
    requires Configured(table) && Shaped(table, regs) && i < |table| && e < table[i].entries
    requires j < |table| && f < table[j].entries
    ensures
      var was := EntryAt(table, regs, j, f);
      EntryAt(table, SetReg(table, regs, i, 0x10 + 2 * e, low), j, f) ==
        if j == i && f == e then was.(low := low) else was
  {
  }

  /** The interrupt number that entry `e` of IOAPIC `i` stands for is routed to it, through a mapped window. */
  predicate Owns(table: seq<IoApic>, physOffset: nat, i: nat, e: nat)
    requires i < |table|
  {
    Find(table, table[i].gsiBase + e) == Some((i, e)) && table[i].physAddr + physOffset != 0
  }

  predicate Served(table: seq<IoApic>, physOffset: nat, gsi: nat) {
    match Find(table, gsi)
    case None => false
    case Some((i, _)) => i < |table| && table[i].physAddr + physOffset != 0
  }

  /** The served interrupts are exactly those of the owned entries. */
  lemma ServedIsOwned(table: seq<IoApic>, physOffset: nat, gsi: nat)
    ensures Served(table, physOffset, gsi) <==>
      exists i, e :: 0 <= i < |table| && 0 <= e < table[i].entries && table[i].gsiBase + e == gsi && Owns(table, physOffset, i, e)
  {
    FindFromIsFirst(table, gsi, 0);
    if Served(table, physOffset, gsi) {
      var (i, e) := Find(table, gsi).value;
      assert Owns(table, physOffset, i, e);
    }
  }

  // ---------------------------------------------------------------- safety of a register state

  predicate AllMasked(table: seq<IoApic>, regs: Registers)
    requires Configured(table) && Shaped(table, regs)
  {
    forall i, e :: 0 <= i < |table| && 0 <= e < table[i].entries ==> Masked(EntryAt(table, regs, i, e).low)
  }

  predicate EntrySafe(c: Entry, apic: nat) {
    Masked(c.low) || (Vector(c.low) >= 32 && Destination(c.high) == apic)
  }

  /** Every unmasked entry interrupts this CPU with a vector outside the exception range. */
  predicate Safe(table: seq<IoApic>, regs: Registers, apic: nat)
    requires Configured(table) && Shaped(table, regs)
  {
    forall i, e :: 0 <= i < |table| && 0 <= e < table[i].entries ==> EntrySafe(EntryAt(table, regs, i, e), apic)
  }

  // ---------------------------------------------------------------- what the boot phases compute

  /** `0x20 + source`, masked, destination 0. */
  function Programmed(source: nat): Entry { Entry(MaskedVector(0x20 + source), 0) }

  predicate Named(isos: seq<Iso>, gsi: nat) { exists k :: 0 <= k < |isos| && isos[k].gsi == gsi }

  /** Applying the overrides: the last override naming the interrupt wins. */
  function AfterIsos(isos: seq<Iso>, gsi: nat, c: Entry): Entry {
    if isos == [] then c
    else if isos[|isos| - 1].gsi == gsi then Programmed(isos[|isos| - 1].source)
    else AfterIsos(isos[..|isos| - 1], gsi, c)
  }

  function AfterFallback(upTo: nat, gsi: nat, c: Entry): Entry {
    if gsi < upTo then Programmed(gsi) else c
  }

  function Enabled(c: Entry, apic: Byte): (r: Entry)
    ensures !Masked(r.low) && Vector(r.low) == Vector(c.low) && Destination(r.high) == apic
    ensures !Masked(c.low) && c.high == apic * DEST_UNIT ==> r == c
  {
    assert apic * DEST_UNIT / DEST_UNIT == apic;
    Entry(Unmask(c.low), apic * DEST_UNIT)
  }

  function Retargeted(c: Entry, vector: Byte, apic: Byte): (r: Entry)
    ensures !Masked(r.low) && Vector(r.low) == vector && Destination(r.high) == apic
  {
    assert apic * DEST_UNIT / DEST_UNIT == apic;
    Entry(Unmask(WithVector(c.low, vector)), apic * DEST_UNIT)
  }

  function AfterEnable(isos: seq<Iso>, apic: Byte, gsi: nat, c: Entry): Entry {
    if isos != [] && (Named(isos, gsi) || gsi < 16) then Enabled(c, apic) else c
  }

  /** Single interrupts retargeted one after the other. */
  function AfterUnmasks(later: seq<(nat, Byte)>, apic: Byte, gsi: nat, c: Entry): Entry {
    if later == [] then c
    else
      var n := |later| - 1;
      var before := AfterUnmasks(later[..n], apic, gsi, c);
      if later[n].0 == gsi then Retargeted(before, later[n].1, apic) else before
  }

  function AfterBoot(isos: seq<Iso>, apic: Byte, gsi: nat, c: Entry): Entry {
    AfterEnable(isos, apic, gsi, AfterFallback(16, gsi, AfterIsos(isos, gsi, c)))
  }

  /** Every owned entry became `f` of its interrupt number and its old value; no other entry changed. */
  ghost predicate Rewritten(table: seq<IoApic>, physOffset: nat, was: Registers, now: Registers, f: (nat, Entry) -> Entry)
    requires Configured(table) && Shaped(table, was) && Shaped(table, now)
  {
    forall i, e :: 0 <= i < |table| && 0 <= e < table[i].entries ==>
      EntryAt(table, now, i, e) ==
        if Owns(table, physOffset, i, e) then f(table[i].gsiBase + e, EntryAt(table, was, i, e))
        else EntryAt(table, was, i, e)
  }

  /** Writing `f` of the entry, high dword first, goes through safe states only. */
  ghost predicate KeepsSafe(table: seq<IoApic>, physOffset: nat, regs: Registers, gsi: nat, f: Entry -> Entry, apic: nat)
    requires Configured(table) && Shaped(table, regs)
  {
    forall i, e :: 0 <= i < |table| && 0 <= e < table[i].entries && Owns(table, physOffset, i, e) && table[i].gsiBase + e == gsi ==>
      var c := EntryAt(table, regs, i, e);
      EntrySafe(c.(high := f(c).high), apic) && EntrySafe(f(c), apic)
  }

  /** The entries about to be enabled carry usable vectors. */
  ghost predicate VectorsSet(table: seq<IoApic>, physOffset: nat, regs: Registers, isos: seq<Iso>)
    requires Configured(table) && Shaped(table, regs)
  {
    forall i, e :: 0 <= i < |table| && 0 <= e < table[i].entries && Owns(table, physOffset, i, e) ==>
      (Named(isos, table[i].gsiBase + e) || table[i].gsiBase + e < 16 ==> Vector(EntryAt(table, regs, i, e).low) >= 32)
  }

  lemma NamedExtends(isos: seq<Iso>, k: nat)
    requires k < |isos|
    ensures forall g :: Named(isos[..k + 1], g) <==> Named(isos[..k], g) || isos[k].gsi == g
  {
    assert isos[..k + 1] == isos[..k] + [isos[k]];
    forall g ensures Named(isos[..k + 1], g) <==> Named(isos[..k], g) || isos[k].gsi == g {
      if Named(isos[..k], g) {
        var m :| 0 <= m < k && isos[..k][m].gsi == g;
        assert isos[..k + 1][m].gsi == g;
      }
      if isos[k].gsi == g {
        assert isos[..k + 1][k].gsi == g;
      }
    }
  }

  // ---------------------------------------------------------------- the final table

  /** No later override names the same interrupt. */
  predicate IsLast(isos: seq<Iso>, k: nat)
    requires k < |isos|
  {
    forall m :: k < m < |isos| ==> isos[m].gsi != isos[k].gsi
  }

  /** The last override naming an interrupt decides its entry. */
  lemma {:induction false} LastIsoWins(isos: seq<Iso>, k: nat, c: Entry)
    requires k < |isos| && IsLast(isos, k)
    ensures AfterIsos(isos, isos[k].gsi, c) == Programmed(isos[k].source)
  {
    var n := |isos| - 1;
    if k < n {
      assert isos[n].gsi != isos[k].gsi;
      assert isos[..n][k] == isos[k];
      LastIsoWins(isos[..n], k, c);
    }
  }

  /** An interrupt no override names keeps its entry; one that is named has a last override. */
  lemma {:induction false} NamedOrKept(isos: seq<Iso>, gsi: nat, c: Entry)
    ensures !Named(isos, gsi) ==> AfterIsos(isos, gsi, c) == c
    ensures Named(isos, gsi) ==> exists k :: 0 <= k < |isos| && IsLast(isos, k) && isos[k].gsi == gsi
  {
    if isos == [] {
    } else {
      var n := |isos| - 1;
      if isos[n].gsi == gsi {
        assert IsLast(isos, n);
      } else {
        NamedOrKept(isos[..n], gsi, c);
        if Named(isos[..n], gsi) {
          var k :| 0 <= k < n && IsLast(isos[..n], k) && isos[..n][k].gsi == gsi;
          LastExtends(isos, k);
        }
        NamedExtends(isos, n);
        assert isos[..n + 1] == isos;
      }
    }
  }

  lemma LastExtends(isos: seq<Iso>, k: nat)
    requires k < |isos| - 1 && IsLast(isos[..|isos| - 1], k) && isos[|isos| - 1].gsi != isos[k].gsi
    ensures IsLast(isos, k)
  {
    var front := isos[..|isos| - 1];
    forall m | k < m < |isos| ensures isos[m].gsi != isos[k].gsi {
      if m < |front| { assert front[m] == isos[m] && front[k] == isos[k]; }
    }
  }

  /** A named interrupt ends up with the vector of its last override. */
  lemma NamedEntry(isos: seq<Iso>, gsi: nat, c: Entry) returns (k: nat)
    requires Named(isos, gsi)
    ensures k < |isos| && IsLast(isos, k) && isos[k].gsi == gsi
    ensures AfterIsos(isos, gsi, c) == Programmed(isos[k].source)
  {
    NamedOrKept(isos, gsi, c);
    k :| 0 <= k < |isos| && IsLast(isos, k) && isos[k].gsi == gsi;
    LastIsoWins(isos, k, c);
  }

  /** The vector of interrupt `gsi` is usable: a legacy one, or the last override naming it has a source below 224. */
  predicate SourceFits(isos: seq<Iso>, gsi: nat) {
    gsi < 16 || forall k :: 0 <= k < |isos| && IsLast(isos, k) && isos[k].gsi == gsi ==> isos[k].source < 224
  }

  lemma ProgrammedVector(source: Byte)
    ensures Masked(Programmed(source).low) && (Vector(Programmed(source).low) >= 32 <==> source < 224)
  {
  }

  /** Only the last override naming an interrupt matters to whether its vector fits. */
  lemma SourceOfLast(isos: seq<Iso>, gsi: nat, k: nat)
    requires k < |isos| && IsLast(isos, k) && isos[k].gsi == gsi
    ensures SourceFits(isos, gsi) <==> gsi < 16 || isos[k].source < 224
  {
    forall m | 0 <= m < |isos| && IsLast(isos, m) && isos[m].gsi == gsi ensures m == k {
    }
  }

  /** Whatever the enable phase unmasks has a usable vector exactly if it fits. */
  lemma ProgrammedVectors(isos: seq<Iso>, gsi: nat, c: Entry)
    requires Named(isos, gsi) || gsi < 16
    ensures Vector(AfterFallback(16, gsi, AfterIsos(isos, gsi, c)).low) >= 32 <==> SourceFits(isos, gsi)
  {
    if gsi < 16 {
      ProgrammedVector(gsi);
    } else {
      var k := NamedEntry(isos, gsi, c);
      ProgrammedVector(isos[k].source);
      SourceOfLast(isos, gsi, k);
    }
  }

  /** The fallback overwrites overrides: an override's vector survives it exactly for interrupts from 16 up, or an identity mapping. */
  lemma OverrideSurvivesExactly(isos: seq<Iso>, k: nat, c: Entry)
    requires k < |isos| && IsLast(isos, k)
    ensures
      var iso := isos[k];
      Vector(AfterFallback(16, iso.gsi, AfterIsos(isos, iso.gsi, c)).low) == (0x20 + iso.source) % 256 <==>
        iso.gsi >= 16 || iso.source == iso.gsi
  {
    LastIsoWins(isos, k, c);
  }

  /**
   Booting a masked entry leaves it safe exactly when it stays masked, belongs to a
   legacy interrupt, or the last override naming it has a source below 224.
   */
  lemma BootSafeExactly(isos: seq<Iso>, apic: Byte, gsi: nat, c: Entry)
    requires Masked(c.low)
    ensures EntrySafe(AfterBoot(isos, apic, gsi, c), apic) <==> SourceFits(isos, gsi)
  {
    if isos != [] && (Named(isos, gsi) || gsi < 16) {
      ProgrammedVectors(isos, gsi, c);
    } else {
      NamedOrKept(isos, gsi, c);
      UnnamedFits(isos, gsi);
      MaskedFallback(gsi, c);
    }
  }

  lemma UnnamedFits(isos: seq<Iso>, gsi: nat)
    requires gsi < 16 || !Named(isos, gsi)
    ensures SourceFits(isos, gsi)
  {
  }

  lemma MaskedFallback(gsi: nat, c: Entry)
    requires Masked(c.low)
    ensures Masked(AfterFallback(16, gsi, c).low)
  {
  }

  /** The usual override of the timer, IRQ 0 to interrupt 2, is lost: it boots at vector 0x22, not 0x20. */
  lemma TimerOverrideIsLost(apic: Byte, c: Entry)
    ensures
      var isos := [Iso(0, 0, 2, 0)];
      Vector(AfterIsos(isos, 2, c).low) == 0x20 && Vector(AfterBoot(isos, apic, 2, c).low) == 0x22
  {
    var isos := [Iso(0, 0, 2, 0)];
    assert isos[0].gsi == 2;
    assert Named(isos, 2);
  }

  /** An override with source 224 on interrupt 16 boots unmasked at vector 0, the divide error. */
  lemma HighSourceHitsExceptions(apic: Byte, c: Entry)
    ensures
      var isos := [Iso(0, 224, 16, 0)];
      var e := AfterBoot(isos, apic, 16, c);
      !Masked(e.low) && Vector(e.low) == 0 && !EntrySafe(e, apic) && !SourceFits(isos, 16)
  {
    var isos := [Iso(0, 224, 16, 0)];
    assert isos[0].gsi == 16 && IsLast(isos, 0);
    assert Named(isos, 16);
  }

  /** A programmed entry: masked, its vector, and all other bits zero (fixed, physical, active high, edge, CPU 0). */
  lemma ProgrammedIs(source: Byte)
    ensures Programmed(source) == Entry(0x1_0000 + (0x20 + source) % 256, 0)
  {
  }

  lemma EnabledProgrammed(source: Byte, apic: Byte)
    ensures Enabled(Programmed(source), apic) == Entry((0x20 + source) % 256, apic * 0x100_0000)
  {
    ProgrammedIs(source);
    assert Masked(Programmed(source).low);
  }

  /** With overrides, a booted legacy interrupt has vector 0x20 plus its number, another named one that of its last override, and no other bit set but the destination. */
  lemma BootedEntry(isos: seq<Iso>, apic: Byte, gsi: nat, c: Entry)
    requires isos != []
    ensures gsi < 16 ==> AfterBoot(isos, apic, gsi, c) == Entry(0x20 + gsi, apic * 0x100_0000)
    ensures gsi >= 16 ==> forall k :: 0 <= k < |isos| && IsLast(isos, k) && isos[k].gsi == gsi ==>
      AfterBoot(isos, apic, gsi, c) == Entry((0x20 + isos[k].source) % 256, apic * 0x100_0000)
  {
    if gsi < 16 {
      EnabledProgrammed(gsi, apic);
    } else {
      forall k | 0 <= k < |isos| && IsLast(isos, k) && isos[k].gsi == gsi
        ensures AfterBoot(isos, apic, gsi, c) == Entry((0x20 + isos[k].source) % 256, apic * 0x100_0000)
      {
        LastIsoWins(isos, k, c);
        assert Named(isos, gsi);
        EnabledProgrammed(isos[k].source, apic);
      }
    }
  }

  /** Enabling an entry clears its mask bit, keeps its other low bits, and sends it to this CPU. */
  lemma EnabledBits(c: Entry, apic: Byte, k: nat)
    ensures Enabled(c, apic).high == apic * 0x100_0000
    ensures Bit(Enabled(c, apic).low, k) <==> k != 16 && Bit(c.low, k)
  {
    UnmaskBits(c.low, k);
  }

  /** Retargeting also sets the vector; bits 8 to 15 and from 17 up are kept. */
  lemma RetargetedBits(c: Entry, vector: Byte, apic: Byte, k: nat)
    ensures Retargeted(c, vector, apic).high == apic * 0x100_0000
    ensures Bit(Retargeted(c, vector, apic).low, k) <==> k != 16 && if k < 8 then Bit(vector, k) else Bit(c.low, k)
  {
    UnmaskBits(WithVector(c.low, vector), k);
    WithVectorBits(c.low, vector, k);
  }

  lemma {:induction false} NotRetargeted(later: seq<(nat, Byte)>, apic: Byte, gsi: nat, c: Entry)
    requires Unnamed(later, gsi)
    ensures AfterUnmasks(later, apic, gsi, c) == c
    decreases |later|
  {
    if later == [] {
    } else {
      NotRetargeted(later[..|later| - 1], apic, gsi, c);
    }
  }

  predicate Unnamed(later: seq<(nat, Byte)>, gsi: nat) {
    forall k :: 0 <= k < |later| ==> later[k].0 != gsi
  }

  /** Every owned legacy entry that no later unmask names has vector 0x20 plus its number and no other bit but this CPU. */
  ghost predicate LegacyEntries(table: seq<IoApic>, physOffset: nat, regs: Registers, later: seq<(nat, Byte)>, apic: Byte)
    requires Configured(table) && Shaped(table, regs)
  {
    forall i, e :: 0 <= i < |table| && 0 <= e < table[i].entries ==>
      var g := table[i].gsiBase + e;
      (Owns(table, physOffset, i, e) && g < 16 && Unnamed(later, g) ==>
        EntryAt(table, regs, i, e) == Entry(0x20 + g, apic * 0x100_0000))
  }

  lemma LegacyBooted(table: seq<IoApic>, physOffset: nat, was: Registers, now: Registers,
                     isos: seq<Iso>, later: seq<(nat, Byte)>, apic: Byte)
    requires Configured(table) && Shaped(table, was) && Shaped(table, now) && isos != []
    requires Rewritten(table, physOffset, was, now,
      (g: nat, c: Entry) => AfterUnmasks(later, apic, g, AfterBoot(isos, apic, g, c)))
    ensures LegacyEntries(table, physOffset, now, later, apic)
  {
    forall i, e | 0 <= i < |table| && 0 <= e < table[i].entries
      ensures
        var g := table[i].gsiBase + e;
        (Owns(table, physOffset, i, e) && g < 16 && Unnamed(later, g) ==>
          EntryAt(table, now, i, e) == Entry(0x20 + g, apic * 0x100_0000))
    {
      var g, c := table[i].gsiBase + e, EntryAt(table, was, i, e);
      if g < 16 && Unnamed(later, g) {
        BootedEntry(isos, apic, g, c);
        NotRetargeted(later, apic, g, AfterBoot(isos, apic, g, c));
      }
    }
  }

  /** Booting keeps the vector each phase chose and unmasks exactly the named and the legacy interrupts. */
  lemma BootUnmasksExactly(isos: seq<Iso>, apic: Byte, gsi: nat, c: Entry)
    requires Masked(c.low)
    ensures Masked(AfterBoot(isos, apic, gsi, c).low) <==> isos == [] || !(Named(isos, gsi) || gsi < 16)
    ensures Vector(AfterBoot(isos, apic, gsi, c).low) == Vector(AfterFallback(16, gsi, AfterIsos(isos, gsi, c)).low)
    ensures gsi < 16 ==> Vector(AfterBoot(isos, apic, gsi, c).low) == 0x20 + gsi
    ensures gsi >= 16 && !Named(isos, gsi) ==> AfterBoot(isos, apic, gsi, c) == c
  {
    NamedOrKept(isos, gsi, c);
    if Named(isos, gsi) {
      var k := NamedEntry(isos, gsi, c);
    }
  }

  /** The last later unmask of interrupt `gsi` has a usable vector, or there is none and booting gave it one. */
  predicate Fits(isos: seq<Iso>, later: seq<(nat, Byte)>, gsi: nat) {
    if later == [] then SourceFits(isos, gsi)
    else
      var n := |later| - 1;
      if later[n].0 == gsi then later[n].1 >= 32 else Fits(isos, later[..n], gsi)
  }

  /** A masked entry ends safe exactly if its interrupt's vector fits. */
  lemma {:induction false} EntrySafeExactly(isos: seq<Iso>, later: seq<(nat, Byte)>, apic: Byte, gsi: nat, c: Entry)
    requires Masked(c.low)
    ensures EntrySafe(AfterUnmasks(later, apic, gsi, AfterBoot(isos, apic, gsi, c)), apic) <==> Fits(isos, later, gsi)
    decreases |later|
  {
    if later == [] {
      BootSafeExactly(isos, apic, gsi, c);
    } else {
      EntrySafeExactly(isos, later[..|later| - 1], apic, gsi, c);
    }
  }

  ghost predicate AllFit(table: seq<IoApic>, physOffset: nat, isos: seq<Iso>, later: seq<(nat, Byte)>) {
    forall i, e :: 0 <= i < |table| && 0 <= e < table[i].entries && Owns(table, physOffset, i, e) ==>
      Fits(isos, later, table[i].gsiBase + e)
  }

  /** A board that was masked ends safe exactly if the vector of every owned entry fits. */
  lemma BoardSafeExactly(table: seq<IoApic>, physOffset: nat, was: Registers, now: Registers,
                         isos: seq<Iso>, later: seq<(nat, Byte)>, apic: Byte)
    requires Configured(table) && Shaped(table, was) && Shaped(table, now) && AllMasked(table, was)
    requires Rewritten(table, physOffset, was, now,
      (g: nat, c: Entry) => AfterUnmasks(later, apic, g, AfterBoot(isos, apic, g, c)))
    ensures Safe(table, now, apic) <==> AllFit(table, physOffset, isos, later)
  {
    forall i, e | 0 <= i < |table| && 0 <= e < table[i].entries
      ensures EntrySafe(EntryAt(table, now, i, e), apic) <==>
        (Owns(table, physOffset, i, e) ==> Fits(isos, later, table[i].gsiBase + e))
    {
      EntrySafeExactly(isos, later, apic, table[i].gsiBase + e, EntryAt(table, was, i, e));
    }
  }

  // ---------------------------------------------------------------- the hardware and its driver

  class Board {
    const table: seq<IoApic>
    const physOffset: nat
    var select: seq<nat>
    var regs: Registers
    ghost var history: seq<Registers>  // the registers after every register write

    ghost predicate Valid()
      reads this
    {
      Configured(table) && Shaped(table, regs) && |select| == |table|
    }

    /** Every register write since `mark` left an AllMasked state. */
    ghost predicate MaskedSince(mark: nat)
      reads this
    {
      forall k :: mark <= k < |history| ==>
        Configured(table) && Shaped(table, history[k]) && AllMasked(table, history[k])
    }

    /** Every register write since `mark` left a Safe state. */
    ghost predicate SafeSince(mark: nat, apic: nat)
      reads this
    {
      forall k :: mark <= k < |history| ==>
        Configured(table) && Shaped(table, history[k]) && Safe(table, history[k], apic)
    }

    /** Select a register, then write the window. */
    method WriteReg(i: nat, reg: nat, val: nat)
      requires Valid() && i < |table| && reg < 256
      modifies this
      ensures Valid() && regs == SetReg(table, old(regs), i, reg, val)
      ensures history == old(history) + [regs]
    {
      select := select[i := reg];
      regs := SetReg(table, regs, i, select[i], val);
      history := history + [regs];
    }

    /** Select a register, then read the window. */
    method ReadReg(i: nat, reg: nat) returns (val: nat)
      requires Valid() && i < |table| && reg < 256
      modifies this`select
      ensures Valid() && val == regs[i][reg]
    {
      select := select[i := reg];
      val := regs[i][select[i]];
    }

    method FindIoapic(gsi: nat) returns (r: Option<(nat, nat)>)
      ensures r == Find(table, gsi)
    {
      var i := 0;
      while i < |table|
        invariant i <= |table| && FindFrom(table, gsi, i) == Find(table, gsi)
      {
        if table[i].gsiBase <= gsi < table[i].gsiBase + table[i].entries {
          return Some((i, gsi - table[i].gsiBase));
        }
        i := i + 1;
      }
      return None;
    }

    /** High dword first, then low: the order every caller uses. */
    method WriteEntry(i: nat, e: nat, c: Entry)
      requires Valid() && i < |table| && e < table[i].entries
      modifies this
      ensures Valid() && |history| == |old(history)| + 2 && old(history) <= history
      ensures
        var mid := SetReg(table, old(regs), i, 0x11 + 2 * e, c.high);
        && history[|old(history)|] == mid
        && history[|old(history)| + 1] == regs == SetReg(table, mid, i, 0x10 + 2 * e, c.low)
    {
      RegisterIndexWraps(e);
      WriteReg(i, HighRegister(e), c.high);
      WriteReg(i, LowRegister(e), c.low);
    }

    /** `write_redirection_entry_for_gsi` */
    method WriteRedirection(gsi: nat, c: Entry) returns (ok: bool)
      requires Valid()
      modifies this
      ensures Valid() && old(history) <= history
      ensures forall i, e :: 0 <= i < |table| && 0 <= e < table[i].entries ==>
        EntryAt(table, regs, i, e) ==
          if Owns(table, physOffset, i, e) && table[i].gsiBase + e == gsi then c else EntryAt(table, old(regs), i, e)
      ensures ok <==> Served(table, physOffset, gsi)
      ensures Masked(c.low) && AllMasked(table, old(regs)) ==> MaskedSince(|old(history)|) && AllMasked(table, regs)
    {
      var found := FindIoapic(gsi);
      FindFromIsFirst(table, gsi, 0);
      if found.None? || table[found.value.0].physAddr + physOffset == 0 {
        return false;
      }
      var (i, e) := found.value;
      WriteEntry(i, e, c);
      EntryWritten(table, old(regs), i, e, c);
      return true;
    }

    /** `apply_isos_from_acpi` */
    method ApplyIsos(isos: seq<Iso>)
      requires Valid()
      modifies this
      ensures Valid() && old(history) <= history
      ensures Rewritten(table, physOffset, old(regs), regs, (g: nat, c: Entry) => AfterIsos(isos, g, c))
      ensures AllMasked(table, old(regs)) ==> MaskedSince(|old(history)|) && AllMasked(table, regs)
    {
      for k := 0 to |isos|
        invariant Valid() && old(history) <= history
        invariant Rewritten(table, physOffset, old(regs), regs, (g: nat, c: Entry) => AfterIsos(isos[..k], g, c))
        invariant AllMasked(table, old(regs)) ==> MaskedSince(|old(history)|) && AllMasked(table, regs)
      {
        assert isos[..k + 1][..k] == isos[..k] && isos[..k + 1][k] == isos[k];
        var found := FindIoapic(isos[k].gsi);
        if found.Some? {
          var ok := WriteRedirection(isos[k].gsi, Programmed(isos[k].source));
        } else {
          FindFromIsFirst(table, isos[k].gsi, 0);
        }
      }
      assert isos[..|isos|] == isos;
    }

    /** `apply_legacy_isa_fallback` */
    method ApplyFallback()
      requires Valid()
      modifies this
      ensures Valid() && old(history) <= history
      ensures Rewritten(table, physOffset, old(regs), regs, (g: nat, c: Entry) => AfterFallback(16, g, c))
      ensures AllMasked(table, old(regs)) ==> MaskedSince(|old(history)|) && AllMasked(table, regs)
    {
      for irq := 0 to 16
        invariant Valid() && old(history) <= history
        invariant Rewritten(table, physOffset, old(regs), regs, (g: nat, c: Entry) => AfterFallback(irq, g, c))
        invariant AllMasked(table, old(regs)) ==> MaskedSince(|old(history)|) && AllMasked(table, regs)
      {
        var ok := WriteRedirection(irq, Programmed(irq));
      }
    }

    /** Read an entry, then write it back through `f`: the common body of the enabling routines. */
    method Update(gsi: nat, f: Entry -> Entry) returns (ok: bool)
      requires Valid()
      modifies this
      ensures Valid() && old(history) <= history && (ok <==> Served(table, physOffset, gsi))
      ensures Rewritten(table, physOffset, old(regs), regs, (g: nat, c: Entry) => if g == gsi then f(c) else c)
      ensures forall apic :: Safe(table, old(regs), apic) && KeepsSafe(table, physOffset, old(regs), gsi, f, apic) ==>
        SafeSince(|old(history)|, apic) && Safe(table, regs, apic)
    {
      var found := FindIoapic(gsi);
      FindFromIsFirst(table, gsi, 0);
      if found.None? || table[found.value.0].physAddr + physOffset == 0 {
        return false;
      }
      UpdateEntry(found.value.0, found.value.1, f);
      return true;
    }

    /** The read-modify-write of an owned entry. */
    method UpdateEntry(i: nat, e: nat, f: Entry -> Entry)
      requires Valid() && i < |table| && e < table[i].entries && Owns(table, physOffset, i, e)
      modifies this
      ensures Valid() && old(history) <= history
      ensures forall j, k :: 0 <= j < |table| && 0 <= k < table[j].entries ==>
        EntryAt(table, regs, j, k) == if j == i && k == e then f(EntryAt(table, old(regs), j, k)) else EntryAt(table, old(regs), j, k)
      ensures forall apic :: Safe(table, old(regs), apic) && KeepsSafe(table, physOffset, old(regs), table[i].gsiBase + e, f, apic) ==>
        SafeSince(|old(history)|, apic) && Safe(table, regs, apic)
    {
      RegisterIndexWraps(e);
      var high := ReadReg(i, HighRegister(e));
      var low := ReadReg(i, LowRegister(e));
      var c := f(Entry(low, high));
      assert EntryAt(table, regs, i, e) == Entry(low, high);
      WriteEntry(i, e, c);
      EntryWritten(table, old(regs), i, e, c);
      forall apic | Safe(table, old(regs), apic) && KeepsSafe(table, physOffset, old(regs), table[i].gsiBase + e, f, apic)
        ensures SafeSince(|old(history)|, apic) && Safe(table, regs, apic)
      {
        EntryWrittenSafe(table, physOffset, old(regs), i, e, f, apic);
      }
    }

    /** `enable_isos_for_local` */
    method EnableIsos(isos: seq<Iso>, apic: Byte)
      requires Valid()
      modifies this
      ensures Valid() && old(history) <= history
      ensures Rewritten(table, physOffset, old(regs), regs, (g: nat, c: Entry) => AfterEnable(isos, apic, g, c))
      ensures Safe(table, old(regs), apic) && VectorsSet(table, physOffset, old(regs), isos) ==>
        SafeSince(|old(history)|, apic) && Safe(table, regs, apic)
    {
      if isos == [] {
        return;
      }
      for k := 0 to |isos|
        invariant Valid() && old(history) <= history
        invariant Rewritten(table, physOffset, old(regs), regs,
          (g: nat, c: Entry) => if Named(isos[..k], g) then Enabled(c, apic) else c)
        invariant Safe(table, old(regs), apic) && VectorsSet(table, physOffset, old(regs), isos) ==>
          SafeSince(|old(history)|, apic) && Safe(table, regs, apic)
      {
        NamedExtends(isos, k);
        assert Named(isos, isos[k].gsi);
        var ok := Update(isos[k].gsi, c => Enabled(c, apic));
      }
      assert isos[..|isos|] == isos;
      EnableLegacy(isos, apic, old(regs), |old(history)|);
    }

    /** The second loop of `enable_isos_for_local`, going on from registers `was`. */
    method EnableLegacy(ghost isos: seq<Iso>, apic: Byte, ghost was: Registers, ghost mark: nat)
      requires Valid() && Shaped(table, was) && mark <= |history|
      requires Rewritten(table, physOffset, was, regs, (g: nat, c: Entry) => if Named(isos, g) then Enabled(c, apic) else c)
      requires Safe(table, was, apic) && VectorsSet(table, physOffset, was, isos) ==>
        SafeSince(mark, apic) && Safe(table, regs, apic)
      modifies this
      ensures Valid() && old(history) <= history
      ensures Rewritten(table, physOffset, was, regs,
        (g: nat, c: Entry) => if Named(isos, g) || g < 16 then Enabled(c, apic) else c)
      ensures Safe(table, was, apic) && VectorsSet(table, physOffset, was, isos) ==>
        SafeSince(mark, apic) && Safe(table, regs, apic)
    {
      for irq := 0 to 16
        invariant Valid() && old(history) <= history
        invariant Rewritten(table, physOffset, was, regs,
          (g: nat, c: Entry) => if Named(isos, g) || g < irq then Enabled(c, apic) else c)
        invariant Safe(table, was, apic) && VectorsSet(table, physOffset, was, isos) ==>
          SafeSince(mark, apic) && Safe(table, regs, apic)
      {
        var ok := Update(irq, c => Enabled(c, apic));
      }
    }

    /** `unmask_gsi` */
    method UnmaskGsi(gsi: nat, vector: Byte, apic: Byte) returns (ok: bool)
      requires Valid()
      modifies this
      ensures Valid() && old(history) <= history && (ok <==> Served(table, physOffset, gsi))
      ensures Rewritten(table, physOffset, old(regs), regs,
        (g: nat, c: Entry) => if g == gsi then Retargeted(c, vector, apic) else c)
      ensures Safe(table, old(regs), apic) && vector >= 32 ==>
        SafeSince(|old(history)|, apic) && Safe(table, regs, apic)
    {
      ok := Update(gsi, c => Retargeted(c, vector, apic));
    }

    /** Overrides, legacy fallback, per-CPU enable. */
    method BootTable(isos: seq<Iso>, apic: Byte)
      requires Valid() && AllMasked(table, regs)
      modifies this
      ensures Valid() && old(history) <= history
      ensures Rewritten(table, physOffset, old(regs), regs, (g: nat, c: Entry) => AfterBoot(isos, apic, g, c))
      ensures AllFit(table, physOffset, isos, []) ==> SafeSince(|old(history)|, apic) && Safe(table, regs, apic)
    {
      ApplyIsos(isos);
      ApplyFallback();
      if AllFit(table, physOffset, isos, []) {
        FitVectors(table, physOffset, old(regs), regs, isos);
      }
      EnableIsos(isos, apic);
    }

    /**
     The boot order of `init_hardware` and `kernel_main`: overrides, legacy fallback,
     per-CPU enable, then single interrupts, from a fully masked board.  The board ends safe
     exactly if the vector of every owned entry fits; and if those of the overrides and of all
     later unmasks do, it is safe after every register write.
     */
    method Boot(isos: seq<Iso>, apic: Byte, later: seq<(nat, Byte)>)
      requires Valid() && AllMasked(table, regs)
      modifies this
      ensures Valid() && old(history) <= history
      ensures Rewritten(table, physOffset, old(regs), regs,
        (g: nat, c: Entry) => AfterUnmasks(later, apic, g, AfterBoot(isos, apic, g, c)))
      ensures isos != [] ==> LegacyEntries(table, physOffset, regs, later, apic)
      ensures Safe(table, regs, apic) <==> AllFit(table, physOffset, isos, later)
      ensures AllFit(table, physOffset, isos, []) && (forall k :: 0 <= k < |later| ==> later[k].1 >= 32) ==>
        SafeSince(|old(history)|, apic)
    {
      ghost var fit := AllFit(table, physOffset, isos, []) && forall k :: 0 <= k < |later| ==> later[k].1 >= 32;
      BootTable(isos, apic);
      for k := 0 to |later|
        invariant Valid() && old(history) <= history
        invariant fit ==> SafeSince(|old(history)|, apic) && Safe(table, regs, apic)
        invariant Rewritten(table, physOffset, old(regs), regs,
          (g: nat, c: Entry) => AfterUnmasks(later[..k], apic, g, AfterBoot(isos, apic, g, c)))
      {
        assert later[..k + 1][..k] == later[..k] && later[..k + 1][k] == later[k];
        var ok := UnmaskGsi(later[k].0, later[k].1, apic);
      }
      assert later[..|later|] == later;
      BoardSafeExactly(table, physOffset, old(regs), regs, isos, later, apic);
      if isos != [] {
        LegacyBooted(table, physOffset, old(regs), regs, isos, later, apic);
      }
    }
  }

  /** After the overrides and the fallback, fitting entries carry usable vectors. */
  lemma FitVectors(table: seq<IoApic>, physOffset: nat, was: Registers, now: Registers, isos: seq<Iso>)
    requires Configured(table) && Shaped(table, was) && Shaped(table, now) && AllFit(table, physOffset, isos, [])
    requires Rewritten(table, physOffset, was, now, (g: nat, c: Entry) => AfterFallback(16, g, AfterIsos(isos, g, c)))
    ensures VectorsSet(table, physOffset, now, isos)
  {
    forall i, e | 0 <= i < |table| && 0 <= e < table[i].entries && Owns(table, physOffset, i, e)
      && (Named(isos, table[i].gsiBase + e) || table[i].gsiBase + e < 16)
      ensures Vector(EntryAt(table, now, i, e).low) >= 32
    {
      assert Fits(isos, [], table[i].gsiBase + e);
      ProgrammedVectors(isos, table[i].gsiBase + e, EntryAt(table, was, i, e));
    }
  }

  /** Both states a safe update goes through are safe. */
  lemma EntryWrittenSafe(table: seq<IoApic>, physOffset: nat, regs: Registers, i: nat, e: nat, f: Entry -> Entry, apic: nat)
    requires Configured(table) && Shaped(table, regs) && i < |table| && e < table[i].entries && Owns(table, physOffset, i, e)
    requires Safe(table, regs, apic) && KeepsSafe(table, physOffset, regs, table[i].gsiBase + e, f, apic)
    ensures
      var c := f(EntryAt(table, regs, i, e));
      var mid := SetReg(table, regs, i, 0x11 + 2 * e, c.high);
      Safe(table, mid, apic) && Safe(table, SetReg(table, mid, i, 0x10 + 2 * e, c.low), apic)
  {
    EntryWritten(table, regs, i, e, f(EntryAt(table, regs, i, e)));
  }

  /** The two register writes of one entry, seen from every entry of every table. */
  lemma EntryWritten(table: seq<IoApic>, regs: Registers, i: nat, e: nat, c: Entry)
    requires Configured(table) && Shaped(table, regs) && i < |table| && e < table[i].entries
    ensures
      var mid := SetReg(table, regs, i, 0x11 + 2 * e, c.high);
      var end := SetReg(table, mid, i, 0x10 + 2 * e, c.low);
      && (forall j, f :: 0 <= j < |table| && 0 <= f < table[j].entries ==>
            EntryAt(table, mid, j, f) ==
              if j == i && f == e then EntryAt(table, regs, j, f).(high := c.high) else EntryAt(table, regs, j, f))
      && (forall j, f :: 0 <= j < |table| && 0 <= f < table[j].entries ==>
            EntryAt(table, end, j, f) == if j == i && f == e then c else EntryAt(table, regs, j, f))
  {
    var mid := SetReg(table, regs, i, 0x11 + 2 * e, c.high);
    forall j, f | 0 <= j < |table| && 0 <= f < table[j].entries
      ensures
        && EntryAt(table, mid, j, f) ==
             (if j == i && f == e then EntryAt(table, regs, j, f).(high := c.high) else EntryAt(table, regs, j, f))
        && EntryAt(table, SetReg(table, mid, i, 0x10 + 2 * e, c.low), j, f) ==
             (if j == i && f == e then c else EntryAt(table, regs, j, f))
    {
      SetHighOnly(table, regs, i, e, c.high, j, f);
      SetLowOnly(table, mid, i, e, c.low, j, f);
    }
  }
}
