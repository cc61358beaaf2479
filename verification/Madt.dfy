/**
 Walking the ACPI tables that describe interrupt controllers and PCI configuration
 space (`src/devices/acpi/acpi.rs`): variable-length MADT entries, as in section 5.2.12
 of the ACPI Specification 6.5, and fixed-size MCFG allocations.
 */
module Madt {
  import opened Common

  /** The bytes at and after a table's address. */
  type Memory = seq<Byte>

  function At(mem: Memory, o: nat): Byte { if o < |mem| then mem[o] else 0 }

  const MADT_SIZE: nat := 44
  const MCFG_SIZE: nat := 44
  const IOAPIC_ENTRY: nat := 12
  const ISO_ENTRY: nat := 10
  const ALLOCATION: nat := 16

  function U16(mem: Memory, o: nat): nat { At(mem, o) + 256 * At(mem, o + 1) }

  function U32(mem: Memory, o: nat): nat {
    At(mem, o) + 256 * At(mem, o + 1) + 0x1_0000 * At(mem, o + 2) + 0x100_0000 * At(mem, o + 3)
  }

  function U64(mem: Memory, o: nat): nat { U32(mem, o) + 0x1_0000_0000 * U32(mem, o + 4) }

  /** `header.length` */
  function TableLength(mem: Memory): nat { U32(mem, 4) }

  /** The sum of the first `n` bytes. */
  function Sum(mem: Memory, n: nat): nat { if n == 0 then 0 else Sum(mem, n - 1) + At(mem, n - 1) }

  predicate ChecksumValid(mem: Memory) { Sum(mem, TableLength(mem)) % 256 == 0 }

  // ---------------------------------------------------------------- MADT entries

  /** What the kernel keeps of an entry. */
  datatype Found =
    | IoApicInfo(id: Byte, addr: nat, gsiBase: nat)
    | IsoInfo(bus: Byte, source: Byte, gsi: nat, flags: nat)

  /** What the walk records for the entry at `o`. */
  function Record(mem: Memory, o: nat): seq<Found> {
    if At(mem, o) == 1 && At(mem, o + 1) >= IOAPIC_ENTRY then [IoApicInfo(At(mem, o + 2), U32(mem, o + 4), U32(mem, o + 8))]
    else if At(mem, o) == 2 && At(mem, o + 1) >= ISO_ENTRY then
      [IsoInfo(At(mem, o + 2), At(mem, o + 3), U32(mem, o + 4), U16(mem, o + 8))]
    else []
  }

  /** One past the last byte the walk reads for the entry at `o`. */
  function ReadEnd(mem: Memory, o: nat): nat {
    if At(mem, o) == 1 && At(mem, o + 1) >= IOAPIC_ENTRY then o + IOAPIC_ENTRY
    else if At(mem, o) == 2 && At(mem, o + 1) >= ISO_ENTRY then o + ISO_ENTRY
    else o + 2
  }

  /** The walk from `o`: entries in order until the table ends or an entry claims no length. */
  function Walk(mem: Memory, o: nat, end: nat): seq<Found>
    decreases end - o
  {
    if o >= end || At(mem, o + 1) == 0 then [] else Record(mem, o) + Walk(mem, o + At(mem, o + 1), end)
  }

  /** The walk from `o` reads nothing past the end of the table. */
  predicate StaysInside(mem: Memory, o: nat, end: nat)
    decreases end - o
  {
    o < end ==>
      && o + 2 <= end
      && (At(mem, o + 1) != 0 ==> ReadEnd(mem, o) <= end && StaysInside(mem, o + At(mem, o + 1), end))
  }

  // ---------------------------------------------------------------- encoding

  /** A well-formed entry; the two kinds the kernel reads may carry trailing bytes. */
  datatype Entry =
    | IoApicEntry(id: Byte, reserved: Byte, addr: nat, gsiBase: nat, extra: seq<Byte>)
    | IsoEntry(bus: Byte, source: Byte, gsi: nat, flags: nat, extra: seq<Byte>)
    | OtherEntry(kind: Byte, body: seq<Byte>)

  predicate WellFormed(e: Entry) {
    match e
    case IoApicEntry(_, _, addr, gsiBase, extra) =>
      addr < 0x1_0000_0000 && gsiBase < 0x1_0000_0000 && |extra| + IOAPIC_ENTRY < 256
    case IsoEntry(_, _, gsi, flags, extra) => gsi < 0x1_0000_0000 && flags < 0x1_0000 && |extra| + ISO_ENTRY < 256
    case OtherEntry(kind, body) =>
      |body| + 2 < 256 && !(kind == 1 && |body| + 2 >= IOAPIC_ENTRY) && !(kind == 2 && |body| + 2 >= ISO_ENTRY)
  }

  function Bytes16(v: nat): seq<Byte>
    requires v < 0x1_0000
  {
    [v % 256, v / 256]
  }

  function Bytes32(v: nat): seq<Byte>
    requires v < 0x1_0000_0000
  {
    [v % 256, v / 256 % 256, v / 256 / 256 % 256, v / 256 / 256 / 256]
  }

  function Encode(e: Entry): seq<Byte>
    requires WellFormed(e)
  {
    match e
    case IoApicEntry(id, reserved, addr, gsiBase, extra) =>
      [1, IOAPIC_ENTRY + |extra|, id, reserved] + Bytes32(addr) + Bytes32(gsiBase) + extra
    case IsoEntry(bus, source, gsi, flags, extra) =>
      [2, ISO_ENTRY + |extra|, bus, source] + Bytes32(gsi) + Bytes16(flags) + extra
    case OtherEntry(kind, body) => [kind, 2 + |body|] + body
  }

  function EncodeAll(es: seq<Entry>): seq<Byte>
    requires forall k :: 0 <= k < |es| ==> WellFormed(es[k])
  {
    if es == [] then [] else Encode(es[0]) + EncodeAll(es[1..])
  }

  /** What the kernel is meant to keep of an entry. */
  function Kept(e: Entry): seq<Found> {
    match e
    case IoApicEntry(id, _, addr, gsiBase, _) => [IoApicInfo(id, addr, gsiBase)]
    case IsoEntry(bus, source, gsi, flags, _) => [IsoInfo(bus, source, gsi, flags)]
    case OtherEntry(_, _) => []
  }

  function KeptAll(es: seq<Entry>): seq<Found> {
    if es == [] then [] else Kept(es[0]) + KeptAll(es[1..])
  }

  /** `bytes` lies in memory at offset `o`. */
  ghost predicate Stored(mem: Memory, o: nat, bytes: seq<Byte>) {
    o + |bytes| <= |mem| && mem[o..o + |bytes|] == bytes
  }

  lemma StoredSplits(mem: Memory, o: nat, a: seq<Byte>, b: seq<Byte>)
    requires Stored(mem, o, a + b)
    ensures Stored(mem, o, a) && Stored(mem, o + |a|, b)
  {
    assert mem[o..o + |a|] == (a + b)[..|a|] == a;
    assert mem[o + |a|..o + |a| + |b|] == (a + b)[|a|..] == b;
  }

  lemma Bytes16Decode(mem: Memory, o: nat, v: nat)
    requires v < 0x1_0000 && Stored(mem, o, Bytes16(v))
    ensures U16(mem, o) == v
  {
    assert mem[o..o + 2][0] == Bytes16(v)[0] && mem[o..o + 2][1] == Bytes16(v)[1];
  }

  lemma Bytes32Decode(mem: Memory, o: nat, v: nat)
    requires v < 0x1_0000_0000 && Stored(mem, o, Bytes32(v))
    ensures U32(mem, o) == v
  {
    assert forall i :: 0 <= i < 4 ==> mem[o..o + 4][i] == Bytes32(v)[i];
    assert At(mem, o) == Bytes32(v)[0] && At(mem, o + 1) == Bytes32(v)[1];
    assert At(mem, o + 2) == Bytes32(v)[2] && At(mem, o + 3) == Bytes32(v)[3];
    var a := v / 256;
    var b := a / 256;
    assert v == 256 * a + v % 256 && a == 256 * b + a % 256 && b == 256 * (b / 256) + b % 256;
  }

  lemma HeadDecodes(mem: Memory, o: nat, head: seq<Byte>)
    requires |head| == 4 && Stored(mem, o, head)
    ensures At(mem, o) == head[0] && At(mem, o + 1) == head[1] && At(mem, o + 2) == head[2] && At(mem, o + 3) == head[3]
  {
    assert forall i :: 0 <= i < 4 ==> mem[o..o + 4][i] == head[i];
  }

  /** Reading back one encoded entry gives what it holds, without leaving it. */
  lemma EntryDecodes(mem: Memory, o: nat, e: Entry)
    requires WellFormed(e) && Stored(mem, o, Encode(e))
    ensures At(mem, o + 1) == |Encode(e)| >= 2 && Record(mem, o) == Kept(e) && ReadEnd(mem, o) <= o + |Encode(e)|
  {
    match e {
      case IoApicEntry(id, reserved, addr, gsiBase, extra) =>
        var head := [1, IOAPIC_ENTRY + |extra|, id, reserved];
        StoredSplits(mem, o, head + Bytes32(addr) + Bytes32(gsiBase), extra);
        StoredSplits(mem, o, head + Bytes32(addr), Bytes32(gsiBase));
        StoredSplits(mem, o, head, Bytes32(addr));
        HeadDecodes(mem, o, head);
        Bytes32Decode(mem, o + 4, addr);
        Bytes32Decode(mem, o + 8, gsiBase);
      case IsoEntry(bus, source, gsi, flags, extra) =>
        var head := [2, ISO_ENTRY + |extra|, bus, source];
        StoredSplits(mem, o, head + Bytes32(gsi) + Bytes16(flags), extra);
        StoredSplits(mem, o, head + Bytes32(gsi), Bytes16(flags));
        StoredSplits(mem, o, head, Bytes32(gsi));
        HeadDecodes(mem, o, head);
        Bytes32Decode(mem, o + 4, gsi);
        Bytes16Decode(mem, o + 8, flags);
      case OtherEntry(kind, body) =>
        var bytes := Encode(e);
        assert mem[o..o + |bytes|][0] == bytes[0] && mem[o..o + |bytes|][1] == bytes[1];
    }
  }

  /** One encoded entry at the front of a walk. */
  lemma WalkOne(mem: Memory, o: nat, e: Entry, end: nat)
    requires WellFormed(e) && Stored(mem, o, Encode(e)) && o + |Encode(e)| <= end
    ensures |Encode(e)| >= 2
    ensures Walk(mem, o, end) == Kept(e) + Walk(mem, o + |Encode(e)|, end)
    ensures Tiles(mem, o + |Encode(e)|, end) ==> Tiles(mem, o, end)
  {
    EntryDecodes(mem, o, e);
  }

  /** The body of an encoded list splits into its first entry and the rest. */
  lemma StoredList(mem: Memory, o: nat, es: seq<Entry>)
    requires es != [] && forall k :: 0 <= k < |es| ==> WellFormed(es[k])
    requires Stored(mem, o, EncodeAll(es))
    ensures Stored(mem, o, Encode(es[0])) && Stored(mem, o + |Encode(es[0])|, EncodeAll(es[1..]))
    ensures |EncodeAll(es)| == |Encode(es[0])| + |EncodeAll(es[1..])|
  {
    StoredSplits(mem, o, Encode(es[0]), EncodeAll(es[1..]));
  }

  /** Putting one entry in front of a list that walks as it should. */
  lemma WalkCons(mem: Memory, o: nat, e: Entry, rest: seq<Found>, end: nat)
    requires WellFormed(e) && Stored(mem, o, Encode(e)) && o + |Encode(e)| <= end
    requires Walk(mem, o + |Encode(e)|, end) == rest && Tiles(mem, o + |Encode(e)|, end)
    ensures Walk(mem, o, end) == Kept(e) + rest && Tiles(mem, o, end)
  {
    WalkOne(mem, o, e, end);
  }

  /** Walking any list of encoded entries finds exactly the ones to keep, in order, and they tile the table. */
  lemma {:induction false} WalkRoundTrip(mem: Memory, o: nat, es: seq<Entry>, end: nat)
    requires forall k :: 0 <= k < |es| ==> WellFormed(es[k])
    requires Stored(mem, o, EncodeAll(es)) && end == o + |EncodeAll(es)|
    ensures Walk(mem, o, end) == KeptAll(es) && Tiles(mem, o, end)
    decreases |es|
  {
    if es == [] {
      assert end == o;
    } else {
      var e, tail := es[0], es[1..];
      StoredList(mem, o, es);
      WalkRoundTrip(mem, o + |Encode(e)|, tail, end);
      WalkCons(mem, o, e, KeptAll(tail), end);
    }
  }

  /** Entries of at least two bytes fill the range exactly. */
  predicate Tiles(mem: Memory, o: nat, end: nat)
    decreases end - o
  {
    o == end || (o + 2 <= end && At(mem, o + 1) >= 2 && o + At(mem, o + 1) <= end && Tiles(mem, o + At(mem, o + 1), end))
  }

  /** A table whose entries tile it is never read past its end, whatever they hold. */
  lemma {:induction false} TiledStaysInside(mem: Memory, o: nat, end: nat)
    requires Tiles(mem, o, end)
    ensures StaysInside(mem, o, end)
    decreases end - o
  {
    if o == end {
    } else {
      TiledStaysInside(mem, o + At(mem, o + 1), end);
    }
  }

  /** The last entry the walk from `o` visits: the first of no length, or whose successor is past the end. */
  function Last(mem: Memory, o: nat, end: nat): nat
    decreases end - o
  {
    if At(mem, o + 1) == 0 || o + At(mem, o + 1) >= end then o else Last(mem, o + At(mem, o + 1), end)
  }

  /** The walk stays inside exactly if its last entry does: a header, and the fields read unless it claims no length. */
  lemma {:induction false} StaysInsideExactly(mem: Memory, o: nat, end: nat)
    requires o < end
    ensures
      var last := Last(mem, o, end);
      StaysInside(mem, o, end) <==> last + 2 <= end && (At(mem, last + 1) != 0 ==> ReadEnd(mem, last) <= end)
    decreases end - o
  {
    var len := At(mem, o + 1);
    if len == 0 || o + len >= end {
    } else {
      StaysInsideExactly(mem, o + len, end);
    }
  }

  /** A cut-off IOAPIC entry is recorded all the same, from bytes past the end of the table. */
  lemma TruncatedEntryIsOverread(mem: Memory, o: nat, end: nat)
    requires At(mem, o) == 1 && At(mem, o + 1) == IOAPIC_ENTRY && o + 2 <= end < o + IOAPIC_ENTRY
    ensures Walk(mem, o, end) == [IoApicInfo(At(mem, o + 2), U32(mem, o + 4), U32(mem, o + 8))]
    ensures !StaysInside(mem, o, end)
  {
    assert Walk(mem, o + IOAPIC_ENTRY, end) == [];
  }

  // ---------------------------------------------------------------- checksums

  lemma {:induction false} SumUpdated(mem: Memory, at: nat, v: Byte, n: nat)
    requires at < |mem|
    ensures Sum(mem[at := v], n) == Sum(mem, n) + if at < n then v as int - mem[at] as int else 0
  {
    if n == 0 {
    } else {
      SumUpdated(mem, at, v, n - 1);
    }
  }

  lemma ResidueDetects(sum: nat, w: Byte, v: Byte)
    requires sum % 256 == 0
    ensures (sum + (v as int - w as int)) % 256 == 0 <==> v == w
  {
    var q := sum / 256;
    assert sum == 256 * q;
  }

  /** Any change to one byte of a valid table, outside its length field, is detected. */
  lemma ChecksumDetects(mem: Memory, at: nat, v: Byte)
    requires at < TableLength(mem) <= |mem| && !(4 <= at < 8) && ChecksumValid(mem)
    ensures ChecksumValid(mem[at := v]) <==> v == mem[at]
  {
    SumUpdated(mem, at, v, TableLength(mem));
    ResidueDetects(Sum(mem, TableLength(mem)), mem[at], v);
  }

  lemma {:induction false} SumOfZeros(mem: Memory, n: nat)
    requires forall i :: 0 <= i < |mem| ==> mem[i] == 0
    ensures Sum(mem, n) == 0
  {
    if n == 0 {
    } else {
      SumOfZeros(mem, n - 1);
    }
  }

  /** The "APIC" signature, which sends a table to `parse_madt`. */
  predicate IsMadt(mem: Memory) {
    At(mem, 0) == 0x41 && At(mem, 1) == 0x50 && At(mem, 2) == 0x49 && At(mem, 3) == 0x43
  }

  /** 60 zeros, but for the signature. */
  function SignedZeros(): Memory { seq(60, _ => 0)[0 := 0x41][1 := 0x50][2 := 0x49][3 := 0x43] }

  lemma SignedSum(n: nat)
    requires n >= 4
    ensures Sum(SignedZeros(), n) == 285
  {
    var m0: Memory := seq(60, _ => 0);
    var m1 := m0[0 := 0x41];
    var m2 := m1[1 := 0x50];
    var m3 := m2[2 := 0x49];
    SumOfZeros(m0, n);
    SumUpdated(m0, 0, 0x41, n);
    SumUpdated(m1, 1, 0x50, n);
    SumUpdated(m2, 2, 0x49, n);
    SumUpdated(m3, 3, 0x43, n);
  }

  /** A signed table of 46 bytes that sums to 512 and ends after the header of an IOAPIC entry; past its end, a 7. */
  function CutOffTable(): Memory {
    SignedZeros()[4 := 46][9 := 168][44 := 1][45 := 12][46 := 7]
  }

  lemma CutOffSum(m0: Memory, n: nat)
    requires |m0| == 60 && m0[4] == 0 && m0[9] == 0 && m0[44] == 0 && m0[45] == 0 && n == 46
    ensures Sum(m0[4 := 46][9 := 168][44 := 1][45 := 12][46 := 7], n) == Sum(m0, n) + 227
  {
    var m1 := m0[4 := 46];
    var m2 := m1[9 := 168];
    var m3 := m2[44 := 1];
    var m4 := m3[45 := 12];
    SumUpdated(m0, 4, 46, n);
    SumUpdated(m1, 9, 168, n);
    SumUpdated(m2, 44, 1, n);
    SumUpdated(m3, 45, 12, n);
    SumUpdated(m4, 46, 7, n);
  }

  lemma CutOffChecksum()
    ensures TableLength(CutOffTable()) == 46 && ChecksumValid(CutOffTable())
  {
    var n := TableLength(CutOffTable());
    assert n == 46;
    SignedSum(n);
    CutOffSum(SignedZeros(), n);
  }

  lemma WrappingSum(sum: nat, b: Byte)
    ensures (sum % 256 + b) % 256 == (sum + b) % 256
  {
    var q := sum / 256;
    assert sum == 256 * q + sum % 256;
  }

  method VerifyChecksum(mem: Memory) returns (ok: bool)
    ensures ok <==> ChecksumValid(mem)
  {
    var acc: Byte := 0;
    for i := 0 to TableLength(mem)
      invariant acc == Sum(mem, i) % 256
    {
      WrappingSum(Sum(mem, i), At(mem, i));
      acc := (acc + At(mem, i)) % 256;
    }
    ok := acc == 0;
  }

  // ---------------------------------------------------------------- the parsers

  function IoApicsOf(fs: seq<Found>): seq<Found> {
    if fs == [] then [] else (if fs[0].IoApicInfo? then [fs[0]] else []) + IoApicsOf(fs[1..])
  }

  function IsosOf(fs: seq<Found>): seq<Found> {
    if fs == [] then [] else (if fs[0].IsoInfo? then [fs[0]] else []) + IsosOf(fs[1..])
  }

  lemma {:induction false} SelectConcat(a: seq<Found>, b: seq<Found>)
    ensures IoApicsOf(a + b) == IoApicsOf(a) + IoApicsOf(b) && IsosOf(a + b) == IsosOf(a) + IsosOf(b)
  {
    if a == [] {
      assert a + b == b;
    } else {
      assert (a + b)[0] == a[0] && (a + b)[1..] == a[1..] + b;
      SelectConcat(a[1..], b);
    }
  }

  /** Collecting `fs` and then `rest` is collecting both at once. */
  lemma CollectStep(ioapics: seq<Found>, isos: seq<Found>, fs: seq<Found>, rest: seq<Found>)
    ensures ioapics + IoApicsOf(fs) + IoApicsOf(rest) == ioapics + IoApicsOf(fs + rest)
    ensures isos + IsosOf(fs) + IsosOf(rest) == isos + IsosOf(fs + rest)
  {
    SelectConcat(fs, rest);
  }

  /** The body of the walk: what it pushes for one entry. */
  method ParseEntry(mem: Memory, o: nat) returns (ioapics: seq<Found>, isos: seq<Found>)
    ensures ioapics == IoApicsOf(Record(mem, o)) && isos == IsosOf(Record(mem, o))
  {
    ioapics, isos := [], [];
    if At(mem, o) == 1 {
      if At(mem, o + 1) >= IOAPIC_ENTRY {
        ioapics := [IoApicInfo(At(mem, o + 2), U32(mem, o + 4), U32(mem, o + 8))];
      }
    } else if At(mem, o) == 2 {
      if At(mem, o + 1) >= ISO_ENTRY {
        isos := [IsoInfo(At(mem, o + 2), At(mem, o + 3), U32(mem, o + 4), U16(mem, o + 8))];
      }
    }
  }

  /** One entry of the walk. */
  method Collect(mem: Memory, o: nat, ghost end: nat, ioapics: seq<Found>, isos: seq<Found>)
    returns (moreIoapics: seq<Found>, moreIsos: seq<Found>)
    requires o < end && At(mem, o + 1) != 0
    ensures Walked(mem, o + At(mem, o + 1), end, moreIoapics, moreIsos) == Walked(mem, o, end, ioapics, isos)
  {
    var a, b := ParseEntry(mem, o);
    moreIoapics, moreIsos := ioapics + a, isos + b;
  }

  /** The walk of `parse_madt` over the entries. */
  method WalkEntries(mem: Memory, start: nat, end: nat) returns (ioapics: seq<Found>, isos: seq<Found>)
    ensures ioapics == IoApicsOf(Walk(mem, start, end)) && isos == IsosOf(Walk(mem, start, end))
  {
    ioapics, isos := [], [];
    var offset := start;
    while offset < end
      invariant Walked(mem, offset, end, ioapics, isos) == Walked(mem, start, end, [], [])
      decreases end - offset
    {
      var len := At(mem, offset + 1);
      if len == 0 {
        break;
      }
      ioapics, isos := Collect(mem, offset, end, ioapics, isos);
      offset := offset + len;
    }
    WalkedFromStart(mem, start, end);
  }

  lemma WalkedFromStart(mem: Memory, o: nat, end: nat)
    ensures Walked(mem, o, end, [], []) == (IoApicsOf(Walk(mem, o, end)), IsosOf(Walk(mem, o, end)))
  {
    WalkedIsWalk(mem, o, end, [], []);
    var fs := Walk(mem, o, end);
    assert [] + IoApicsOf(fs) == IoApicsOf(fs) && [] + IsosOf(fs) == IsosOf(fs);
  }

  /** The walk from `o` on, with the two lists collected so far. */
  function Walked(mem: Memory, o: nat, end: nat, ioapics: seq<Found>, isos: seq<Found>): (seq<Found>, seq<Found>)
    decreases end - o
  {
    if o >= end || At(mem, o + 1) == 0 then (ioapics, isos)
    else Walked(mem, o + At(mem, o + 1), end, ioapics + IoApicsOf(Record(mem, o)), isos + IsosOf(Record(mem, o)))
  }

  lemma {:induction false} WalkedIsWalk(mem: Memory, o: nat, end: nat, ioapics: seq<Found>, isos: seq<Found>)
    ensures
      var fs := Walk(mem, o, end);
      Walked(mem, o, end, ioapics, isos) == (ioapics + IoApicsOf(fs), isos + IsosOf(fs))
    decreases end - o
  {
    if o >= end || At(mem, o + 1) == 0 {
      assert ioapics + [] == ioapics && isos + [] == isos;
    } else {
      var next, fs := o + At(mem, o + 1), Record(mem, o);
      WalkedIsWalk(mem, next, end, ioapics + IoApicsOf(fs), isos + IsosOf(fs));
      CollectStep(ioapics, isos, fs, Walk(mem, next, end));
    }
  }

  /** What a MADT leaves behind: the local APIC address, the IOAPICs and the overrides. */
  datatype Parsed = Parsed(localApic: Option<nat>, ioapics: seq<Found>, isos: seq<Found>)

  /** A table with a bad checksum is ignored; otherwise the walk's two lists are kept. */
  function ParseOf(mem: Memory): Parsed {
    if !ChecksumValid(mem) then Parsed(None, [], [])
    else
      var fs := Walk(mem, MADT_SIZE, TableLength(mem));
      Parsed(Some(U32(mem, 36)), IoApicsOf(fs), IsosOf(fs))
  }

  predicate Increasing(ps: seq<nat>) {
    forall i, j :: 0 <= i < j < |ps| ==> ps[i] < ps[j]
  }

  /** `ps` lists the positions of the overrides among the entries, and `found` holds their fields. */
  ghost predicate OverridesAt(es: seq<Entry>, ps: seq<nat>, found: seq<Found>) {
    && Increasing(ps) && |found| == |ps|
    && (forall k :: 0 <= k < |es| ==> (k in ps <==> es[k].IsoEntry?))
    && (forall j :: 0 <= j < |ps| ==>
          && ps[j] < |es| && es[ps[j]].IsoEntry?
          && found[j] == IsoInfo(es[ps[j]].bus, es[ps[j]].source, es[ps[j]].gsi, es[ps[j]].flags))
  }

  /** `ps` lists the positions of the IOAPICs among the entries, and `found` holds their fields. */
  ghost predicate IoApicsAt(es: seq<Entry>, ps: seq<nat>, found: seq<Found>) {
    && Increasing(ps) && |found| == |ps|
    && (forall k :: 0 <= k < |es| ==> (k in ps <==> es[k].IoApicEntry?))
    && (forall j :: 0 <= j < |ps| ==>
          && ps[j] < |es| && es[ps[j]].IoApicEntry?
          && found[j] == IoApicInfo(es[ps[j]].id, es[ps[j]].addr, es[ps[j]].gsiBase))
  }

  lemma {:induction false} KeptOneMore(es: seq<Entry>, e: Entry)
    ensures KeptAll(es + [e]) == KeptAll(es) + Kept(e)
  {
    if es == [] {
      assert [] + [e] == [e] && [e][1..] == [];
    } else {
      assert (es + [e])[0] == es[0] && (es + [e])[1..] == es[1..] + [e];
      KeptOneMore(es[1..], e);
    }
  }

  lemma SelectedOneMore(es: seq<Entry>)
    requires es != []
    ensures
      var n := |es| - 1;
      && IsosOf(KeptAll(es)) == IsosOf(KeptAll(es[..n])) + IsosOf(Kept(es[n]))
      && IoApicsOf(KeptAll(es)) == IoApicsOf(KeptAll(es[..n])) + IoApicsOf(Kept(es[n]))
  {
    var n := |es| - 1;
    assert es[..n] + [es[n]] == es;
    KeptOneMore(es[..n], es[n]);
    SelectConcat(KeptAll(es[..n]), Kept(es[n]));
  }

  lemma OverridesAtOneMore(es: seq<Entry>, ps: seq<nat>, found: seq<Found>, e: Entry) returns (more: seq<nat>)
    requires OverridesAt(es, ps, found)
    ensures OverridesAt(es + [e], more, found + IsosOf(Kept(e)))
  {
    assert forall k :: 0 <= k < |es| ==> (es + [e])[k] == es[k];
    if e.IsoEntry? {
      more := ps + [|es|];
      assert IsosOf(Kept(e)) == [IsoInfo(e.bus, e.source, e.gsi, e.flags)];
    } else {
      more := ps;
      assert IsosOf(Kept(e)) == [] && found + [] == found;
    }
  }

  /** The overrides kept are those of the entries, field by field and in order. */
  lemma {:induction false} OverridesByPosition(es: seq<Entry>) returns (ps: seq<nat>)
    ensures OverridesAt(es, ps, IsosOf(KeptAll(es)))
    decreases |es|
  {
    if es == [] {
      ps := [];
    } else {
      var n := |es| - 1;
      var front := OverridesByPosition(es[..n]);
      SelectedOneMore(es);
      assert es[..n] + [es[n]] == es;
      ps := OverridesAtOneMore(es[..n], front, IsosOf(KeptAll(es[..n])), es[n]);
    }
  }

  lemma IoApicsAtOneMore(es: seq<Entry>, ps: seq<nat>, found: seq<Found>, e: Entry) returns (more: seq<nat>)
    requires IoApicsAt(es, ps, found)
    ensures IoApicsAt(es + [e], more, found + IoApicsOf(Kept(e)))
  {
    assert forall k :: 0 <= k < |es| ==> (es + [e])[k] == es[k];
    if e.IoApicEntry? {
      more := ps + [|es|];
      assert IoApicsOf(Kept(e)) == [IoApicInfo(e.id, e.addr, e.gsiBase)];
    } else {
      more := ps;
      assert IoApicsOf(Kept(e)) == [] && found + [] == found;
    }
  }

  /** The IOAPICs kept are those of the entries, field by field and in order. */
  lemma {:induction false} IoApicsByPosition(es: seq<Entry>) returns (ps: seq<nat>)
    ensures IoApicsAt(es, ps, IoApicsOf(KeptAll(es)))
    decreases |es|
  {
    if es == [] {
      ps := [];
    } else {
      var n := |es| - 1;
      var front := IoApicsByPosition(es[..n]);
      SelectedOneMore(es);
      assert es[..n] + [es[n]] == es;
      ps := IoApicsAtOneMore(es[..n], front, IoApicsOf(KeptAll(es[..n])), es[n]);
    }
  }

  /**
   A valid table of encoded entries parses to exactly their IOAPICs and overrides, each
   with the fields of its entry and in order, and is not read past its end.
   */
  lemma MadtRoundTrip(mem: Memory, es: seq<Entry>) returns (apics: seq<nat>, overrides: seq<nat>)
    requires forall k :: 0 <= k < |es| ==> WellFormed(es[k])
    requires ChecksumValid(mem) && TableLength(mem) == 44 + |EncodeAll(es)| && Stored(mem, 44, EncodeAll(es))
    ensures ParseOf(mem).localApic == Some(At(mem, 36) + 0x100 * At(mem, 37) + 0x1_0000 * At(mem, 38) + 0x100_0000 * At(mem, 39))
    ensures IoApicsAt(es, apics, ParseOf(mem).ioapics) && OverridesAt(es, overrides, ParseOf(mem).isos)
    ensures StaysInside(mem, 44, TableLength(mem))
  {
    var end := TableLength(mem);
    ParsedLists(mem, es, 44, end);
    ParseOfWalk(mem, KeptAll(es));
    apics, overrides := ByPosition(es, ParseOf(mem));
  }

  lemma ParseOfWalk(mem: Memory, fs: seq<Found>)
    requires ChecksumValid(mem) && Walk(mem, 44, TableLength(mem)) == fs
    ensures ParseOf(mem).ioapics == IoApicsOf(fs) && ParseOf(mem).isos == IsosOf(fs)
    ensures ParseOf(mem).localApic == Some(At(mem, 36) + 0x100 * At(mem, 37) + 0x1_0000 * At(mem, 38) + 0x100_0000 * At(mem, 39))
  {
  }

  lemma ByPosition(es: seq<Entry>, p: Parsed) returns (apics: seq<nat>, overrides: seq<nat>)
    requires p.ioapics == IoApicsOf(KeptAll(es)) && p.isos == IsosOf(KeptAll(es))
    ensures IoApicsAt(es, apics, p.ioapics) && OverridesAt(es, overrides, p.isos)
  {
    apics := IoApicsByPosition(es);
    overrides := OverridesByPosition(es);
  }

  lemma ParsedLists(mem: Memory, es: seq<Entry>, o: nat, end: nat)
    requires forall k :: 0 <= k < |es| ==> WellFormed(es[k])
    requires end == o + |EncodeAll(es)| && Stored(mem, o, EncodeAll(es))
    ensures Walk(mem, o, end) == KeptAll(es) && StaysInside(mem, o, end)
  {
    WalkRoundTrip(mem, o, es, end);
    TiledStaysInside(mem, o, end);
  }

  /** An override read byte by byte: bus, source, the interrupt in four bytes and the flags in two, lowest first. */
  lemma OverrideByBytes(mem: Memory, o: nat)
    requires At(mem, o) == 2 && At(mem, o + 1) >= 10
    ensures |Record(mem, o)| == 1 && Record(mem, o)[0].IsoInfo?
    ensures Record(mem, o)[0].bus == At(mem, o + 2) && Record(mem, o)[0].source == At(mem, o + 3)
    ensures Record(mem, o)[0].gsi ==
      At(mem, o + 4) + 0x100 * At(mem, o + 5) + 0x1_0000 * At(mem, o + 6) + 0x100_0000 * At(mem, o + 7)
    ensures Record(mem, o)[0].flags == At(mem, o + 8) + 0x100 * At(mem, o + 9)
  {
  }

  /** An IOAPIC read byte by byte: id, a reserved byte, its address and its first interrupt, lowest byte first. */
  lemma IoApicByBytes(mem: Memory, o: nat)
    requires At(mem, o) == 1 && At(mem, o + 1) >= 12
    ensures |Record(mem, o)| == 1 && Record(mem, o)[0].IoApicInfo? && Record(mem, o)[0].id == At(mem, o + 2)
    ensures Record(mem, o)[0].addr ==
      At(mem, o + 4) + 0x100 * At(mem, o + 5) + 0x1_0000 * At(mem, o + 6) + 0x100_0000 * At(mem, o + 7)
    ensures Record(mem, o)[0].gsiBase ==
      At(mem, o + 8) + 0x100 * At(mem, o + 9) + 0x1_0000 * At(mem, o + 10) + 0x100_0000 * At(mem, o + 11)
  {
  }

  /** A MADT that passes the checksum and yields an IOAPIC made up of bytes past its end. */
  lemma CutOffTableIsOverread()
    ensures IsMadt(CutOffTable())
    ensures ParseOf(CutOffTable()) == Parsed(Some(0), [IoApicInfo(7, 0, 0)], [])
    ensures !StaysInside(CutOffTable(), MADT_SIZE, TableLength(CutOffTable()))
  {
    CutOffChecksum();
    TruncatedEntryIsOverread(CutOffTable(), MADT_SIZE, 46);
  }

  /** `parse_madt`. */
  method ParseMadt(mem: Memory) returns (localApic: Option<nat>, ioapics: seq<Found>, isos: seq<Found>)
    ensures Parsed(localApic, ioapics, isos) == ParseOf(mem)
  {
    localApic, ioapics, isos := None, [], [];
    var ok := VerifyChecksum(mem);
    if ok {
      localApic := Some(U32(mem, 36));
      ioapics, isos := WalkEntries(mem, MADT_SIZE, TableLength(mem));
    }
  }

  datatype Allocation = Allocation(base: nat, segment: nat, startBus: Byte, endBus: Byte)

  function AllocationAt(mem: Memory, o: nat): Allocation {
    Allocation(U64(mem, o), U16(mem, o + 8), At(mem, o + 10), At(mem, o + 11))
  }

  /** The first twelve bytes of an allocation; four reserved ones follow. */
  function EncodeAllocation(a: Allocation): seq<Byte>
    requires a.base < 0x1_0000_0000_0000_0000 && a.segment < 0x1_0000
  {
    Bytes32(a.base % 0x1_0000_0000) + Bytes32(a.base / 0x1_0000_0000) + Bytes16(a.segment) + [a.startBus, a.endBus]
  }

  /** Reading back an encoded allocation gives what it holds. */
  lemma AllocationDecodes(mem: Memory, o: nat, a: Allocation)
    requires a.base < 0x1_0000_0000_0000_0000 && a.segment < 0x1_0000 && Stored(mem, o, EncodeAllocation(a))
    ensures AllocationAt(mem, o) == a
  {
    var low, high, seg := Bytes32(a.base % 0x1_0000_0000), Bytes32(a.base / 0x1_0000_0000), Bytes16(a.segment);
    var buses := [a.startBus, a.endBus];
    StoredSplits(mem, o, low + high + seg, buses);
    StoredSplits(mem, o, low + high, seg);
    StoredSplits(mem, o, low, high);
    Bytes32Decode(mem, o, a.base % 0x1_0000_0000);
    Bytes32Decode(mem, o + 4, a.base / 0x1_0000_0000);
    Bytes16Decode(mem, o + 8, a.segment);
    assert mem[o + 10..o + 12][0] == buses[0] && mem[o + 10..o + 12][1] == buses[1];
  }

  /** An allocation read byte by byte: the base in eight bytes, the segment in two, lowest first, and the two buses. */
  lemma AllocationByBytes(mem: Memory, o: nat)
    ensures AllocationAt(mem, o).base ==
      At(mem, o) + 0x100 * At(mem, o + 1) + 0x1_0000 * At(mem, o + 2) + 0x100_0000 * At(mem, o + 3)
      + 0x1_0000_0000 * At(mem, o + 4) + 0x100_0000_0000 * At(mem, o + 5)
      + 0x1_0000_0000_0000 * At(mem, o + 6) + 0x100_0000_0000_0000 * At(mem, o + 7)
    ensures AllocationAt(mem, o).segment == At(mem, o + 8) + 0x100 * At(mem, o + 9)
    ensures AllocationAt(mem, o).startBus == At(mem, o + 10) && AllocationAt(mem, o).endBus == At(mem, o + 11)
  {
  }

  /** As many allocations as fit between the header and the table's end, in order. */
  function McfgOf(mem: Memory): seq<Allocation> {
    var n := if TableLength(mem) < MCFG_SIZE then 0 else (TableLength(mem) - MCFG_SIZE) / ALLOCATION;
    seq(n, k requires 0 <= k < n => AllocationAt(mem, MCFG_SIZE + ALLOCATION * k))
  }

  /** A table of encoded allocations parses to exactly that list. */
  lemma McfgRoundTrip(mem: Memory, allocations: seq<Allocation>)
    requires forall k :: 0 <= k < |allocations| ==>
      && allocations[k].base < 0x1_0000_0000_0000_0000 && allocations[k].segment < 0x1_0000
      && Stored(mem, 44 + 16 * k, EncodeAllocation(allocations[k]))
    requires TableLength(mem) == 44 + 16 * |allocations|
    ensures McfgOf(mem) == allocations
  {
    assert (16 * |allocations|) / 16 == |allocations|;
    forall k | 0 <= k < |allocations| ensures AllocationAt(mem, 44 + 16 * k) == allocations[k] {
      AllocationDecodes(mem, 44 + 16 * k, allocations[k]);
    }
  }

  /** `parse_mcfg` */
  method ParseMcfg(mem: Memory) returns (allocations: seq<Allocation>)
    ensures |allocations| == if TableLength(mem) < 44 then 0 else (TableLength(mem) - 44) / 16
    ensures forall k :: 0 <= k < |allocations| ==> allocations[k] == AllocationAt(mem, 44 + 16 * k)
    ensures allocations == McfgOf(mem)
  {
    allocations := [];
    var total := TableLength(mem);
    var offset := MCFG_SIZE;
    while offset + ALLOCATION <= total
      invariant offset == MCFG_SIZE + ALLOCATION * |allocations|
      invariant offset == MCFG_SIZE || offset <= total
      invariant forall k :: 0 <= k < |allocations| ==> allocations[k] == AllocationAt(mem, MCFG_SIZE + ALLOCATION * k)
    {
      allocations := allocations + [AllocationAt(mem, offset)];
      offset := offset + ALLOCATION;
    }
  }
}
