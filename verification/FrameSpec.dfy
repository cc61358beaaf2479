/**
 What the physical frame allocator of `src/memory/frame.rs` is for, as a machine over
 the set of free frames, together with the placement of its bitmap.
 */
module FrameSpec {
  import opened Common

  const FRAME: nat := 0x1000

  /** A memory-map region; `FrameRange` holds frame numbers, so both ends are page aligned. */
  datatype Region = Region(usable: bool, startFrame: nat, endFrame: nat) {
    function Start(): nat { startFrame * FRAME }
    function End(): nat { endFrame * FRAME }
  }

  // ---------------------------------------------------------------- layout of memory

  /** `(a + 0xFFF) / 0x1000` */
  function FramesUpTo(a: nat): nat { (a + 0xFFF) / FRAME }

  /** `(a + 0xFFF) & !0xFFF` */
  function AlignUp(a: nat): nat { FramesUpTo(a) * FRAME }

  function MaxAddr(regions: seq<Region>): nat {
    if regions == [] then 0
    else
      var m := MaxAddr(regions[..|regions| - 1]);
      var r := regions[|regions| - 1];
      if r.usable && r.End() > m then r.End() else m
  }

  predicate InUsable(regions: seq<Region>, i: nat) {
    exists k :: 0 <= k < |regions| && regions[k].usable && regions[k].startFrame <= i < regions[k].endFrame
  }

  function KernelFrames(kernelEnd: Option<nat>): nat {
    if kernelEnd.None? then 0 else FramesUpTo(kernelEnd.value)
  }

  predicate InBitmap(start: nat, bytes: nat, i: nat) {
    start / FRAME <= i < FramesUpTo(start + bytes)
  }

  /** The frames the allocator is meant to hand out. */
  predicate Allocatable(regions: seq<Region>, kernelEnd: Option<nat>, start: nat, bytes: nat, i: nat) {
    InUsable(regions, i) && i >= KernelFrames(kernelEnd) && !InBitmap(start, bytes, i)
  }

  /** Frame `i` as bytes of memory. */
  predicate InFrame(i: nat, a: nat) { i * 0x1000 <= a < (i + 1) * 0x1000 }

  lemma FramesUpToExactly(a: nat, i: nat)
    ensures i >= FramesUpTo(a) <==> a <= i * 0x1000
  {
  }

  lemma InBitmapExactly(start: nat, bytes: nat, i: nat)
    requires bytes > 0
    ensures InBitmap(start, bytes, i) <==> exists a :: start <= a < start + bytes && InFrame(i, a)
  {
    FramesUpToExactly(start + bytes, i);
    if InBitmap(start, bytes, i) {
      var a := if start < i * 0x1000 then i * 0x1000 else start;
      assert start <= a < start + bytes && InFrame(i, a);
    }
  }

  /**
   The frames to hand out, byte by byte: all of the frame is in one usable region, it
   begins at or above the kernel end, and no byte of it is in the bitmap.
   */
  lemma AllocatableExactly(regions: seq<Region>, kernelEnd: Option<nat>, start: nat, bytes: nat, i: nat)
    requires bytes > 0
    ensures Allocatable(regions, kernelEnd, start, bytes, i) <==>
      && (exists k :: 0 <= k < |regions| && regions[k].usable
            && regions[k].startFrame * 0x1000 <= i * 0x1000 && (i + 1) * 0x1000 <= regions[k].endFrame * 0x1000)
      && (kernelEnd.Some? ==> kernelEnd.value <= i * 0x1000)
      && (forall a :: start <= a < start + bytes ==> !InFrame(i, a))
  {
    InBitmapExactly(start, bytes, i);
    if kernelEnd.Some? {
      FramesUpToExactly(kernelEnd.value, i);
    }
    if InUsable(regions, i) {
      var k :| 0 <= k < |regions| && regions[k].usable && regions[k].startFrame <= i < regions[k].endFrame;
      assert regions[k].startFrame * 0x1000 <= i * 0x1000 && (i + 1) * 0x1000 <= regions[k].endFrame * 0x1000;
    }
  }

  /** The unsafe contract of `init`: usable regions are backed by memory. */
  predicate Backed(regions: seq<Region>, size: nat) {
    forall k :: 0 <= k < |regions| && regions[k].usable ==> regions[k].End() <= size
  }

  // ---------------------------------------------------------------- bitmap placement

  /** Where the bitmap goes in region `r`, if it fits above the kernel end. */
  function Fit(r: Region, kernelEnd: Option<nat>, bytes: nat): Option<nat> {
    if !r.usable then None
    else if kernelEnd.Some? && r.End() <= kernelEnd.value then None
    else
      var start := if kernelEnd.Some? && r.Start() < kernelEnd.value then AlignUp(kernelEnd.value) else r.Start();
      var aligned := AlignUp(start);
      if aligned + bytes <= r.End() then Some(aligned) else None
  }

  /** The first region that fits; the source's second pass is this with no kernel end. */
  function Scan(regions: seq<Region>, kernelEnd: Option<nat>, bytes: nat): Option<nat> {
    if regions == [] then None
    else if Fit(regions[0], kernelEnd, bytes).Some? then Fit(regions[0], kernelEnd, bytes)
    else Scan(regions[1..], kernelEnd, bytes)
  }

  /** Both passes; as in the source, 0 doubles as "not found". */
  function Placement(regions: seq<Region>, kernelEnd: Option<nat>, bytes: nat): nat {
    var first := Scan(regions, kernelEnd, bytes);
    if first.Some? && first.value != 0 then first.value
    else
      var second := Scan(regions, None, bytes);
      if second.Some? then second.value else 0
  }

  lemma {:induction false} ScanFits(regions: seq<Region>, kernelEnd: Option<nat>, bytes: nat) returns (k: nat)
    requires Scan(regions, kernelEnd, bytes).Some?
    ensures k < |regions| && regions[k].usable
    ensures Fit(regions[k], kernelEnd, bytes) == Scan(regions, kernelEnd, bytes)
    ensures forall j :: 0 <= j < k ==> Fit(regions[j], kernelEnd, bytes).None?
  {
    if Fit(regions[0], kernelEnd, bytes).Some? {
      k := 0;
    } else {
      var m := ScanFits(regions[1..], kernelEnd, bytes);
      k := m + 1;
      assert regions[1..][m] == regions[k];
      forall j | 0 <= j < k ensures Fit(regions[j], kernelEnd, bytes).None? {
        if j > 0 { assert regions[1..][j - 1] == regions[j]; }
      }
    }
  }

  lemma AlignedStaysPut(f: nat)
    ensures AlignUp(f * FRAME) == f * FRAME && FramesUpTo(f * FRAME) == f
  {
  }

  lemma AlignUpBounds(a: nat)
    ensures a <= AlignUp(a) < a + FRAME && AlignUp(a) % FRAME == 0
  {
  }

  /** A fit is page aligned, inside a usable region, and clear of the kernel. */
  lemma FitIsSound(r: Region, kernelEnd: Option<nat>, bytes: nat)
    requires Fit(r, kernelEnd, bytes).Some?
    ensures
      var a := Fit(r, kernelEnd, bytes).value;
      && a % FRAME == 0 && r.Start() <= a && a + bytes <= r.End()
      && (kernelEnd.Some? ==> kernelEnd.value <= a)
  {
    AlignedStaysPut(r.startFrame);
    if kernelEnd.Some? {
      AlignUpBounds(kernelEnd.value);
      AlignedStaysPut(FramesUpTo(kernelEnd.value));
    }
  }

  /** The chosen place lies in a usable region, and overlaps the kernel only if the first pass found nothing. */
  lemma PlacementIsSound(regions: seq<Region>, kernelEnd: Option<nat>, bytes: nat)
    requires Placement(regions, kernelEnd, bytes) != 0
    ensures
      var a := Placement(regions, kernelEnd, bytes);
      && a % FRAME == 0
      && (exists k :: 0 <= k < |regions| && regions[k].usable && regions[k].Start() <= a && a + bytes <= regions[k].End())
      && (kernelEnd.Some? && a < kernelEnd.value ==> Scan(regions, kernelEnd, bytes).None?)
  {
    var first := Scan(regions, kernelEnd, bytes);
    if first.Some? {
      var k := ScanFits(regions, kernelEnd, bytes);
      FitIsSound(regions[k], kernelEnd, bytes);
    }
    if first.None? || first.value == 0 {
      var k := ScanFits(regions, None, bytes);
      FitIsSound(regions[k], None, bytes);
    }
  }

  /** The region can hold the bitmap. */
  predicate HasRoom(r: Region, bytes: nat) {
    r.usable && r.Start() + bytes <= r.End()
  }

  /** The region can hold the bitmap at or above the page-aligned kernel end. */
  predicate HasRoomAbove(r: Region, kend: nat, bytes: nat) {
    r.usable && r.Start() + bytes <= r.End() && AlignUp(kend) + bytes <= r.End()
  }

  /** Region `k` is the first that can hold the bitmap. */
  predicate FirstRoom(regions: seq<Region>, k: int, bytes: nat) {
    0 <= k < |regions| && HasRoom(regions[k], bytes) && forall j :: 0 <= j < k ==> !HasRoom(regions[j], bytes)
  }

  lemma FitIsRoom(r: Region, bytes: nat)
    ensures Fit(r, None, bytes) == if HasRoom(r, bytes) then Some(r.Start()) else None
  {
    AlignedStaysPut(r.startFrame);
  }

  lemma AlignUpGrid(f: nat, a: nat)
    ensures f * FRAME < a <==> f * FRAME < AlignUp(a)
  {
    AlignUpBounds(a);
  }

  lemma FitIsRoomAbove(r: Region, kend: nat, bytes: nat)
    requires bytes > 0
    ensures Fit(r, Some(kend), bytes).Some? <==> HasRoomAbove(r, kend, bytes)
  {
    AlignedStaysPut(r.startFrame);
    AlignedStaysPut(FramesUpTo(kend));
    AlignUpBounds(kend);
    AlignUpGrid(r.startFrame, kend);
  }

  lemma {:induction false} ScanFindsNothing(regions: seq<Region>, kernelEnd: Option<nat>, bytes: nat)
    requires Scan(regions, kernelEnd, bytes).None?
    ensures forall k :: 0 <= k < |regions| ==> Fit(regions[k], kernelEnd, bytes).None?
  {
    if regions == [] {
    } else {
      ScanFindsNothing(regions[1..], kernelEnd, bytes);
      forall k | 0 <= k < |regions| ensures Fit(regions[k], kernelEnd, bytes).None? {
        if k > 0 { assert regions[1..][k - 1] == regions[k]; }
      }
    }
  }

  lemma ScanIsFirstRoom(regions: seq<Region>, bytes: nat)
    ensures match Scan(regions, None, bytes)
      case None => forall k :: !FirstRoom(regions, k, bytes)
      case Some(a) => exists k :: FirstRoom(regions, k, bytes) && regions[k].Start() == a
  {
    if Scan(regions, None, bytes).None? {
      ScanFindsNothing(regions, None, bytes);
      forall k | 0 <= k < |regions| ensures !HasRoom(regions[k], bytes) {
        FitIsRoom(regions[k], bytes);
      }
    } else {
      var k := ScanFits(regions, None, bytes);
      FitIsRoom(regions[k], bytes);
      forall j | 0 <= j < k ensures !HasRoom(regions[j], bytes) {
        FitIsRoom(regions[j], bytes);
      }
      assert FirstRoom(regions, k, bytes);
    }
  }

  lemma ScanIsRoomAbove(regions: seq<Region>, kend: nat, bytes: nat)
    requires bytes > 0
    ensures Scan(regions, Some(kend), bytes).None? <==>
      forall k :: 0 <= k < |regions| ==> !HasRoomAbove(regions[k], kend, bytes)
  {
    if Scan(regions, Some(kend), bytes).None? {
      ScanFindsNothing(regions, Some(kend), bytes);
      forall k | 0 <= k < |regions| ensures !HasRoomAbove(regions[k], kend, bytes) {
        FitIsRoomAbove(regions[k], kend, bytes);
      }
    } else {
      var k := ScanFits(regions, Some(kend), bytes);
      FitIsRoomAbove(regions[k], kend, bytes);
    }
  }

  lemma FirstRoomIsUnique(regions: seq<Region>, j: int, k: int, bytes: nat)
    requires FirstRoom(regions, j, bytes) && FirstRoom(regions, k, bytes)
    ensures j == k
  {
  }

  /** The second pass yields 0 exactly if the first region with room, if any, begins at frame 0. */
  lemma SecondPass(regions: seq<Region>, bytes: nat)
    ensures
      var second := Scan(regions, None, bytes);
      second == None || second == Some(0) <==> forall k :: FirstRoom(regions, k, bytes) ==> regions[k].startFrame == 0
  {
    ScanIsFirstRoom(regions, bytes);
    if Scan(regions, None, bytes).Some? {
      var j :| FirstRoom(regions, j, bytes) && regions[j].Start() == Scan(regions, None, bytes).value;
      forall k | FirstRoom(regions, k, bytes) ensures k == j {
        FirstRoomIsUnique(regions, j, k, bytes);
      }
    }
  }

  /** The first pass yields nothing but 0: only without a kernel end does it pick frame 0. */
  lemma PlacementIsZero(regions: seq<Region>, kernelEnd: Option<nat>, bytes: nat)
    requires bytes > 0
    ensures
      var second := Scan(regions, None, bytes);
      Placement(regions, kernelEnd, bytes) == 0 <==>
        && (second == None || second == Some(0))
        && (kernelEnd.Some? && kernelEnd.value > 0 ==> Scan(regions, kernelEnd, bytes) == None)
  {
    var first := Scan(regions, kernelEnd, bytes);
    if first.Some? {
      var k := ScanFits(regions, kernelEnd, bytes);
      FitIsSound(regions[k], kernelEnd, bytes);
    }
    if kernelEnd == Some(0) {
      ScanFromZero(regions, bytes);
    }
  }

  /**
   Exactly when `init` gives up: the first region with room for the bitmap, if there is
   one, begins at frame 0, and no region has room above a kernel end other than 0.
   */
  lemma NoBitmapExactly(regions: seq<Region>, kernelEnd: Option<nat>, bytes: nat)
    requires bytes > 0
    ensures
      Placement(regions, kernelEnd, bytes) == 0 <==>
        && (forall k :: FirstRoom(regions, k, bytes) ==> regions[k].startFrame == 0)
        && (kernelEnd.Some? && kernelEnd.value > 0 ==>
              forall k :: 0 <= k < |regions| ==> !HasRoomAbove(regions[k], kernelEnd.value, bytes))
  {
    PlacementIsZero(regions, kernelEnd, bytes);
    SecondPass(regions, bytes);
    if kernelEnd.Some? {
      ScanIsRoomAbove(regions, kernelEnd.value, bytes);
    }
  }

  lemma {:induction false} ScanFromZero(regions: seq<Region>, bytes: nat)
    requires bytes > 0
    ensures Scan(regions, Some(0), bytes) == Scan(regions, None, bytes)
  {
    if regions == [] {
    } else {
      AlignUpBounds(regions[0].Start());
      ScanFromZero(regions[1..], bytes);
    }
  }

  /** Memory that fits the bitmap elsewhere is lost when the first fitting region begins at frame 0. */
  lemma PlacementAtZeroIsNotFound()
    ensures
      var regions := [Region(true, 0, 1), Region(true, 1, 3)];
      && Fit(regions[1], None, 1) == Some(0x1000)
      && Placement(regions, None, 1) == 0
  {
    var regions := [Region(true, 0, 1), Region(true, 1, 3)];
    assert Scan(regions, None, 1) == Some(0);
  }

  lemma {:induction false} MaxAddrIsMax(regions: seq<Region>)
    ensures forall k :: 0 <= k < |regions| && regions[k].usable ==> regions[k].End() <= MaxAddr(regions)
    ensures MaxAddr(regions) == 0
      || exists k :: 0 <= k < |regions| && regions[k].usable && regions[k].End() == MaxAddr(regions)
  {
    if regions == [] {
    } else {
      var front := regions[..|regions| - 1];
      MaxAddrIsMax(front);
      forall k | 0 <= k < |regions| && regions[k].usable ensures regions[k].End() <= MaxAddr(regions) {
        if k < |front| { assert front[k] == regions[k]; }
      }
      if MaxAddr(regions) == MaxAddr(front) != 0 {
        var k :| 0 <= k < |front| && front[k].usable && front[k].End() == MaxAddr(front);
        assert regions[k] == front[k];
      }
    }
  }

  // ---------------------------------------------------------------- the allocator as a machine

  /**
   Free frames out of `n`, the next-fit cursor, the frames a client holds, and the
   bytes the client last wrote.
   */
  datatype Pool = Pool(n: nat, free: set<nat>, next: nat, held: set<nat>, data: map<nat, bv8>)

  datatype Op =
    | Allocate
    | Release(frame: nat)
    | Write(addr: nat, byte: bv8)

  /** The lowest free frame in `[lo, hi)`. */
  function Lowest(free: set<nat>, lo: nat, hi: nat): Option<nat>
    decreases hi - lo
  {
    if lo >= hi then None else if lo in free then Some(lo) else Lowest(free, lo + 1, hi)
  }

  /** Next fit: search from the cursor to the end, then wrap around. */
  function Choose(free: set<nat>, next: nat, n: nat): Option<nat> {
    var up := Lowest(free, next, n);
    if up.Some? then up else Lowest(free, 0, next)
  }

  function NextFit(p: Pool): Option<nat> {
    Choose(p.free, p.next, p.n)
  }

  /** How far `i` is from the cursor, going up cyclically. */
  function Distance(p: Pool, i: nat): int {
    if i >= p.next then i - p.next else i + p.n - p.next
  }

  function Apply(p: Pool, op: Op): Pool {
    match op
    case Allocate =>
      (match NextFit(p)
       case None => p
       case Some(i) => p.(free := p.free - {i}, next := i + 1, held := p.held + {i}))
    case Release(f) =>
      if f in p.held then p.(free := p.free + {f}, held := p.held - {f}) else p
    case Write(addr, byte) =>
      if addr / FRAME in p.held then p.(data := p.data[addr := byte]) else p
  }

  function ApplyAll(p: Pool, ops: seq<Op>): Pool
    decreases |ops|
  {
    if ops == [] then p else ApplyAll(Apply(p, ops[0]), ops[1..])
  }

  ghost predicate Sound(p: Pool) {
    && p.next <= p.n
    && p.free !! p.held
    && (forall i :: i in p.free ==> i < p.n)
    && (forall i :: i in p.held ==> i < p.n)
  }

  lemma {:induction false} LowestIsLowest(free: set<nat>, lo: nat, hi: nat)
    ensures
      match Lowest(free, lo, hi)
      case None => forall j :: lo <= j < hi ==> j !in free
      case Some(i) => lo <= i < hi && i in free && forall j :: lo <= j < i ==> j !in free
    decreases hi - lo
  {
    if lo >= hi || lo in free {
    } else {
      LowestIsLowest(free, lo + 1, hi);
    }
  }

  /** Next fit fails only when nothing is free, and otherwise finds the nearest free frame in cyclic order. */
  lemma NextFitIsNearest(p: Pool)
    requires Sound(p)
    ensures NextFit(p).None? <==> p.free == {}
    ensures NextFit(p).Some? ==>
      && NextFit(p).value in p.free && NextFit(p).value !in p.held
      && forall j :: j in p.free && j != NextFit(p).value ==> Distance(p, NextFit(p).value) < Distance(p, j)
  {
    LowestIsLowest(p.free, p.next, p.n);
    LowestIsLowest(p.free, 0, p.next);
    if NextFit(p).None? {
      forall j | j in p.free ensures false {
      }
    }
  }

  lemma ApplyConserves(p: Pool, op: Op)
    requires Sound(p)
    ensures Sound(Apply(p, op)) && Apply(p, op).n == p.n
    ensures Apply(p, op).free + Apply(p, op).held == p.free + p.held
  {
    NextFitIsNearest(p);
    LowestIsLowest(p.free, p.next, p.n);
    LowestIsLowest(p.free, 0, p.next);
  }

  /** Over every run, free and held frames are disjoint and together are the frames first available. */
  lemma {:induction false} RunConserves(p: Pool, ops: seq<Op>)
    requires Sound(p)
    ensures Sound(ApplyAll(p, ops)) && ApplyAll(p, ops).n == p.n
    ensures ApplyAll(p, ops).free + ApplyAll(p, ops).held == p.free + p.held
    decreases |ops|
  {
    if ops == [] {
    } else {
      ApplyConserves(p, ops[0]);
      RunConserves(Apply(p, ops[0]), ops[1..]);
    }
  }
}
