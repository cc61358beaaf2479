/**
 The bitmap frame allocator of `src/memory/frame.rs`.  The bitmap lives inside the
 physical memory it manages: one byte array, in which bit `i` of the bitmap is set
 when frame `i` is in use.
 */
module FrameAllocator {
  import opened Common
  import opened FrameSpec

  // ---------------------------------------------------------------- bits

  /** `1 << k` */
  function Mask(k: nat): bv8
    requires k < 8
  {
    if k == 0 then 1 else if k == 1 then 2 else if k == 2 then 4 else if k == 3 then 8
    else if k == 4 then 16 else if k == 5 then 32 else if k == 6 then 64 else 128
  }

  lemma MaskIsShift(k: nat)
    requires k < 8
    ensures Mask(k) == (1 as bv8) << k
  {
  }

  predicate BitSet(b: bv8, k: nat)
    requires k < 8
  {
    b & Mask(k) != 0
  }

  /** `if val { cur | (1 << k) } else { cur & !(1 << k) }` */
  function WithBit(b: bv8, k: nat, val: bool): bv8
    requires k < 8
  {
    if val then b | Mask(k) else b & !Mask(k)
  }

  lemma WithBitChangesOne(b: bv8, k: nat, val: bool, j: nat)
    requires k < 8 && j < 8
    ensures BitSet(WithBit(b, k, val), j) <==> if j == k then val else BitSet(b, j)
  {
  }

  /** Replacing the byte that holds bit `idx` changes that bit only. */
  lemma OtherBitsStay(before: bv8, after: bv8, idx: nat, val: bool, i: nat)
    requires after == WithBit(before, idx % 8, val) && i / 8 == idx / 8
    ensures BitSet(after, i % 8) <==> if i == idx then val else BitSet(before, i % 8)
  {
    WithBitChangesOne(before, idx % 8, val, i % 8);
    assert i % 8 == idx % 8 <==> i == idx;
  }

  lemma FullByte(j: nat)
    requires j < 8
    ensures BitSet(0xFF, j)
  {
  }

  /** Bit `i` of the bitmap at `start`. */
  predicate Used(mem: array<bv8>, start: nat, i: nat)
    requires start + i / 8 < mem.Length
    reads mem
  {
    BitSet(mem[start + i / 8], i % 8)
  }

  ghost predicate HoldsBitmap(mem: array<bv8>, start: nat, n: nat) {
    start + (n + 7) / 8 <= mem.Length
  }

  /** Read, change one bit, write back: the source's `set_bit`, with its range guard. */
  method SetBit(mem: array<bv8>, start: nat, n: nat, idx: nat, val: bool)
    requires HoldsBitmap(mem, start, n)
    modifies mem
    ensures forall i :: 0 <= i < n ==> (Used(mem, start, i) <==> if i == idx then val else old(Used(mem, start, i)))
    ensures forall a :: 0 <= a < mem.Length && !(start <= a < start + (n + 7) / 8) ==> mem[a] == old(mem[a])
  {
    if idx >= n {
      return;
    }
    var cur := mem[start + idx / 8];
    var updated := WithBit(cur, idx % 8, val);
    mem[start + idx / 8] := updated;
    forall i | 0 <= i < n
      ensures Used(mem, start, i) <==> if i == idx then val else old(Used(mem, start, i))
    {
      if i / 8 == idx / 8 {
        OtherBitsStay(cur, updated, idx, val, i);
      }
    }
  }

  /** `for i in from..to { set_bit(i, val) }` */
  method SetRange(mem: array<bv8>, start: nat, n: nat, from: nat, to: nat, val: bool)
    requires HoldsBitmap(mem, start, n)
    modifies mem
    ensures forall i :: 0 <= i < n ==>
      (Used(mem, start, i) <==> if from <= i < to then val else old(Used(mem, start, i)))
    ensures forall a :: 0 <= a < mem.Length && !(start <= a < start + (n + 7) / 8) ==> mem[a] == old(mem[a])
  {
    var k := from;
    while k < to
      invariant from <= k && (if from <= to then k <= to else k == from)
      invariant forall i :: 0 <= i < n ==>
        (Used(mem, start, i) <==> if from <= i < k then val else old(Used(mem, start, i)))
      invariant forall a :: 0 <= a < mem.Length && !(start <= a < start + (n + 7) / 8) ==> mem[a] == old(mem[a])
    {
      SetBit(mem, start, n, k, val);
      k := k + 1;
    }
  }

  /** Write 0xFF over the whole bitmap: every frame starts out used. */
  method FillBitmap(mem: array<bv8>, start: nat, n: nat)
    requires HoldsBitmap(mem, start, n)
    modifies mem
    ensures forall i :: 0 <= i < n ==> Used(mem, start, i)
    ensures forall a :: 0 <= a < mem.Length && !(start <= a < start + (n + 7) / 8) ==> mem[a] == old(mem[a])
  {
    for b := 0 to (n + 7) / 8
      invariant forall a :: start <= a < start + b ==> mem[a] == 0xFF
      invariant forall a :: 0 <= a < mem.Length && !(start <= a < start + (n + 7) / 8) ==> mem[a] == old(mem[a])
    {
      mem[start + b] := 0xFF;
    }
    forall i | 0 <= i < n ensures Used(mem, start, i) {
      assert mem[start + i / 8] == 0xFF;
      FullByte(i % 8);
    }
  }

  /** Clear the bits of every usable region. */
  method ClearUsable(regions: seq<Region>, mem: array<bv8>, start: nat, n: nat)
    requires HoldsBitmap(mem, start, n)
    requires forall i :: 0 <= i < n ==> Used(mem, start, i)
    modifies mem
    ensures forall i :: 0 <= i < n ==> (Used(mem, start, i) <==> !InUsable(regions, i))
    ensures forall a :: 0 <= a < mem.Length && !(start <= a < start + (n + 7) / 8) ==> mem[a] == old(mem[a])
  {
    for r := 0 to |regions|
      invariant forall i :: 0 <= i < n ==> (Used(mem, start, i) <==> !InUsable(regions[..r], i))
      invariant forall a :: 0 <= a < mem.Length && !(start <= a < start + (n + 7) / 8) ==> mem[a] == old(mem[a])
    {
      var region := regions[r];
      forall i | 0 <= i < n
        ensures InUsable(regions[..r + 1], i) <==>
          InUsable(regions[..r], i) || (region.usable && region.startFrame <= i < region.endFrame)
      {
        UsableExtends(regions, r, i);
      }
      if region.usable {
        AlignedStaysPut(region.startFrame);
        AlignedStaysPut(region.endFrame);
        SetRange(mem, start, n, region.Start() / FRAME, FramesUpTo(region.End()), false);
      }
    }
    assert regions[..|regions|] == regions;
  }

  lemma UsableExtends(regions: seq<Region>, r: nat, i: nat)
    requires r < |regions|
    ensures InUsable(regions[..r + 1], i) <==>
      InUsable(regions[..r], i) || (regions[r].usable && regions[r].startFrame <= i < regions[r].endFrame)
  {
    assert regions[..r + 1] == regions[..r] + [regions[r]];
    if InUsable(regions[..r], i) {
      var k :| 0 <= k < r && regions[..r][k].usable && regions[..r][k].startFrame <= i < regions[..r][k].endFrame;
      assert regions[..r + 1][k] == regions[..r][k];
    }
    if regions[r].usable && regions[r].startFrame <= i < regions[r].endFrame {
      assert regions[..r + 1][r] == regions[r];
    }
  }

  // ---------------------------------------------------------------- boot

  method FindMaxAddr(regions: seq<Region>) returns (m: nat)
    ensures m == MaxAddr(regions)
  {
    m := 0;
    for r := 0 to |regions|
      invariant m == MaxAddr(regions[..r])
    {
      assert regions[..r + 1][..r] == regions[..r];
      if regions[r].usable && regions[r].End() > m {
        m := regions[r].End();
      }
    }
    assert regions[..|regions|] == regions;
  }

  /** One placement pass; 0 stands for "not found". */
  method Place(regions: seq<Region>, kernelEnd: Option<nat>, bytes: nat) returns (start: nat)
    ensures start == match Scan(regions, kernelEnd, bytes) { case None => 0 case Some(a) => a }
  {
    start := 0;
    var r := 0;
    while r < |regions|
      invariant r <= |regions| && start == 0
      invariant Scan(regions[r..], kernelEnd, bytes) == Scan(regions, kernelEnd, bytes)
    {
      assert regions[r..][1..] == regions[r + 1..];
      var region := regions[r];
      r := r + 1;
      if !region.usable {
        continue;
      }
      var s := region.Start();
      if kernelEnd.Some? {
        if region.End() <= kernelEnd.value {
          continue;
        }
        if s < kernelEnd.value {
          s := AlignUp(kernelEnd.value);
        }
      }
      var aligned := AlignUp(s);
      if aligned + bytes <= region.End() {
        start := aligned;
        return;
      }
    }
  }

  /** Both passes: above the kernel, and if that finds nothing, anywhere. */
  method PlaceBitmap(regions: seq<Region>, kernelEnd: Option<nat>, bytes: nat) returns (start: nat)
    ensures start == Placement(regions, kernelEnd, bytes)
  {
    start := Place(regions, kernelEnd, bytes);
    if start == 0 {
      start := Place(regions, None, bytes);
    }
  }

  /** Clear the usable frames, then mark the kernel's and the bitmap's own frames as used. */
  method BuildBitmap(regions: seq<Region>, kernelEnd: Option<nat>, mem: array<bv8>, start: nat, n: nat)
    requires HoldsBitmap(mem, start, n)
    modifies mem
    ensures forall i :: 0 <= i < n ==>
      (Used(mem, start, i) <==> !Allocatable(regions, kernelEnd, start, (n + 7) / 8, i))
    ensures forall a :: 0 <= a < mem.Length && !(start <= a < start + (n + 7) / 8) ==> mem[a] == old(mem[a])
  {
    FillBitmap(mem, start, n);
    ClearUsable(regions, mem, start, n);
    if kernelEnd.Some? {
      SetRange(mem, start, n, 0, FramesUpTo(kernelEnd.value), true);
    }
    SetRange(mem, start, n, start / FRAME, FramesUpTo(start + (n + 7) / 8), true);
  }

  lemma PlacementIsBacked(regions: seq<Region>, kernelEnd: Option<nat>, bytes: nat, size: nat)
    requires Backed(regions, size) && Placement(regions, kernelEnd, bytes) != 0
    ensures
      var end, n := Placement(regions, kernelEnd, bytes) + bytes, FramesUpTo(MaxAddr(regions));
      end <= size && FramesUpTo(end) <= n && n * FRAME <= size
  {
    PlacementIsSound(regions, kernelEnd, bytes);
    var a := Placement(regions, kernelEnd, bytes);
    var k :| 0 <= k < |regions| && regions[k].usable && regions[k].Start() <= a && a + bytes <= regions[k].End();
    MaxAddrIsMax(regions);
    FramesGrow(a + bytes, MaxAddr(regions));
    if MaxAddr(regions) != 0 {
      var m :| 0 <= m < |regions| && regions[m].usable && regions[m].End() == MaxAddr(regions);
      AlignedStaysPut(regions[m].endFrame);
    }
  }

  lemma FramesGrow(a: nat, b: nat)
    requires a <= b
    ensures FramesUpTo(a) <= FramesUpTo(b)
  {
  }

  class Allocator {
    const mem: array<bv8>
    var bitmapStart: nat
    var bitmapBytes: nat
    var numFrames: nat
    var nextSearch: nat

    /** The bitmap lies in managed memory, and its own frames are marked used. */
    ghost predicate Valid()
      reads this, mem
    {
      bitmapBytes > 0 ==>
        && bitmapBytes == (numFrames + 7) / 8
        && HoldsBitmap(mem, bitmapStart, numFrames)
        && FramesUpTo(bitmapStart + bitmapBytes) <= numFrames
        && numFrames * FRAME <= mem.Length
        && nextSearch <= numFrames
        && forall i :: 0 <= i < numFrames && InBitmap(bitmapStart, bitmapBytes, i) ==> Used(mem, bitmapStart, i)
    }

    ghost function Free(): set<nat>
      requires Valid()
      reads this, mem
    {
      if bitmapBytes == 0 then {}
      else set i | 0 <= i < numFrames && !Used(mem, bitmapStart, i)
    }

    ghost function Limit(): nat
      reads this
    {
      if bitmapBytes == 0 then nextSearch else numFrames
    }

    ghost predicate InOwnFrames(a: nat)
      reads this
    {
      bitmapBytes > 0 && InBitmap(bitmapStart, bitmapBytes, a / FRAME)
    }

    /**
     `init`: after it, a frame is free exactly when it is usable, above the kernel and
     outside the bitmap; and no byte outside the bitmap was written.
     */
    constructor (regions: seq<Region>, kernelEnd: Option<nat>, memory: array<bv8>)
      requires Backed(regions, memory.Length)
      modifies memory
      ensures Valid() && mem == memory && nextSearch == 0
      ensures
        var n := FramesUpTo(MaxAddr(regions));
        var bytes := (n + 7) / 8;
        var start := if MaxAddr(regions) == 0 then 0 else Placement(regions, kernelEnd, bytes);
        && bitmapStart == start
        && (start == 0 ==> bitmapBytes == 0 && Free() == {} && memory[..] == old(memory[..]))
        && (start != 0 ==>
              && bitmapBytes == bytes && numFrames == n
              && (forall i :: i in Free() <==> 0 <= i < n && Allocatable(regions, kernelEnd, start, bytes, i))
              && (forall a :: 0 <= a < memory.Length && !(start <= a < start + bytes) ==> memory[a] == old(memory[a])))
    {
      mem := memory;
      nextSearch := 0;
      var maxAddr := FindMaxAddr(regions);
      if maxAddr == 0 {
        bitmapStart, bitmapBytes, numFrames := 0, 0, 0;
      } else {
        var n := FramesUpTo(maxAddr);
        var bytes := (n + 7) / 8;
        var start := PlaceBitmap(regions, kernelEnd, bytes);
        numFrames := n;
        if start == 0 {
          bitmapStart, bitmapBytes := 0, 0;
        } else {
          PlacementIsBacked(regions, kernelEnd, bytes, memory.Length);
          BuildBitmap(regions, kernelEnd, memory, start, n);
          bitmapStart, bitmapBytes := start, bytes;
        }
      }
    }

    method TestBit(idx: nat) returns (used: bool)
      requires Valid()
      ensures used <==> idx !in Free()
    {
      if bitmapBytes == 0 || idx >= numFrames {
        return true;
      }
      return mem[bitmapStart + idx / 8] & Mask(idx % 8) != 0;
    }

    /** Mark a free frame as used and advance the cursor past it. */
    method Claim(i: nat)
      requires Valid() && i in Free()
      modifies this`nextSearch, mem
      ensures Valid() && Free() == old(Free()) - {i} && nextSearch == i + 1
      ensures forall a :: 0 <= a < mem.Length && !InOwnFrames(a) ==> mem[a] == old(mem[a])
    {
      SetBit(mem, bitmapStart, numFrames, i, true);
      nextSearch := i + 1;
    }

    /** One search loop of `allocate_frame`. */
    method Search(lo: nat, hi: nat) returns (r: Option<nat>)
      requires Valid()
      ensures r == Lowest(Free(), lo, hi)
    {
      var i := lo;
      while i < hi
        invariant lo <= i
        invariant Lowest(Free(), i, hi) == Lowest(Free(), lo, hi)
      {
        var used := TestBit(i);
        if !used {
          return Some(i);
        }
        i := i + 1;
      }
      return None;
    }

    /** `allocate_frame`: exactly the next-fit choice, returned as a frame address. */
    method AllocateFrame() returns (r: Option<nat>)
      requires Valid()
      modifies this`nextSearch, mem
      ensures Valid()
      ensures
        match old(Choose(Free(), nextSearch, Limit()))
        case None => r == None && Free() == old(Free()) && nextSearch == old(nextSearch)
        case Some(i) => r == Some(i * FRAME) && Free() == old(Free()) - {i} && nextSearch == i + 1
      ensures forall a :: 0 <= a < mem.Length && !InOwnFrames(a) ==> mem[a] == old(mem[a])
    {
      if bitmapBytes == 0 {
        LowestIsLowest({}, 0, nextSearch);
        return None;
      }
      LowestIsLowest(Free(), nextSearch, numFrames);
      LowestIsLowest(Free(), 0, nextSearch);
      var found := Search(nextSearch, numFrames);
      if found.None? {
        found := Search(0, nextSearch);
      }
      if found.None? {
        return None;
      }
      Claim(found.value);
      return Some(found.value * FRAME);
    }

    /** `free_frame`; the caller guarantees the frame was allocated, so it is managed and not the bitmap's own. */
    method FreeFrame(addr: nat)
      requires Valid()
      requires bitmapBytes > 0 ==> addr / FRAME < numFrames && !InOwnFrames(addr)
      modifies mem
      ensures Valid()
      ensures Free() == if bitmapBytes == 0 then {} else old(Free()) + {addr / FRAME}
      ensures forall a :: 0 <= a < mem.Length && !InOwnFrames(a) ==> mem[a] == old(mem[a])
    {
      if bitmapBytes == 0 {
        return;
      }
      SetBit(mem, bitmapStart, numFrames, addr / FRAME, false);
    }

    /** A client store into a frame that is not the bitmap's. */
    method Store(addr: nat, byte: bv8)
      requires Valid() && addr < mem.Length && !InOwnFrames(addr)
      modifies mem
      ensures Valid() && Free() == old(Free())
      ensures mem[addr] == byte && forall a :: 0 <= a < mem.Length && a != addr ==> mem[a] == old(mem[a])
    {
      mem[addr] := byte;
      if bitmapBytes > 0 {
        assert forall i :: 0 <= i < numFrames ==> (Used(mem, bitmapStart, i) <==> old(Used(mem, bitmapStart, i)));
      }
    }
  }

  /** What ties a client's view to the machine: its frames are outside the bitmap and hold what it wrote. */
  ghost predicate Agrees(a: Allocator, p: Pool)
    requires a.Valid()
    reads a, a.mem
  {
    && Sound(p)
    && p.n == a.Limit() && p.free == a.Free() && p.next == a.nextSearch
    && (forall f :: f in p.held ==> a.bitmapBytes > 0 && !InBitmap(a.bitmapStart, a.bitmapBytes, f))
    && DataKept(a, p.data)
  }

  /** The pool before any client holds a frame. */
  ghost function Unclaimed(a: Allocator): Pool
    requires a.Valid()
    reads a, a.mem
  {
    Pool(a.Limit(), a.Free(), a.nextSearch, {}, map[])
  }

  ghost predicate DataKept(a: Allocator, data: map<nat, bv8>)
    reads a, a.mem
  {
    (forall x :: x in data ==> x < a.mem.Length && !a.InOwnFrames(x) && a.mem[x] == data[x])
  }

  /** The bitmap's own frames are never free, so a client never comes to hold one. */
  lemma FreeIsOutsideBitmap(a: Allocator, f: nat)
    requires a.Valid() && f in a.Free()
    ensures !InBitmap(a.bitmapStart, a.bitmapBytes, f) && a.bitmapBytes > 0
  {
  }

  ghost predicate OthersKept(a: Allocator, before: seq<bv8>, data: map<nat, bv8>)
    reads a, a.mem
  {
    |before| == a.mem.Length &&
    forall x :: 0 <= x < a.mem.Length && !a.InOwnFrames(x) && x !in data ==> a.mem[x] == before[x]
  }

  method ClientAllocate(a: Allocator, held: set<nat>, ghost p: Pool) returns (held': set<nat>)
    requires a.Valid() && Agrees(a, p) && p.held == held
    modifies a`nextSearch, a.mem
    ensures a.Valid() && Agrees(a, Apply(p, Allocate)) && held' == Apply(p, Allocate).held
    ensures OthersKept(a, old(a.mem[..]), p.data)
  {
    held' := held;
    ApplyConserves(p, Allocate);
    NextFitIsNearest(p);
    if NextFit(p).Some? {
      FreeIsOutsideBitmap(a, NextFit(p).value);
    }
    var r := a.AllocateFrame();
    if r.Some? {
      FrameOfAddress(NextFit(p).value);
      held' := held + {r.value / FRAME};
    }
  }

  lemma FrameOfAddress(i: nat)
    ensures i * FRAME / FRAME == i
  {
  }

  method ClientRelease(a: Allocator, f: nat, held: set<nat>, ghost p: Pool) returns (held': set<nat>)
    requires a.Valid() && Agrees(a, p) && p.held == held
    modifies a.mem
    ensures a.Valid() && Agrees(a, Apply(p, Release(f))) && held' == Apply(p, Release(f)).held
    ensures OthersKept(a, old(a.mem[..]), p.data)
  {
    held' := held;
    ApplyConserves(p, Release(f));
    if f in held {
      FrameOfAddress(f);
      a.FreeFrame(f * FRAME);
      held' := held - {f};
    }
  }

  method ClientWrite(a: Allocator, addr: nat, byte: bv8, held: set<nat>, ghost p: Pool)
    requires a.Valid() && Agrees(a, p) && p.held == held
    modifies a.mem
    ensures a.Valid() && Agrees(a, Apply(p, Write(addr, byte)))
    ensures OthersKept(a, old(a.mem[..]), Apply(p, Write(addr, byte)).data)
  {
    if addr / FRAME in held {
      a.Store(addr, byte);
    }
  }

  /** One operation of a client that releases and writes only frames it holds. */
  method Perform(a: Allocator, op: Op, held: set<nat>, ghost p: Pool) returns (held': set<nat>)
    requires a.Valid() && Agrees(a, p) && p.held == held
    modifies a`nextSearch, a.mem
    ensures a.Valid() && Agrees(a, Apply(p, op)) && held' == Apply(p, op).held
    ensures OthersKept(a, old(a.mem[..]), Apply(p, op).data)
  {
    match op {
      case Allocate => held' := ClientAllocate(a, held, p);
      case Release(f) => held' := ClientRelease(a, f, held, p);
      case Write(addr, byte) => ClientWrite(a, addr, byte, held, p); held' := held;
    }
  }

  /**
   Any run of allocations, releases of held frames and writes into held frames, executed
   on the memory that contains the bitmap, behaves as the machine over the set of free
   frames: client writes never disturb the bitmap and the bitmap never disturbs client data.
   */
  method Drive(a: Allocator, ops: seq<Op>) returns (held: set<nat>)
    requires a.Valid()
    modifies a`nextSearch, a.mem
    ensures a.Valid() && held == ApplyAll(old(Unclaimed(a)), ops).held
    ensures Agrees(a, ApplyAll(old(Unclaimed(a)), ops))
    ensures a.Free() !! held && a.Free() + held == old(a.Free())
    ensures OthersKept(a, old(a.mem[..]), ApplyAll(old(Unclaimed(a)), ops).data)
  {
    held := {};
    ghost var p := Unclaimed(a);
    ghost var q := p;
    assert ops[0..] == ops;
    for i := 0 to |ops|
      invariant a.Valid() && Agrees(a, q) && q.held == held
      invariant ApplyAll(q, ops[i..]) == ApplyAll(p, ops)
      invariant OthersKept(a, old(a.mem[..]), q.data)
    {
      assert ops[i..][0] == ops[i] && ops[i..][1..] == ops[i + 1..];
      held := Perform(a, ops[i], held, q);
      q := Apply(q, ops[i]);
    }
    assert ops[|ops|..] == [];
    RunConserves(p, ops);
  }
}
