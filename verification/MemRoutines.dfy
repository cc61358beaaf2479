/**
 The SSE memory routines of `src/rlib/mem.rs` over one byte-addressed memory.  A pointer
 is an address, that is, an index into `mem`; an unaligned 16-byte load or store moves
 sixteen bytes at once.
 */
module MemRoutines {
  import opened Common

  /** `_mm_storeu_si128` */
  method Store16(mem: array<Byte>, p: nat, data: seq<Byte>)
    requires |data| == 16 && p + 16 <= mem.Length
    modifies mem
    ensures forall a :: 0 <= a < mem.Length ==> mem[a] == if p <= a < p + 16 then data[a - p] else old(mem[a])
  {
    for i := 0 to 16
      invariant forall a :: 0 <= a < mem.Length ==> mem[a] == if p <= a < p + i then data[a - p] else old(mem[a])
    {
      mem[p + i] := data[i];
    }
  }

  // ---------------------------------------------------------------- copying

  /** Bytes `[from, to)` of the destination hold the original source bytes, everything else is original. */
  ghost predicate Moved(now: array<Byte>, was: seq<Byte>, dst: nat, src: nat, from: nat, to: nat)
    requires |was| == now.Length && dst + to <= now.Length && src + to <= now.Length
    reads now
  {
    && (forall a :: dst + from <= a < dst + to ==> now[a] == was[a - dst + src])
    && (forall a :: 0 <= a < now.Length && !(dst + from <= a < dst + to) ==> now[a] == was[a])
  }

  /** The ranges do not overlap, or the destination lies below: copying upwards is safe. */
  predicate UpSafe(dst: nat, src: nat, len: nat) {
    src + len <= dst || dst <= src
  }

  /** `*dst.add(k) = *src.add(k)`, going up. */
  method UpByte(mem: array<Byte>, ghost was: seq<Byte>, dst: nat, src: nat, k: nat, ghost len: nat)
    requires |was| == mem.Length && k < len && dst + len <= mem.Length && src + len <= mem.Length
    requires UpSafe(dst, src, len) && Moved(mem, was, dst, src, 0, k)
    modifies mem
    ensures Moved(mem, was, dst, src, 0, k + 1)
  {
    mem[dst + k] := mem[src + k];
  }

  /** Store sixteen source bytes loaded earlier, going up. */
  method UpStore(mem: array<Byte>, ghost was: seq<Byte>, dst: nat, ghost src: nat, k: nat, data: seq<Byte>)
    requires |was| == mem.Length && dst + k + 16 <= mem.Length && src + k + 16 <= mem.Length
    requires data == was[src + k..src + k + 16] && Moved(mem, was, dst, src, 0, k)
    modifies mem
    ensures Moved(mem, was, dst, src, 0, k + 16)
  {
    Store16(mem, dst + k, data);
  }

  /** One 16-byte load and store, going up. */
  method UpChunk(mem: array<Byte>, ghost was: seq<Byte>, dst: nat, src: nat, k: nat, ghost len: nat)
    requires |was| == mem.Length && k + 16 <= len && dst + len <= mem.Length && src + len <= mem.Length
    requires UpSafe(dst, src, len) && Moved(mem, was, dst, src, 0, k)
    modifies mem
    ensures Moved(mem, was, dst, src, 0, k + 16)
  {
    var data := mem[src + k..src + k + 16];
    UpStore(mem, was, dst, src, k, data);
  }

  /** Four loads, then four stores, going up. */
  method UpBlock(mem: array<Byte>, ghost was: seq<Byte>, dst: nat, src: nat, k: nat, ghost len: nat)
    requires |was| == mem.Length && k + 64 <= len && dst + len <= mem.Length && src + len <= mem.Length
    requires UpSafe(dst, src, len) && Moved(mem, was, dst, src, 0, k)
    modifies mem
    ensures Moved(mem, was, dst, src, 0, k + 64)
  {
    var s := src + k;
    var c0 := mem[s..s + 16];
    var c1 := mem[s + 16..s + 32];
    var c2 := mem[s + 32..s + 48];
    var c3 := mem[s + 48..s + 64];
    UpStore(mem, was, dst, src, k, c0);
    UpStore(mem, was, dst, src, k + 16, c1);
    UpStore(mem, was, dst, src, k + 32, c2);
    UpStore(mem, was, dst, src, k + 48, c3);
  }

  /** `*dest.add(k) = *src.add(k)`, going down. */
  method DownByte(mem: array<Byte>, ghost was: seq<Byte>, dest: nat, src: nat, k: nat, ghost n: nat)
    requires |was| == mem.Length && k < n && dest + n <= mem.Length && src < dest
    requires Moved(mem, was, dest, src, k + 1, n)
    modifies mem
    ensures Moved(mem, was, dest, src, k, n)
  {
    mem[dest + k] := mem[src + k];
  }

  /** One 16-byte load and store, going down. */
  method DownChunk(mem: array<Byte>, ghost was: seq<Byte>, dest: nat, src: nat, k: nat, ghost n: nat)
    requires |was| == mem.Length && k + 16 <= n && dest + n <= mem.Length && src < dest
    requires Moved(mem, was, dest, src, k + 16, n)
    modifies mem
    ensures Moved(mem, was, dest, src, k, n)
  {
    var data := mem[src + k..src + k + 16];
    Store16(mem, dest + k, data);
  }

  /** `memmove`: every length, alignment and overlap. */
  method Memmove(mem: array<Byte>, dest: nat, src: nat, n: nat) returns (r: nat)
    requires dest + n <= mem.Length && src + n <= mem.Length
    modifies mem
    ensures r == dest
    ensures mem[dest..dest + n] == old(mem[src..src + n])
    ensures forall a :: 0 <= a < mem.Length && !(dest <= a < dest + n) ==> mem[a] == old(mem[a])
  {
    r := dest;
    if dest == src || n == 0 {
      return;
    }
    if dest < src {
      MoveForward(mem, dest, src, n);
    } else {
      MoveBackward(mem, dest, src, n);
    }
    assert Moved(mem, old(mem[..]), dest, src, 0, n);
  }

  /** Copy upwards: align the destination, then whole chunks, then the remainder. */
  method MoveForward(mem: array<Byte>, dest: nat, src: nat, n: nat)
    requires dest < src && src + n <= mem.Length
    modifies mem
    ensures Moved(mem, old(mem[..]), dest, src, 0, n)
  {
    ghost var was := mem[..];
    var offset := 0;
    while offset < n && (dest + offset) % 16 != 0
      invariant offset <= n && Moved(mem, was, dest, src, 0, offset)
    {
      UpByte(mem, was, dest, src, offset, n);
      offset := offset + 1;
    }
    var chunks := (n - offset) / 16;
    var remainder := (n - offset) % 16;
    for i := 0 to chunks
      invariant Moved(mem, was, dest, src, 0, offset + i * 16)
    {
      UpChunk(mem, was, dest, src, offset + i * 16, n);
    }
    assert offset + chunks * 16 == n - remainder;
    for i := 0 to remainder
      invariant Moved(mem, was, dest, src, 0, n - remainder + i)
    {
      UpByte(mem, was, dest, src, n - remainder + i, n);
    }
  }

  /** Copy downwards, from the last byte: align the end, then whole chunks, then the remainder. */
  method MoveBackward(mem: array<Byte>, dest: nat, src: nat, n: nat)
    requires src < dest && dest + n <= mem.Length
    modifies mem
    ensures Moved(mem, old(mem[..]), dest, src, 0, n)
  {
    ghost var was := mem[..];
    var offset := 0;
    while offset < n && (dest + n - offset - 1) % 16 != 15
      invariant offset <= n && Moved(mem, was, dest, src, n - offset, n)
    {
      DownByte(mem, was, dest, src, n - offset - 1, n);
      offset := offset + 1;
    }
    var chunks := (n - offset) / 16;
    var remainder := (n - offset) % 16;
    for i := 0 to chunks
      invariant Moved(mem, was, dest, src, n - offset - i * 16, n)
    {
      DownChunk(mem, was, dest, src, n - offset - (i + 1) * 16, n);
    }
    assert n - offset - chunks * 16 == remainder;
    for i := 0 to remainder
      invariant Moved(mem, was, dest, src, remainder - i, n)
    {
      DownByte(mem, was, dest, src, remainder - i - 1, n);
    }
  }

  /**
   `memcpy`: copies whenever the ranges do not overlap, and also when the destination
   lies at or below the source; it never touches anything outside the destination.
   */
  method Memcpy(mem: array<Byte>, dst: nat, src: nat, len: nat)
    requires dst + len <= mem.Length && src + len <= mem.Length
    requires UpSafe(dst, src, len)
    modifies mem
    ensures mem[dst..dst + len] == old(mem[src..src + len])
    ensures forall a :: 0 <= a < mem.Length && !(dst <= a < dst + len) ==> mem[a] == old(mem[a])
  {
    if len == 0 {
      return;
    }
    CopyPhases(mem, dst, src, len);
    assert Moved(mem, old(mem[..]), dst, src, 0, len);
  }

  /** The phases of `memcpy`: align the destination, then blocks of 64 bytes, of 16, and single bytes. */
  method CopyPhases(mem: array<Byte>, dst: nat, src: nat, len: nat)
    requires dst + len <= mem.Length && src + len <= mem.Length
    requires UpSafe(dst, src, len)
    modifies mem
    ensures Moved(mem, old(mem[..]), dst, src, 0, len)
  {
    ghost var was := mem[..];
    var k := 0;
    while (dst + k) % 16 != 0 && k < len
      invariant k <= len && Moved(mem, was, dst, src, 0, k)
      decreases len - k
    {
      UpByte(mem, was, dst, src, k, len);
      k := k + 1;
    }
    while len - k >= 64
      invariant k <= len && Moved(mem, was, dst, src, 0, k)
    {
      UpBlock(mem, was, dst, src, k, len);
      k := k + 64;
    }
    while len - k >= 16
      invariant k <= len && Moved(mem, was, dst, src, 0, k)
    {
      UpChunk(mem, was, dst, src, k, len);
      k := k + 16;
    }
    while len - k > 0
      invariant k <= len && Moved(mem, was, dst, src, 0, k)
    {
      UpByte(mem, was, dst, src, k, len);
      k := k + 1;
    }
  }

  /** `memset` */
  method Memset(mem: array<Byte>, dst: nat, value: Byte, len: nat)
    requires dst + len <= mem.Length
    modifies mem
    ensures forall a :: 0 <= a < mem.Length ==> mem[a] == if dst <= a < dst + len then value else old(mem[a])
  {
    if len == 0 {
      return;
    }
    var fill: seq<Byte> := seq(16, _ => value);
    var d, l := dst, len;
    while d % 16 != 0 && l > 0
      decreases l
      invariant 0 <= l <= len && d == dst + (len - l)
      invariant forall a :: 0 <= a < mem.Length ==> mem[a] == if dst <= a < d then value else old(mem[a])
    {
      mem[d] := value;
      d, l := d + 1, l - 1;
    }
    while l >= 64
      invariant 0 <= l <= len && d == dst + (len - l)
      invariant forall a :: 0 <= a < mem.Length ==> mem[a] == if dst <= a < d then value else old(mem[a])
    {
      Store16(mem, d, fill);
      Store16(mem, d + 16, fill);
      Store16(mem, d + 32, fill);
      Store16(mem, d + 48, fill);
      d, l := d + 64, l - 64;
    }
    while l >= 16
      invariant 0 <= l <= len && d == dst + (len - l)
      invariant forall a :: 0 <= a < mem.Length ==> mem[a] == if dst <= a < d then value else old(mem[a])
    {
      Store16(mem, d, fill);
      d, l := d + 16, l - 16;
    }
    while l > 0
      invariant 0 <= l <= len && d == dst + (len - l)
      invariant forall a :: 0 <= a < mem.Length ==> mem[a] == if dst <= a < d then value else old(mem[a])
    {
      mem[d] := value;
      d, l := d + 1, l - 1;
    }
  }

  // ---------------------------------------------------------------- comparing

  /** The signed difference at the first position where `x` and `y` differ, or 0. */
  function Difference(x: seq<Byte>, y: seq<Byte>): int
    requires |x| == |y|
  {
    if x == [] then 0 else if x[0] != y[0] then x[0] as int - y[0] as int else Difference(x[1..], y[1..])
  }

  /** Strict lexicographic order on byte strings of equal length: agreement up to a smaller byte. */
  ghost predicate Precedes(x: seq<Byte>, y: seq<Byte>)
    requires |x| == |y|
  {
    exists k :: 0 <= k < |x| && x[..k] == y[..k] && x[k] < y[k]
  }

  lemma {:induction false} DifferenceAt(x: seq<Byte>, y: seq<Byte>, k: nat)
    requires |x| == |y| && k < |x| && x[..k] == y[..k] && x[k] != y[k]
    ensures Difference(x, y) == x[k] as int - y[k] as int
  {
    if k == 0 {
    } else {
      assert x[..k][0] == y[..k][0];
      assert x[1..][..k - 1] == x[..k][1..] && y[1..][..k - 1] == y[..k][1..];
      DifferenceAt(x[1..], y[1..], k - 1);
    }
  }

  lemma {:induction false} FirstMismatch(x: seq<Byte>, y: seq<Byte>) returns (k: nat)
    requires |x| == |y|
    ensures k <= |x| && x[..k] == y[..k] && (k < |x| ==> x[k] != y[k])
  {
    k := 0;
    while k < |x| && x[k] == y[k]
      invariant k <= |x| && x[..k] == y[..k]
    {
      assert x[..k + 1] == x[..k] + [x[k]] && y[..k + 1] == y[..k] + [y[k]];
      k := k + 1;
    }
  }

  lemma {:induction false} DifferenceOfEqual(x: seq<Byte>)
    ensures Difference(x, x) == 0
  {
    if x == [] {
    } else {
      DifferenceOfEqual(x[1..]);
    }
  }

  /** The result promised by `memcmp`: its sign is the lexicographic order, zero means equal. */
  lemma DifferenceOrders(x: seq<Byte>, y: seq<Byte>)
    requires |x| == |y|
    ensures Difference(x, y) == 0 <==> x == y
    ensures Difference(x, y) < 0 <==> Precedes(x, y)
    ensures Difference(x, y) > 0 <==> Precedes(y, x)
  {
    var k := FirstMismatch(x, y);
    if k == |x| {
      assert x == x[..k] && y == y[..k];
      DifferenceOfEqual(x);
    } else {
      DifferenceAt(x, y, k);
    }
    if Precedes(x, y) {
      var j :| 0 <= j < |x| && x[..j] == y[..j] && x[j] < y[j];
      DifferenceAt(x, y, j);
    }
    if Precedes(y, x) {
      var j :| 0 <= j < |x| && y[..j] == x[..j] && y[j] < x[j];
      DifferenceAt(x, y, j);
    }
  }

  lemma {:induction false} DifferenceSplits(x: seq<Byte>, y: seq<Byte>, k: nat)
    requires |x| == |y| && k <= |x|
    ensures Difference(x, y) == if x[..k] == y[..k] then Difference(x[k..], y[k..]) else Difference(x[..k], y[..k])
  {
    if k == 0 {
      assert x[0..] == x && y[0..] == y;
    } else {
      assert x[..k] == [x[0]] + x[1..][..k - 1] && y[..k] == [y[0]] + y[1..][..k - 1];
      assert x[1..][k - 1..] == x[k..] && y[1..][k - 1..] == y[k..];
      DifferenceSplits(x[1..], y[1..], k - 1);
    }
  }

  /** `_mm_movemask_epi8(_mm_cmpeq_epi8(x, y))`: bit `i` is set when the bytes at `i` agree. */
  function Movemask(x: seq<Byte>, y: seq<Byte>): (m: int)
    requires |x| == |y|
    ensures 0 <= m < Pow2(|x|)
  {
    if x == [] then 0
    else (if x[0] == y[0] then 1 else 0) + 2 * Movemask(x[1..], y[1..])
  }

  /** Only an all-ones mask means equal bytes. */
  lemma {:induction false} MovemaskFull(x: seq<Byte>, y: seq<Byte>)
    requires |x| == |y|
    ensures Movemask(x, y) == Pow2(|x|) - 1 <==> x == y
  {
    if x == [] {
    } else {
      MovemaskFull(x[1..], y[1..]);
      assert x == [x[0]] + x[1..] && y == [y[0]] + y[1..];
    }
  }

  lemma Movemask16(x: seq<Byte>, y: seq<Byte>)
    requires |x| == |y| == 16
    ensures Movemask(x, y) == 0xFFFF <==> x == y
    ensures Movemask(x, y) != -1
  {
    MovemaskFull(x, y);
    assert Pow2(4) == 16;
    assert Pow2(8) == 256;
    assert Pow2(12) == 4096;
    assert Pow2(16) == 0x1_0000;
  }

  /** The first difference between the `n` bytes at `a` and the `n` bytes at `b`. */
  ghost function Diff(mem: array<Byte>, a: nat, b: nat, n: nat): int
    requires a + n <= mem.Length && b + n <= mem.Length
    reads mem
  {
    Difference(mem[a..a + n], mem[b..b + n])
  }

  method SlowByteCmp(mem: array<Byte>, a: nat, b: nat, n: nat) returns (r: int)
    requires a + n <= mem.Length && b + n <= mem.Length
    ensures r == Diff(mem, a, b, n)
  {
    var i := 0;
    while i < n
      invariant i <= n
      invariant Difference(mem[a..a + n], mem[b..b + n]) == Difference(mem[a + i..a + n], mem[b + i..b + n])
    {
      var aa, bb := mem[a + i], mem[b + i];
      if aa != bb {
        return aa as int - bb as int;
      }
      assert mem[a + i..a + n][1..] == mem[a + i + 1..a + n] && mem[b + i..b + n][1..] == mem[b + i + 1..b + n];
      i := i + 1;
    }
    return 0;
  }

  /** The first sixteen bytes decide, or the rest does. */
  lemma ChunkStep(mem: array<Byte>, a: nat, b: nat, len: nat)
    requires len >= 16 && a + len <= mem.Length && b + len <= mem.Length
    ensures Diff(mem, a, b, len) ==
      if mem[a..a + 16] == mem[b..b + 16] then Diff(mem, a + 16, b + 16, len - 16) else Diff(mem, a, b, 16)
  {
    SliceSplits(mem, a, len);
    SliceSplits(mem, b, len);
    DifferenceParts(mem[a..a + 16], mem[a + 16..a + len], mem[b..b + 16], mem[b + 16..b + len]);
  }

  lemma SliceSplits(mem: array<Byte>, a: nat, len: nat)
    requires len >= 16 && a + len <= mem.Length
    ensures mem[a..a + len] == mem[a..a + 16] + mem[a + 16..a + len]
  {
  }

  lemma DifferenceParts(x1: seq<Byte>, x2: seq<Byte>, y1: seq<Byte>, y2: seq<Byte>)
    requires |x1| == |y1| && |x2| == |y2|
    ensures Difference(x1 + x2, y1 + y2) == if x1 == y1 then Difference(x2, y2) else Difference(x1, y1)
  {
    DifferenceSplits(x1 + x2, y1 + y2, |x1|);
    assert (x1 + x2)[..|x1|] == x1 && (x1 + x2)[|x1|..] == x2;
    assert (y1 + y2)[..|x1|] == y1 && (y1 + y2)[|x1|..] == y2;
  }

  /** One 16-byte comparison at the head of the remaining ranges: the mask test against `full`, then the slow path. */
  method CompareChunk(mem: array<Byte>, a: nat, b: nat, len: nat, full: int) returns (done: bool, r: int)
    requires len >= 16 && a + len <= mem.Length && b + len <= mem.Length
    requires full == 0xFFFF || full == -1
    ensures full == -1 ==> done && r == Diff(mem, a, b, 16)
    ensures full == 0xFFFF && done ==> r == Diff(mem, a, b, len)
    ensures !done ==>
      Diff(mem, a, b, len) == Diff(mem, a + 16, b + 16, len - 16)
  {
    ChunkStep(mem, a, b, len);
    var mask := Movemask(mem[a..a + 16], mem[b..b + 16]);
    Movemask16(mem[a..a + 16], mem[b..b + 16]);
    done, r := false, 0;
    if mask != full {
      r := SlowByteCmp(mem, a, b, 16);
      done := true;
    }
  }

  /** Two comparisons in turn. */
  method ComparePair(mem: array<Byte>, a: nat, b: nat, len: nat, full: int) returns (done: bool, r: int)
    requires len >= 32 && a + len <= mem.Length && b + len <= mem.Length
    requires full == 0xFFFF || full == -1
    ensures full == -1 ==> done && r == Diff(mem, a, b, 16)
    ensures full == 0xFFFF && done ==> r == Diff(mem, a, b, len)
    ensures !done ==>
      Diff(mem, a, b, len) == Diff(mem, a + 32, b + 32, len - 32)
  {
    done, r := CompareChunk(mem, a, b, len, full);
    if !done {
      done, r := CompareChunk(mem, a + 16, b + 16, len - 16, full);
    }
  }

  /** One round of the 64-byte loop: four comparisons in turn. */
  method CompareBlock(mem: array<Byte>, a: nat, b: nat, len: nat, full: int) returns (done: bool, r: int)
    requires len >= 64 && a + len <= mem.Length && b + len <= mem.Length
    requires full == 0xFFFF || full == -1
    ensures full == -1 ==> done && r == Diff(mem, a, b, 16)
    ensures full == 0xFFFF && done ==> r == Diff(mem, a, b, len)
    ensures !done ==>
      Diff(mem, a, b, len) == Diff(mem, a + 64, b + 64, len - 64)
  {
    done, r := ComparePair(mem, a, b, len, full);
    if !done {
      done, r := ComparePair(mem, a + 32, b + 32, len - 32, full);
    }
  }

  /** The 16-byte loop of `memcmp`, then the byte tail. */
  method CompareRest(mem: array<Byte>, a: nat, b: nat, len: nat, full: int) returns (r: int)
    requires a + len <= mem.Length && b + len <= mem.Length
    requires full == 0xFFFF || full == -1
    ensures r == Diff(mem, a, b, if full == -1 && len >= 16 then 16 else len)
  {
    var p: nat, q: nat, l: nat := a, b, len;
    while l >= 16
      invariant p + l <= mem.Length && q + l <= mem.Length && (full == -1 ==> p == a && q == b && l == len)
      invariant Diff(mem, a, b, len) == Diff(mem, p, q, l)
    {
      var done, d := CompareChunk(mem, p, q, l, full);
      if done {
        return d;
      }
      p, q, l := p + 16, q + 16, l - 16;
    }
    r := SlowByteCmp(mem, p, q, l);
  }

  /**
   The loops of `memcmp`, with the all-equal mask as a parameter: the source compares
   with -1, a 16-bit movemask is all-equal at 0xFFFF.
   */
  method MemcmpWith(mem: array<Byte>, a: nat, b: nat, len: nat, full: int) returns (r: int)
    requires a + len <= mem.Length && b + len <= mem.Length
    requires full == 0xFFFF || full == -1
    ensures r == Diff(mem, a, b, if full == -1 && len >= 16 then 16 else len)
  {
    var p: nat, q: nat, l: nat := a, b, len;
    while l >= 64
      invariant p + l <= mem.Length && q + l <= mem.Length && (full == -1 ==> p == a && q == b && l == len)
      invariant Diff(mem, a, b, len) == Diff(mem, p, q, l)
    {
      var done, d := CompareBlock(mem, p, q, l, full);
      if done {
        return d;
      }
      p, q, l := p + 64, q + 64, l - 64;
    }
    r := CompareRest(mem, p, q, l, full);
  }

  /** `memcmp` as written: only the first sixteen bytes of a long range are ever compared. */
  method Memcmp(mem: array<Byte>, a: nat, b: nat, len: nat) returns (r: int)
    requires a + len <= mem.Length && b + len <= mem.Length
    ensures
      var m := if len < 16 then len else 16;
      r == Diff(mem, a, b, m)
  {
    if len == 0 {
      return 0;
    }
    r := MemcmpWith(mem, a, b, len, -1);
  }

  /** Comparing only the first sixteen bytes gives the promised answer exactly when they decide. */
  lemma MemcmpIsRightExactly(x: seq<Byte>, y: seq<Byte>)
    requires |x| == |y|
    ensures
      var m := if |x| < 16 then |x| else 16;
      Difference(x[..m], y[..m]) == Difference(x, y) <==>
        |x| <= 16 || x[..16] != y[..16] || x[16..] == y[16..]
  {
    if |x| >= 16 {
      DifferenceSplits(x, y, 16);
      DifferenceOrders(x[..16], y[..16]);
      DifferenceOrders(x[16..], y[16..]);
    } else {
      assert x[..|x|] == x && y[..|x|] == y;
    }
  }

  /** Seventeen bytes that differ in the last one: the order is strict, and `memcmp` reports equal. */
  lemma MemcmpMissesByteSeventeen()
    ensures
      var x: seq<Byte> := seq(17, _ => 0);
      var y: seq<Byte> := x[16 := 1];
      Precedes(x, y) && Difference(x, y) == -1 && Difference(x[..16], y[..16]) == 0
  {
    var x: seq<Byte> := seq(17, _ => 0);
    var y: seq<Byte> := x[16 := 1];
    assert x[..16] == y[..16] && x[16] < y[16];
    DifferenceAt(x, y, 16);
    DifferenceOfEqual(x[..16]);
  }
}
