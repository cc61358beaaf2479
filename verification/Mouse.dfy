/** The byte-level packet framing of the PS/2 mouse driver (`src/driver_framework/drivers/ps2mouse.rs`). */
module MousePackets {
  import opened Common

  /** `MousePacket`: button byte and two signed movements. */
  datatype Packet = Packet(buttons: Byte, dx: int, dy: int)

  /** What became of received bytes: dropped while hunting for a header, or framed as a packet. */
  datatype Mark = Dropped(b: Byte) | Framed(b0: Byte, b1: Byte, b2: Byte)

  /** `pkt_state` and `pkt_buf`. */
  datatype Decoder = Decoder(state: Byte, b0: Byte, b1: Byte, b2: Byte)

  /** `b & 0x08 != 0` */
  predicate IsHeader(b: Byte) { b / 8 % 2 == 1 }

  /** `b as i8` */
  function Signed(b: Byte): int { if b < 128 then b else b - 256 }

  /** The byte read as a two's complement number. */
  lemma SignedIsTwosComplement(b: Byte)
    ensures -128 <= Signed(b) <= 127 && (Signed(b) + 256) % 256 == b
  {
  }

  lemma HeaderIsBit3(b: Byte)
    ensures IsHeader(b) <==> Bit(b, 3)
  {
    assert Bit(b, 3) <==> Bit(b / 2, 2);
    assert Bit(b / 2, 2) <==> Bit(b / 2 / 2, 1);
    assert Bit(b / 2 / 2, 1) <==> Bit(b / 2 / 2 / 2, 0);
    assert b / 2 / 2 / 2 == b / 8;
  }

  function Decode(m: Mark): Packet
    requires m.Framed?
  {
    Packet(m.b0, Signed(m.b1), Signed(m.b2))
  }

  /** One interrupt's byte. */
  function Feed(d: Decoder, b: Byte): (Decoder, seq<Mark>) {
    if d.state == 0 then
      if !IsHeader(b) then (d, [Dropped(b)]) else (d.(b0 := b, state := 1), [])
    else if d.state == 1 then (d.(b1 := b, state := 2), [])
    else if d.state == 2 then (d.(b2 := b, state := 0), [Framed(d.b0, d.b1, b)])
    else (d.(state := 0), [])
  }

  function FeedAll(d: Decoder, bytes: seq<Byte>): (Decoder, seq<Mark>)
    decreases |bytes|
  {
    if bytes == [] then (d, [])
    else
      var (d1, m1) := Feed(d, bytes[0]);
      var (d2, m2) := FeedAll(d1, bytes[1..]);
      (d2, m1 + m2)
  }

  // ---------------------------------------------------------------- spelling marks back

  function Spell(m: Mark): seq<Byte> {
    match m
    case Dropped(b) => [b]
    case Framed(b0, b1, b2) => [b0, b1, b2]
  }

  function SpellAll(ms: seq<Mark>): seq<Byte> {
    if ms == [] then [] else Spell(ms[0]) + SpellAll(ms[1..])
  }

  /** The bytes of the packet being collected. */
  function Partial(d: Decoder): seq<Byte> {
    if d.state == 1 then [d.b0] else if d.state == 2 then [d.b0, d.b1] else []
  }

  ghost predicate Reachable(d: Decoder) {
    d.state <= 2 && (d.state > 0 ==> IsHeader(d.b0))
  }

  predicate Legal(m: Mark) {
    match m
    case Dropped(b) => !IsHeader(b)
    case Framed(b0, _, _) => IsHeader(b0)
  }

  ghost predicate AllLegal(ms: seq<Mark>) {
    forall k :: 0 <= k < |ms| ==> Legal(ms[k])
  }

  lemma {:induction false} SpellConcat(a: seq<Mark>, b: seq<Mark>)
    ensures SpellAll(a + b) == SpellAll(a) + SpellAll(b)
  {
    if a == [] {
      assert a + b == b;
    } else {
      assert (a + b)[0] == a[0] && (a + b)[1..] == a[1..] + b;
      SpellConcat(a[1..], b);
    }
  }

  lemma FeedLossless(d: Decoder, b: Byte)
    requires Reachable(d)
    ensures
      var (d', ms) := Feed(d, b);
      Reachable(d') && AllLegal(ms) && SpellAll(ms) + Partial(d') == Partial(d) + [b]
  {
    var (d', ms) := Feed(d, b);
    if ms != [] {
      assert SpellAll(ms) == Spell(ms[0]) + SpellAll(ms[1..]) == Spell(ms[0]);
    }
  }

  /**
   No byte is lost, duplicated or reordered: for every stream, the marks spelled out and
   the packet in progress are exactly the bytes received.
   */
  lemma {:induction false} FramingIsLossless(d: Decoder, bytes: seq<Byte>)
    requires Reachable(d)
    ensures
      var (d', ms) := FeedAll(d, bytes);
      Reachable(d') && AllLegal(ms) && SpellAll(ms) + Partial(d') == Partial(d) + bytes
    decreases |bytes|
  {
    if bytes == [] {
    } else {
      var (d1, m1) := Feed(d, bytes[0]);
      var (d2, m2) := FeedAll(d1, bytes[1..]);
      FeedLossless(d, bytes[0]);
      FramingIsLossless(d1, bytes[1..]);
      SpellConcat(m1, m2);
      Glue(SpellAll(m1), SpellAll(m2), Partial(d), Partial(d1), Partial(d2), bytes[0], bytes[1..]);
      assert [bytes[0]] + bytes[1..] == bytes;
    }
  }

  lemma Glue(s1: seq<Byte>, s2: seq<Byte>, p0: seq<Byte>, p1: seq<Byte>, p2: seq<Byte>, x: Byte, rest: seq<Byte>)
    requires s1 + p1 == p0 + [x] && s2 + p2 == p1 + rest
    ensures (s1 + s2) + p2 == p0 + ([x] + rest)
  {
    calc {
      (s1 + s2) + p2;
      s1 + (s2 + p2);
      s1 + (p1 + rest);
      (s1 + p1) + rest;
      (p0 + [x]) + rest;
      p0 + ([x] + rest);
    }
  }

  /** Any interleaving of packets with valid headers and bytes that cannot be headers is framed exactly as sent. */
  lemma {:induction false} FramingRoundTrip(d: Decoder, ms: seq<Mark>)
    requires d.state == 0 && AllLegal(ms)
    ensures FeedAll(d, SpellAll(ms)).1 == ms && FeedAll(d, SpellAll(ms)).0.state == 0
    decreases |ms|
  {
    if ms == [] {
    } else {
      var rest := SpellAll(ms[1..]);
      assert ms == [ms[0]] + ms[1..];
      FedMark(d, ms[0], rest);
      FramingRoundTrip(AfterMark(d, ms[0]), ms[1..]);
    }
  }

  function AfterMark(d: Decoder, m: Mark): Decoder {
    match m
    case Dropped(_) => d
    case Framed(b0, b1, b2) => Decoder(0, b0, b1, b2)
  }

  lemma FedMark(d: Decoder, m: Mark, rest: seq<Byte>)
    requires d.state == 0 && Legal(m)
    ensures
      var after := FeedAll(AfterMark(d, m), rest);
      FeedAll(d, Spell(m) + rest) == (after.0, [m] + after.1)
  {
    var bytes := Spell(m) + rest;
    match m {
      case Dropped(b) =>
        assert bytes[0] == b && bytes[1..] == rest;
      case Framed(b0, b1, b2) =>
        var d1 := d.(b0 := b0, state := 1);
        var d2 := d1.(b1 := b1, state := 2);
        var d3 := d2.(b2 := b2, state := 0);
        var t1, t2 := [b1, b2] + rest, [b2] + rest;
        assert bytes[0] == b0 && bytes[1..] == t1;
        assert t1[0] == b1 && t1[1..] == t2;
        assert t2[0] == b2 && t2[1..] == rest;
        assert FeedAll(d2, t2) == (FeedAll(d3, rest).0, [m] + FeedAll(d3, rest).1);
        assert FeedAll(d1, t1) == (FeedAll(d2, t2).0, [] + FeedAll(d2, t2).1);
        assert FeedAll(d, bytes) == (FeedAll(d1, t1).0, [] + FeedAll(d1, t1).1);
        assert [] + ([] + ([m] + FeedAll(d3, rest).1)) == [m] + FeedAll(d3, rest).1;
    }
  }

  predicate Sendable(p: Packet) { IsHeader(p.buttons) && -128 <= p.dx < 128 && -128 <= p.dy < 128 }

  function Unsigned(v: int): Byte
    requires -128 <= v < 128
  {
    if v >= 0 then v else v + 256
  }

  function Encode(p: Packet): (m: Mark)
    requires Sendable(p)
    ensures m.Framed? && Legal(m) && Decode(m) == p
  {
    Framed(p.buttons, Unsigned(p.dx), Unsigned(p.dy))
  }

  function EncodeAll(ps: seq<Packet>): seq<Mark>
    requires forall k :: 0 <= k < |ps| ==> Sendable(ps[k])
  {
    seq(|ps|, k requires 0 <= k < |ps| => Encode(ps[k]))
  }

  /** Any list of packets with valid headers, sent back to back, is received as exactly that list. */
  lemma PacketsRoundTrip(d: Decoder, ps: seq<Packet>)
    requires d.state == 0 && forall k :: 0 <= k < |ps| ==> Sendable(ps[k])
    ensures
      var ms := FeedAll(d, SpellAll(EncodeAll(ps))).1;
      |ms| == |ps| && forall k :: 0 <= k < |ps| ==> ms[k].Framed? && Decode(ms[k]) == ps[k]
  {
    FramingRoundTrip(d, EncodeAll(ps));
  }

  /**
   Three bytes on the wire: between packets, a byte with bit 3 set is the buttons of the
   next, and the two after it are its movements to the right and up, in two's complement.
   */
  lemma ThreeBytes(d: Decoder, b0: Byte, b1: Byte, b2: Byte)
    requires d.state == 0 && Bit(b0, 3)
    ensures
      var ms := FeedAll(d, [b0, b1, b2]).1;
      && |ms| == 1 && ms[0].Framed?
      && var p := Decode(ms[0]);
         p.buttons == b0
         && -128 <= p.dx <= 127 && (p.dx + 256) % 256 == b1
         && -128 <= p.dy <= 127 && (p.dy + 256) % 256 == b2
  {
    var m := Framed(b0, b1, b2);
    HeaderIsBit3(b0);
    assert Spell(m) + [] == [b0, b1, b2];
    FedMark(d, m, []);
    SignedIsTwosComplement(b1);
    SignedIsTwosComplement(b2);
  }

  function Packets(ms: seq<Mark>): nat {
    if ms == [] then 0 else (if ms[0].Framed? then 1 else 0) + Packets(ms[1..])
  }

  lemma {:induction false} SpelledLength(ms: seq<Mark>)
    ensures |SpellAll(ms)| == |ms| + 2 * Packets(ms) && Packets(ms) <= |ms|
  {
    if ms == [] {
    } else {
      SpelledLength(ms[1..]);
    }
  }

  /** Bytes received are three per packet, plus the dropped ones, plus the packet in progress. */
  lemma BytesAreConserved(d: Decoder, bytes: seq<Byte>)
    requires d.state == 0
    ensures
      var (d', ms) := FeedAll(d, bytes);
      |bytes| == 3 * Packets(ms) + (|ms| - Packets(ms)) + d'.state
  {
    FramingIsLossless(d, bytes);
    SpelledLength(FeedAll(d, bytes).1);
  }

  /** The driver's packet state as mutable fields. */
  class MouseDriver {
    var pktState: Byte
    var pktBuf: array<Byte>

    ghost predicate Valid()
      reads this, pktBuf
    {
      pktBuf.Length == 3
    }

    function View(): Decoder
      requires Valid()
      reads this, pktBuf
    {
      Decoder(pktState, pktBuf[0], pktBuf[1], pktBuf[2])
    }

    constructor ()
      ensures Valid() && fresh(pktBuf) && View() == Decoder(0, 0, 0, 0)
    {
      pktState := 0;
      pktBuf := new Byte[3](_ => 0);
    }

    /** `irq_handler` on one byte; returns the packet it would queue. */
    method IrqByte(b: Byte) returns (packet: Option<Packet>, ghost ms: seq<Mark>)
      requires Valid()
      modifies this`pktState, pktBuf
      ensures Valid() && (View(), ms) == Feed(old(View()), b)
      ensures packet == if ms != [] && ms[0].Framed? then Some(Decode(ms[0])) else None
    {
      packet, ms := None, [];
      if pktState == 0 {
        if b / 8 % 2 == 0 {
          ms := [Dropped(b)];
        } else {
          pktBuf[0] := b;
          pktState := 1;
        }
      } else if pktState == 1 {
        pktBuf[1] := b;
        pktState := 2;
      } else if pktState == 2 {
        pktBuf[2] := b;
        packet := Some(Packet(pktBuf[0], Signed(pktBuf[1]), Signed(pktBuf[2])));
        ms := [Framed(pktBuf[0], pktBuf[1], pktBuf[2])];
        pktState := 0;
      } else {
        pktState := 0;
      }
    }
  }
}
