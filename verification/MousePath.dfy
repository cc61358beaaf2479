/**
 From the wire to the screen: bytes framed in the mouse interrupt, packets queued for
 the consumer task by the executor, and the positions the consumer draws.
 */
module MousePath {
  import opened Common
  import opened MousePackets
  import opened ExecutorModel
  import opened ExecutorRuns
  import ExecutorOverflow
  import Cursor

  // ---------------------------------------------------------------- packets as queue items

  /** A framed packet as the item that is queued for it. */
  function Item(m: Mark): int
    requires m.Framed?
  {
    m.b0 + 0x100 * m.b1 + 0x1_0000 * m.b2
  }

  /** The movements an item stands for. */
  function Movement(n: int): (int, int) {
    (Signed(n / 0x100 % 0x100), Signed(n / 0x1_0000 % 0x100))
  }

  lemma ItemDecodes(m: Mark)
    requires m.Framed?
    ensures Movement(Item(m)) == (Decode(m).dx, Decode(m).dy)
  {
    var high := m.b1 + 0x100 * m.b2;
    assert Item(m) == m.b0 + 0x100 * high;
    assert Item(m) / 0x100 == high;
    assert Item(m) / 0x1_0000 == m.b2;
  }

  /** The items of the packets among the marks. */
  function Items(ms: seq<Mark>): seq<int> {
    if ms == [] then [] else (if ms[0].Framed? then [Item(ms[0])] else []) + Items(ms[1..])
  }

  lemma {:induction false} ItemsConcat(a: seq<Mark>, b: seq<Mark>)
    ensures Items(a + b) == Items(a) + Items(b)
  {
    if a == [] {
      assert a + b == b;
    } else {
      assert (a + b)[0] == a[0] && (a + b)[1..] == a[1..] + b;
      ItemsConcat(a[1..], b);
    }
  }

  function Movements(items: seq<int>): seq<(int, int)> {
    if items == [] then [] else [Movement(items[0])] + Movements(items[1..])
  }

  /** The movements of the packets among the marks. */
  function Moves(ms: seq<Mark>): seq<(int, int)> {
    if ms == [] then [] else (if ms[0].Framed? then [(Decode(ms[0]).dx, Decode(ms[0]).dy)] else []) + Moves(ms[1..])
  }

  lemma {:induction false} MovementsOfItems(ms: seq<Mark>)
    ensures Movements(Items(ms)) == Moves(ms)
  {
    if ms == [] {
    } else {
      MovementsOfItems(ms[1..]);
      if ms[0].Framed? {
        ItemDecodes(ms[0]);
        assert Items(ms)[0] == Item(ms[0]) && Items(ms)[1..] == Items(ms[1..]);
      } else {
        assert Items(ms) == Items(ms[1..]);
      }
    }
  }

  // ---------------------------------------------------------------- bytes as interrupts

  /** What the handler queues for each byte: a packet's item on its last byte, else nothing. */
  function Handled(d: Decoder, bytes: seq<Byte>): seq<Option<int>>
    decreases |bytes|
  {
    if bytes == [] then []
    else
      var (d1, ms) := Feed(d, bytes[0]);
      [if ms != [] && ms[0].Framed? then Some(Item(ms[0])) else None] + Handled(d1, bytes[1..])
  }

  function Present(xs: seq<Option<int>>): seq<int> {
    if xs == [] then [] else (if xs[0].Some? then [xs[0].value] else []) + Present(xs[1..])
  }

  /** The handler offers the queue exactly the framed packets, in order. */
  lemma {:induction false} HandledPackets(d: Decoder, bytes: seq<Byte>)
    ensures Present(Handled(d, bytes)) == Items(FeedAll(d, bytes).1)
    decreases |bytes|
  {
    if bytes == [] {
    } else {
      var (d1, m1) := Feed(d, bytes[0]);
      HandledPackets(d1, bytes[1..]);
      ItemsConcat(m1, FeedAll(d1, bytes[1..]).1);
      var h := Handled(d, bytes);
      assert h[1..] == Handled(d1, bytes[1..]);
      assert m1 == [] || m1 == [m1[0]];
    }
  }

  // ---------------------------------------------------------------- what a queue accepts over a run

  /** What the interrupts of device `d` brought, in order. */
  function Brought(es: seq<Event>, d: nat): seq<Option<int>> {
    if es == [] then []
    else (if es[0].Irq? && es[0].source == d then [es[0].item] else []) + Brought(es[1..], d)
  }

  /** The event brings an item for device `d`. */
  predicate Brings(e: Event, d: nat) { e.Irq? && e.source == d && e.item.Some? }

  /** An item for device `d` finds interrupts on, the queue created, and a place in it. */
  predicate Room(s: State, d: nat) {
    s.interrupts && !s.pc.Panicked? && d < |s.devices| && s.devices[d].present && |s.devices[d].items| < s.devices[d].capacity
  }

  /** The items device `d` accepts along a run. */
  function Accepts(s: State, es: seq<Event>, d: nat): seq<int>
    decreases |es|
  {
    if es == [] then []
    else (if Brings(es[0], d) && Room(s, d) then [es[0].item.value] else []) + Accepts(Step(s, es[0]), es[1..], d)
  }

  /** Along the run every item for device `d` finds room. */
  predicate Roomy(s: State, es: seq<Event>, d: nat)
    decreases |es|
  {
    es == [] || ((Brings(es[0], d) ==> Room(s, d)) && Roomy(Step(s, es[0]), es[1..], d))
  }

  lemma MoveAccepts(s: State, t: TaskId, v: Device, p: Pc, hit: bool, d: nat)
    requires t in s.tasks && s.tasks[t].device < |s.devices| && d < |s.devices|
    requires v.accepted == s.devices[s.tasks[t].device].accepted
    ensures d < |Move(s, t, v, p, hit).devices| && Move(s, t, v, p, hit).devices[d].accepted == s.devices[d].accepted
  {
  }

  lemma PollAccepts(s: State, t: TaskId, finish: bool, d: nat)
    requires s.pc.Polls(t) && d < |s.devices|
    ensures
      var r := PollStep(s, t, finish);
      d < |r.devices| && r.devices[d].accepted == s.devices[d].accepted
  {
    if t in s.tasks && s.tasks[t].device < |s.devices| {
      var v := s.devices[s.tasks[t].device];
      match s.pc {
        case Opening(_) => MoveAccepts(s, t, v.(present := true), FirstPop(t), false, d);
        case FirstPop(_) =>
          MoveAccepts(s, t, v, Registering(t), false, d);
          if v.items != [] { MoveAccepts(s, t, Pop(v), Resumed(t), false, d); }
        case Registering(_) =>
          if t in s.cache { MoveAccepts(s, t, v.(waker := Some(s.cache[t])), SecondPop(t), false, d); }
        case SecondPop(_) =>
          MoveAccepts(s, t, v, Loop, false, d);
          if v.items != [] { MoveAccepts(s, t, Pop(v), Taking(t), true, d); }
        case Taking(_) => MoveAccepts(s, t, v.(waker := None), Resumed(t), false, d);
        case Resumed(_) => MoveAccepts(s, t, v, FirstPop(t), false, d);
      }
    }
  }

  lemma LandAccepts(s: State, k: nat, x: int, d: nat)
    requires d < |s.devices| && k < |s.devices|
    ensures
      var v := s.devices[d];
      && d < |Land(s, k, x).devices|
      && Land(s, k, x).devices[d].accepted ==
           v.accepted + if k == d && |v.items| < v.capacity then [x] else []
  {
  }

  lemma IrqAccepts(s: State, k: nat, item: Option<int>, d: nat)
    requires d < |s.devices|
    ensures
      var r := IrqStep(s, k, item);
      && d < |r.devices|
      && r.devices[d].accepted ==
           s.devices[d].accepted + if k == d && item.Some? && Room(s, d) then [item.value] else []
  {
    if k < |s.devices| && item.Some? {
      LandAccepts(Resume(s), k, item.value, d);
    }
  }

  lemma StepAccepts(s: State, e: Event, d: nat)
    requires d < |s.devices|
    ensures
      var r := Step(s, e);
      && d < |r.devices|
      && r.devices[d].accepted == s.devices[d].accepted + if Brings(e, d) && Room(s, d) then [e.item.value] else []
  {
    match e {
      case Irq(k, item) => IrqAccepts(s, k, item, d);
      case Tick(finish) =>
        if !Idle(s.pc) && !s.pc.Panicked? {
          PollAccepts(s, s.pc.task, finish, d);
        }
      case _ =>
    }
  }

  /** Over every run a queue accepts exactly the items that found room. */
  lemma {:induction false} RunAccepts(s: State, es: seq<Event>, d: nat)
    requires d < |s.devices|
    ensures
      var r := Run(s, es);
      d < |r.devices| && r.devices[d].accepted == s.devices[d].accepted + Accepts(s, es, d)
    decreases |es|
  {
    if es == [] {
    } else {
      StepAccepts(s, es[0], d);
      RunAccepts(Step(s, es[0]), es[1..], d);
    }
  }

  // ---------------------------------------------------------------- what is lost

  predicate Subsequence(a: seq<int>, b: seq<int>)
    decreases |b|
  {
    a == [] || (b != [] && ((a[0] == b[0] && Subsequence(a[1..], b[1..])) || Subsequence(a, b[1..])))
  }

  /** A subsequence is picked out by increasing positions. */
  lemma {:induction false} SubsequencePositions(a: seq<int>, b: seq<int>) returns (ps: seq<nat>)
    requires Subsequence(a, b)
    ensures |ps| == |a| && forall i, j :: 0 <= i < j < |ps| ==> ps[i] < ps[j]
    ensures forall j :: 0 <= j < |ps| ==> ps[j] < |b| && b[ps[j]] == a[j]
    decreases |b|
  {
    if a == [] {
      ps := [];
    } else if a[0] == b[0] && Subsequence(a[1..], b[1..]) {
      var qs := SubsequencePositions(a[1..], b[1..]);
      ps := [0] + seq(|qs|, j requires 0 <= j < |qs| => qs[j] + 1);
    } else {
      var qs := SubsequencePositions(a, b[1..]);
      ps := seq(|qs|, j requires 0 <= j < |qs| => qs[j] + 1);
    }
  }

  lemma BroughtStep(es: seq<Event>, d: nat)
    requires es != []
    ensures Present(Brought(es, d)) ==
      (if Brings(es[0], d) then [es[0].item.value] else []) + Present(Brought(es[1..], d))
  {
    var rest := Brought(es[1..], d);
    if es[0].Irq? && es[0].source == d {
      assert Brought(es, d)[0] == es[0].item && Brought(es, d)[1..] == rest;
    } else {
      assert Brought(es, d) == rest;
    }
  }

  /** The accepted items are a subsequence of those brought, and all of them exactly if each found room. */
  lemma {:induction false} AcceptsExactly(s: State, es: seq<Event>, d: nat)
    ensures
      var got, sent := Accepts(s, es, d), Present(Brought(es, d));
      Subsequence(got, sent) && |got| <= |sent| && (|got| == |sent| <==> Roomy(s, es, d)) && (Roomy(s, es, d) ==> got == sent)
    decreases |es|
  {
    if es == [] {
    } else {
      var rest, left := Accepts(Step(s, es[0]), es[1..], d), Present(Brought(es[1..], d));
      AcceptsExactly(Step(s, es[0]), es[1..], d);
      BroughtStep(es, d);
      if Brings(es[0], d) {
        var x := es[0].item.value;
        assert ([x] + left)[0] == x && ([x] + left)[1..] == left;
        if Room(s, d) {
          assert ([x] + rest)[0] == x && ([x] + rest)[1..] == rest;
        } else {
          assert Accepts(s, es, d) == rest;
        }
      } else {
        assert Accepts(s, es, d) == rest && Present(Brought(es, d)) == left;
      }
    }
  }

  // ---------------------------------------------------------------- end to end

  /** At a halt a live reader has got exactly what its device accepted. */
  lemma ReaderGets(capacities: seq<nat>, es: seq<Event>, t: TaskId)
    requires
      var s := Run(Init(capacities), es);
      s.pc.Halted? && t in s.tasks
    ensures
      var s := Run(Init(capacities), es);
      var d := s.tasks[t].device;
      d < |s.devices| && s.devices[d].consumed == Accepts(Init(capacities), es, d)
  {
    var s := Run(Init(capacities), es);
    var d := s.tasks[t].device;
    InitGood(capacities);
    RunKeeps(Init(capacities), es);
    HaltedDelivered(s);
    ExecutorOverflow.RunDevices(Init(capacities), es);
    RunAccepts(Init(capacities), es, d);
  }

  /** What is accepted of a byte stream's packets. */
  lemma PacketsAccepted(s: State, es: seq<Event>, d: nat, bytes: seq<Byte>)
    requires Brought(es, d) == Handled(Decoder(0, 0, 0, 0), bytes)
    ensures
      var got, sent := Accepts(s, es, d), Items(FeedAll(Decoder(0, 0, 0, 0), bytes).1);
      Subsequence(got, sent) && (got == sent <==> Roomy(s, es, d))
  {
    AcceptsExactly(s, es, d);
    HandledPackets(Decoder(0, 0, 0, 0), bytes);
  }

  const START: Decoder := Decoder(0, 0, 0, 0)

  /** A halt, reached by any run in which the bytes are the interrupts of the device that task `t` reads. */
  ghost predicate HaltsAfter(capacities: seq<nat>, es: seq<Event>, t: TaskId, bytes: seq<Byte>) {
    var s := Run(Init(capacities), es);
    s.pc.Halted? && t in s.tasks && Brought(es, s.tasks[t].device) == Handled(START, bytes)
  }

  /** What the reader got of its device. */
  ghost function Got(capacities: seq<nat>, es: seq<Event>, t: TaskId): seq<int> {
    var s := Run(Init(capacities), es);
    if t in s.tasks && s.tasks[t].device < |s.devices| then s.devices[s.tasks[t].device].consumed else []
  }

  /** Every packet found the queue created and not full. */
  ghost predicate NoneDropped(capacities: seq<nat>, es: seq<Event>, t: TaskId) {
    var s := Run(Init(capacities), es);
    t in s.tasks && Roomy(Init(capacities), es, s.tasks[t].device)
  }

  /**
   Whatever bytes the mouse sends and however its interrupts interleave with everything
   else, at a halt its live reader has got a subsequence of the framed packets, in order;
   and all of them exactly if every packet found the queue created and not full.
   */
  lemma BytesToPackets(capacities: seq<nat>, es: seq<Event>, t: TaskId, bytes: seq<Byte>)
    requires HaltsAfter(capacities, es, t, bytes)
    ensures
      var got, marks := Got(capacities, es, t), FeedAll(START, bytes).1;
      && Subsequence(got, Items(marks))
      && (got == Items(marks) <==> NoneDropped(capacities, es, t))
      && (NoneDropped(capacities, es, t) ==> Movements(got) == Moves(marks))
  {
    var s := Run(Init(capacities), es);
    ReaderGets(capacities, es, t);
    PacketsAccepted(Init(capacities), es, s.tasks[t].device, bytes);
    MovementsOfItems(FeedAll(START, bytes).1);
  }

  /** The centre, and then the route of the movements. */
  ghost function Visited(width: nat, height: nat, moves: seq<(int, int)>): seq<Cursor.Point>
    requires Cursor.W <= width <= Cursor.I32_MAX && Cursor.H <= height <= Cursor.I32_MAX
  {
    var x, y, maxX, maxY := width / 2, height / 2, width - Cursor.W, height - Cursor.H;
    [Cursor.Point(Cursor.Clamped(x, maxX), Cursor.Clamped(y, maxY))] + Cursor.Route(x, y, maxX, maxY, moves)
  }

  /**
   From the wire to the screen: the reader's packets, with any writes by other code between
   them, drawn from boot on.  The screen is what the run leaves, and the cursor visits the
   centre and then the route of the packets the reader got; if none was dropped, the route
   of the bytes.  With packets alone the run consists of these redraws.
   */
  method BytesToScreen(c: Cursor.CursorDriver, hs: seq<Cursor.Happening>,
                       ghost capacities: seq<nat>, ghost es: seq<Event>, ghost t: TaskId, ghost bytes: seq<Byte>)
    returns (ghost acts: seq<Cursor.Action>)
    requires c.Valid() && c.saved.None? && forall i :: 0 <= i < |hs| ==> c.OnScreenWrite(hs[i])
    requires HaltsAfter(capacities, es, t, bytes) && Cursor.PacketsOf(hs) == Movements(Got(capacities, es, t))
    modifies c`cursorX, c`cursorY, c`saved, c.fb
    ensures c.Valid() && Cursor.Reached(c.View(), old(c.Picture()), acts)
    ensures Cursor.Path(acts) == Visited(c.fb.Length1, c.fb.Length0, Movements(Got(capacities, es, t)))
    ensures NoneDropped(capacities, es, t) ==>
      Cursor.Path(acts) == Visited(c.fb.Length1, c.fb.Length0, Moves(FeedAll(START, bytes).1))
    ensures (forall i :: 0 <= i < |hs| ==> hs[i].Packet?) ==> acts == Cursor.Redraws(Cursor.Path(acts))
  {
    acts := Play(c, hs);
    BytesToPackets(capacities, es, t, bytes);
  }

  method Play(c: Cursor.CursorDriver, hs: seq<Cursor.Happening>) returns (ghost acts: seq<Cursor.Action>)
    requires c.Valid() && c.saved.None? && forall i :: 0 <= i < |hs| ==> c.OnScreenWrite(hs[i])
    modifies c`cursorX, c`cursorY, c`saved, c.fb
    ensures c.Valid() && Cursor.Reached(c.View(), old(c.Picture()), acts)
    ensures Cursor.Path(acts) == Visited(c.fb.Length1, c.fb.Length0, Cursor.PacketsOf(hs))
    ensures (forall i :: 0 <= i < |hs| ==> hs[i].Packet?) ==> acts == Cursor.Redraws(Cursor.Path(acts))
  {
    ghost var x, y, maxX, maxY := c.fb.Length1 / 2, c.fb.Length0 / 2, c.fb.Length1 - Cursor.W, c.fb.Length0 - Cursor.H;
    acts := c.Session(hs);
    if forall i :: 0 <= i < |hs| ==> hs[i].Packet? {
      Cursor.PacketsOnly(Cursor.Point(Cursor.Clamped(x, maxX), Cursor.Clamped(y, maxY)), x, y, maxX, maxY, hs);
    }
  }
}
