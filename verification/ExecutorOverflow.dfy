/**
 The bounded ready queue: how many entries it can need, exactly when a push onto it
 panics, and exactly for which devices no interleaving ever does.
 */
module ExecutorOverflow {
  import opened Common
  import opened ExecutorModel
  import opened ExecutorRuns

  // ---------------------------------------------------------------- claims on the queue

  function TotalHits(s: State, n: nat): nat {
    if n == 0 then 0 else TotalHits(s, n - 1) + Hits(s, n - 1)
  }

  /** Tasks spawned so far plus second-pop hits so far. */
  function Committed(s: State): nat {
    s.nextId + TotalHits(s, s.nextId)
  }

  function Entries(q: seq<TaskId>, n: nat): nat {
    if n == 0 then 0 else Entries(q, n - 1) + multiset(q)[n - 1]
  }

  lemma {:induction false} EntriesOfOne(q: seq<TaskId>, x: TaskId, n: nat)
    ensures Entries([x] + q, n) == Entries(q, n) + (if x < n then 1 else 0)
  {
    if n == 0 {
    } else {
      EntriesOfOne(q, x, n - 1);
    }
  }

  /** Counting per task counts the whole queue. */
  lemma {:induction false} EntriesAreAll(q: seq<TaskId>, n: nat)
    requires forall t :: t in q ==> t < n
    ensures Entries(q, n) == |q|
  {
    if q == [] {
      NoEntries(n);
    } else {
      assert q == [q[0]] + q[1..];
      assert q[0] in q && forall t :: t in q[1..] ==> t in q;
      EntriesOfOne(q[1..], q[0], n);
      EntriesAreAll(q[1..], n);
    }
  }

  lemma {:induction false} NoEntries(n: nat)
    ensures Entries([], n) == 0
  {
    if n == 0 {
    } else {
      NoEntries(n - 1);
    }
  }

  lemma {:induction false} EntriesWithinClaims(s: State, n: nat)
    requires Bounded(s) && n <= s.nextId
    ensures Entries(s.ready, n) <= n + TotalHits(s, n)
    ensures forall t :: 0 <= t < n && Registered(s, t) ==> Entries(s.ready, n) + 1 <= n + TotalHits(s, n)
  {
    if n == 0 {
    } else {
      assert Load(s, n - 1) <= 1 + Hits(s, n - 1);
      EntriesWithinClaims(s, n - 1);
    }
  }

  lemma {:induction false} TotalHitsGrow(s: State, r: State, n: nat)
    requires forall t :: 0 <= t < n ==> Hits(s, t) <= Hits(r, t)
    ensures TotalHits(s, n) <= TotalHits(r, n)
  {
    if n == 0 {
    } else {
      TotalHitsGrow(s, r, n - 1);
    }
  }

  lemma {:induction false} MoreTasksMoreHits(s: State, m: nat, n: nat)
    requires m <= n
    ensures TotalHits(s, m) <= TotalHits(s, n)
  {
    if m == n {
    } else {
      MoreTasksMoreHits(s, m, n - 1);
    }
  }

  lemma TickHitsGrow(s: State, finish: bool, t: TaskId)
    ensures Hits(s, t) <= Hits(TickStep(s, finish), t) && s.nextId == TickStep(s, finish).nextId
  {
  }

  lemma HitsGrow(s: State, e: Event, t: TaskId)
    requires Ids(s) && t < s.nextId
    ensures Hits(s, t) <= Hits(Step(s, e), t)
  {
    if e.Tick? {
      TickHitsGrow(s, e.finish, t);
    }
  }

  lemma IdsGrow(s: State, e: Event)
    ensures s.nextId <= Step(s, e).nextId
  {
    if e.Tick? {
      TickHitsGrow(s, e.finish, 0);
    }
  }

  lemma CommittedGrows(s: State, e: Event)
    requires Ids(s)
    ensures Committed(s) <= Committed(Step(s, e))
  {
    var r := Step(s, e);
    IdsGrow(s, e);
    assert TotalHits(s, s.nextId) <= TotalHits(r, s.nextId) by {
      forall t | 0 <= t < s.nextId ensures Hits(s, t) <= Hits(r, t) {
        HitsGrow(s, e, t);
      }
      TotalHitsGrow(s, r, s.nextId);
    }
    MoreTasksMoreHits(r, s.nextId, r.nextId);
  }

  lemma ClaimsCoverQueue(s: State)
    requires Ids(s) && Bounded(s)
    ensures |s.ready| <= Committed(s)
    ensures forall t :: t in s.tasks && Registered(s, t) ==> |s.ready| + 1 <= Committed(s)
  {
    EntriesAreAll(s.ready, s.nextId);
    EntriesWithinClaims(s, s.nextId);
  }

  lemma SpawnPanicNeedsClaims(s: State, d: nat)
    requires Good(s) && !s.pc.Panicked? && SpawnStep(s, d).pc.Panicked?
    ensures Committed(SpawnStep(s, d)) > READY_CAPACITY
  {
    var r := SpawnStep(s, d);
    ClaimsCoverQueue(s);
    assert r.nextId == s.nextId + 1 && |s.ready| >= READY_CAPACITY;
    TotalHitsGrow(s, r, s.nextId);
  }

  lemma IrqPanicNeedsClaims(s: State, d: nat, item: Option<int>)
    requires Good(s) && !s.pc.Panicked? && IrqStep(s, d, item).pc.Panicked?
    ensures Committed(s) > READY_CAPACITY
  {
    ClaimsCoverQueue(s);
    assert d < |s.devices| && WakerOk(s, d);
    assert Registered(s, s.devices[d].waker.value);
  }

  /** A step panics only when the claims on the ready queue exceed its capacity. */
  lemma PanicNeedsClaims(s: State, e: Event)
    requires Good(s) && !s.pc.Panicked? && Step(s, e).pc.Panicked?
    ensures Committed(Step(s, e)) > 100
  {
    CommittedGrows(s, e);
    match e {
      case Spawn(d) => SpawnPanicNeedsClaims(s, d);
      case Tick(finish) => TickKeeps(s, finish);
      case Irq(d, item) => IrqPanicNeedsClaims(s, d, item);
      case _ =>
    }
  }

  lemma {:induction false} ClaimsBoundRun(s: State, es: seq<Event>)
    requires Good(s) && !s.pc.Panicked?
    ensures Committed(s) <= Committed(Run(s, es))
    ensures Run(s, es).pc.Panicked? ==> Committed(Run(s, es)) > READY_CAPACITY
    decreases |es|
  {
    if es == [] {
    } else {
      var r := Step(s, es[0]);
      CommittedGrows(s, es[0]);
      if r.pc.Panicked? {
        PanicNeedsClaims(s, es[0]);
        PanicSticks(r, es[1..]);
      } else {
        StepKeeps(s, es[0]);
        ClaimsBoundRun(r, es[1..]);
      }
    }
  }

  /** No run panics while spawned tasks plus second-pop hits stay within the capacity of 100. */
  lemma NoOverflowWithinCapacity(capacities: seq<nat>, es: seq<Event>)
    requires Committed(Run(Init(capacities), es)) <= 100
    ensures !Run(Init(capacities), es).pc.Panicked?
  {
    InitGood(capacities);
    ClaimsBoundRun(Init(capacities), es);
  }

  // ---------------------------------------------------------------- when a step panics

  /** The push the event makes onto the ready queue, if it makes one, finds it full. */
  ghost predicate PushesOntoFull(s: State, e: Event) {
    && |s.ready| >= 100
    && match e
       case Spawn(d) => s.pc.Boot? && d < |s.devices| && forall t :: t in s.tasks ==> s.tasks[t].device != d
       case Irq(d, item) =>
         && s.interrupts && d < |s.devices| && s.devices[d].present
         && item.Some? && s.devices[d].waker.Some?
       case _ => false
  }

  /** A step panics exactly if it pushes onto a full ready queue: no other `expect` or `panic!` is reachable. */
  lemma PanicExactly(s: State, e: Event)
    requires Good(s) && !s.pc.Panicked?
    ensures Step(s, e).pc.Panicked? <==> PushesOntoFull(s, e)
  {
    match e {
      case Tick(finish) => TickKeeps(s, finish);
      case _ =>
    }
  }

  /** Event number `i` of the run meets a full ready queue. */
  ghost predicate OverflowsAt(s: State, es: seq<Event>, i: int)
    requires 0 <= i < |es|
  {
    !Run(s, es[..i]).pc.Panicked? && PushesOntoFull(Run(s, es[..i]), es[i])
  }

  lemma ShiftedRun(s: State, es: seq<Event>, i: nat)
    requires i < |es| - 1
    ensures OverflowsAt(s, es, i + 1) <==> OverflowsAt(Step(s, es[0]), es[1..], i)
  {
    var front := es[..i + 1];
    assert front[0] == es[0] && front[1..] == es[1..][..i];
  }

  /** A run panics exactly if some event of it pushes onto a full ready queue. */
  lemma {:induction false} RunPanicsExactly(s: State, es: seq<Event>)
    requires Good(s) && !s.pc.Panicked?
    ensures Run(s, es).pc.Panicked? <==> exists i :: 0 <= i < |es| && OverflowsAt(s, es, i)
    decreases |es|
  {
    if es == [] {
    } else {
      var r := Step(s, es[0]);
      PanicExactly(s, es[0]);
      assert OverflowsAt(s, es, 0) <==> r.pc.Panicked? by { assert es[..0] == []; }
      if r.pc.Panicked? {
        PanicSticks(r, es[1..]);
      } else {
        StepKeeps(s, es[0]);
        RunPanicsExactly(r, es[1..]);
        forall i | 0 < i < |es| ensures OverflowsAt(s, es, i) <==> OverflowsAt(r, es[1..], i - 1) {
          ShiftedRun(s, es, i - 1);
        }
        if i :| 0 <= i < |es[1..]| && OverflowsAt(r, es[1..], i) {
          assert OverflowsAt(s, es, i + 1);
        }
      }
    }
  }

  // ---------------------------------------------------------------- overflow by interrupts

  /** Task 0 alone, at `p` of a poll of device `d`, with `k` stale queue entries. */
  ghost predicate Holding(s: State, d: nat, k: nat, p: Pc, hits: nat, items: seq<int>) {
    && s.nextId == 1 && s.tasks == map[0 := Task(d, true)] && s.cache == map[0 := 0]
    && s.pc == p && s.interrupts && |s.ready| == k && s.hits == map[0 := hits]
    && d < |s.devices| && s.devices[d].present && s.devices[d].capacity > 0
    && s.devices[d].items == items && s.devices[d].waker == None
  }

  /** About to pop an empty device, with `k` stale queue entries from `k` second-pop hits. */
  ghost predicate Congested(s: State, d: nat, k: nat) { Holding(s, d, k, FirstPop(0), k, []) }

  /** An interrupt before and one after `register`: the waker fires although the second pop will hit. */
  function Squeeze(d: nat): seq<Event> {
    [Tick(false), Irq(d, Some(7)), Tick(false), Irq(d, Some(9))]
  }

  /** Second pop hits, the waker is taken back, and the item reaches its reader. */
  function TakeBack(): seq<Event> {
    [Tick(false), Tick(false), Tick(false)]
  }

  /** The second item is read by the next first pop. */
  function ReadOn(): seq<Event> {
    [Tick(false), Tick(false)]
  }

  /** What the second interrupt leaves behind the first item: a full queue drops its item and still wakes. */
  function Behind(s: State, d: nat): seq<int>
    requires d < |s.devices|
  {
    if s.devices[d].capacity > 1 then [9] else []
  }

  lemma SqueezeStep(s: State, d: nat, k: nat)
    requires Congested(s, d, k)
    ensures
      var r := Run(s, Squeeze(d));
      if k < READY_CAPACITY then Holding(r, d, k + 1, SecondPop(0), k, [7] + Behind(s, d))
      else r.pc.Panicked? && Committed(r) == k + 1
  {
    var es := Squeeze(d);
    var s1 := Step(s, es[0]);
    assert s1.pc == Registering(0);
    var s2 := Step(s1, es[1]);
    assert s2.pc == Registering(0) && s2.devices[d].items == [7] && s2.devices[d].waker == None;
    var s3 := Step(s2, es[2]);
    assert s3.pc == SecondPop(0) && s3.devices[d].waker == Some(0) && s3.devices[d].items == [7];
    var s4 := Step(s3, es[3]);
    assert es[1..][1..][1..][1..] == [];
    assert Run(s, es) == Run(s1, es[1..]) == Run(s2, es[1..][1..]) == Run(s3, es[1..][1..][1..]);
    assert Run(s3, es[1..][1..][1..]) == Run(s4, []) == s4;
    if k >= READY_CAPACITY {
      assert s4.nextId == 1 && s4.hits == map[0 := k];
      assert TotalHits(s4, 1) == TotalHits(s4, 0) + Hits(s4, 0);
    }
  }

  lemma TakeBackStep(s: State, d: nat, k: nat, rest: seq<int>)
    requires Holding(s, d, k + 1, SecondPop(0), k, [7] + rest)
    ensures Holding(Run(s, TakeBack()), d, k + 1, FirstPop(0), k + 1, rest)
  {
    var es := TakeBack();
    var s1 := Step(s, es[0]);
    assert s1.pc == Taking(0) && s1.devices[d].items == rest && s1.hits == map[0 := k + 1];
    var s2 := Step(s1, es[1]);
    assert s2.pc == Resumed(0) && s2.devices[d].waker == None;
    var s3 := Step(s2, es[2]);
    assert es[1..][1..][1..] == [];
    assert Run(s, es) == Run(s1, es[1..]) == Run(s2, es[1..][1..]) == Run(s3, []) == s3;
  }

  lemma ReadOnStep(s: State, d: nat, k: nat)
    requires Holding(s, d, k, FirstPop(0), k, [9])
    ensures Congested(Run(s, ReadOn()), d, k)
  {
    var es := ReadOn();
    var s1 := Step(s, es[0]);
    assert s1.pc == Resumed(0) && s1.devices[d].items == [];
    var s2 := Step(s1, es[1]);
    assert es[1..][1..] == [];
    assert Run(s, es) == Run(s1, es[1..]) == Run(s2, []) == s2;
  }

  /** One more stale entry, on any device that can hold an item. */
  lemma Lap(s: State, d: nat, k: nat) returns (es: seq<Event>)
    requires Congested(s, d, k) && k < READY_CAPACITY
    ensures Congested(Run(s, es), d, k + 1)
  {
    SqueezeStep(s, d, k);
    var s1 := Run(s, Squeeze(d));
    TakeBackStep(s1, d, k, Behind(s, d));
    RunSplit(s, Squeeze(d), TakeBack());
    es := Squeeze(d) + TakeBack();
    if Behind(s, d) != [] {
      ReadOnStep(Run(s, es), d, k + 1);
      RunSplit(s, es, ReadOn());
      es := es + ReadOn();
    }
  }

  lemma {:induction false} Congest(s: State, d: nat, k: nat) returns (es: seq<Event>)
    requires Congested(s, d, k) && k <= READY_CAPACITY
    ensures Run(s, es).pc.Panicked? && Committed(Run(s, es)) == READY_CAPACITY + 1
    decreases READY_CAPACITY - k
  {
    if k == READY_CAPACITY {
      SqueezeStep(s, d, k);
      es := Squeeze(d);
    } else {
      var lap := Lap(s, d, k);
      var rest := Congest(Run(s, lap), d, k + 1);
      RunSplit(s, lap, rest);
      es := lap + rest;
    }
  }

  function Startup(d: nat): seq<Event> {
    [Spawn(d), Start, Tick(false), Tick(false)]
  }

  lemma StartupCongested(capacities: seq<nat>, d: nat)
    requires d < |capacities| && capacities[d] > 0
    ensures Congested(Run(Init(capacities), Startup(d)), d, 0)
  {
    var es := Startup(d);
    var s0 := Init(capacities);
    var s1 := Step(s0, es[0]);
    assert s1.tasks == map[0 := Task(d, false)] && s1.ready == [0] && s1.hits == map[0 := 0];
    var s2 := Step(s1, es[1]);
    var s3 := Step(s2, es[2]);
    assert s3.pc == Opening(0) && s3.cache == map[0 := 0] && s3.ready == [];
    var s4 := Step(s3, es[3]);
    assert es[1..][1..][1..][1..] == [];
    assert Run(s0, es) == Run(s1, es[1..]) == Run(s2, es[1..][1..]) == Run(s3, es[1..][1..][1..]);
    assert Run(s3, es[1..][1..][1..]) == Run(s4, []) == s4;
  }

  /**
   The `expect` in `wake_task` can fail: for every device that can hold an item there is
   an interleaving that panics, and it does so at the first claim past the capacity.
   */
  lemma OverflowIsReachable(capacities: seq<nat>, d: nat) returns (es: seq<Event>)
    requires d < |capacities| && capacities[d] > 0
    ensures Run(Init(capacities), es).pc.Panicked?
    ensures Committed(Run(Init(capacities), es)) == 101
  {
    StartupCongested(capacities, d);
    var rest := Congest(Run(Init(capacities), Startup(d)), d, 0);
    RunSplit(Init(capacities), Startup(d), rest);
    es := Startup(d) + rest;
  }

  // ---------------------------------------------------------------- overflow by spawning

  /** At boot, with a task for each of the first `k` devices. */
  ghost predicate Spawned(s: State, k: nat) {
    && s.pc.Boot? && s.nextId == k && |s.ready| == k
    && forall t :: t in s.tasks ==> t < k && s.tasks[t].device < k
  }

  lemma {:induction false} SpawnTooMany(s: State, k: nat) returns (es: seq<Event>)
    requires Spawned(s, k) && k <= READY_CAPACITY < |s.devices|
    ensures Run(s, es).pc.Panicked?
    decreases READY_CAPACITY - k
  {
    var r := SpawnStep(s, k);
    if k == READY_CAPACITY {
      es := [Spawn(k)];
      assert Run(s, es) == Run(r, []);
    } else {
      var rest := SpawnTooMany(r, k + 1);
      es := [Spawn(k)] + rest;
      assert es[0] == Spawn(k) && es[1..] == rest;
    }
  }

  // ---------------------------------------------------------------- exactly when no run panics

  /** Tasks are only spawned at boot, one per device. */
  ghost predicate OnePerDevice(s: State) {
    s.nextId <= |s.devices| && (s.pc.Boot? ==> forall t :: 0 <= t < s.nextId ==> t in s.tasks)
  }

  /** No queue can hold an item, so no second pop has found one. */
  ghost predicate Dry(s: State) {
    && (forall d :: 0 <= d < |s.devices| ==> s.devices[d].capacity == 0)
    && (forall t :: t in s.hits ==> s.hits[t] == 0)
  }

  predicate Distinct(ds: seq<nat>) {
    forall i, j :: 0 <= i < j < |ds| ==> ds[i] != ds[j]
  }

  function Elements(ds: seq<nat>): set<nat> {
    if ds == [] then {} else Elements(ds[1..]) + {ds[0]}
  }

  lemma {:induction false} DistinctCount(ds: seq<nat>)
    requires Distinct(ds)
    ensures |Elements(ds)| == |ds| && forall d :: d in Elements(ds) <==> d in ds
  {
    if ds == [] {
    } else {
      DistinctCount(ds[1..]);
      assert ds == [ds[0]] + ds[1..];
    }
  }

  lemma {:induction false} SmallSet(a: set<nat>, n: nat)
    requires forall d :: d in a ==> d < n
    ensures |a| <= n
  {
    if n == 0 {
      assert a == {};
    } else {
      SmallSet(a - {n - 1}, n - 1);
    }
  }

  lemma DistinctBelow(ds: seq<nat>, n: nat)
    requires Distinct(ds) && forall d :: d in ds ==> d < n
    ensures |ds| <= n
  {
    DistinctCount(ds);
    SmallSet(Elements(ds), n);
  }

  /** A device without a reader leaves room for one more task. */
  lemma FreeDevice(s: State, d: nat)
    requires Ids(s) && OnePerDevice(s) && s.pc.Boot? && d < |s.devices|
    requires forall t :: t in s.tasks ==> s.tasks[t].device != d
    ensures s.nextId < |s.devices|
  {
    var ds := seq(s.nextId, t requires 0 <= t < s.nextId => s.tasks[t].device);
    DistinctBelow(ds + [d], |s.devices|);
  }

  lemma StepOnePerDevice(s: State, e: Event)
    requires Ids(s) && OnePerDevice(s)
    ensures OnePerDevice(Step(s, e))
  {
    match e {
      case Spawn(d) =>
        if s.pc.Boot? && d < |s.devices| && forall t :: t in s.tasks ==> s.tasks[t].device != d {
          FreeDevice(s, d);
        }
      case Tick(finish) => TickShape(s, finish);
      case _ =>
    }
  }

  predicate SameShape(s: State, r: State) {
    && |r.devices| == |s.devices| && r.nextId == s.nextId
    && (forall d :: 0 <= d < |s.devices| ==> r.devices[d].capacity == s.devices[d].capacity)
  }

  lemma MoveShape(s: State, t: TaskId, v: Device, p: Pc, hit: bool)
    requires t in s.tasks && s.tasks[t].device < |s.devices|
    requires v.capacity == s.devices[s.tasks[t].device].capacity
    ensures SameShape(s, Move(s, t, v, p, hit))
  {
  }

  lemma PollShape(s: State, t: TaskId, finish: bool)
    requires s.pc.Polls(t)
    ensures SameShape(s, PollStep(s, t, finish)) && !PollStep(s, t, finish).pc.Boot?
  {
    if t in s.tasks && s.tasks[t].device < |s.devices| {
      var v := s.devices[s.tasks[t].device];
      match s.pc {
        case Opening(_) => MoveShape(s, t, v.(present := true), FirstPop(t), false);
        case FirstPop(_) =>
          MoveShape(s, t, v, Registering(t), false);
          if v.items != [] { MoveShape(s, t, Pop(v), Resumed(t), false); }
        case Registering(_) =>
          if t in s.cache { MoveShape(s, t, v.(waker := Some(s.cache[t])), SecondPop(t), false); }
        case SecondPop(_) =>
          MoveShape(s, t, v, Loop, false);
          if v.items != [] { MoveShape(s, t, Pop(v), Taking(t), true); }
        case Taking(_) => MoveShape(s, t, v.(waker := None), Resumed(t), false);
        case Resumed(_) => MoveShape(s, t, v, FirstPop(t), false);
      }
    }
  }

  lemma TickShape(s: State, finish: bool)
    ensures SameShape(s, TickStep(s, finish))
    ensures TickStep(s, finish).pc.Boot? ==> TickStep(s, finish) == s
  {
    if !Idle(s.pc) && !s.pc.Panicked? {
      PollShape(s, s.pc.task, finish);
    }
  }

  /** With nothing queued a mainline step finds nothing. */
  lemma DryTick(s: State, finish: bool)
    requires Dry(s) && forall d :: 0 <= d < |s.devices| ==> s.devices[d].items == []
    ensures TickStep(s, finish).hits == s.hits
  {
    if s.pc.SecondPop? {
      assert TickStep(s, finish) == PollStep(s, s.pc.task, finish);
    }
  }

  lemma NothingQueued(s: State)
    requires InOrder(s) && Dry(s)
    ensures forall d :: 0 <= d < |s.devices| ==> s.devices[d].items == []
  {
    forall d | 0 <= d < |s.devices| ensures s.devices[d].items == [] {
      assert Delivered(s.devices[d]);
    }
  }

  lemma StepDry(s: State, e: Event)
    requires InOrder(s) && Dry(s)
    ensures Dry(Step(s, e))
  {
    match e {
      case Tick(finish) =>
        NothingQueued(s);
        TickShape(s, finish);
        DryTick(s, finish);
      case Irq(d, item) => IrqDry(s, d, item);
      case _ =>
    }
  }

  lemma IrqDry(s: State, d: nat, item: Option<int>)
    requires Dry(s)
    ensures Dry(IrqStep(s, d, item))
  {
  }

  lemma {:induction false} NoHits(s: State, n: nat)
    requires Dry(s)
    ensures TotalHits(s, n) == 0
  {
    if n == 0 {
    } else {
      NoHits(s, n - 1);
    }
  }

  lemma {:induction false} DryRun(s: State, es: seq<Event>)
    requires Good(s) && !s.pc.Panicked? && Dry(s) && OnePerDevice(s) && |s.devices| <= READY_CAPACITY
    ensures !Run(s, es).pc.Panicked?
    decreases |es|
  {
    if es == [] {
    } else {
      var r := Step(s, es[0]);
      DryStep(s, es[0]);
      DryRun(r, es[1..]);
    }
  }

  lemma DryStep(s: State, e: Event)
    requires Good(s) && !s.pc.Panicked? && Dry(s) && OnePerDevice(s) && |s.devices| <= READY_CAPACITY
    ensures
      var r := Step(s, e);
      Good(r) && !r.pc.Panicked? && Dry(r) && OnePerDevice(r) && |r.devices| == |s.devices|
  {
    var r := Step(s, e);
    StepOnePerDevice(s, e);
    StepDry(s, e);
    NoHits(r, r.nextId);
    StepDevices(s, e);
    if r.pc.Panicked? {
      PanicNeedsClaims(s, e);
      assert false;
    }
    StepKeeps(s, e);
  }

  lemma StepDevices(s: State, e: Event)
    ensures |Step(s, e).devices| == |s.devices|
  {
    match e {
      case Tick(finish) => TickShape(s, finish);
      case _ =>
    }
  }

  lemma {:induction false} RunDevices(s: State, es: seq<Event>)
    ensures |Run(s, es).devices| == |s.devices|
    decreases |es|
  {
    if es == [] {
    } else {
      StepDevices(s, es[0]);
      RunDevices(Step(s, es[0]), es[1..]);
    }
  }

  /**
   Whether some interleaving panics depends on the devices alone: none does exactly if
   there are at most 100 of them and none can hold an item.
   */
  lemma NeverPanicsExactly(capacities: seq<nat>)
    ensures
      (forall es :: !Run(Init(capacities), es).pc.Panicked?) <==>
      |capacities| <= 100 && forall d :: 0 <= d < |capacities| ==> capacities[d] == 0
  {
    var s := Init(capacities);
    if |capacities| > READY_CAPACITY {
      var es := SpawnTooMany(s, 0);
      assert Run(s, es).pc.Panicked?;
    } else if d :| 0 <= d < |capacities| && capacities[d] > 0 {
      var es := OverflowIsReachable(capacities, d);
      assert Run(s, es).pc.Panicked?;
    } else {
      InitGood(capacities);
      forall es ensures !Run(s, es).pc.Panicked? {
        DryRun(s, es);
      }
    }
  }
}
