/**
 Whole runs of the executor: what holds in every interleaving of mainline code and
 interrupts, the order of the ready queue, and that input is never stranded.
 */
module ExecutorRuns {
  import opened Common
  import opened ExecutorModel

  // ---------------------------------------------------------------- safety of every run

  lemma InitGood(capacities: seq<nat>)
    ensures Good(Init(capacities)) && !Init(capacities).pc.Panicked?
  {
    var s := Init(capacities);
    forall d | 0 <= d < |s.devices| ensures WakerOk(s, d) && Delivered(s.devices[d]) {
    }
  }

  lemma {:induction false} PanicSticks(s: State, es: seq<Event>)
    requires s.pc.Panicked?
    ensures Run(s, es) == s
    decreases |es|
  {
    if es == [] {
    } else {
      PanicSticks(s, es[1..]);
    }
  }

  lemma {:induction false} RunSplit(s: State, a: seq<Event>, b: seq<Event>)
    ensures Run(s, a + b) == Run(Run(s, a), b)
    decreases |a|
  {
    if a == [] {
      assert a + b == b;
    } else {
      assert (a + b)[0] == a[0] && (a + b)[1..] == a[1..] + b;
      RunSplit(Step(s, a[0]), a[1..], b);
    }
  }

  lemma {:induction false} RunKeeps(s: State, es: seq<Event>)
    requires Good(s) && !s.pc.Panicked?
    ensures !Run(s, es).pc.Panicked? ==> Good(Run(s, es))
    decreases |es|
  {
    if es == [] {
    } else {
      var r := Step(s, es[0]);
      if r.pc.Panicked? {
        PanicSticks(r, es[1..]);
      } else {
        StepKeeps(s, es[0]);
        RunKeeps(r, es[1..]);
      }
    }
  }

  /**
   In every interleaving, with any number of devices each read by one task: no wakeup
   is lost, a halt is safe, input is delivered in order, and each task's claims on the
   ready queue are bounded by its second-pop hits.
   */
  lemma EveryInterleaving(capacities: seq<nat>, es: seq<Event>)
    ensures
      var r := Run(Init(capacities), es);
      !r.pc.Panicked? ==>
        && NoLostWakeup(r)
        && SafeHalt(r)
        && InOrder(r)
        && forall t :: 0 <= t < r.nextId ==>
             multiset(r.ready)[t] + (if Registered(r, t) then 1 else 0) <= 1 + Hits(r, t)
  {
    var r := Run(Init(capacities), es);
    InitGood(capacities);
    RunKeeps(Init(capacities), es);
    if !r.pc.Panicked? {
      forall t | 0 <= t < r.nextId
        ensures multiset(r.ready)[t] + (if Registered(r, t) then 1 else 0) <= 1 + Hits(r, t)
      {
        assert Load(r, t) <= 1 + Hits(r, t);
      }
      if r.pc.Halted? {
        forall t | t in r.tasks ensures Registered(r, t) && InputEmpty(r, t) {
          assert !r.pc.Polls(t);
        }
      }
    }
  }

  /** In a halted state every live task is started and parked on the waker of its present, empty queue. */
  lemma HaltedParked(s: State, t: TaskId)
    requires Good(s) && s.pc.Halted? && t in s.tasks
    ensures s.interrupts && s.ready == [] && s.tasks[t].started && s.tasks[t].device < |s.devices|
    ensures
      var v := s.devices[s.tasks[t].device];
      v.present && v.waker == Some(t) && v.items == []
  {
    assert !s.pc.Polls(t);
    assert WakerOk(s, s.tasks[t].device);
    assert Registered(s, t) && InputEmpty(s, t);
  }

  /** From a halt reached by any run, one input for a live task wakes the CPU straight into polling that task. */
  lemma HaltedInputWakesItsTask(capacities: seq<nat>, es: seq<Event>, t: TaskId, x: int, finish: bool)
    requires Run(Init(capacities), es).pc.Halted? && t in Run(Init(capacities), es).tasks
    ensures
      var s := Run(Init(capacities), es);
      && s.tasks[t].device < |s.devices|
      && var d := s.tasks[t].device;
         var r := Step(s, Irq(d, Some(x)));
      && r.pc == Loop && r.ready == [t]
      && (s.devices[d].capacity > 0 ==> r.devices[d].items == [x])
      && Step(r, Tick(finish)).pc == FirstPop(t)
  {
    InitGood(capacities);
    RunKeeps(Init(capacities), es);
    HaltedParked(Run(Init(capacities), es), t);
    ParkedWakes(Run(Init(capacities), es), t, x, finish);
  }

  /** A task parked on its device's waker, with nothing queued, is what the next interrupt of that device runs. */
  lemma ParkedWakes(s: State, t: TaskId, x: int, finish: bool)
    requires s.pc.Halted? && s.interrupts && s.ready == []
    requires t in s.tasks && s.tasks[t].started && s.tasks[t].device < |s.devices|
    requires
      var v := s.devices[s.tasks[t].device];
      v.present && v.waker == Some(t) && v.items == []
    ensures
      var d := s.tasks[t].device;
      var r := Step(s, Irq(d, Some(x)));
      && r.pc == Loop && r.ready == [t]
      && (s.devices[d].capacity > 0 ==> r.devices[d].items == [x])
      && Step(r, Tick(finish)).pc == FirstPop(t)
  {
  }

  // ---------------------------------------------------------------- ready order

  /** What a step appends to the ready queue, and how many entries it takes from the front. */
  function Pushed(s: State, r: State): seq<TaskId> {
    if |r.ready| > |s.ready| then r.ready[|s.ready|..] else []
  }

  function Popped(s: State, r: State): nat {
    if |r.ready| < |s.ready| then |s.ready| - |r.ready| else 0
  }

  function PushLog(s: State, es: seq<Event>): seq<TaskId>
    decreases |es|
  {
    if es == [] then [] else Pushed(s, Step(s, es[0])) + PushLog(Step(s, es[0]), es[1..])
  }

  function PopCount(s: State, es: seq<Event>): nat
    decreases |es|
  {
    if es == [] then 0 else Popped(s, Step(s, es[0])) + PopCount(Step(s, es[0]), es[1..])
  }

  /** The queue was left alone, lost its front or gained one entry at the back. */
  predicate QueueMoved(q: seq<TaskId>, r: seq<TaskId>) {
    r == q || (q != [] && r == q[1..]) || (|r| == |q| + 1 && r[..|q|] == q)
  }

  /** A task starts to be polled only by being taken from the front of the queue. */
  ghost predicate PolledFromFront(s: State, r: State) {
    forall t :: !s.pc.Polls(t) && r.pc.Polls(t) ==> s.ready != [] && s.ready[0] == t && r.ready == s.ready[1..]
  }

  lemma PollIsFifo(s: State, t: TaskId, finish: bool)
    requires s.pc.Polls(t)
    ensures PollStep(s, t, finish).ready == s.ready
    ensures forall u :: PollStep(s, t, finish).pc.Polls(u) ==> u == t
  {
  }

  lemma TickIsFifo(s: State, finish: bool)
    ensures QueueMoved(s.ready, TickStep(s, finish).ready) && PolledFromFront(s, TickStep(s, finish))
  {
    if !Idle(s.pc) && !s.pc.Panicked? {
      assert s.pc.Polls(s.pc.task);
      PollIsFifo(s, s.pc.task, finish);
    }
  }

  lemma LandIsFifo(s: State, d: nat, x: int)
    requires d < |s.devices|
    ensures QueueMoved(s.ready, Land(s, d, x).ready)
    ensures Land(s, d, x).pc == s.pc || Land(s, d, x).pc.Panicked?
  {
  }

  lemma IrqIsFifo(s: State, d: nat, item: Option<int>)
    ensures QueueMoved(s.ready, IrqStep(s, d, item).ready) && PolledFromFront(s, IrqStep(s, d, item))
  {
    if d < |s.devices| && item.Some? {
      LandIsFifo(Resume(s), d, item.value);
    }
  }

  lemma SpawnIsFifo(s: State, d: nat)
    ensures QueueMoved(s.ready, SpawnStep(s, d).ready) && PolledFromFront(s, SpawnStep(s, d))
  {
  }

  /** A step takes at most one entry, from the front, or appends one; polls start only from the front. */
  lemma StepIsFifo(s: State, e: Event)
    ensures QueueMoved(s.ready, Step(s, e).ready) && PolledFromFront(s, Step(s, e))
  {
    match e {
      case Spawn(d) => SpawnIsFifo(s, d);
      case Tick(finish) => TickIsFifo(s, finish);
      case Irq(d, item) => IrqIsFifo(s, d, item);
      case Timer => IrqIsFifo(s, 0, None);
      case _ =>
    }
  }

  lemma MovedQueue(s: State, r: State)
    requires QueueMoved(s.ready, r.ready)
    ensures Popped(s, r) <= |s.ready| + |Pushed(s, r)| && r.ready == (s.ready + Pushed(s, r))[Popped(s, r)..]
  {
  }

  /** Over every run the ready queue is what was there, then what became ready in order, less what was taken from the front. */
  lemma {:induction false} RunIsFifo(s: State, es: seq<Event>)
    ensures PopCount(s, es) <= |s.ready| + |PushLog(s, es)|
    ensures Run(s, es).ready == (s.ready + PushLog(s, es))[PopCount(s, es)..]
    decreases |es|
  {
    if es == [] {
      assert (s.ready + [])[0..] == s.ready;
    } else {
      var r := Step(s, es[0]);
      StepIsFifo(s, es[0]);
      MovedQueue(s, r);
      RunIsFifo(r, es[1..]);
      QueueGlue(s.ready, Pushed(s, r), Popped(s, r), PushLog(r, es[1..]), PopCount(r, es[1..]));
    }
  }

  lemma QueueGlue(q: seq<TaskId>, a: seq<TaskId>, m: nat, b: seq<TaskId>, n: nat)
    requires m <= |q + a| && n <= |(q + a)[m..]| + |b|
    ensures m + n <= |q| + |a + b| && ((q + a)[m..] + b)[n..] == (q + (a + b))[m + n..]
  {
    assert q + (a + b) == (q + a) + b;
  }

  // ---------------------------------------------------------------- input is never stranded

  function Pending(devices: seq<Device>): nat {
    if devices == [] then 0 else |devices[0].items| + Pending(devices[1..])
  }

  lemma {:induction false} PendingUpdate(devices: seq<Device>, d: nat, v: Device)
    requires d < |devices|
    ensures Pending(devices[d := v]) == Pending(devices) - |devices[d].items| + |v.items|
  {
    if d == 0 {
      assert devices[d := v][1..] == devices[1..];
    } else {
      assert devices[d := v][1..] == devices[1..][d - 1 := v];
      PendingUpdate(devices[1..], d - 1, v);
    }
  }

  function Rank(s: State): nat {
    match s.pc
    case Taking(_) => 14
    case Resumed(_) => 13
    case Disabling => if s.ready == [] then 7 else 13
    case Checking => if s.ready == [] then 6 else 12
    case Opening(_) => 12
    case Enabling => 11
    case FirstPop(_) => 11
    case Registering(_) => 10
    case SecondPop(_) => 9
    case Loop => 8
    case Parking => 5
    case _ => 0
  }

  /** Bounds the mainline steps left before the CPU halts, if no interrupt arrives. */
  function Work(s: State): nat {
    20 * (Pending(s.devices) + |s.ready|) + Rank(s)
  }

  lemma MoveWorks(s: State, t: TaskId, v: Device, p: Pc, hit: bool)
    requires t in s.tasks && s.tasks[t].device < |s.devices|
    ensures
      var r := Move(s, t, v, p, hit);
      Work(r) == Work(s) - 20 * |s.devices[s.tasks[t].device].items| + 20 * |v.items| - Rank(s) + Rank(r)
  {
    PendingUpdate(s.devices, s.tasks[t].device, v);
  }

  lemma PopWorks(s: State, t: TaskId, finish: bool)
    requires Good(s) && (s.pc == FirstPop(t) || s.pc == SecondPop(t))
    ensures Work(PollStep(s, t, finish)) < Work(s)
  {
    assert s.pc.Polls(t);
    var v := s.devices[s.tasks[t].device];
    if s.pc.FirstPop? {
      PollPresent(s, t);
      if v.items == [] { MoveWorks(s, t, v, Registering(t), false); }
      else { MoveWorks(s, t, Pop(v), Resumed(t), false); }
    } else {
      if v.items == [] { MoveWorks(s, t, v, Loop, false); }
      else { MoveWorks(s, t, Pop(v), Taking(t), true); }
    }
  }

  lemma PollWorks(s: State, t: TaskId, finish: bool)
    requires Good(s) && s.pc.Polls(t) && !s.pc.Opening? && !(s.pc.Resumed? && finish)
    ensures Work(PollStep(s, t, finish)) < Work(s)
  {
    var v := s.devices[s.tasks[t].device];
    match s.pc {
      case Registering(_) => MoveWorks(s, t, v.(waker := Some(s.cache[t])), SecondPop(t), false);
      case Taking(_) => MoveWorks(s, t, v.(waker := None), Resumed(t), false);
      case Resumed(_) => MoveWorks(s, t, v, FirstPop(t), false);
      case _ => PopWorks(s, t, finish);
    }
  }

  lemma OpeningWorks(s: State, t: TaskId, finish: bool)
    requires Good(s) && s.pc == Opening(t)
    ensures Work(PollStep(s, t, finish)) < Work(s)
  {
    assert s.pc.Polls(t);
    var v := s.devices[s.tasks[t].device].(present := true);
    MoveWorks(s, t, v, FirstPop(t), false);
  }

  lemma LoopWorks(s: State)
    requires s.pc.Loop?
    ensures Work(LoopStep(s)) < Work(s)
  {
    assert LoopStep(s).devices == s.devices;
  }

  lemma SleepWorks(s: State, finish: bool)
    requires s.pc.Disabling? || s.pc.Checking? || s.pc.Parking? || s.pc.Enabling?
    ensures Work(TickStep(s, finish)) < Work(s)
  {
    assert TickStep(s, finish).devices == s.devices && TickStep(s, finish).ready == s.ready;
  }

  lemma TickWorks(s: State, finish: bool)
    requires Good(s) && !s.pc.Panicked? && !s.pc.Boot? && !s.pc.Halted?
    ensures Work(TickStep(s, finish)) < Work(s) && !TickStep(s, finish).pc.Boot?
  {
    if s.pc.Loop? {
      LoopWorks(s);
    } else if Idle(s.pc) {
      SleepWorks(s, finish);
    } else {
      var t := s.pc.task;
      assert s.pc.Polls(t);
      if s.pc.Opening? {
        OpeningWorks(s, t, finish);
      } else if s.pc.Resumed? && finish {
        assert PollStep(s, t, finish) == Finish(s, t);
      } else {
        PollWorks(s, t, finish);
      }
    }
  }

  function Ticks(fs: seq<bool>): seq<Event> {
    if fs == [] then [] else [Tick(fs[0])] + Ticks(fs[1..])
  }

  lemma {:induction false} TicksHalt(s: State, fs: seq<bool>)
    requires Good(s) && !s.pc.Panicked? && !s.pc.Boot? && |fs| >= Work(s)
    ensures Good(Run(s, Ticks(fs))) && Run(s, Ticks(fs)).pc.Halted?
    decreases |fs|
  {
    if fs == [] {
      assert s.pc.Halted?;
    } else {
      var es := Ticks(fs);
      assert es[0] == Tick(fs[0]) && es[1..] == Ticks(fs[1..]);
      TickKeeps(s, fs[0]);
      if s.pc.Halted? {
        HaltedTicks(s, fs);
      } else {
        TickWorks(s, fs[0]);
        TicksHalt(TickStep(s, fs[0]), fs[1..]);
      }
    }
  }

  lemma {:induction false} HaltedTicks(s: State, fs: seq<bool>)
    requires s.pc.Halted?
    ensures Run(s, Ticks(fs)) == s
    decreases |fs|
  {
    if fs == [] {
    } else {
      var es := Ticks(fs);
      assert es[0] == Tick(fs[0]) && es[1..] == Ticks(fs[1..]);
      HaltedTicks(s, fs[1..]);
    }
  }

  /** In a halted state every item accepted for a live task has been delivered. */
  lemma HaltedDelivered(s: State)
    requires Good(s) && s.pc.Halted?
    ensures forall t :: t in s.tasks ==>
      && s.tasks[t].device < |s.devices|
      && s.devices[s.tasks[t].device].consumed == s.devices[s.tasks[t].device].accepted
  {
    forall t | t in s.tasks
      ensures
        && s.tasks[t].device < |s.devices|
        && s.devices[s.tasks[t].device].consumed == s.devices[s.tasks[t].device].accepted
    {
      HaltedParked(s, t);
      assert Delivered(s.devices[s.tasks[t].device]);
    }
  }

  /**
   Once interrupts stop arriving, mainline code halts within `Work` steps whatever the
   futures decide, and by then every item accepted for a live task has been delivered,
   in order and exactly once.
   */
  lemma InputIsNeverStranded(capacities: seq<nat>, es: seq<Event>, fs: seq<bool>)
    requires
      var s := Run(Init(capacities), es);
      !s.pc.Panicked? && !s.pc.Boot? && |fs| >= Work(s)
    ensures
      var r := Run(Run(Init(capacities), es), Ticks(fs));
      && r.pc.Halted?
      && forall t :: t in r.tasks ==>
           && r.tasks[t].device < |r.devices|
           && r.devices[r.tasks[t].device].consumed == r.devices[r.tasks[t].device].accepted
  {
    var s := Run(Init(capacities), es);
    InitGood(capacities);
    RunKeeps(Init(capacities), es);
    TicksHalt(s, fs);
    var r := Run(s, Ticks(fs));
    HaltedDelivered(r);
  }
}
