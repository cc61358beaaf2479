/**
 The executor as the program runs it: nested loops over mutable fields, with
 interrupts arriving at arbitrary moments between two accesses to shared state.
 The program point and the event list are ghost; every method is proved to be a run of
 the step system over the events it logs, so its control structure is that machine's.
 */
module ExecutorKernel {
  import opened Common
  import opened ExecutorModel
  import opened ExecutorRuns
  import opened ExecutorOverflow

  /** An interrupt request: the device, and the item its handler reads, if any. */
  datatype Signal = Signal(device: nat, item: Option<int>)

  /** The interrupts taken in a list of events, in order. */
  function Taken(es: seq<Event>): seq<Signal> {
    if es == [] then []
    else
      var e := es[|es| - 1];
      Taken(es[..|es| - 1]) + if e.Irq? then [Signal(e.source, e.item)] else []
  }

  // ---------------------------------------------------------------- facts about logged runs

  /** What a kernel boots with: its devices' capacities and the interrupts that will come. */
  datatype Setup = Setup(capacities: seq<nat>, signals: seq<Signal>)

  /**
   The events lead to `s`, with work `left` and interrupts `pending`: this is its last line,
   as `ReachesExactly` says.  The recursion over `n` adds nothing to the meaning; it only
   keeps the verifier from unfolding the events in code about fields.
   */
  ghost predicate Reaches(u: Setup, es: seq<Event>, s: State, pending: seq<Signal>, left: nat, n: nat := 0)
    decreases |es| - n
  {
    if n < |es| then Reaches(u, es, s, pending, left, n + 1)
    else s == Run(Init(u.capacities), es) && Taken(es) + pending == u.signals && left == Work(s)
  }

  lemma {:induction false} ReachesExactly(u: Setup, es: seq<Event>, s: State, pending: seq<Signal>, left: nat, n: nat := 0)
    ensures Reaches(u, es, s, pending, left, n) <==>
      s == Run(Init(u.capacities), es) && Taken(es) + pending == u.signals && left == Work(s)
    decreases |es| - n
  {
    if n >= |es| {
    } else {
      ReachesExactly(u, es, s, pending, left, n + 1);
    }
  }

  lemma ReachedGood(u: Setup, es: seq<Event>, s: State, pending: seq<Signal>, left: nat)
    requires Reaches(u, es, s, pending, left) && !s.pc.Panicked?
    ensures Good(s)
  {
    ReachesExactly(u, es, s, pending, left);
    InitGood(u.capacities);
    RunKeeps(Init(u.capacities), es);
  }

  lemma Logged(capacities: seq<nat>, es: seq<Event>, e: Event)
    ensures Run(Init(capacities), es + [e]) == Step(Run(Init(capacities), es), e)
    ensures Taken(es + [e]) == Taken(es) + if e.Irq? then [Signal(e.source, e.item)] else []
  {
    RunSplit(Init(capacities), es, [e]);
    var s := Run(Init(capacities), es);
    assert Run(s, [e]) == Run(Step(s, e), []);
    assert (es + [e])[..|es|] == es;
  }

  /** The interrupt brings an item to a device whose queue exists. */
  predicate Heard(devices: seq<Device>, i: Signal) {
    i.device < |devices| && i.item.Some? && devices[i.device].present
  }

  lemma Interrupted(u: Setup, es: seq<Event>, s: State, pending: seq<Signal>, left: nat) returns (now: nat)
    requires Reaches(u, es, s, pending, left) && pending != [] && s.interrupts && !s.pc.Panicked?
    ensures
      var i := pending[0];
      Reaches(u, es + [Irq(i.device, i.item)],
              if Heard(s.devices, i) then Land(Resume(s), i.device, i.item.value) else Resume(s),
              pending[1..], now)
  {
    var i := pending[0];
    var e := Irq(i.device, i.item);
    now := Work(IrqStep(s, i.device, i.item));
    ReachesExactly(u, es, s, pending, left);
    Logged(u.capacities, es, e);
    assert Taken(es) + [i] + pending[1..] == Taken(es) + pending;
    ReachesExactly(u, es + [e], Step(s, e), pending[1..], now);
  }

  /** A mainline step of a running machine goes on, and leaves less to do. */
  lemma Ticked(u: Setup, es: seq<Event>, s: State, pending: seq<Signal>, left: nat, finish: bool) returns (now: nat)
    requires Reaches(u, es, s, pending, left) && !s.pc.Panicked? && !s.pc.Boot? && !s.pc.Halted?
    ensures Reaches(u, es + [Tick(finish)], TickStep(s, finish), pending, now) && now < left
  {
    now := Work(TickStep(s, finish));
    ReachesExactly(u, es, s, pending, left);
    ReachedGood(u, es, s, pending, left);
    TickWorks(s, finish);
    Logged(u.capacities, es, Tick(finish));
    ReachesExactly(u, es + [Tick(finish)], TickStep(s, finish), pending, now);
  }

  /** What a poll may rely on: its task, its cached waker and, once opened, its queue. */
  lemma Polled(u: Setup, es: seq<Event>, s: State, pending: seq<Signal>, left: nat, t: TaskId)
    requires Reaches(u, es, s, pending, left) && s.pc.Polls(t)
    ensures t in s.tasks && s.tasks[t].device < |s.devices|
    ensures t in s.cache && s.cache[t] == t
    ensures !s.pc.Opening? ==> s.devices[s.tasks[t].device].present && s.tasks[t].started
  {
    ReachedGood(u, es, s, pending, left);
  }

  /** When mainline code saw the ready queue empty, every live task is parked on an empty queue. */
  lemma Drained(u: Setup, es: seq<Event>, s: State, pending: seq<Signal>, left: nat)
    requires Reaches(u, es, s, pending, left) && s.pc.Disabling? && s.ready == []
    ensures forall t :: t in s.tasks ==> Registered(s, t) && InputEmpty(s, t)
  {
    ReachedGood(u, es, s, pending, left);
    forall t | t in s.tasks ensures Registered(s, t) && InputEmpty(s, t) {
      assert !s.pc.Polls(t);
    }
  }

  lemma Entered(u: Setup, es: seq<Event>, s: State, pending: seq<Signal>, left: nat) returns (now: nat)
    requires Reaches(u, es, s, pending, left) && s.pc.Boot?
    ensures Reaches(u, es + [Start], s.(pc := Loop), pending, now) && s.interrupts
  {
    now := Work(s.(pc := Loop));
    ReachesExactly(u, es, s, pending, left);
    ReachedGood(u, es, s, pending, left);
    Logged(u.capacities, es, Start);
    ReachesExactly(u, es + [Start], s.(pc := Loop), pending, now);
  }

  lemma Attached(u: Setup, es: seq<Event>, s: State, pending: seq<Signal>, left: nat, d: nat) returns (now: nat)
    requires Reaches(u, es, s, pending, left)
    ensures Reaches(u, es + [Attach(d)], AttachStep(s, d), pending, now)
  {
    now := Work(AttachStep(s, d));
    ReachesExactly(u, es, s, pending, left);
    Logged(u.capacities, es, Attach(d));
    ReachesExactly(u, es + [Attach(d)], AttachStep(s, d), pending, now);
  }

  function NewTask(s: State, d: nat): State {
    s.(nextId := s.nextId + 1, tasks := s.tasks[s.nextId := Task(d, false)], hits := s.hits[s.nextId := 0])
  }

  predicate ReadBy(tasks: map<TaskId, Task>, d: nat) {
    exists t :: t in tasks && tasks[t].device == d
  }

  /** A new id is in use nowhere. */
  lemma SpawnLogged(u: Setup, es: seq<Event>, s: State, pending: seq<Signal>, left: nat, d: nat) returns (now: nat)
    requires Reaches(u, es, s, pending, left) && s.pc.Boot?
    ensures s.nextId !in s.tasks && s.nextId !in s.ready && |s.devices| == |u.capacities|
    ensures Reaches(u, es + [Spawn(d)],
                    if d >= |s.devices| || ReadBy(s.tasks, d) then s
                    else PushReady(NewTask(s, d), s.nextId),
                    pending, now)
  {
    now := Work(SpawnStep(s, d));
    ReachesExactly(u, es, s, pending, left);
    ReachedGood(u, es, s, pending, left);
    RunDevices(Init(u.capacities), es);
    Logged(u.capacities, es, Spawn(d));
    ReachesExactly(u, es + [Spawn(d)], SpawnStep(s, d), pending, now);
  }

  lemma Overflowed(u: Setup, es: seq<Event>, s: State, pending: seq<Signal>, left: nat)
    requires Reaches(u, es, s, pending, left) && s.pc.Panicked?
    ensures s == Run(Init(u.capacities), es) && Committed(s) > READY_CAPACITY
  {
    ReachesExactly(u, es, s, pending, left);
    InitGood(u.capacities);
    ClaimsBoundRun(Init(u.capacities), es);
  }

  lemma Stopped(u: Setup, es: seq<Event>, s: State, left: nat)
    requires Reaches(u, es, s, [], left) && s.pc.Halted?
    ensures s == Run(Init(u.capacities), es) && Taken(es) == u.signals
    ensures SafeHalt(s) && NoLostWakeup(s) && InOrder(s)
    ensures forall t :: t in s.tasks ==>
      && s.tasks[t].device < |s.devices|
      && s.devices[s.tasks[t].device].consumed == s.devices[s.tasks[t].device].accepted
  {
    ReachesExactly(u, es, s, [], left);
    assert Taken(es) + [] == Taken(es);
    EveryInterleaving(u.capacities, es);
    ReachedGood(u, es, s, [], left);
    HaltedDelivered(s);
  }

  /** Where `poll_next` goes on after a pop. */
  function AfterPop(p: Pc, t: TaskId, found: bool): Pc {
    if p.FirstPop? then (if found then Resumed(t) else Registering(t))
    else (if found then Taking(t) else Loop)
  }

  lemma PopTicked(u: Setup, es: seq<Event>, s: State, pending: seq<Signal>, left: nat, t: TaskId) returns (now: nat)
    requires Reaches(u, es, s, pending, left) && (s.pc == FirstPop(t) || s.pc == SecondPop(t))
    ensures t in s.tasks && s.tasks[t].device < |s.devices| && now < left
    ensures
      var v := s.devices[s.tasks[t].device];
      var found := v.items != [];
      Reaches(u, es + [Tick(false)],
              Move(s, t, if found then Pop(v) else v, AfterPop(s.pc, t, found), s.pc.SecondPop? && found),
              pending, now)
  {
    Polled(u, es, s, pending, left, t);
    now := Ticked(u, es, s, pending, left, false);
  }

  lemma WakerTicked(u: Setup, es: seq<Event>, s: State, pending: seq<Signal>, left: nat, t: TaskId) returns (now: nat)
    requires Reaches(u, es, s, pending, left) && (s.pc == Registering(t) || s.pc == Taking(t))
    ensures t in s.tasks && s.tasks[t].device < |s.devices| && t in s.cache && s.cache[t] == t && now < left
    ensures
      var v := s.devices[s.tasks[t].device];
      Reaches(u, es + [Tick(false)],
              Move(s, t, v.(waker := if s.pc.Taking? then None else Some(t)),
                   if s.pc.Taking? then Resumed(t) else SecondPop(t), false),
              pending, now)
  {
    Polled(u, es, s, pending, left, t);
    now := Ticked(u, es, s, pending, left, false);
  }

  lemma ReadyTicked(u: Setup, es: seq<Event>, s: State, pending: seq<Signal>, left: nat) returns (now: nat)
    requires Reaches(u, es, s, pending, left) && s.pc.Loop?
    ensures Reaches(u, es + [Tick(false)], LoopStep(s), pending, now) && now < left
    ensures forall t :: t in s.tasks ==> s.tasks[t].device < |s.devices|
  {
    ReachedGood(u, es, s, pending, left);
    now := Ticked(u, es, s, pending, left, false);
  }

  lemma RemoveTicked(u: Setup, es: seq<Event>, s: State, pending: seq<Signal>, left: nat, t: TaskId) returns (now: nat)
    requires Reaches(u, es, s, pending, left) && s.pc == Resumed(t)
    ensures Reaches(u, es + [Tick(true)], Finish(s, t), pending, now) && now < left
  {
    Polled(u, es, s, pending, left, t);
    now := Ticked(u, es, s, pending, left, true);
  }

  lemma OpenTicked(u: Setup, es: seq<Event>, s: State, pending: seq<Signal>, left: nat, t: TaskId) returns (now: nat)
    requires Reaches(u, es, s, pending, left) && s.pc == Opening(t)
    ensures t in s.tasks && s.tasks[t].device < |s.devices| && now < left
    ensures
      var d := s.tasks[t].device;
      Reaches(u, es + [Tick(false)],
              s.(devices := s.devices[d := s.devices[d].(present := true)], pc := FirstPop(t),
                 tasks := s.tasks[t := Task(d, true)]),
              pending, now)
  {
    Polled(u, es, s, pending, left, t);
    now := Ticked(u, es, s, pending, left, false);
  }

  function ToSeq(x: Option<int>): seq<int> {
    if x.None? then [] else [x.value]
  }

  class Kernel {
    var nextId: nat
    var tasks: map<TaskId, Task>
    var ready: seq<TaskId>
    var cache: map<TaskId, TaskId>
    var devices: seq<Device>
    var interrupts: bool
    var pending: seq<Signal>      // the interrupts still to come, in order
    ghost const setup: Setup
    ghost var pc: Pc
    ghost var hits: map<TaskId, nat>
    ghost var trace: seq<Event>
    ghost var left: nat

    ghost function View(): State
      reads this
    {
      State(nextId, tasks, ready, cache, devices, pc, interrupts, hits)
    }

    /** The fields are the state after the logged events, and every interrupt was taken in order or is to come. */
    ghost predicate Valid()
      reads this
    {
      Reaches(setup, trace, View(), pending, left)
    }

    /** Fewer interrupts are to come, or as many and less mainline work is left. */
    ghost predicate Progress(interrupts: nat, work: nat)
      reads this`pending, this`left
    {
      |pending| < interrupts || (|pending| == interrupts && left < work)
    }

    /** What was read from device `d` so far. */
    ghost function Got(d: nat): seq<int>
      reads this`devices
    {
      if d < |devices| then devices[d].consumed else []
    }

    ghost predicate Live(t: TaskId)
      reads this`tasks, this`devices
    {
      t in tasks && tasks[t].device < |devices|
    }

    constructor (capacities: seq<nat>, signals: seq<Signal>)
      ensures Valid() && View() == Init(capacities)
      ensures setup == Setup(capacities, signals) && pending == signals
    {
      setup := Setup(capacities, signals);
      nextId, tasks, ready, cache := 0, map[], [], map[];
      devices := seq(|capacities|,
        i requires 0 <= i < |capacities| => Device(false, capacities[i], [], None, [], []));
      interrupts, pending := true, signals;
      pc, hits, trace, left := Boot, map[], [], Work(Init(capacities));
      new;
      ReachesExactly(setup, [], View(), pending, left);
    }

    /** A driver's `start` initialises its queue. */
    method AttachDriver(d: nat)
      requires Valid() && pc.Boot?
      modifies this`devices, this`trace, this`left
      ensures Valid() && old(trace) <= trace
      ensures d < |devices| ==> devices[d].present
    {
      left := Attached(setup, trace, View(), pending, left, d);
      trace := trace + [Attach(d)];
      if d < |devices| {
        devices := devices[d := devices[d].(present := true)];
      }
    }

    /** `spawn`, unless the device has a reader: the id is new, so only a full queue can panic. */
    method SpawnTask(d: nat) returns (r: Outcome<()>)
      requires Valid() && pc.Boot?
      modifies this`nextId, this`tasks, this`ready, this`pc, this`hits, this`trace, this`left
      ensures Valid() && old(trace) <= trace
      ensures r.Pass? ==> pc.Boot? && (d < |setup.capacities| ==> ReadBy(tasks, d))
      ensures forall t :: t in old(tasks) ==> t in tasks && tasks[t] == old(tasks[t])
      ensures r.Panic? ==> pc.Panicked? && old(|ready|) >= READY_CAPACITY
    {
      left := SpawnLogged(setup, trace, View(), pending, left, d);
      trace := trace + [Spawn(d)];
      if d >= |devices| || ReadBy(tasks, d) {
        return Pass(());
      }
      ghost var id := nextId;
      r := AddTask(d);
      assert id in tasks && tasks[id].device == d;
    }

    /** Insert a task under the next id and queue the id. */
    method AddTask(d: nat) returns (r: Outcome<()>)
      requires nextId !in tasks && pc.Boot?
      modifies this`nextId, this`tasks, this`ready, this`pc, this`hits
      ensures View() == PushReady(NewTask(old(View()), d), old(nextId))
      ensures if r.Panic? then pc.Panicked? && |ready| >= READY_CAPACITY && ready == old(ready) else pc.Boot?
      ensures tasks == old(tasks)[old(nextId) := Task(d, false)]
    {
      var id := nextId;
      nextId := nextId + 1;
      tasks := tasks[id := Task(d, false)];
      hits := hits[id := 0];
      if |ready| >= READY_CAPACITY {
        pc := Panicked;
        return Panic;
      }
      ready := ready + [id];
      return Pass(());
    }

    /** The next interrupt: push the item, then wake; on a full ready queue the wake panics. */
    method IrqHandler(ghost d: nat) returns (r: Outcome<()>)
      requires Valid() && !pc.Panicked? && interrupts && pending != []
      modifies this`devices, this`ready, this`pending, this`pc, this`trace, this`left
      ensures Valid() && (r.Panic? <==> pc.Panicked?)
      ensures old(trace) < trace && pending == old(pending)[1..]
      ensures r.Pass? ==> pc == if old(pc.Halted?) then Loop else old(pc)
      ensures Got(d) == old(Got(d))
    {
      var next := pending[0];
      left := Interrupted(setup, trace, View(), pending, left);
      pending := pending[1..];
      trace := trace + [Irq(next.device, next.item)];
      if pc.Halted? {
        pc := Loop;
      }
      if Heard(devices, next) {
        r := PushAndWake(next.device, next.item.value, d);
      } else {
        r := Pass(());
      }
    }

    /** The handler's `queue.push(item)`, which drops the item if full, and `WAKER.wake()`. */
    method PushAndWake(k: nat, x: int, ghost d: nat) returns (r: Outcome<()>)
      requires k < |devices| && !pc.Panicked?
      modifies this`devices, this`ready, this`pc
      ensures View() == Land(old(View()), k, x) && (r.Panic? <==> pc.Panicked?)
      ensures Got(d) == old(Got(d))
    {
      var v := devices[k];
      devices := devices[k := Offer(v, x).(waker := None)];
      if v.waker.Some? {
        if |ready| >= READY_CAPACITY {
          pc := Panicked;
          return Panic;
        }
        ready := ready + [v.waker.value];
      }
      return Pass(());
    }

    /** A point between two accesses to shared state: any number of interrupts may arrive. */
    method Interrupts(ghost d: nat) returns (r: Outcome<()>)
      requires Valid() && !pc.Panicked? && !pc.Halted? && interrupts
      modifies this`devices, this`ready, this`pending, this`pc, this`trace, this`left
      ensures Valid() && (r.Panic? <==> pc.Panicked?)
      ensures old(trace) <= trace && |pending| <= old(|pending|)
      ensures r.Pass? ==> pc == old(pc)
      ensures |pending| == old(|pending|) ==> left == old(left)
      ensures Got(d) == old(Got(d))
    {
      var more: bool := *;
      while more && pending != []
        invariant Valid() && pc == old(pc)
        invariant old(trace) <= trace && |pending| <= old(|pending|)
        invariant |pending| == old(|pending|) ==> left == old(left)
        invariant Got(d) == old(Got(d))
        decreases |pending|
      {
        var _ :- IrqHandler(d);
        more := *;
      }
      return Pass(());
    }

    /** The boot code: drivers attach, then a consumer is spawned for each stream, with interrupts on. */
    method BootUp(drivers: seq<nat>, readers: seq<nat>) returns (r: Outcome<()>)
      requires Valid() && pc.Boot? && interrupts
      modifies this`nextId, this`tasks, this`devices, this`ready, this`pending, this`pc, this`hits, this`trace, this`left
      ensures Valid() && old(trace) <= trace
      ensures r.Panic? ==> pc.Panicked?
      ensures r.Pass? ==> pc.Boot? && forall d :: d in readers && d < |setup.capacities| ==> ReadBy(tasks, d)
    {
      for i := 0 to |drivers|
        invariant Valid() && pc.Boot? && old(trace) <= trace
      {
        var _ :- Interrupts(0);
        AttachDriver(drivers[i]);
      }
      r := SpawnAll(readers);
    }

    method SpawnAll(readers: seq<nat>) returns (r: Outcome<()>)
      requires Valid() && pc.Boot? && interrupts
      modifies this`nextId, this`tasks, this`devices, this`ready, this`pending, this`pc, this`hits, this`trace, this`left
      ensures Valid() && old(trace) <= trace
      ensures r.Panic? ==> pc.Panicked?
      ensures r.Pass? ==> pc.Boot? && forall d :: d in readers && d < |setup.capacities| ==> ReadBy(tasks, d)
    {
      for i := 0 to |readers|
        invariant Valid() && pc.Boot? && old(trace) <= trace
        invariant forall k :: 0 <= k < i && readers[k] < |setup.capacities| ==> ReadBy(tasks, readers[k])
      {
        var _ :- Interrupts(0);
        ghost var before := tasks;
        var _ :- SpawnTask(readers[i]);
        forall k | 0 <= k < i && readers[k] < |setup.capacities| ensures ReadBy(tasks, readers[k]) {
          assert ReadBy(before, readers[k]);
        }
      }
      return Pass(());
    }

    /** `queue.pop()` inside `poll_next`: the oldest item, or nothing exactly if the queue is empty. */
    method PopNow(t: TaskId) returns (x: Option<int>)
      requires Valid() && (pc == FirstPop(t) || pc == SecondPop(t)) && Live(t)
      modifies this`devices, this`pc, this`hits, this`trace, this`left
      ensures Valid() && old(trace) <= trace && left < old(left) && Live(t)
      ensures x.None? <==> old(InputEmpty(View(), t))
      ensures Got(tasks[t].device) == old(Got(tasks[t].device)) + ToSeq(x)
      ensures pc == AfterPop(old(pc), t, x.Some?)
    {
      left := PopTicked(setup, trace, View(), pending, left, t);
      trace := trace + [Tick(false)];
      var d := tasks[t].device;
      var v := devices[d];
      if v.items == [] {
        assert devices[d := v] == devices;
        pc := AfterPop(pc, t, false);
        return None;
      }
      devices := devices[d := Pop(v)];
      hits := if pc.SecondPop? then hits[t := Hits(View(), t) + 1] else hits;
      pc := AfterPop(pc, t, true);
      return Some(v.items[0]);
    }

    /** The same pop, preceded by whatever interrupts arrive. */
    method PopInput(t: TaskId) returns (r: Outcome<Option<int>>)
      requires Valid() && interrupts && (pc == FirstPop(t) || pc == SecondPop(t)) && Live(t)
      modifies this`devices, this`ready, this`pending, this`pc, this`hits, this`trace, this`left
      ensures Valid() && (r.Panic? <==> pc.Panicked?) && old(trace) <= trace
      ensures r.Pass? ==> Progress(old(|pending|), old(left)) && Live(t)
      ensures r.Pass? ==> Got(tasks[t].device) == old(Got(tasks[t].device)) + ToSeq(r.value)
      ensures r.Pass? ==> pc == AfterPop(old(pc), t, r.value.Some?)
    {
      var _ :- Interrupts(tasks[t].device);
      Polled(setup, trace, View(), pending, left, t);
      var x := PopNow(t);
      return Pass(x);
    }

    /** `WAKER.register(cx.waker())`. */
    method Register(t: TaskId) returns (r: Outcome<()>)
      requires Valid() && interrupts && pc == Registering(t) && Live(t)
      modifies this`devices, this`ready, this`pending, this`pc, this`trace, this`left
      ensures Valid() && (r.Panic? <==> pc.Panicked?) && old(trace) <= trace
      ensures r.Pass? ==> Progress(old(|pending|), old(left)) && Live(t)
      ensures r.Pass? ==> pc == SecondPop(t) && Got(tasks[t].device) == old(Got(tasks[t].device))
      ensures r.Pass? ==> devices[tasks[t].device].waker == Some(t)
    {
      var _ :- Interrupts(tasks[t].device);
      left := WakerTicked(setup, trace, View(), pending, left, t);
      trace := trace + [Tick(false)];
      var d := tasks[t].device;
      devices := devices[d := devices[d].(waker := Some(cache[t]))];
      pc := SecondPop(t);
      return Pass(());
    }

    /** `WAKER.take()`. */
    method TakeWaker(t: TaskId) returns (r: Outcome<()>)
      requires Valid() && interrupts && pc == Taking(t) && Live(t)
      modifies this`devices, this`ready, this`pending, this`pc, this`trace, this`left
      ensures Valid() && (r.Panic? <==> pc.Panicked?) && old(trace) <= trace
      ensures r.Pass? ==> Progress(old(|pending|), old(left)) && Live(t)
      ensures r.Pass? ==> pc == Resumed(t) && Got(tasks[t].device) == old(Got(tasks[t].device))
      ensures r.Pass? ==> devices[tasks[t].device].waker == None
    {
      var _ :- Interrupts(tasks[t].device);
      left := WakerTicked(setup, trace, View(), pending, left, t);
      trace := trace + [Tick(false)];
      var d := tasks[t].device;
      devices := devices[d := devices[d].(waker := None)];
      pc := Resumed(t);
      return Pass(());
    }

    /**
     `poll_next`: pop; if empty, register and pop again; if that found something, take the waker back.
     Whatever interrupts do meanwhile, exactly the returned item is taken from the stream.
     */
    method PollNext(t: TaskId) returns (r: Outcome<Option<int>>)
      requires Valid() && interrupts && pc == FirstPop(t) && Live(t)
      modifies this`devices, this`ready, this`pending, this`pc, this`hits, this`trace, this`left
      ensures Valid() && (r.Panic? <==> pc.Panicked?) && old(trace) <= trace
      ensures r.Pass? ==> Progress(old(|pending|), old(left)) && Live(t)
      ensures r.Pass? ==> pc == if r.value.Some? then Resumed(t) else Loop
      ensures r.Pass? ==> Got(tasks[t].device) == old(Got(tasks[t].device)) + ToSeq(r.value)
    {
      var x :- PopInput(t);
      if x.Some? {
        return Pass(x);
      }
      r := Retry(t);
    }

    /** `poll_next` once the first pop found nothing. */
    method Retry(t: TaskId) returns (r: Outcome<Option<int>>)
      requires Valid() && interrupts && pc == Registering(t) && Live(t)
      modifies this`devices, this`ready, this`pending, this`pc, this`hits, this`trace, this`left
      ensures Valid() && (r.Panic? <==> pc.Panicked?) && old(trace) <= trace
      ensures r.Pass? ==> Progress(old(|pending|), old(left)) && Live(t)
      ensures r.Pass? ==> pc == if r.value.Some? then Resumed(t) else Loop
      ensures r.Pass? ==> Got(tasks[t].device) == old(Got(tasks[t].device)) + ToSeq(r.value)
    {
      var _ :- Register(t);
      var x :- PopInput(t);
      if x.Some? {
        var _ :- TakeWaker(t);
      }
      return Pass(x);
    }

    /** The first poll creates the stream, which initialises the queue if no driver did. */
    method OpenStream(t: TaskId) returns (r: Outcome<()>)
      requires Valid() && interrupts && pc == Opening(t) && Live(t)
      modifies this`tasks, this`devices, this`ready, this`pending, this`pc, this`trace, this`left
      ensures Valid() && (r.Panic? <==> pc.Panicked?) && old(trace) <= trace
      ensures r.Pass? ==> Progress(old(|pending|), old(left)) && Live(t) && tasks[t].device == old(tasks[t].device)
      ensures r.Pass? ==> pc == FirstPop(t) && Got(tasks[t].device) == old(Got(tasks[t].device))
    {
      var _ :- Interrupts(tasks[t].device);
      left := OpenTicked(setup, trace, View(), pending, left, t);
      trace := trace + [Tick(false)];
      var d := tasks[t].device;
      devices := devices[d := devices[d].(present := true)];
      tasks := tasks[t := Task(d, true)];
      pc := FirstPop(t);
      return Pass(());
    }

    /** The consumer handled an item and asks for the next. */
    method Continue(t: TaskId) returns (r: Outcome<()>)
      requires Valid() && interrupts && pc == Resumed(t) && Live(t)
      modifies this`devices, this`ready, this`pending, this`pc, this`trace, this`left
      ensures Valid() && (r.Panic? <==> pc.Panicked?) && old(trace) <= trace
      ensures r.Pass? ==> Progress(old(|pending|), old(left)) && Live(t)
      ensures r.Pass? ==> pc == FirstPop(t) && Got(tasks[t].device) == old(Got(tasks[t].device))
    {
      var _ :- Interrupts(tasks[t].device);
      Polled(setup, trace, View(), pending, left, t);
      left := Ticked(setup, trace, View(), pending, left, false);
      trace := trace + [Tick(false)];
      assert devices[tasks[t].device := devices[tasks[t].device]] == devices;
      pc := FirstPop(t);
      return Pass(());
    }

    /**
     `Task::poll`: the consumer's loop over its stream, until it has to wait (`false`) or
     completes (`true`).  It handles exactly the items taken from the queues, in order.
     */
    method PollTask(t: TaskId) returns (r: Outcome<bool>, items: seq<int>)
      requires Valid() && interrupts && Live(t)
      requires pc == if tasks[t].started then FirstPop(t) else Opening(t)
      modifies this`tasks, this`devices, this`ready, this`pending, this`pc, this`hits, this`trace, this`left
      ensures Valid() && (r.Panic? <==> pc.Panicked?) && old(trace) <= trace
      ensures r.Pass? ==> Progress(old(|pending|), old(left)) && Live(t) && tasks[t].device == old(tasks[t].device)
      ensures r.Pass? ==> pc == if r.value then Resumed(t) else Loop
      ensures r.Pass? ==> Got(tasks[t].device) == old(Got(tasks[t].device)) + items
    {
      if !tasks[t].started {
        items := [];
        var _ :- OpenStream(t);
      }
      r, items := Consume(t);
    }

    /** The consumer's `while let Some(x) = stream.next().await`, up to its next wait or its end. */
    method Consume(t: TaskId) returns (r: Outcome<bool>, items: seq<int>)
      requires Valid() && interrupts && Live(t) && pc == FirstPop(t)
      modifies this`devices, this`ready, this`pending, this`pc, this`hits, this`trace, this`left
      ensures Valid() && (r.Panic? <==> pc.Panicked?) && old(trace) <= trace
      ensures r.Pass? ==> Progress(old(|pending|), old(left)) && Live(t)
      ensures r.Pass? ==> pc == if r.value then Resumed(t) else Loop
      ensures r.Pass? ==> Got(tasks[t].device) == old(Got(tasks[t].device)) + items
    {
      items := [];
      while true
        invariant Valid() && pc == FirstPop(t) && old(trace) <= trace
        invariant Live(t) && Got(tasks[t].device) == old(Got(tasks[t].device)) + items
        invariant Progress(old(|pending|), old(left) + 1)
        decreases |pending|, left
      {
        var x :- PollNext(t);
        if x.None? {
          return Pass(false), items;
        }
        items := items + [x.value];
        var finish: bool := *;
        if finish {
          return Pass(true), items;
        }
        var _ :- Continue(t);
      }
    }

    /** `task_queue.pop()`, and a cached waker for the popped id if it is still live. */
    method PopReady() returns (r: Outcome<Option<TaskId>>)
      requires Valid() && interrupts && pc.Loop?
      modifies this`devices, this`ready, this`cache, this`pending, this`pc, this`trace, this`left
      ensures Valid() && (r.Panic? <==> pc.Panicked?) && old(trace) <= trace
      ensures r.Pass? ==> Progress(old(|pending|), old(left))
      ensures r.Pass? && r.value.None? ==> pc == Disabling && ready == []
      ensures r.Pass? && r.value.Some? ==>
        var t := r.value.value;
        if t in tasks then Live(t) && t in cache && pc == if tasks[t].started then FirstPop(t) else Opening(t)
        else pc == Loop
    {
      var _ :- Interrupts(0);
      var next := PopReadyNow();
      return Pass(next);
    }

    method PopReadyNow() returns (next: Option<TaskId>)
      requires Valid() && pc.Loop?
      modifies this`ready, this`cache, this`pc, this`trace, this`left
      ensures Valid() && old(trace) <= trace && left < old(left) && !pc.Panicked?
      ensures next.None? ==> pc == Disabling && ready == []
      ensures next.Some? ==>
        var t := next.value;
        if t in tasks then Live(t) && t in cache && pc == if tasks[t].started then FirstPop(t) else Opening(t)
        else pc == Loop
    {
      left := ReadyTicked(setup, trace, View(), pending, left);
      trace := trace + [Tick(false)];
      if ready == [] {
        pc := Disabling;
        return None;
      }
      var t := ready[0];
      ready := ready[1..];
      if t in tasks {
        if t !in cache {
          cache := cache[t := t];
        }
        pc := if tasks[t].started then FirstPop(t) else Opening(t);
      }
      return Some(t);
    }

    /** A completed task goes, and its cached waker with it. */
    method Remove(t: TaskId)
      requires Valid() && pc == Resumed(t)
      modifies this`tasks, this`cache, this`pc, this`trace, this`left
      ensures Valid() && old(trace) <= trace && left < old(left)
      ensures pc == Loop && t !in tasks && t !in cache
    {
      left := RemoveTicked(setup, trace, View(), pending, left, t);
      trace := trace + [Tick(true)];
      tasks := tasks - {t};
      cache := cache - {t};
      pc := Loop;
    }

    /** `run_ready_tasks`, for one live task: poll it, and remove it if it completed. */
    method ServeTask(t: TaskId) returns (r: Outcome<()>)
      requires Valid() && interrupts && Live(t)
      requires pc == if tasks[t].started then FirstPop(t) else Opening(t)
      modifies this`tasks, this`cache, this`devices, this`ready, this`pending, this`pc, this`hits, this`trace, this`left
      ensures Valid() && (r.Panic? <==> pc.Panicked?) && old(trace) <= trace
      ensures r.Pass? ==> pc == Loop && Progress(old(|pending|), old(left))
    {
      var done, _ :- PollTask(t);
      if done {
        var _ :- Interrupts(0);
        Remove(t);
      }
      return Pass(());
    }

    /** `run_ready_tasks`: returns only when every live task is parked on an empty queue. */
    method RunReadyTasks() returns (r: Outcome<()>)
      requires Valid() && interrupts && pc.Loop?
      modifies this`tasks, this`cache, this`devices, this`ready, this`pending, this`pc, this`hits, this`trace, this`left
      ensures Valid() && (r.Panic? <==> pc.Panicked?) && old(trace) <= trace
      ensures r.Pass? ==> pc == Disabling && Progress(old(|pending|), old(left))
      ensures r.Pass? ==> ready == [] && forall t :: t in tasks ==> Registered(View(), t) && InputEmpty(View(), t)
    {
      while true
        invariant Valid() && pc.Loop? && old(trace) <= trace
        invariant Progress(old(|pending|), old(left) + 1)
        decreases |pending|, left
      {
        var next :- PopReady();
        if next.None? {
          Drained(setup, trace, View(), pending, left);
          return Pass(());
        }
        if next.value in tasks {
          var _ :- ServeTask(next.value);
        }
      }
    }

    /** `interrupts::disable()`. */
    method Disable() returns (r: Outcome<()>)
      requires Valid() && interrupts && pc.Disabling?
      modifies this`devices, this`ready, this`interrupts, this`pending, this`pc, this`trace, this`left
      ensures Valid() && (r.Panic? <==> pc.Panicked?) && old(trace) <= trace
      ensures r.Pass? ==> Progress(old(|pending|), old(left)) && pc == Checking && !interrupts
    {
      var _ :- Interrupts(0);
      left := Ticked(setup, trace, View(), pending, left, false);
      trace := trace + [Tick(false)];
      interrupts := false;
      pc := Checking;
      return Pass(());
    }

    /** `task_queue.is_empty()`. */
    method QueueEmpty() returns (empty: bool)
      requires Valid() && pc.Checking?
      modifies this`pc, this`trace, this`left
      ensures Valid() && old(trace) <= trace && left < old(left)
      ensures empty <==> ready == []
      ensures pc == if empty then Parking else Enabling
    {
      left := Ticked(setup, trace, View(), pending, left, false);
      trace := trace + [Tick(false)];
      empty := ready == [];
      pc := if empty then Parking else Enabling;
    }

    /** `interrupts::enable()`, alone or with `hlt`. */
    method Enable()
      requires Valid() && (pc.Parking? || pc.Enabling?)
      modifies this`interrupts, this`pc, this`trace, this`left
      ensures Valid() && old(trace) <= trace && left < old(left)
      ensures interrupts && pc == if old(pc.Parking?) then Halted else Loop
    {
      left := Ticked(setup, trace, View(), pending, left, false);
      trace := trace + [Tick(false)];
      interrupts := true;
      pc := if pc.Parking? then Halted else Loop;
    }

    /**
     `sleep_if_idle`: with interrupts off, halts only if there is nothing to run; the next
     interrupt ends the halt, and without one the CPU stays there (`false`).
     */
    method SleepIfIdle() returns (r: Outcome<bool>)
      requires Valid() && interrupts && pc.Disabling?
      modifies this`devices, this`ready, this`interrupts, this`pending, this`pc, this`trace, this`left
      ensures Valid() && (r.Panic? <==> pc.Panicked?) && old(trace) <= trace
      ensures r.Pass? ==> interrupts
      ensures r.Pass? ==>
        if r.value then pc == Loop && Progress(old(|pending|), old(left)) else pc == Halted && pending == []
    {
      var _ :- Disable();
      var empty := QueueEmpty();
      Enable();
      if empty {
        if pending == [] {
          return Pass(false);
        }
        var _ :- IrqHandler(0);
      }
      return Pass(true);
    }

    /** The body of `run`. */
    method RunLoop() returns (r: Outcome<()>)
      requires Valid() && pc.Boot?
      modifies this`tasks, this`cache, this`devices, this`ready, this`interrupts, this`pending
      modifies this`pc, this`hits, this`trace, this`left
      ensures Valid() && old(trace) <= trace
      ensures if r.Panic? then pc.Panicked? else pc.Halted? && pending == []
    {
      left := Entered(setup, trace, View(), pending, left);
      trace := trace + [Start];
      pc := Loop;
      while true
        invariant Valid() && interrupts && pc.Loop? && old(trace) <= trace
        decreases |pending|, left
      {
        var _ :- RunReadyTasks();
        var woken :- SleepIfIdle();
        if !woken {
          return Pass(());
        }
      }
    }

    /**
     `run`: the loop ends only by a panic, which needs more than 100 claims on the ready
     queue, or in a halt that no interrupt will end.  By then every interrupt was taken,
     nothing is left to run or to read, and every live task got all that its device accepted.
     */
    method Execute() returns (r: Outcome<()>)
      requires Valid() && pc.Boot?
      modifies this`tasks, this`cache, this`devices, this`ready, this`interrupts, this`pending
      modifies this`pc, this`hits, this`trace, this`left
      ensures old(trace) <= trace && View() == Run(Init(setup.capacities), trace)
      ensures r.Panic? ==> pc.Panicked? && Committed(View()) > 100
      ensures r.Pass? ==>
        && pc.Halted? && Taken(trace) == setup.signals
        && SafeHalt(View()) && NoLostWakeup(View()) && InOrder(View())
        && forall t :: t in tasks ==>
             && tasks[t].device < |devices|
             && devices[tasks[t].device].consumed == devices[tasks[t].device].accepted
    {
      r := RunLoop();
      if r.Panic? {
        Overflowed(setup, trace, View(), pending, left);
      } else {
        Stopped(setup, trace, View(), left);
      }
    }
  }
}
