/**
 The cooperative executor of `src/arch/task.rs` together with the interrupt-fed
 streams of `ps2kbd.rs` and `ps2mouse.rs`, as one step system.

 Mainline code advances in small atomic steps (one queue or waker operation each);
 an interrupt handler is a single atomic step that can fire whenever the interrupt
 flag is set; `enable_and_hlt` is one atomic step.  An event says what happens next,
 so the lists of events are exactly the interleavings.
 */
module ExecutorModel {
  import opened Common

  type TaskId = nat

  /** `ArrayQueue::new(100)`: the capacity of the ready queue. */
  const READY_CAPACITY: nat := 100

  /**
   A device: its input queue (absent until `try_init_once` ran), the queue's capacity,
   its `AtomicWaker`, and two histories: what the queue accepted and what was popped.
   */
  datatype Device = Device(
    present: bool,
    capacity: nat,
    items: seq<int>,
    waker: Option<TaskId>,
    accepted: seq<int>,
    consumed: seq<int>)

  /** A live task: the device whose stream it reads, and whether that stream was created. */
  datatype Task = Task(device: nat, started: bool)

  /** The point mainline code has reached. */
  datatype Pc =
    | Boot                        // before `Executor::run`
    | Loop                        // about to pop the ready queue
    | Opening(task: TaskId)       // first poll: about to create the stream
    | FirstPop(task: TaskId)      // `poll_next`: about to pop
    | Registering(task: TaskId)   // about to register the waker
    | SecondPop(task: TaskId)     // about to pop again
    | Taking(task: TaskId)        // second pop found data: about to take the waker back
    | Resumed(task: TaskId)       // `poll_next` returned an item to its caller
    | Disabling                   // ready queue was seen empty: about to disable interrupts
    | Checking                    // interrupts off: about to test the ready queue
    | Parking                     // about to run `enable_and_hlt`
    | Enabling                    // queue was not empty: about to enable interrupts
    | Halted                      // stopped in `hlt`
    | Panicked                    // an `expect` or `panic!` was hit
  {
    predicate Polls(t: TaskId) {
      match this
      case Opening(u) => u == t
      case FirstPop(u) => u == t
      case Registering(u) => u == t
      case SecondPop(u) => u == t
      case Taking(u) => u == t
      case Resumed(u) => u == t
      case _ => false
    }
  }

  datatype State = State(
    nextId: nat,                  // `NEXT_ID`
    tasks: map<TaskId, Task>,
    ready: seq<TaskId>,           // `task_queue`
    cache: map<TaskId, TaskId>,   // `waker_cache`: the id each cached waker pushes
    devices: seq<Device>,
    pc: Pc,
    interrupts: bool,
    hits: map<TaskId, nat>)       // history: second pops that found data, per task

  datatype Event =
    | Attach(device: nat)         // a driver's `start` initialises its queue
    | Spawn(device: nat)
    | Start
    | Tick(finish: bool)          // one mainline step; `finish`: the polled future completes
    | Irq(source: nat, item: Option<int>)
    | Timer

  // ---------------------------------------------------------------- transitions

  function Init(capacities: seq<nat>): State {
    State(0, map[], [],  map[],
          seq(|capacities|, i requires 0 <= i < |capacities| => Device(false, capacities[i], [], None, [], [])),
          Boot, true, map[])
  }

  /** `task_queue.push(id).expect(..)`. */
  function PushReady(s: State, t: TaskId): State {
    if |s.ready| < READY_CAPACITY then s.(ready := s.ready + [t]) else s.(pc := Panicked)
  }

  /** A driver attached at boot: `init_queue_if_needed`. */
  function AttachStep(s: State, d: nat): State {
    if !s.pc.Boot? || d >= |s.devices| then s
    else s.(devices := s.devices[d := s.devices[d].(present := true)])
  }

  /** `Executor::spawn(Task::new(..))`; a second consumer for a device is not spawned. */
  function SpawnStep(s: State, d: nat): State {
    if !s.pc.Boot? || d >= |s.devices| || exists t :: t in s.tasks && s.tasks[t].device == d then s
    else if s.nextId in s.tasks then s.(pc := Panicked)
    else
      var id := s.nextId;
      PushReady(s.(nextId := id + 1, tasks := s.tasks[id := Task(d, false)], hits := s.hits[id := 0]), id)
  }

  /** The handler's `queue.push(item)` (a full queue drops the item). */
  function Offer(v: Device, x: int): Device {
    if |v.items| < v.capacity
    then v.(items := v.items + [x], accepted := v.accepted + [x])
    else v
  }

  /** The handler's body: push the item, then `WAKER.wake()`. */
  function Land(s: State, d: nat, x: int): State
    requires d < |s.devices|
  {
    var v := s.devices[d];
    if v.waker.None? then s.(devices := s.devices[d := Offer(v, x)])
    else PushReady(s.(devices := s.devices[d := Offer(v, x).(waker := None)]), v.waker.value)
  }

  /** After any interrupt handler, `hlt` returns and `run` loops. */
  function Resume(s: State): State {
    if s.pc.Halted? then s.(pc := Loop) else s
  }

  function IrqStep(s: State, d: nat, item: Option<int>): State {
    if !s.interrupts || s.pc.Panicked? then s
    else if d >= |s.devices| || item.None? || !s.devices[d].present then Resume(s)
    else Land(Resume(s), d, item.value)
  }

  function Pop(v: Device): Device
    requires v.items != []
  {
    v.(items := v.items[1..], consumed := v.consumed + [v.items[0]])
  }

  /** One step of `run_ready_tasks` outside a poll. */
  function LoopStep(s: State): State
  {
    if s.ready == [] then s.(pc := Disabling)
    else
      var t := s.ready[0];
      var r := s.(ready := s.ready[1..]);
      if t !in s.tasks then r
      else
        r.(cache := if t in s.cache then s.cache else s.cache[t := t],
           pc := if s.tasks[t].started then FirstPop(t) else Opening(t))
  }

  /** A poll step of task `t`: its device becomes `v`, control moves to `p`, and `hit` counts a second-pop hit. */
  function Move(s: State, t: TaskId, v: Device, p: Pc, hit: bool): State
    requires t in s.tasks && s.tasks[t].device < |s.devices|
  {
    s.(devices := s.devices[s.tasks[t].device := v],
       pc := p,
       hits := if hit then s.hits[t := Hits(s, t) + 1] else s.hits)
  }

  /** The polled future completes: `run_ready_tasks` drops it and its cached waker. */
  function Finish(s: State, t: TaskId): State {
    s.(tasks := s.tasks - {t}, cache := s.cache - {t}, pc := Loop)
  }

  /** One step of polling task `t`; `finish` is read only where the polled future runs its own code. */
  function PollStep(s: State, t: TaskId, finish: bool): State
  {
    if t !in s.tasks || s.tasks[t].device >= |s.devices| then s.(pc := Panicked)
    else
      var d := s.tasks[t].device;
      var v := s.devices[d];
      match s.pc
      case Opening(_) =>
        Move(s, t, v.(present := true), FirstPop(t), false).(tasks := s.tasks[t := Task(d, true)])
      case FirstPop(_) =>
        if !v.present then s.(pc := Panicked)
        else if v.items == [] then Move(s, t, v, Registering(t), false)
        else Move(s, t, Pop(v), Resumed(t), false)
      case Registering(_) =>
        if t !in s.cache then s.(pc := Panicked)
        else Move(s, t, v.(waker := Some(s.cache[t])), SecondPop(t), false)
      case SecondPop(_) =>
        if v.items == [] then Move(s, t, v, Loop, false)
        else Move(s, t, Pop(v), Taking(t), true)
      case Taking(_) =>
        Move(s, t, v.(waker := None), Resumed(t), false)
      case Resumed(_) =>
        if finish then Finish(s, t) else Move(s, t, v, FirstPop(t), false)
      case _ => s
  }

  /** One step of mainline code. */
  function TickStep(s: State, finish: bool): State {
    match s.pc
    case Loop => LoopStep(s)
    case Disabling => s.(interrupts := false, pc := Checking)
    case Checking => s.(pc := if s.ready == [] then Parking else Enabling)
    case Parking => s.(interrupts := true, pc := Halted)
    case Enabling => s.(interrupts := true, pc := Loop)
    case Boot => s
    case Halted => s
    case Panicked => s
    case Opening(t) => PollStep(s, t, finish)
    case FirstPop(t) => PollStep(s, t, finish)
    case Registering(t) => PollStep(s, t, finish)
    case SecondPop(t) => PollStep(s, t, finish)
    case Taking(t) => PollStep(s, t, finish)
    case Resumed(t) => PollStep(s, t, finish)
  }

  function Step(s: State, e: Event): State {
    match e
    case Attach(d) => AttachStep(s, d)
    case Spawn(d) => SpawnStep(s, d)
    case Start => if s.pc.Boot? then s.(pc := Loop) else s
    case Tick(finish) => TickStep(s, finish)
    case Irq(d, item) => IrqStep(s, d, item)
    case Timer => IrqStep(s, 0, None)
  }

  function Run(s: State, es: seq<Event>): State
    decreases |es|
  {
    if es == [] then s else Run(Step(s, es[0]), es[1..])
  }

  function Hits(s: State, t: TaskId): nat {
    if t in s.hits then s.hits[t] else 0
  }

  // ---------------------------------------------------------------- what every step keeps

  predicate Registered(s: State, t: TaskId) {
    t in s.tasks && s.tasks[t].device < |s.devices| && s.devices[s.tasks[t].device].waker == Some(t)
  }

  predicate InputEmpty(s: State, t: TaskId) {
    t in s.tasks && s.tasks[t].device < |s.devices| && s.devices[s.tasks[t].device].items == []
  }

  /** A live task that is not being polled is queued, or parked on an empty input with its waker in place. */
  ghost predicate NoLostWakeup(s: State) {
    forall t :: t in s.tasks && !s.pc.Polls(t) ==>
      t in s.ready || (Registered(s, t) && InputEmpty(s, t))
  }

  /** A halted CPU has nothing to run and nothing to read, and every live task is parked on its waker. */
  ghost predicate SafeHalt(s: State) {
    s.pc.Halted? ==>
      && s.interrupts
      && s.ready == []
      && forall t :: t in s.tasks ==> Registered(s, t) && InputEmpty(s, t)
  }

  ghost predicate Delivered(v: Device) {
    v.accepted == v.consumed + v.items && |v.items| <= v.capacity
  }

  /** Everything a queue accepted was popped in order or is still queued, in order. */
  ghost predicate InOrder(s: State) {
    forall d :: 0 <= d < |s.devices| ==> Delivered(s.devices[d])
  }

  /** The poll in progress still owns its turn: it has not exchanged it for a registration. */
  function Turn(s: State, t: TaskId): nat {
    if s.pc.Polls(t) && !s.pc.SecondPop? then 1 else 0
  }

  function Load(s: State, t: TaskId): nat {
    multiset(s.ready)[t] + (if Registered(s, t) then 1 else 0) + Turn(s, t)
  }

  ghost predicate Bounded(s: State) {
    forall t :: 0 <= t < s.nextId ==> Load(s, t) <= 1 + Hits(s, t)
  }

  ghost predicate Ids(s: State) {
    && (forall t :: t in s.tasks ==> t < s.nextId && s.tasks[t].device < |s.devices|)
    && (forall t :: t in s.ready ==> t < s.nextId)
    && (forall t :: t in s.hits ==> t < s.nextId)
    && (forall t :: t in s.cache ==> s.cache[t] == t)
    && (forall t, u :: t in s.tasks && u in s.tasks && s.tasks[t].device == s.tasks[u].device ==> t == u)
  }

  ghost predicate WakerOk(s: State, d: nat)
    requires d < |s.devices|
  {
    var v := s.devices[d];
    && (!v.present ==> v.items == [] && v.waker == None)
    && (v.waker.Some? ==>
          var t := v.waker.value;
          t in s.tasks && s.tasks[t].device == d && s.tasks[t].started
          && (v.items == [] || s.pc == SecondPop(t) || s.pc == Taking(t)))
  }

  ghost predicate Wakers(s: State) {
    && (forall d :: 0 <= d < |s.devices| ==> WakerOk(s, d))
    && (forall t :: t in s.tasks && s.tasks[t].started && s.tasks[t].device < |s.devices| ==>
          s.devices[s.tasks[t].device].present)
  }

  ghost predicate Control(s: State) {
    && (s.interrupts <==> !(s.pc.Checking? || s.pc.Parking? || s.pc.Enabling?))
    && (s.pc.Parking? || s.pc.Halted? ==> s.ready == [])
    && (forall t :: s.pc.Polls(t) ==> t in s.tasks && t in s.cache && (s.pc.Opening? || s.tasks[t].started))
    && (forall t :: s.pc == Resumed(t) ==> !Registered(s, t))
    && (forall t :: s.pc == SecondPop(t) ==> Registered(s, t) || t in s.ready)
  }

  ghost predicate Good(s: State) {
    && Ids(s)
    && Wakers(s)
    && Control(s)
    && NoLostWakeup(s)
    && InOrder(s)
    && Bounded(s)
  }

  // ---------------------------------------------------------------- spawning

  lemma SpawnLoad(s: State, d: nat, t: TaskId)
    requires Ids(s) && Wakers(s) && Control(s) && s.pc.Boot? && t < s.nextId
    requires s.nextId !in s.tasks && d < |s.devices|
    ensures Load(SpawnStep(s, d), t) <= Load(s, t)
    ensures Hits(SpawnStep(s, d), t) == Hits(s, t)
  {
  }

  lemma SpawnKeeps(s: State, d: nat)
    requires Good(s) && !SpawnStep(s, d).pc.Panicked?
    ensures Good(SpawnStep(s, d))
  {
    var r := SpawnStep(s, d);
    if r != s {
      var id := s.nextId;
      assert id !in s.ready && multiset(s.ready)[id] == 0;
      forall k | 0 <= k < |r.devices| ensures WakerOk(r, k) {
        assert WakerOk(s, k);
      }
      assert !Registered(r, id) by { assert WakerOk(s, d); }
      forall t | 0 <= t < r.nextId ensures Load(r, t) <= 1 + Hits(r, t) {
        if t != id {
          assert Load(s, t) <= 1 + Hits(s, t);
          SpawnLoad(s, d, t);
        }
      }
      assert NoLostWakeup(r);
    }
  }

  // ---------------------------------------------------------------- interrupts

  predicate Idle(p: Pc) {
    p.Boot? || p.Loop? || p.Disabling? || p.Checking? || p.Parking? || p.Enabling? || p.Halted?
  }

  /** Outside a poll the wakers depend on devices and tasks alone. */
  lemma IdleWakers(s: State, r: State)
    requires Wakers(s) && Idle(s.pc) && r.devices == s.devices && r.tasks == s.tasks
    ensures Wakers(r)
  {
    forall k | 0 <= k < |r.devices| ensures WakerOk(r, k) {
      assert WakerOk(s, k);
    }
  }

  lemma SleepControl(s: State, p: Pc, interrupts: bool)
    requires Ids(s) && Control(s) && NoLostWakeup(s) && Idle(s.pc) && Idle(p)
    requires interrupts <==> !(p.Checking? || p.Parking? || p.Enabling?)
    requires p.Parking? || p.Halted? ==> s.ready == []
    ensures
      var r := s.(pc := p, interrupts := interrupts);
      Ids(r) && Control(r) && NoLostWakeup(r)
  {
    var r := s.(pc := p, interrupts := interrupts);
    forall t | t in r.tasks && !r.pc.Polls(t)
      ensures t in r.ready || (Registered(r, t) && InputEmpty(r, t))
    {
      assert !s.pc.Polls(t);
    }
  }

  /** Moving control between points outside a poll, with the matching interrupt flag. */
  lemma SleepKeeps(s: State, p: Pc, interrupts: bool)
    requires Good(s) && Idle(s.pc) && Idle(p)
    requires interrupts <==> !(p.Checking? || p.Parking? || p.Enabling?)
    requires p.Parking? || p.Halted? ==> s.ready == []
    ensures Good(s.(pc := p, interrupts := interrupts))
  {
    var r := s.(pc := p, interrupts := interrupts);
    IdleWakers(s, r);
    SleepControl(s, p, interrupts);
    assert Bounded(r) by {
      forall u | 0 <= u < r.nextId ensures Load(r, u) <= 1 + Hits(r, u) {
        assert Load(s, u) <= 1 + Hits(s, u);
      }
    }
  }

  lemma LandRegistered(s: State, d: nat, x: int, t: TaskId)
    requires Ids(s) && d < |s.devices| && WakerOk(s, d)
    ensures Registered(Land(s, d, x), t) <==> Registered(s, t) && s.devices[d].waker != Some(t)
    ensures s.devices[d].waker == Some(t) ==> Registered(s, t)
  {
  }

  /** An interrupt moves at most one task, from its waker to the queue. */
  lemma LandLoad(s: State, d: nat, x: int, t: TaskId)
    requires Ids(s) && d < |s.devices| && WakerOk(s, d)
    requires !Land(s, d, x).pc.Panicked?
    ensures Load(Land(s, d, x), t) == Load(s, t)
  {
    LandRegistered(s, d, x, t);
  }

  lemma LandWakers(s: State, d: nat, x: int)
    requires Wakers(s) && d < |s.devices| && s.devices[d].present
    requires !Land(s, d, x).pc.Panicked?
    ensures Wakers(Land(s, d, x))
  {
    var r := Land(s, d, x);
    assert WakerOk(s, d);
    forall k | 0 <= k < |r.devices| ensures WakerOk(r, k) {
      assert WakerOk(s, k);
    }
  }

  lemma OfferDelivers(v: Device, x: int)
    requires Delivered(v)
    ensures Delivered(Offer(v, x))
  {
  }

  lemma LandInOrder(s: State, d: nat, x: int)
    requires InOrder(s) && d < |s.devices|
    ensures InOrder(Land(s, d, x))
  {
    var r := Land(s, d, x);
    OfferDelivers(s.devices[d], x);
    forall k | 0 <= k < |r.devices| ensures Delivered(r.devices[k]) {
      assert Delivered(s.devices[k]);
    }
  }

  lemma LandNoLost(s: State, d: nat, x: int)
    requires Ids(s) && NoLostWakeup(s) && d < |s.devices| && WakerOk(s, d)
    requires !Land(s, d, x).pc.Panicked?
    ensures NoLostWakeup(Land(s, d, x))
  {
    var r := Land(s, d, x);
    forall t | t in r.tasks && !r.pc.Polls(t)
      ensures t in r.ready || (Registered(r, t) && InputEmpty(r, t))
    {
      if t !in s.ready {
        assert Registered(s, t) && InputEmpty(s, t);
      }
    }
  }

  lemma LandControl(s: State, d: nat, x: int)
    requires Ids(s) && Control(s) && d < |s.devices| && WakerOk(s, d) && !s.pc.Parking? && !s.pc.Halted?
    requires !Land(s, d, x).pc.Panicked?
    ensures Control(Land(s, d, x))
  {
    var r := Land(s, d, x);
    assert r.pc == s.pc && r.interrupts == s.interrupts && r.tasks == s.tasks && r.cache == s.cache;
    if s.pc.SecondPop? || s.pc.Resumed? {
      LandRegistered(s, d, x, s.pc.task);
    }
  }

  lemma LandIds(s: State, d: nat, x: int)
    requires Ids(s) && d < |s.devices| && WakerOk(s, d)
    requires !Land(s, d, x).pc.Panicked?
    ensures Ids(Land(s, d, x))
  {
  }

  lemma LandKeeps(s: State, d: nat, x: int)
    requires Good(s) && d < |s.devices| && s.devices[d].present && !s.pc.Parking? && !s.pc.Halted?
    requires !Land(s, d, x).pc.Panicked?
    ensures Good(Land(s, d, x))
  {
    var r := Land(s, d, x);
    assert WakerOk(s, d);
    LandIds(s, d, x);
    LandControl(s, d, x);
    LandWakers(s, d, x);
    LandInOrder(s, d, x);
    LandNoLost(s, d, x);
    assert Bounded(r) by {
      forall t | 0 <= t < r.nextId ensures Load(r, t) <= 1 + Hits(r, t) {
        assert Load(s, t) <= 1 + Hits(s, t);
        LandLoad(s, d, x, t);
      }
    }
  }

  lemma IrqKeeps(s: State, d: nat, item: Option<int>)
    requires Good(s) && !IrqStep(s, d, item).pc.Panicked?
    ensures Good(IrqStep(s, d, item))
  {
    if s.interrupts && !s.pc.Panicked? {
      if s.pc.Halted? {
        SleepKeeps(s, Loop, true);
      }
      if d < |s.devices| && item.Some? && s.devices[d].present {
        LandKeeps(Resume(s), d, item.value);
      }
    }
  }

  // ---------------------------------------------------------------- mainline steps

  function Weight(v: Device, p: Pc, t: TaskId): nat {
    (if v.waker == Some(t) then 1 else 0) + (if p.Polls(t) && !p.SecondPop? then 1 else 0)
  }

  /** What a poll step of `t` has to respect for the invariant to survive it. */
  ghost predicate Legal(s: State, t: TaskId, v: Device, p: Pc, hit: bool)
    requires t in s.tasks && s.tasks[t].device < |s.devices|
  {
    && s.pc.Polls(t)
    && Delivered(v)
    && v.present
    && (v.waker == None || v.waker == Some(t))
    && (v.waker == Some(t) ==> v.items == [] || p == SecondPop(t) || p == Taking(t))
    && (p == Loop || (p.Polls(t) && !p.Opening?))
    && (p == Loop ==> (v.waker == Some(t) && v.items == []) || t in s.ready)
    && (p == SecondPop(t) ==> v.waker == Some(t))
    && (p == Resumed(t) ==> v.waker == None)
    && Weight(v, p, t) <= Weight(s.devices[s.tasks[t].device], s.pc, t) + (if hit then 1 else 0)
  }

  lemma MoveLoad(s: State, t: TaskId, v: Device, p: Pc, hit: bool, u: TaskId)
    requires Ids(s) && Wakers(s) && t in s.tasks && Legal(s, t, v, p, hit)
    requires Load(s, u) <= 1 + Hits(s, u)
    ensures Load(Move(s, t, v, p, hit), u) <= 1 + Hits(Move(s, t, v, p, hit), u)
  {
    assert s.pc.Polls(u) ==> u == t;
    assert p.Polls(u) ==> u == t;
  }

  lemma MoveDevices(s: State, t: TaskId, v: Device, p: Pc, hit: bool)
    requires Ids(s) && Wakers(s) && InOrder(s) && t in s.tasks && Legal(s, t, v, p, hit)
    requires s.tasks[t].started
    ensures Wakers(Move(s, t, v, p, hit)) && InOrder(Move(s, t, v, p, hit))
  {
    var r := Move(s, t, v, p, hit);
    forall k | 0 <= k < |r.devices| ensures WakerOk(r, k) && Delivered(r.devices[k]) {
      assert WakerOk(s, k) && Delivered(s.devices[k]);
    }
  }

  lemma MoveNoLost(s: State, t: TaskId, v: Device, p: Pc, hit: bool)
    requires Ids(s) && NoLostWakeup(s) && t in s.tasks && Legal(s, t, v, p, hit)
    ensures NoLostWakeup(Move(s, t, v, p, hit))
  {
    var r := Move(s, t, v, p, hit);
    forall u | u in r.tasks && !r.pc.Polls(u)
      ensures u in r.ready || (Registered(r, u) && InputEmpty(r, u))
    {
      if u != t && u !in s.ready {
        assert Registered(s, u) && InputEmpty(s, u);
      }
    }
  }

  lemma MoveControl(s: State, t: TaskId, v: Device, p: Pc, hit: bool)
    requires Ids(s) && Control(s) && t in s.tasks && Legal(s, t, v, p, hit)
    requires s.tasks[t].started
    ensures Ids(Move(s, t, v, p, hit)) && Control(Move(s, t, v, p, hit))
  {
  }

  lemma MoveKeeps(s: State, t: TaskId, v: Device, p: Pc, hit: bool)
    requires Good(s) && t in s.tasks && Legal(s, t, v, p, hit) && s.tasks[t].started
    ensures Good(Move(s, t, v, p, hit))
  {
    var r := Move(s, t, v, p, hit);
    MoveControl(s, t, v, p, hit);
    MoveDevices(s, t, v, p, hit);
    MoveNoLost(s, t, v, p, hit);
    assert Bounded(r) by {
      forall u | 0 <= u < r.nextId ensures Load(r, u) <= 1 + Hits(r, u) {
        assert Load(s, u) <= 1 + Hits(s, u);
        MoveLoad(s, t, v, p, hit, u);
      }
    }
  }

  function Started(s: State, t: TaskId): State
    requires t in s.tasks
  {
    s.(tasks := s.tasks[t := Task(s.tasks[t].device, true)])
  }

  lemma StartedWakers(s: State, t: TaskId)
    requires Ids(s) && t in s.tasks && Wakers(s) && s.devices[s.tasks[t].device].present
    ensures Wakers(Started(s, t))
  {
    var r := Started(s, t);
    forall k | 0 <= k < |r.devices| ensures WakerOk(r, k) {
      assert WakerOk(s, k);
    }
  }

  lemma StartedControl(s: State, t: TaskId)
    requires Ids(s) && t in s.tasks && Control(s)
    ensures Ids(Started(s, t)) && Control(Started(s, t))
  {
    assert forall u :: Registered(Started(s, t), u) == Registered(s, u);
  }

  /** Marking a task as started changes nothing the invariant looks at once its queue exists. */
  lemma StartedKeeps(s: State, t: TaskId)
    requires Ids(s) && t in s.tasks && Good(s)
    requires s.devices[s.tasks[t].device].present
    ensures Good(Started(s, t))
  {
    var r := Started(s, t);
    StartedWakers(s, t);
    StartedControl(s, t);
    assert forall u :: Registered(r, u) == Registered(s, u) && InputEmpty(r, u) == InputEmpty(s, u);
    assert Bounded(r) by {
      forall u | 0 <= u < r.nextId ensures Load(r, u) <= 1 + Hits(r, u) {
        assert Load(s, u) <= 1 + Hits(s, u);
      }
    }
  }

  /** `try_init_once` on a device keeps the invariant. */
  lemma PresentKeeps(s: State, d: nat)
    requires Good(s) && d < |s.devices|
    ensures Good(s.(devices := s.devices[d := s.devices[d].(present := true)]))
  {
    var r := s.(devices := s.devices[d := s.devices[d].(present := true)]);
    assert forall u :: Registered(r, u) == Registered(s, u) && InputEmpty(r, u) == InputEmpty(s, u);
    forall k | 0 <= k < |r.devices| ensures WakerOk(r, k) && Delivered(r.devices[k]) {
      assert WakerOk(s, k) && Delivered(s.devices[k]);
    }
    assert Bounded(r) by {
      forall u | 0 <= u < r.nextId ensures Load(r, u) <= 1 + Hits(r, u) {
        assert Load(s, u) <= 1 + Hits(s, u);
      }
    }
  }

  lemma OpeningKeeps(s: State, t: TaskId)
    requires Good(s) && s.pc == Opening(t)
    ensures Good(PollStep(s, t, false))
    ensures forall finish :: PollStep(s, t, finish) == PollStep(s, t, false)
  {
    var d := s.tasks[t].device;
    PresentKeeps(s, d);
    var s1 := s.(devices := s.devices[d := s.devices[d].(present := true)]);
    StartedKeeps(s1, t);
    var s2 := Started(s1, t);
    assert WakerOk(s2, d) && Delivered(s2.devices[d]);
    MoveKeeps(s2, t, s2.devices[d], FirstPop(t), false);
    OpeningSteps(s, t);
  }

  /** Creating the stream is the queue's initialisation, the mark and the first move. */
  lemma OpeningSteps(s: State, t: TaskId)
    requires s.pc == Opening(t) && t in s.tasks && s.tasks[t].device < |s.devices|
    ensures
      var d := s.tasks[t].device;
      var s2 := Started(s.(devices := s.devices[d := s.devices[d].(present := true)]), t);
      forall finish :: PollStep(s, t, finish) == Move(s2, t, s2.devices[d], FirstPop(t), false)
  {
  }

  lemma FirstPopKeeps(s: State, t: TaskId)
    requires Good(s) && s.pc == FirstPop(t)
    ensures Good(PollStep(s, t, false))
  {
    assert s.pc.Polls(t);
    var d := s.tasks[t].device;
    var v := s.devices[d];
    assert WakerOk(s, d) && Delivered(v);
    if v.items == [] {
      MoveKeeps(s, t, v, Registering(t), false);
    } else {
      MoveKeeps(s, t, Pop(v), Resumed(t), false);
    }
  }

  lemma SecondPopKeeps(s: State, t: TaskId)
    requires Good(s) && s.pc == SecondPop(t)
    ensures Good(PollStep(s, t, false))
  {
    assert s.pc.Polls(t);
    var d := s.tasks[t].device;
    var v := s.devices[d];
    assert WakerOk(s, d) && Delivered(v);
    if v.items == [] {
      MoveKeeps(s, t, v, Loop, false);
    } else {
      MoveKeeps(s, t, Pop(v), Taking(t), true);
    }
  }

  lemma WakerKeeps(s: State, t: TaskId)
    requires Good(s) && (s.pc == Registering(t) || s.pc == Taking(t))
    ensures Good(PollStep(s, t, false))
  {
    assert s.pc.Polls(t);
    var d := s.tasks[t].device;
    var v := s.devices[d];
    assert WakerOk(s, d) && Delivered(v);
    if s.pc.Registering? {
      MoveKeeps(s, t, v.(waker := Some(t)), SecondPop(t), false);
    } else {
      MoveKeeps(s, t, v.(waker := None), Resumed(t), false);
    }
  }

  lemma ContinueKeeps(s: State, t: TaskId)
    requires Good(s) && s.pc == Resumed(t)
    ensures Good(PollStep(s, t, false))
  {
    assert s.pc.Polls(t);
    var d := s.tasks[t].device;
    assert WakerOk(s, d) && Delivered(s.devices[d]);
    MoveKeeps(s, t, s.devices[d], FirstPop(t), false);
  }

  lemma PollKeeps(s: State, t: TaskId)
    requires Good(s) && s.pc.Polls(t) && !s.pc.Opening?
    ensures Good(PollStep(s, t, false))
  {
    match s.pc {
      case FirstPop(_) => FirstPopKeeps(s, t);
      case SecondPop(_) => SecondPopKeeps(s, t);
      case Resumed(_) => ContinueKeeps(s, t);
      case _ => WakerKeeps(s, t);
    }
  }

  lemma FinishLoad(s: State, t: TaskId, u: TaskId)
    requires Load(s, u) <= 1 + Hits(s, u)
    ensures Load(Finish(s, t), u) <= 1 + Hits(Finish(s, t), u)
  {
  }

  lemma FinishKeeps(s: State, t: TaskId)
    requires Good(s) && s.pc == Resumed(t)
    ensures Good(Finish(s, t))
  {
    var r := Finish(s, t);
    assert forall u :: u in r.tasks <==> u in s.tasks && u != t;
    forall k | 0 <= k < |r.devices| ensures WakerOk(r, k) {
      assert WakerOk(s, k);
    }
    forall u | u in r.tasks && !r.pc.Polls(u)
      ensures u in r.ready || (Registered(r, u) && InputEmpty(r, u))
    {
      assert u in s.ready || (Registered(s, u) && InputEmpty(s, u));
    }
    assert Bounded(r) by {
      forall u | 0 <= u < r.nextId ensures Load(r, u) <= 1 + Hits(r, u) {
        assert Load(s, u) <= 1 + Hits(s, u);
        FinishLoad(s, t, u);
      }
    }
  }

  /** Popping the ready queue turns one queue entry into the poll's turn. */
  lemma LoopLoad(s: State, u: TaskId)
    requires s.pc.Loop? && s.ready != []
    ensures Load(LoopStep(s), u) <= Load(s, u)
  {
    assert s.ready == [s.ready[0]] + s.ready[1..];
  }

  lemma LoopControl(s: State)
    requires Ids(s) && Control(s) && s.pc.Loop?
    ensures Ids(LoopStep(s)) && Control(LoopStep(s))
  {
    if s.ready != [] {
      assert forall u :: u in s.ready[1..] ==> u in s.ready;
    }
  }

  lemma LoopNoLost(s: State)
    requires NoLostWakeup(s) && s.pc.Loop?
    ensures NoLostWakeup(LoopStep(s))
  {
    var r := LoopStep(s);
    if s.ready != [] {
      assert s.ready == [s.ready[0]] + s.ready[1..];
    }
    forall u | u in r.tasks && !r.pc.Polls(u)
      ensures u in r.ready || (Registered(r, u) && InputEmpty(r, u))
    {
      assert u in s.ready || (Registered(s, u) && InputEmpty(s, u));
    }
  }

  lemma LoopDevices(s: State)
    requires Wakers(s) && InOrder(s) && s.pc.Loop?
    ensures Wakers(LoopStep(s)) && InOrder(LoopStep(s))
  {
    IdleWakers(s, LoopStep(s));
  }

  lemma LoopBounded(s: State)
    requires Bounded(s) && s.pc.Loop?
    ensures Bounded(LoopStep(s))
  {
    var r := LoopStep(s);
    forall u | 0 <= u < r.nextId ensures Load(r, u) <= 1 + Hits(r, u) {
      assert Load(s, u) <= 1 + Hits(s, u);
      if s.ready != [] {
        LoopLoad(s, u);
      }
    }
  }

  lemma LoopKeeps(s: State)
    requires Good(s) && s.pc.Loop?
    ensures Good(LoopStep(s))
  {
    LoopControl(s);
    LoopDevices(s);
    LoopNoLost(s);
    LoopBounded(s);
  }

  /** `poll_next` always finds its queue initialised. */
  lemma PollPresent(s: State, t: TaskId)
    requires Good(s) && s.pc == FirstPop(t)
    ensures t in s.tasks && s.devices[s.tasks[t].device].present
  {
    assert s.pc.Polls(t);
  }

  lemma IdleTickKeeps(s: State, finish: bool)
    requires Good(s) && Idle(s.pc)
    ensures Good(TickStep(s, finish)) && !TickStep(s, finish).pc.Panicked?
  {
    match s.pc {
      case Loop => LoopKeeps(s);
      case Disabling => SleepKeeps(s, Checking, false);
      case Checking => SleepKeeps(s, if s.ready == [] then Parking else Enabling, false);
      case Parking => SleepKeeps(s, Halted, true);
      case Enabling => SleepKeeps(s, Loop, true);
      case _ =>
    }
  }

  lemma PollTickKeeps(s: State, t: TaskId, finish: bool)
    requires Good(s) && s.pc.Polls(t)
    ensures Good(PollStep(s, t, finish)) && !PollStep(s, t, finish).pc.Panicked?
  {
    if s.pc.Opening? {
      OpeningKeeps(s, t);
    } else if s.pc.Resumed? && finish {
      FinishKeeps(s, t);
    } else {
      PollKeeps(s, t);
      if s.pc.FirstPop? {
        PollPresent(s, t);
      }
      assert PollStep(s, t, finish) == PollStep(s, t, false);
    }
  }

  /** Mainline code keeps the invariant and never panics: only a push to the full ready queue can. */
  lemma TickKeeps(s: State, finish: bool)
    requires Good(s) && !s.pc.Panicked?
    ensures Good(TickStep(s, finish)) && !TickStep(s, finish).pc.Panicked?
  {
    if Idle(s.pc) {
      IdleTickKeeps(s, finish);
    } else {
      assert s.pc.Polls(s.pc.task);
      PollTickKeeps(s, s.pc.task, finish);
    }
  }

  lemma StepKeeps(s: State, e: Event)
    requires Good(s) && !s.pc.Panicked? && !Step(s, e).pc.Panicked?
    ensures Good(Step(s, e))
  {
    match e {
      case Attach(d) => if s.pc.Boot? && d < |s.devices| { PresentKeeps(s, d); }
      case Spawn(d) => SpawnKeeps(s, d);
      case Start => if s.pc.Boot? { SleepKeeps(s, Loop, s.interrupts); }
      case Tick(finish) => TickKeeps(s, finish);
      case Irq(d, item) => IrqKeeps(s, d, item);
      case Timer => IrqKeeps(s, 0, None);
    }
  }
}
