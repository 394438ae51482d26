/** The thread state machine as values: what each kernel call, interrupt and fault does to
    the threads and queues, and what every run keeps. A thread is named by its pointer, of
    type `T`. */
module ThreadModel {
  import opened Base
  import opened IrqMask
  import opened Rendezvous
  import opened Timer

  const THREAD_COUNT := 1024
  const EV_COUNT := 256
  const LATCHED := 240        // events below this number are latched
  const TE_STATE := 1
  const TE_EXIST := 2

  /** A thread that is not in the table is TS_FREE. */
  datatype RunState = Queued | Running | Waiting | Paused | PausedW

  datatype Tcb = Tcb(id: nat, state: RunState, event: int, eax: int)

  datatype Sys<T> = Sys(
    tcb: map<T, Tcb>,       // every thread structure in the table
    table: map<nat, T>,     // _thread_table
    active: Option<T>,      // _active_thread
    sched: seq<T>,          // scheduler queue, head first
    evq: seq<seq<T>>,       // event queues, front first
    irq: seq<bool>,         // irqstate
    mask: bv16,             // _irq_mask
    dead: Pair<T>,          // dead threads and reapers
    fault: Pair<T>,         // faulting threads and debuggers
    tick: bv32,             // the timer's tick counter
    freq: bv32)             // pit_freq

  // ---------------------------------------------------------------------------
  // Single updates
  // ---------------------------------------------------------------------------

  function WithState<T>(s: Sys<T>, t: T, st: RunState): Sys<T> {
    s.(tcb := if t in s.tcb then s.tcb[t := s.tcb[t].(state := st)] else s.tcb)
  }

  function WithEax<T>(s: Sys<T>, t: T, v: int): Sys<T> {
    s.(tcb := if t in s.tcb then s.tcb[t := s.tcb[t].(eax := v)] else s.tcb)
  }

  function WithEvent<T>(s: Sys<T>, t: T, e: int): Sys<T> {
    s.(tcb := if t in s.tcb then s.tcb[t := s.tcb[t].(event := e)] else s.tcb)
  }

  function IdOf<T>(s: Sys<T>, t: T): int {
    if t in s.tcb then s.tcb[t].id else 0
  }

  /** `thread_save`. */
  function Save<T>(s: Sys<T>): Sys<T> {
    s.(active := None)
  }

  /** `schedule_push`. */
  function Push<T>(s: Sys<T>, t: T): Sys<T> {
    s.(sched := s.sched + [t])
  }

  /** `schedule_push` and the state that goes with it. */
  function Enqueue<T>(s: Sys<T>, t: T): Sys<T> {
    WithState(Push(s, t), t, Queued)
  }

  /** A queue without the first `t` in it. */
  function Remove<T(==)>(q: seq<T>, t: T): seq<T> {
    if q == [] then [] else if q[0] == t then q[1..] else [q[0]] + Remove(q[1..], t)
  }

  // ---------------------------------------------------------------------------
  // Events
  // ---------------------------------------------------------------------------

  /** `event_wait`: the state and the return value. A negative event polls. */
  function EventWait<T>(s: Sys<T>, t: T, event: int): (Sys<T>, int)
    requires -EV_COUNT <= event && |s.irq| == |s.evq| == EV_COUNT
  {
    if event < 0 then (s, if s.irq[-event - 1] then 1 else 0)
    else if event >= EV_COUNT then (s, 1)
    else if s.irq[event] then (Enqueue(Save(s), t), 0)
    else
      var s1 := WithEvent(s.(evq := s.evq[event := s.evq[event] + [t]]), t, event);
      (WithState(Save(s1), t, Waiting), 0)
  }

  /** Wakes the front thread of an event queue. */
  function Wake<T(==)>(s: Sys<T>, event: nat): Sys<T>
    requires event < |s.evq| && s.evq[event] != []
  {
    var t := s.evq[event][0];
    var s1 := s.(evq := s.evq[event := s.evq[event][1..]]);
    var s2 := WithEvent(WithEax(s1, t, event), t, -1);
    var s3 := if t in s2.tcb && s2.tcb[t].state == Running then Save(s2) else s2;
    Enqueue(s3, t)
  }

  /** Latches an interrupt and masks its line. */
  function Latch<T>(s: Sys<T>, event: nat): Sys<T>
    requires event < |s.irq|
  {
    s.(irq := s.irq[event := true], mask := MaskOn(s.mask, event))
  }

  /** `event_send`. */
  function EventSend<T(==)>(s: Sys<T>, event: int): Sys<T>
    requires |s.irq| == |s.evq| == EV_COUNT
  {
    if event < 0 || event >= EV_COUNT then s
    else
      var s1 := if s.evq[event] != [] then Wake(s, event) else s;
      if event < LATCHED then Latch(s1, event) else s1
  }

  /** Which virtual timers fire on a tick. */
  function Fired(tick: bv32, freq: bv32): (fired: seq<bool>)
    requires freq != 0
    ensures |fired| == 16
  {
    seq(16, i requires 0 <= i < 16 => Fires(tick, freq, i))
  }

  /** Sends the events of the timers below `n` that fire. */
  function SendTimers<T(==)>(s: Sys<T>, fired: seq<bool>, n: nat): (r: Sys<T>)
    requires |s.irq| == |s.evq| == EV_COUNT && n <= |fired| == 16
    ensures |r.irq| == |r.evq| == EV_COUNT
  {
    if n == 0 then s
    else
      var p := SendTimers(s, fired, n - 1);
      if fired[n - 1] then EventSend(p, 255 - (n - 1)) else p
  }

  // ---------------------------------------------------------------------------
  // Dead threads, reapers, faults and debuggers
  // ---------------------------------------------------------------------------

  /** `dead_push`. */
  function DeadPush<T(==)>(s: Sys<T>, t: T): Sys<T> {
    var s1 := s.(dead := Announce(s.dead, t));
    match s.dead.waiters.tail
    case Some(r) => Enqueue(WithEax(s1, r, IdOf(s, t)), r)
    case None => s1
  }

  /** `dead_wait`. */
  function DeadWait<T(==)>(s: Sys<T>, r: T): Sys<T> {
    var s1 := s.(dead := Await(s.dead, r));
    match s.dead.items.tail
    case Some(d) => Enqueue(WithEax(s1, r, IdOf(s, d)), r)
    case None => s1
  }

  /** `fault_push`. */
  function FaultPush<T(==)>(s: Sys<T>, t: T): Sys<T> {
    var s1 := s.(fault := Announce(s.fault, t));
    match s.fault.waiters.tail
    case Some(d) => Enqueue(WithEax(s1, d, IdOf(s, t)), d)
    case None => s1
  }

  // ---------------------------------------------------------------------------
  // Kernel calls, interrupts and faults
  // ---------------------------------------------------------------------------

  /** Thread and event calls, with the arguments they read from registers. `Spawn` brings
      the new structure and the initial value of its `eax`. */
  datatype Call<T> =
    | Spawn(thread: T, value: int)
    | Reap(target: int)
    | GetTid
    | Yield
    | Pause(target: int)
    | Resume(target: int)
    | SetDead(target: int, value: int)
    | GetDead
    | GetFault
    | WaitFor(event: int)
    | Reset(irq: nat)

  datatype Interrupt<T> = Kcall(call: Call<T>) | Irq(line: nat) | Tick | PageFault

  /** `thread_get`. */
  function Get<T>(s: Sys<T>, id: int): Option<T> {
    if id in s.table then Some(s.table[id]) else None
  }

  /** The thread a call is about, where -1 means the caller. */
  function Target<T>(s: Sys<T>, image: T, id: int): Option<T> {
    if id == -1 then Some(image) else Get(s, id)
  }

  /** The first free slot of the thread table from `i` on, if any. */
  function FreeSlot<T>(s: Sys<T>, i: nat): (r: Option<nat>)
    requires i <= THREAD_COUNT
    ensures r.Some? ==> i <= r.value < THREAD_COUNT && r.value !in s.table
    ensures forall j :: i <= j < (if r.Some? then r.value else THREAD_COUNT) ==> j in s.table
    decreases THREAD_COUNT - i
  {
    if i == THREAD_COUNT then None else if i !in s.table then Some(i) else FreeSlot(s, i + 1)
  }

  lemma SlotIs<T>(s: Sys<T>, i: nat)
    requires i <= THREAD_COUNT && (forall j :: 0 <= j < i ==> j in s.table) && (i < THREAD_COUNT ==> i !in s.table)
    ensures FreeSlot(s, 0) == if i < THREAD_COUNT then Some(i) else None
  {
    hide FreeSlot;
    var r := FreeSlot(s, 0);
  }

  /** A cleared thread structure joins the table. */
  function Grow<T>(s: Sys<T>, t: T, c: Tcb): Sys<T> {
    s.(tcb := s.tcb[t := c], table := s.table[c.id := t], dead := Cleared(s.dead, t), fault := Cleared(s.fault, t))
  }

  function DoSpawn<T(==)>(s: Sys<T>, image: T, thread: T, value: int): Sys<T> {
    match FreeSlot(s, 0)
    case None => WithEax(s, image, -1)
    case Some(id) =>
      WithEax(Push(Grow(s, thread, Tcb(id, Queued, 0, value)), thread), image, id)
  }

  function DoReap<T(==)>(s: Sys<T>, image: T, target: T): Sys<T> {
    if target !in s.tcb then s
    else if s.tcb[target].state != Paused then WithEax(s, image, TE_STATE)
    else
      var s1 := WithEax(s, image, 0);
      s1.(tcb := s1.tcb - {target}, table := s1.table - {s.tcb[target].id})
  }

  function DoPause<T(==)>(s: Sys<T>, image: T, target: Option<T>): Sys<T> {
    match target
    case None => WithEax(s, image, TE_EXIST)
    case Some(t) =>
      if t !in s.tcb then s
      else
        match s.tcb[t].state
        case Running => WithEax(WithState(Save(s), t, Paused), image, 0)
        case Queued => WithEax(WithState(s.(sched := Remove(s.sched, t)), t, Paused), image, 0)
        case _ => WithEax(s, image, TE_STATE)
  }

  function DoResume<T(==)>(s: Sys<T>, image: T, target: Option<T>): Sys<T> {
    match target
    case None => WithEax(s, image, TE_EXIST)
    case Some(t) =>
      if t in s.tcb && s.tcb[t].state == Paused then WithEax(Enqueue(s, t), image, 0)
      else WithEax(s, image, TE_STATE)
  }

  function DoSetDead<T(==)>(s: Sys<T>, image: T, target: Option<T>, value: int): Sys<T> {
    match target
    case None => WithEax(s, image, TE_EXIST)
    case Some(t) =>
      if t !in s.tcb then s
      else
        match s.tcb[t].state
        case Running => WithEax(WithEax(DeadPush(WithState(Save(s), t, Paused), t), t, value), image, 0)
        case Paused => WithEax(WithEax(DeadPush(s, t), t, value), image, 0)
        case PausedW => WithEax(WithEax(DeadPush(s, t), t, value), image, 0)
        case _ => WithEax(s, image, TE_STATE)
  }

  function DoGetDead<T(==)>(s: Sys<T>, image: T): Sys<T> {
    match s.dead.items.tail
    case Some(d) => WithEax(s.(dead := Await(s.dead, image)), image, IdOf(s, d))
    case None => DeadWait(WithState(Save(s), image, Paused), image)
  }

  /** `getfault` when no fault is queued: the caller becomes a debugger. */
  function DoGetFault<T(==)>(s: Sys<T>, image: T): Sys<T> {
    var s1 := WithState(Save(s), image, Paused);
    s1.(fault := Await(s1.fault, image))
  }

  function DoReset<T>(s: Sys<T>, image: T, e: nat): Sys<T>
    requires |s.irq| == EV_COUNT
  {
    WithEax(if e < LATCHED then s.(irq := s.irq[e := false], mask := MaskOff(s.mask, e)) else s, image, 0)
  }

  function DoCall<T(==)>(s: Sys<T>, image: T, c: Call<T>): Sys<T>
    requires |s.irq| == |s.evq| == EV_COUNT && (c.WaitFor? ==> -EV_COUNT <= c.event)
  {
    match c
    case Spawn(thread, value) => DoSpawn(s, image, thread, value)
    case Reap(id) => if Get(s, id).Some? then DoReap(s, image, Get(s, id).value) else s
    case GetTid => WithEax(s, image, IdOf(s, image))
    case Yield => Enqueue(Save(s), image)
    case Pause(id) => DoPause(s, image, Target(s, image, id))
    case Resume(id) => DoResume(s, image, Get(s, id))
    case SetDead(id, value) => DoSetDead(s, image, Target(s, image, id), value)
    case GetDead => DoGetDead(s, image)
    case GetFault => DoGetFault(s, image)
    case WaitFor(event) => var (s1, r) := EventWait(s, image, event); WithEax(s1, image, r)
    case Reset(e) => DoReset(s, image, e)
  }

  /** The timer handler, given the timers that fire: their events, then preemption. */
  function TickWith<T(==)>(s: Sys<T>, image: T, tick: bv32, fired: seq<bool>): Sys<T>
    requires |s.irq| == |s.evq| == EV_COUNT && |fired| == 16
  {
    var s1 := SendTimers(s.(tick := tick), fired, 16);
    if image in s1.tcb && s1.tcb[image].state == Running then Enqueue(Save(s1), image) else s1
  }

  function DoTick<T(==)>(s: Sys<T>, image: T): Sys<T>
    requires |s.irq| == |s.evq| == EV_COUNT && s.freq != 0
  {
    TickWith(s, image, s.tick + 1, Fired(s.tick + 1, s.freq))
  }

  /** An interrupt can be taken: a thread is running, and a negative event is in range. */
  predicate Ready<T>(s: Sys<T>, i: Interrupt<T>) {
    && |s.irq| == |s.evq| == EV_COUNT && s.freq != 0 && s.active.Some?
    && (i.Kcall? && i.call.WaitFor? ==> -EV_COUNT <= i.call.event)
  }

  /** What the handler of an interrupt does, before the closing dispatch. */
  function Handle<T(==)>(s: Sys<T>, i: Interrupt<T>): Sys<T>
    requires Ready(s, i)
  {
    var image := s.active.value;
    match i
    case Kcall(c) => DoCall(s, image, c)
    case Irq(n) => EventSend(s, n)
    case Tick => DoTick(s, image)
    case PageFault => FaultPush(WithState(Save(s), image, Paused), image)
  }

  /** The end of `int_handler`: if no thread is active, the head of the queue runs. With an
      empty queue the processor idles. */
  function Dispatch<T(==)>(s: Sys<T>): Sys<T> {
    if s.active.Some? || s.sched == [] then s
    else
      var t := s.sched[0];
      WithState(s.(sched := Remove(s.sched, t), active := Some(t)), t, Running)
  }

  // ---------------------------------------------------------------------------
  // The invariant
  // ---------------------------------------------------------------------------

  /** Thread ids and structures correspond. */
  ghost predicate TableOk<T>(table: map<nat, T>, tcb: map<T, Tcb>) {
    && (forall k :: k in table ==> k < THREAD_COUNT && table[k] in tcb && tcb[table[k]].id == k)
    && (forall t :: t in tcb ==> tcb[t].id in table && table[tcb[t].id] == t)
  }

  // In the following, the threads in `x` are between states: on no queue and not active.

  /** The active thread is the unique running one. */
  ghost predicate ActiveOk<T>(active: Option<T>, tcb: map<T, Tcb>, x: set<T>) {
    && (active.Some? ==> active.value in tcb && active.value !in x)
    && (forall t :: t in tcb && t !in x ==> (tcb[t].state == Running <==> active == Some(t)))
  }

  /** A thread is queued if and only if it is in the scheduler queue, once. */
  ghost predicate SchedOk<T>(sched: seq<T>, tcb: map<T, Tcb>, x: set<T>) {
    && NoDup(sched)
    && (forall t :: t in sched ==> t in tcb && t !in x)
    && (forall t :: t in tcb && t !in x ==> (tcb[t].state == Queued <==> t in sched))
  }

  /** A thread waits if and only if it is in the event queue its event names, once, and in
      no other. */
  ghost predicate EventsOk<T>(evq: seq<seq<T>>, tcb: map<T, Tcb>, x: set<T>) {
    && |evq| == EV_COUNT
    && (forall e :: 0 <= e < EV_COUNT ==> NoDup(evq[e]))
    && (forall e, t :: 0 <= e < EV_COUNT && t in evq[e] ==>
          t in tcb && t !in x && tcb[t].state == Waiting && tcb[t].event == e)
    && (forall t :: t in tcb && t !in x && tcb[t].state == Waiting ==>
          0 <= tcb[t].event < EV_COUNT && t in evq[tcb[t].event])
  }

  /** Parked reapers and debuggers are paused and parked once; the dead and the faulting
      are allocated. */
  ghost predicate ParkedOk<T>(dead: Pair<T>, fault: Pair<T>, tcb: map<T, Tcb>, x: set<T>) {
    && PairOk(dead) && HalfOk(dead) && HalfOk(fault)
    && (forall t :: t in dead.waiters.queue ==> t in tcb && t !in x && tcb[t].state == Paused && t !in fault.waiters.queue)
    && (forall t :: t in fault.waiters.queue ==> t in tcb && t !in x && tcb[t].state == Paused)
    && (forall t :: t in dead.items.queue ==> t in tcb)
    && (forall t :: t in fault.items.queue ==> t in tcb)
  }

  /** The latches agree with the mask register, and only interrupt lines are latched. */
  ghost predicate IrqOk(irq: seq<bool>, mask: bv16) {
    && |irq| == EV_COUNT
    && (forall e: nat :: e < 16 ==> (irq[e] <==> Masked(mask, e)))
    && (forall e: nat :: 16 <= e < EV_COUNT ==> !irq[e])
  }

  ghost predicate InvX<T>(s: Sys<T>, x: set<T>) {
    && x <= s.tcb.Keys && s.freq != 0 && |s.evq| == |s.irq| == EV_COUNT
    && TableOk(s.table, s.tcb)
    && ActiveOk(s.active, s.tcb, x)
    && SchedOk(s.sched, s.tcb, x)
    && EventsOk(s.evq, s.tcb, x)
    && ParkedOk(s.dead, s.fault, s.tcb, x)
    && IrqOk(s.irq, s.mask)
  }

  ghost predicate Inv<T>(s: Sys<T>) {
    InvX(s, {})
  }

  // One component at a time: a thread `t` leaves it, is between states, or joins it.

  lemma ActiveLeaves<T>(active: Option<T>, tcb: map<T, Tcb>, t: T)
    requires ActiveOk(active, tcb, {})
    ensures ActiveOk(if active == Some(t) then None else active, tcb, {t})
  {
  }

  lemma ActiveDrops<T>(active: Option<T>, tcb: map<T, Tcb>, t: T)
    requires ActiveOk(active, tcb, {t}) && t in tcb && tcb[t].state != Running
    ensures ActiveOk(active, tcb, {})
  {
  }

  lemma ActiveJoins<T>(tcb: map<T, Tcb>, t: T)
    requires ActiveOk(None, tcb, {t}) && t in tcb && tcb[t].state == Running
    ensures ActiveOk(Some(t), tcb, {})
  {
  }

  lemma SchedLeaves<T>(sched: seq<T>, tcb: map<T, Tcb>, t: T)
    requires SchedOk(sched, tcb, {})
    ensures SchedOk(Remove(sched, t), tcb, {t})
    ensures t !in sched ==> SchedOk(sched, tcb, {t})
  {
    hide NoDup;
    RemoveKeeps(sched, t);
  }

  lemma SchedDrops<T>(sched: seq<T>, tcb: map<T, Tcb>, t: T)
    requires SchedOk(sched, tcb, {t}) && t in tcb && tcb[t].state != Queued
    ensures SchedOk(sched, tcb, {})
  {
  }

  lemma SchedJoins<T>(sched: seq<T>, tcb: map<T, Tcb>, t: T)
    requires SchedOk(sched, tcb, {t}) && t in tcb && tcb[t].state == Queued
    ensures SchedOk(sched + [t], tcb, {})
  {
    assert forall u :: u in sched + [t] <==> u == t || u in sched;
  }

  lemma EventsLeave<T>(evq: seq<seq<T>>, tcb: map<T, Tcb>, t: T)
    requires EventsOk(evq, tcb, {}) && t in tcb && tcb[t].state != Waiting
    ensures EventsOk(evq, tcb, {t})
  {
  }

  lemma EventsPop<T>(evq: seq<seq<T>>, tcb: map<T, Tcb>, e: nat)
    requires EventsOk(evq, tcb, {}) && e < EV_COUNT && evq[e] != []
    ensures evq[e][0] in tcb && tcb[evq[e][0]].state == Waiting
    ensures EventsOk(evq[e := evq[e][1..]], tcb, {evq[e][0]})
  {
    var t, q := evq[e][0], evq[e][1..];
    assert forall u :: u in evq[e] <==> u == t || u in q;
    assert forall i :: 0 <= i < |q| ==> q[i] == evq[e][i + 1];
  }

  lemma EventsDrop<T>(evq: seq<seq<T>>, tcb: map<T, Tcb>, t: T)
    requires EventsOk(evq, tcb, {t}) && t in tcb && tcb[t].state != Waiting
    ensures EventsOk(evq, tcb, {})
  {
  }

  lemma EventsJoin<T>(evq: seq<seq<T>>, tcb: map<T, Tcb>, t: T, e: nat)
    requires EventsOk(evq, tcb, {t}) && t in tcb && tcb[t].state == Waiting && tcb[t].event == e < EV_COUNT
    ensures EventsOk(evq[e := evq[e] + [t]], tcb, {})
  {
    var q := evq[e] + [t];
    assert forall u :: u in q <==> u == t || u in evq[e];
  }

  lemma ParkedLeaves<T>(dead: Pair<T>, fault: Pair<T>, tcb: map<T, Tcb>, t: T)
    requires ParkedOk(dead, fault, tcb, {}) && t !in dead.waiters.queue && t !in fault.waiters.queue
    ensures ParkedOk(dead, fault, tcb, {t})
  {
  }

  lemma ParkedDrops<T>(dead: Pair<T>, fault: Pair<T>, tcb: map<T, Tcb>, x: set<T>)
    requires ParkedOk(dead, fault, tcb, x)
    ensures ParkedOk(dead, fault, tcb, {})
  {
  }

  lemma ParkedArePaused<T>(dead: Pair<T>, fault: Pair<T>, tcb: map<T, Tcb>, t: T)
    requires ParkedOk(dead, fault, tcb, {}) && t in tcb && tcb[t].state != Paused
    ensures t !in dead.waiters.queue && t !in fault.waiters.queue
  {
  }

  lemma {:induction false} RemoveKeeps<T>(q: seq<T>, t: T)
    requires NoDup(q)
    ensures NoDup(Remove(q, t)) && t !in Remove(q, t)
    ensures forall u :: u in Remove(q, t) ==> u in q
    ensures forall u :: u in q && u != t ==> u in Remove(q, t)
  {
    if q != [] {
      var r := q[1..];
      NoDupTail(q);
      if q[0] != t {
        RemoveKeeps(r, t);
        NoDupCons(q[0], Remove(r, t));
      }
    }
  }

  lemma NoDupTail<T>(q: seq<T>)
    requires NoDup(q) && q != []
    ensures NoDup(q[1..]) && q[0] !in q[1..]
    ensures forall u :: u in q <==> u == q[0] || u in q[1..]
  {
  }

  lemma NoDupCons<T>(x: T, s: seq<T>)
    requires NoDup(s) && x !in s
    ensures NoDup([x] + s)
    ensures forall u :: u in [x] + s <==> u == x || u in s
  {
  }

  // Leaving a state.

  lemma SaveFrees<T>(s: Sys<T>)
    requires Inv(s) && s.active.Some?
    ensures InvX(Save(s), {s.active.value})
  {
    hide TableOk, SchedOk, EventsOk, ParkedOk, IrqOk;
    var t := s.active.value;
    RunningElsewhere(s);
    ActiveLeaves(s.active, s.tcb, t);
    SchedLeaves(s.sched, s.tcb, t);
    EventsLeave(s.evq, s.tcb, t);
    ParkedLeaves(s.dead, s.fault, s.tcb, t);
  }

  lemma RunningElsewhere<T>(s: Sys<T>)
    requires Inv(s) && s.active.Some?
    ensures var t := s.active.value;
      && t in s.tcb && s.tcb[t].state == Running
      && t !in s.sched && t !in s.dead.waiters.queue && t !in s.fault.waiters.queue
  {
    hide TableOk, EventsOk, PairOk, HalfOk, IrqOk, NoDup;
  }

  lemma RemoveFrees<T>(s: Sys<T>, t: T)
    requires Inv(s) && t in s.tcb && s.tcb[t].state == Queued
    ensures InvX(s.(sched := Remove(s.sched, t)), {t})
  {
    hide TableOk, ActiveOk, SchedOk, EventsOk, ParkedOk, IrqOk;
    NotActive(s, t);
    ActiveLeaves(s.active, s.tcb, t);
    SchedLeaves(s.sched, s.tcb, t);
    EventsLeave(s.evq, s.tcb, t);
    ParkedArePaused(s.dead, s.fault, s.tcb, t);
    ParkedLeaves(s.dead, s.fault, s.tcb, t);
  }

  lemma NotActive<T>(s: Sys<T>, t: T)
    requires Inv(s) && t in s.tcb && s.tcb[t].state != Running
    ensures s.active != Some(t)
  {
    hide TableOk, SchedOk, EventsOk, ParkedOk, IrqOk;
  }

  lemma NotQueued<T>(s: Sys<T>, t: T)
    requires Inv(s) && t in s.tcb && s.tcb[t].state != Queued
    ensures t !in s.sched
  {
    hide TableOk, ActiveOk, EventsOk, ParkedOk, IrqOk;
  }

  /** A paused thread that is not parked is on no queue that matters. */
  lemma PausedIsFree<T>(s: Sys<T>, t: T)
    requires Inv(s) && t in s.tcb && s.tcb[t].state == Paused
    requires t !in s.dead.waiters.queue && t !in s.fault.waiters.queue
    ensures InvX(s, {t})
  {
    hide TableOk, ActiveOk, SchedOk, EventsOk, ParkedOk, IrqOk;
    NotActive(s, t);
    NotQueued(s, t);
    ActiveLeaves(s.active, s.tcb, t);
    SchedLeaves(s.sched, s.tcb, t);
    EventsLeave(s.evq, s.tcb, t);
    ParkedLeaves(s.dead, s.fault, s.tcb, t);
  }

  lemma FrontFrees<T>(s: Sys<T>, e: nat)
    requires Inv(s) && e < EV_COUNT && s.evq[e] != []
    ensures s.evq[e][0] in s.tcb && s.tcb[s.evq[e][0]].state == Waiting
    ensures InvX(s.(evq := s.evq[e := s.evq[e][1..]]), {s.evq[e][0]})
  {
    hide TableOk, ActiveOk, SchedOk, EventsOk, ParkedOk, IrqOk;
    var t := s.evq[e][0];
    EventsPop(s.evq, s.tcb, e);
    NotActive(s, t);
    NotQueued(s, t);
    ActiveLeaves(s.active, s.tcb, t);
    SchedLeaves(s.sched, s.tcb, t);
    ParkedArePaused(s.dead, s.fault, s.tcb, t);
    ParkedLeaves(s.dead, s.fault, s.tcb, t);
  }

  // Entering a state: first the fields of the thread change, then it stops being between
  // states.

  /** Same threads; those not in `x` keep their state and event. */
  ghost predicate Quiet<T>(tcb: map<T, Tcb>, tcb': map<T, Tcb>, x: set<T>) {
    && tcb'.Keys == tcb.Keys
    && (forall t :: t in tcb ==> tcb'[t].id == tcb[t].id)
    && (forall t :: t in tcb && t !in x ==> tcb'[t].state == tcb[t].state && tcb'[t].event == tcb[t].event)
  }

  lemma QuietKeeps<T>(s: Sys<T>, tcb: map<T, Tcb>, x: set<T>)
    requires InvX(s, x) && Quiet(s.tcb, tcb, x)
    ensures InvX(s.(tcb := tcb), x)
  {
    hide IrqOk, PairOk, HalfOk, NoDup;
  }

  lemma EaxKeeps<T>(s: Sys<T>, t: T, v: int, x: set<T>)
    ensures InvX(WithEax(s, t, v), x) <==> InvX(s, x)
  {
    hide InvX;
    var s' := WithEax(s, t, v);
    if InvX(s, x) {
      QuietKeeps(s, s'.tcb, x);
    }
    if InvX(s', x) {
      QuietKeeps(s', s.tcb, x);
      assert s'.(tcb := s.tcb) == s;
    }
  }

  lemma EventKeeps<T>(s: Sys<T>, t: T, e: int)
    requires InvX(s, {t})
    ensures InvX(WithEvent(s, t, e), {t})
  {
    hide InvX;
    QuietKeeps(s, WithEvent(s, t, e).tcb, {t});
  }

  lemma StateKeeps<T>(s: Sys<T>, t: T, st: RunState)
    requires InvX(s, {t})
    ensures InvX(WithState(s, t, st), {t})
  {
    hide InvX;
    QuietKeeps(s, WithState(s, t, st).tcb, {t});
  }

  lemma EnqueueSettles<T>(s: Sys<T>, t: T)
    requires InvX(s, {t})
    ensures Inv(Enqueue(s, t))
  {
    hide TableOk, ActiveOk, SchedOk, EventsOk, ParkedOk, IrqOk;
    StateKeeps(s, t, Queued);
    var tcb := WithState(s, t, Queued).tcb;
    ActiveDrops(s.active, tcb, t);
    SchedJoins(s.sched, tcb, t);
    EventsDrop(s.evq, tcb, t);
    ParkedDrops(s.dead, s.fault, tcb, {t});
  }

  lemma PauseSettles<T>(s: Sys<T>, t: T)
    requires InvX(s, {t})
    ensures Inv(WithState(s, t, Paused))
  {
    hide TableOk, ActiveOk, SchedOk, EventsOk, ParkedOk, IrqOk;
    StateKeeps(s, t, Paused);
    var tcb := WithState(s, t, Paused).tcb;
    ActiveDrops(s.active, tcb, t);
    SchedDrops(s.sched, tcb, t);
    EventsDrop(s.evq, tcb, t);
    ParkedDrops(s.dead, s.fault, tcb, {t});
  }

  lemma RunSettles<T>(s: Sys<T>, t: T)
    requires InvX(s, {t}) && s.active == None
    ensures Inv(WithState(s.(active := Some(t)), t, Running))
  {
    hide TableOk, ActiveOk, SchedOk, EventsOk, ParkedOk, IrqOk;
    StateKeeps(s, t, Running);
    var tcb := WithState(s, t, Running).tcb;
    ActiveJoins(tcb, t);
    SchedDrops(s.sched, tcb, t);
    EventsDrop(s.evq, tcb, t);
    ParkedDrops(s.dead, s.fault, tcb, {t});
  }

  lemma WaitSettles<T>(s: Sys<T>, t: T, e: nat)
    requires InvX(s, {t}) && e < EV_COUNT
    ensures Inv(WithState(WithEvent(s.(evq := s.evq[e := s.evq[e] + [t]]), t, e), t, Waiting))
  {
    hide TableOk, ActiveOk, SchedOk, EventsOk, ParkedOk, IrqOk;
    EventKeeps(s, t, e);
    StateKeeps(WithEvent(s, t, e), t, Waiting);
    var tcb := WithState(WithEvent(s, t, e), t, Waiting).tcb;
    ActiveDrops(s.active, tcb, t);
    SchedDrops(s.sched, tcb, t);
    EventsJoin(s.evq, tcb, t, e);
    ParkedDrops(s.dead, s.fault, tcb, {t});
  }

  // Parking.

  /** A death keeps the invariant exactly if the dead queue can take it. */
  lemma DeadPushKeepsIff<T>(s: Sys<T>, t: T)
    requires Inv(s) && t in s.tcb
    ensures Inv(DeadPush(s, t)) <==> MayAnnounce(s.dead, t)
  {
    hide InvX, MayAnnounce, DeadPush, PairOk;
    if MayAnnounce(s.dead, t) {
      DeadPushKeeps(s, t);
    }
    DeadPairOk(s);
    DeadPushPair(s, t);
    AnnounceOk(s.dead, t);
    if Inv(DeadPush(s, t)) {
      DeadPairOk(DeadPush(s, t));
    }
  }

  lemma DeadPairOk<T>(s: Sys<T>)
    requires Inv(s)
    ensures PairOk(s.dead) && HalfOk(s.fault)
  {
    hide TableOk, ActiveOk, SchedOk, EventsOk, IrqOk, PairOk, HalfOk;
  }

  lemma DeadPushPair<T>(s: Sys<T>, t: T)
    ensures DeadPush(s, t).dead == Announce(s.dead, t)
  {
    hide Announce;
  }

  lemma DeadPushKeeps<T>(s: Sys<T>, t: T)
    requires Inv(s) && t in s.tcb && MayAnnounce(s.dead, t)
    ensures Inv(DeadPush(s, t))
  {
    hide TableOk, ActiveOk, SchedOk, EventsOk, ParkedOk, IrqOk, PairOk, HalfOk, MayAnnounce;
    var s1 := s.(dead := Announce(s.dead, t));
    DeadAnnounced(s, t);
    if s.dead.waiters.tail.Some? {
      var r := s.dead.waiters.tail.value;
      NotActive(s, r);
      NotQueued(s, r);
      ActiveLeaves(s.active, s.tcb, r);
      SchedLeaves(s.sched, s.tcb, r);
      EventsLeave(s.evq, s.tcb, r);
      assert InvX(s1, {r});
      EaxKeeps(s1, r, IdOf(s, t), {r});
      EnqueueSettles(WithEax(s1, r, IdOf(s, t)), r);
    }
  }

  lemma DeadAnnounced<T>(s: Sys<T>, t: T)
    requires Inv(s) && t in s.tcb && MayAnnounce(s.dead, t)
    ensures var dead := Announce(s.dead, t);
      match s.dead.waiters.tail
      case Some(r) => ParkedOk(dead, s.fault, s.tcb, {r}) && r in s.tcb && s.tcb[r].state == Paused
      case None => ParkedOk(dead, s.fault, s.tcb, {})
  {
    hide TableOk, ActiveOk, SchedOk, EventsOk, IrqOk, PairOk, HalfOk;
    AnnounceOk(s.dead, t);
    PairFacts(s.dead);
    if s.dead.waiters.tail.Some? {
      NoDupTail(s.dead.waiters.queue);
    }
  }

  lemma PairFacts<T>(p: Pair<T>)
    requires HalfOk(p)
    ensures NoDup(p.waiters.queue) && (p.waiters.tail == None <==> p.waiters.queue == [])
    ensures p.items.tail == None <==> p.items.queue == []
  {
  }

  lemma FaultPushKeeps<T>(s: Sys<T>, t: T)
    requires Inv(s) && t in s.tcb
    ensures Inv(FaultPush(s, t))
  {
    hide TableOk, ActiveOk, SchedOk, EventsOk, ParkedOk, IrqOk, PairOk, HalfOk;
    var s1 := s.(fault := Announce(s.fault, t));
    FaultAnnounced(s, t);
    if s.fault.waiters.tail.Some? {
      var r := s.fault.waiters.tail.value;
      NotActive(s, r);
      NotQueued(s, r);
      ActiveLeaves(s.active, s.tcb, r);
      SchedLeaves(s.sched, s.tcb, r);
      EventsLeave(s.evq, s.tcb, r);
      assert InvX(s1, {r});
      EaxKeeps(s1, r, IdOf(s, t), {r});
      EnqueueSettles(WithEax(s1, r, IdOf(s, t)), r);
    }
  }

  lemma FaultAnnounced<T>(s: Sys<T>, t: T)
    requires Inv(s) && t in s.tcb
    ensures var fault := Announce(s.fault, t);
      match s.fault.waiters.tail
      case Some(r) => ParkedOk(s.dead, fault, s.tcb, {r}) && r in s.tcb && s.tcb[r].state == Paused
      case None => ParkedOk(s.dead, fault, s.tcb, {})
  {
    hide TableOk, ActiveOk, SchedOk, EventsOk, IrqOk, PairOk, HalfOk;
    AnnounceHalfOk(s.fault, t);
    PairFacts(s.fault);
    if s.fault.waiters.tail.Some? {
      NoDupTail(s.fault.waiters.queue);
    }
  }

  /** A paused, unparked thread becomes a reaper, or takes a dead thread and runs on. */
  lemma DeadAwaited<T>(s: Sys<T>, r: T)
    requires Inv(s) && r in s.tcb && MayAwait(s.dead, r)
    requires s.dead.items.queue == [] ==> s.tcb[r].state == Paused && r !in s.fault.waiters.queue
    ensures Inv(s.(dead := Await(s.dead, r)))
  {
    hide TableOk, ActiveOk, SchedOk, EventsOk, IrqOk, PairOk, HalfOk;
    AwaitOk(s.dead, r);
    PairFacts(s.dead);
    if s.dead.items.queue != [] {
      assert forall u :: u in s.dead.items.queue[1..] ==> u in s.dead.items.queue;
    }
  }

  lemma FaultAwaited<T>(s: Sys<T>, r: T)
    requires Inv(s) && r in s.tcb && s.fault.items.queue == [] && MayAwait(s.fault, r)
    requires s.tcb[r].state == Paused && r !in s.dead.waiters.queue
    ensures Inv(s.(fault := Await(s.fault, r)))
  {
    hide TableOk, ActiveOk, SchedOk, EventsOk, IrqOk, PairOk, HalfOk;
    AwaitHalfOk(s.fault, r);
  }

  // Interrupt latches.

  lemma LatchKeeps<T>(s: Sys<T>, e: nat)
    requires Inv(s) && e < 16
    ensures Inv(Latch(s, e))
  {
    hide TableOk, ActiveOk, SchedOk, EventsOk, ParkedOk, Masked, MaskOn, MaskOff;
    forall f: nat | f < 16
      ensures Masked(MaskOn(s.mask, e), f) <==> Masked(s.mask, f) || e == f
    {
      MaskBits(s.mask, e, f);
    }
  }

  lemma UnlatchKeeps<T>(s: Sys<T>, e: nat)
    requires Inv(s) && e < LATCHED
    ensures Inv(s.(irq := s.irq[e := false], mask := MaskOff(s.mask, e)))
  {
    hide TableOk, ActiveOk, SchedOk, EventsOk, ParkedOk, Masked, MaskOn, MaskOff;
    forall f: nat | f < 16
      ensures Masked(MaskOff(s.mask, e), f) <==> Masked(s.mask, f) && e != f
    {
      MaskBits(s.mask, e, f);
    }
  }

  // Threads come and go.

  lemma BlankKeeps<T>(s: Sys<T>, t: T)
    requires Inv(s) && t !in s.tcb
    ensures Inv(s.(dead := Cleared(s.dead, t), fault := Cleared(s.fault, t)))
  {
    hide TableOk, ActiveOk, SchedOk, EventsOk, IrqOk, PairOk, HalfOk;
    BlankOk(s.dead, t);
    BlankOk(s.fault, t);
  }

  lemma JoinFrees<T>(s: Sys<T>, t: T, c: Tcb)
    requires Inv(s) && t !in s.tcb && c.id < THREAD_COUNT && c.id !in s.table
    ensures InvX(s.(tcb := s.tcb[t := c], table := s.table[c.id := t]), {t})
  {
    hide IrqOk, PairOk, HalfOk, NoDup;
  }

  /** A new structure starts between states. */
  lemma GrowFrees<T>(s: Sys<T>, t: T, c: Tcb)
    requires Inv(s) && t !in s.tcb && c.id < THREAD_COUNT && c.id !in s.table
    ensures InvX(Grow(s, t, c), {t})
  {
    hide InvX, Cleared;
    BlankKeeps(s, t);
    JoinFrees(s.(dead := Cleared(s.dead, t), fault := Cleared(s.fault, t)), t, c);
  }

  lemma SpawnKeeps<T>(s: Sys<T>, t: T, id: nat, v: int)
    requires Inv(s) && t !in s.tcb && id < THREAD_COUNT && id !in s.table
    ensures Inv(Push(Grow(s, t, Tcb(id, Queued, 0, v)), t))
  {
    hide InvX, Cleared;
    var s1 := Grow(s, t, Tcb(id, Queued, 0, v));
    GrowFrees(s, t, Tcb(id, Queued, 0, v));
    EnqueueSettles(s1, t);
    assert WithState(Push(s1, t), t, Queued).tcb == s1.tcb;
  }

  /** Freeing a paused thread keeps the invariant exactly if it is on no queue; otherwise
      the queue is left with a dangling pointer. */
  lemma KillKeepsIff<T>(s: Sys<T>, t: T)
    requires Inv(s) && t in s.tcb && s.tcb[t].state == Paused
    ensures Inv(s.(tcb := s.tcb - {t}, table := s.table - {s.tcb[t].id})) <==> Unparked(s, t)
  {
    hide IrqOk, PairOk, HalfOk, NoDup;
    if Unparked(s, t) {
      KillKeeps(s, t);
    }
  }

  lemma KillKeeps<T>(s: Sys<T>, t: T)
    requires Inv(s) && t in s.tcb && s.tcb[t].state == Paused && Unparked(s, t)
    ensures Inv(s.(tcb := s.tcb - {t}, table := s.table - {s.tcb[t].id}))
  {
    hide IrqOk, PairOk, HalfOk, NoDup;
    NotActive(s, t);
    NotQueued(s, t);
  }

  // ---------------------------------------------------------------------------
  // Every step keeps the invariant
  // ---------------------------------------------------------------------------

  /** On neither side of either rendezvous. */
  ghost predicate Unparked<T>(s: Sys<T>, t: T) {
    && t !in s.dead.items.queue && t !in s.dead.waiters.queue
    && t !in s.fault.items.queue && t !in s.fault.waiters.queue
  }

  /** Neither a parked reaper nor a parked debugger. */
  ghost predicate NotWaiter<T>(s: Sys<T>, t: T) {
    t !in s.dead.waiters.queue && t !in s.fault.waiters.queue
  }

  predicate IsIn<T>(s: Sys<T>, t: T, st: RunState) {
    t in s.tcb && s.tcb[t].state == st
  }

  /** The calls the model covers. Left out are those for which the source follows the wrong
      link (pausing a waiting thread, taking a queued fault, resuming a thread paused while
      waiting), reaping an id that names no thread, where it follows NULL, and events and
      lines that pass its arrays and words. */
  ghost predicate Modelled<T>(s: Sys<T>, image: T, c: Call<T>) {
    match c
    case Spawn(t, _) => t !in s.tcb
    case Reap(id) => id in s.table
    case Pause(id) => Target(s, image, id).Some? ==>
        Target(s, image, id).value in s.tcb && s.tcb[Target(s, image, id).value].state != Waiting
    case Resume(id) => id in s.table ==> s.table[id] in s.tcb && s.tcb[s.table[id]].state != PausedW
    case GetFault => s.fault.items.queue == []
    case WaitFor(e) => -EV_COUNT <= e
    case Reset(e) => e < 32 || e >= LATCHED
    case _ => true
  }

  /** The exact condition under which such a call keeps the invariant. It fails for the
      death of a thread that is pending already or has a stale link, for reapers and
      debuggers with a stale link, for reaping a paused thread that is pending or parked on
      a queue, and for resuming a parked one. */
  ghost predicate Sound<T>(s: Sys<T>, image: T, c: Call<T>) {
    match c
    case Reap(id) => id in s.table && IsIn(s, s.table[id], Paused) ==> Unparked(s, s.table[id])
    case Resume(id) => id in s.table && IsIn(s, s.table[id], Paused) ==> NotWaiter(s, s.table[id])
    case SetDead(id, _) => Target(s, image, id).Some? ==>
        var t := Target(s, image, id).value;
        IsIn(s, t, Queued) || IsIn(s, t, Waiting) || MayAnnounce(s.dead, t)
    case GetDead => MayAwait(s.dead, image)
    case GetFault => MayAwait(s.fault, image)
    case _ => true
  }

  /** The interrupts the model covers: a user-mode fault, the timer, lines 1 to 15 and the
      calls above. */
  ghost predicate Covers<T>(s: Sys<T>, i: Interrupt<T>) {
    s.active.Some? &&
    match i
    case Kcall(c) => Modelled(s, s.active.value, c)
    case Irq(n) => 1 <= n < 16
    case _ => true
  }

  ghost predicate SoundStep<T>(s: Sys<T>, i: Interrupt<T>) {
    s.active.Some? && (i.Kcall? ==> Sound(s, s.active.value, i.call))
  }

  /** The interrupts a run may take. */
  ghost predicate May<T>(s: Sys<T>, i: Interrupt<T>) {
    Covers(s, i) && SoundStep(s, i)
  }

  lemma EventSendKeeps<T>(s: Sys<T>, e: nat)
    requires Inv(s) && (e < 16 || LATCHED <= e < EV_COUNT)
    ensures Inv(EventSend(s, e)) && EventSend(s, e).active == s.active
  {
    hide TableOk, ActiveOk, SchedOk, EventsOk, ParkedOk, IrqOk, MaskOn;
    var s1 := s;
    if s.evq[e] != [] {
      var t := s.evq[e][0];
      var s2 := s.(evq := s.evq[e := s.evq[e][1..]]);
      FrontFrees(s, e);
      EaxKeeps(s2, t, e, {t});
      EventKeeps(WithEax(s2, t, e), t, -1);
      EnqueueSettles(WithEvent(WithEax(s2, t, e), t, -1), t);
      s1 := Wake(s, e);
    }
    if e < LATCHED {
      LatchKeeps(s1, e);
    }
  }

  lemma {:induction false} SendTimersKeeps<T>(s: Sys<T>, fired: seq<bool>, n: nat)
    requires Inv(s) && n <= |fired| == 16
    ensures Inv(SendTimers(s, fired, n)) && SendTimers(s, fired, n).active == s.active
  {
    hide InvX, EventSend;
    assert |s.irq| == |s.evq| == EV_COUNT by { InvShape(s, {}); }
    if n > 0 {
      SendTimersKeeps(s, fired, n - 1);
      EventSendKeeps(SendTimers(s, fired, n - 1), 255 - (n - 1));
    }
  }

  lemma InvShape<T>(s: Sys<T>, x: set<T>)
    requires InvX(s, x)
    ensures |s.irq| == |s.evq| == EV_COUNT && s.freq != 0
    ensures s.active.Some? ==> s.active.value in s.tcb && s.active.value !in x
  {
  }

  lemma TickKeeps<T>(s: Sys<T>)
    requires Inv(s) && s.active.Some?
    ensures Inv(DoTick(s, s.active.value))
  {
    hide InvX, Fires, SendTimers;
    InvShape(s, {});
    var s0 := s.(tick := s.tick + 1);
    NewTick(s, s.tick + 1);
    SendTimersKeeps(s0, Fired(s.tick + 1, s.freq), 16);
    var s1 := SendTimers(s0, Fired(s.tick + 1, s.freq), 16);
    RunningElsewhere(s1);
    SaveFrees(s1);
    EnqueueSettles(Save(s1), s.active.value);
  }

  lemma NewTick<T>(s: Sys<T>, tick: bv32)
    requires Inv(s)
    ensures Inv(s.(tick := tick))
  {
    hide TableOk, ActiveOk, SchedOk, EventsOk, ParkedOk, IrqOk;
  }

  /** The running thread is paused, as by a fault or before it parks. */
  lemma StopKeeps<T>(s: Sys<T>)
    requires Inv(s) && s.active.Some?
    ensures Inv(WithState(Save(s), s.active.value, Paused))
  {
    hide InvX;
    SaveFrees(s);
    PauseSettles(Save(s), s.active.value);
  }

  lemma PauseKeeps<T>(s: Sys<T>, id: int)
    requires Inv(s) && s.active.Some? && Modelled(s, s.active.value, Pause(id))
    ensures Inv(DoPause(s, s.active.value, Target(s, s.active.value, id)))
  {
    hide InvX;
    var image := s.active.value;
    if Target(s, image, id).Some? {
      var t := Target(s, image, id).value;
      match s.tcb[t].state {
        case Running =>
          RunningIsActive(s, t);
          StopKeeps(s);
          EaxKeeps(WithState(Save(s), t, Paused), image, 0, {});
        case Queued =>
          RemoveFrees(s, t);
          PauseSettles(s.(sched := Remove(s.sched, t)), t);
          EaxKeeps(WithState(s.(sched := Remove(s.sched, t)), t, Paused), image, 0, {});
        case _ => EaxKeeps(s, image, TE_STATE, {});
      }
    } else {
      EaxKeeps(s, image, TE_EXIST, {});
    }
  }

  lemma RunningIsActive<T>(s: Sys<T>, t: T)
    requires Inv(s) && t in s.tcb && s.tcb[t].state == Running
    ensures s.active == Some(t)
  {
  }

  /** Queueing a paused thread keeps the invariant exactly if it is not parked. */
  lemma QueueKeepsIff<T>(s: Sys<T>, t: T)
    requires Inv(s) && t in s.tcb && s.tcb[t].state == Paused
    ensures Inv(Enqueue(s, t)) <==> NotWaiter(s, t)
  {
    if NotWaiter(s, t) {
      hide InvX;
      PausedIsFree(s, t);
      EnqueueSettles(s, t);
    } else {
      hide TableOk, ActiveOk, SchedOk, EventsOk, IrqOk, PairOk, HalfOk;
    }
  }

  lemma ResumeKeeps<T>(s: Sys<T>, image: T, id: int)
    requires Inv(s) && Modelled(s, image, Resume(id))
    ensures Inv(DoResume(s, image, Get(s, id))) <==> Sound(s, image, Resume(id))
  {
    hide InvX, NotWaiter, Enqueue;
    if id in s.table {
      var t := s.table[id];
      if s.tcb[t].state == Paused {
        QueueKeepsIff(s, t);
        EaxKeeps(Enqueue(s, t), image, 0, {});
      } else {
        EaxKeeps(s, image, TE_STATE, {});
      }
    } else {
      EaxKeeps(s, image, TE_EXIST, {});
    }
  }

  lemma SetDeadKeeps<T>(s: Sys<T>, id: int, v: int)
    requires Inv(s) && s.active.Some?
    ensures Inv(DoSetDead(s, s.active.value, Target(s, s.active.value, id), v)) <==> Sound(s, s.active.value, SetDead(id, v))
  {
    hide InvX, DeadPush, MayAnnounce;
    InvShape(s, {});
    var image := s.active.value;
    if Target(s, image, id).Some? {
      var t := Target(s, image, id).value;
      TargetInTable(s, image, id);
      match s.tcb[t].state {
        case Running =>
          RunningIsActive(s, t);
          StopKeeps(s);
          var s1 := WithState(Save(s), t, Paused);
          DeadPushKeepsIff(s1, t);
          EaxKeeps(DeadPush(s1, t), t, v, {});
          EaxKeeps(WithEax(DeadPush(s1, t), t, v), image, 0, {});
        case Queued => EaxKeeps(s, image, TE_STATE, {});
        case Waiting => EaxKeeps(s, image, TE_STATE, {});
        case _ =>
          DeadPushKeepsIff(s, t);
          EaxKeeps(DeadPush(s, t), t, v, {});
          EaxKeeps(WithEax(DeadPush(s, t), t, v), image, 0, {});
      }
    } else {
      EaxKeeps(s, image, TE_EXIST, {});
    }
  }

  lemma TargetInTable<T>(s: Sys<T>, image: T, id: int)
    requires Inv(s) && image in s.tcb && Target(s, image, id).Some?
    ensures Target(s, image, id).value in s.tcb
  {
  }

  /** Asking for a death keeps the invariant exactly if one is pending or the reapers'
      queue can take the caller. */
  lemma GetDeadKeeps<T>(s: Sys<T>)
    requires Inv(s) && s.active.Some?
    ensures Inv(DoGetDead(s, s.active.value)) <==> MayAwait(s.dead, s.active.value)
  {
    hide InvX, MayAwait, Await, WithEax, WithState, PairOk;
    var image := s.active.value;
    RunningElsewhere(s);
    DeadShape(s);
    if s.dead.items.tail.Some? {
      DeadAwaitedIff(s, image);
      EaxKeeps(s.(dead := Await(s.dead, image)), image, IdOf(s, s.dead.items.tail.value), {});
    } else {
      StopKeeps(s);
      StopOnly(s, image);
      DeadAwaitedIff(WithState(Save(s), image, Paused), image);
    }
  }

  lemma DeadAwaitedIff<T>(s: Sys<T>, r: T)
    requires Inv(s) && r in s.tcb
    requires s.dead.items.queue == [] ==> s.tcb[r].state == Paused && r !in s.fault.waiters.queue
    ensures Inv(s.(dead := Await(s.dead, r))) <==> MayAwait(s.dead, r)
  {
    hide InvX, MayAwait, Await, PairOk;
    DeadPairOk(s);
    AwaitOk(s.dead, r);
    if MayAwait(s.dead, r) {
      DeadAwaited(s, r);
    }
    if Inv(s.(dead := Await(s.dead, r))) {
      DeadPairOk(s.(dead := Await(s.dead, r)));
    }
  }

  /** Pausing the running thread changes nothing but its state and the active slot. */
  lemma StopOnly<T>(s: Sys<T>, t: T)
    ensures var s' := WithState(Save(s), t, Paused);
      && s'.sched == s.sched && s'.dead == s.dead && s'.fault == s.fault
      && (t in s.tcb ==> t in s'.tcb && s'.tcb[t].state == Paused)
  {
  }

  lemma DeadShape<T>(s: Sys<T>)
    requires Inv(s)
    ensures s.dead.items.tail == None <==> s.dead.items.queue == []
    ensures s.fault.items.tail == None <==> s.fault.items.queue == []
  {
  }

  lemma GetFaultKeeps<T>(s: Sys<T>)
    requires Inv(s) && s.active.Some? && s.fault.items.queue == []
    ensures Inv(DoGetFault(s, s.active.value)) <==> MayAwait(s.fault, s.active.value)
  {
    hide InvX, MayAwait, Await, WithState, HalfOk;
    var image := s.active.value;
    RunningElsewhere(s);
    StopKeeps(s);
    StopOnly(s, image);
    DeadPairOk(s);
    AwaitHalfOk(s.fault, image);
    if MayAwait(s.fault, image) {
      FaultAwaited(WithState(Save(s), image, Paused), image);
    }
    if Inv(DoGetFault(s, image)) {
      DeadPairOk(DoGetFault(s, image));
    }
  }

  lemma WaitKeeps<T>(s: Sys<T>, e: int)
    requires Inv(s) && s.active.Some? && -EV_COUNT <= e
    ensures |s.irq| == |s.evq| == EV_COUNT && Inv(EventWait(s, s.active.value, e).0)
  {
    hide InvX;
    InvShape(s, {});
    var t := s.active.value;
    if 0 <= e < EV_COUNT {
      SaveFrees(s);
      if s.irq[e] {
        EnqueueSettles(Save(s), t);
      } else {
        WaitSettles(Save(s), t, e);
      }
    }
  }

  /** A call keeps the invariant if and only if it is sound. */
  lemma CallKeepsIff<T>(s: Sys<T>, c: Call<T>)
    requires Inv(s) && s.active.Some? && Modelled(s, s.active.value, c)
    ensures |s.irq| == |s.evq| == EV_COUNT
    ensures Inv(DoCall(s, s.active.value, c)) <==> Sound(s, s.active.value, c)
  {
    hide InvX, DoPause, DoResume, DoReap, DoSetDead, DoGetDead, DoGetFault, EventWait, Unparked, NotWaiter, MayAnnounce, MayAwait;
    InvShape(s, {});
    var image := s.active.value;
    match c {
      case Spawn(t, v) =>
        match FreeSlot(s, 0) {
          case None => EaxKeeps(s, image, -1, {});
          case Some(id) =>
            SpawnKeeps(s, t, id, v);
            EaxKeeps(Push(Grow(s, t, Tcb(id, Queued, 0, v)), t), image, id, {});
        }
      case Reap(id) => ReapKeeps(s, image, id);
      case GetTid => EaxKeeps(s, image, IdOf(s, image), {});
      case Yield =>
        SaveFrees(s);
        EnqueueSettles(Save(s), image);
      case Pause(id) => PauseKeeps(s, id);
      case Resume(id) => ResumeKeeps(s, image, id);
      case SetDead(id, v) => SetDeadKeeps(s, id, v);
      case GetDead => GetDeadKeeps(s);
      case GetFault => GetFaultKeeps(s);
      case WaitFor(e) =>
        WaitKeeps(s, e);
        EaxKeeps(EventWait(s, image, e).0, image, EventWait(s, image, e).1, {});
      case Reset(e) =>
        if e < LATCHED {
          UnlatchKeeps(s, e);
          EaxKeeps(s.(irq := s.irq[e := false], mask := MaskOff(s.mask, e)), image, 0, {});
        } else {
          EaxKeeps(s, image, 0, {});
        }
    }
  }

  lemma ReapKeeps<T>(s: Sys<T>, image: T, id: int)
    requires Inv(s) && image in s.tcb && id in s.table
    ensures Inv(DoReap(s, image, s.table[id])) <==> Sound(s, image, Reap(id))
  {
    hide InvX, WithEax, Unparked;
    var t := s.table[id];
    TargetInTable(s, image, id);
    EaxKeeps(s, image, TE_STATE, {});
    EaxKeeps(s, image, 0, {});
    if s.tcb[t].state == Paused {
      EaxUnparked(s, image, t);
      KillKeepsIff(WithEax(s, image, 0), t);
    }
  }

  lemma EaxUnparked<T>(s: Sys<T>, image: T, t: T)
    requires t in s.tcb
    ensures var s' := WithEax(s, image, 0);
      t in s'.tcb && s'.tcb[t].state == s.tcb[t].state && s'.tcb[t].id == s.tcb[t].id && (Unparked(s', t) <==> Unparked(s, t))
  {
  }

  lemma HandleReady<T>(s: Sys<T>, i: Interrupt<T>)
    requires Inv(s) && Covers(s, i)
    ensures Ready(s, i)
  {
    hide InvX;
    InvShape(s, {});
  }

  /** The handler of any interrupt keeps the invariant. */
  lemma HandleKeeps<T>(s: Sys<T>, i: Interrupt<T>)
    requires Inv(s) && May(s, i)
    ensures Ready(s, i) && Inv(Handle(s, i))
  {
    hide InvX, DoCall, DoTick, EventSend, FaultPush;
    InvShape(s, {});
    match i {
      case Kcall(c) => CallKeepsIff(s, c);
      case Irq(n) => EventSendKeeps(s, n);
      case Tick => TickKeeps(s);
      case PageFault =>
        StopKeeps(s);
        FaultPushKeeps(WithState(Save(s), s.active.value, Paused), s.active.value);
    }
  }

  /** So does the dispatch, which leaves a thread running unless none can. */
  lemma DispatchKeeps<T>(s: Sys<T>)
    requires Inv(s)
    ensures Inv(Dispatch(s)) && (Dispatch(s).active == None ==> Dispatch(s).sched == [])
  {
    hide InvX;
    if s.active == None && s.sched != [] {
      var t := s.sched[0];
      QueuedAre(s, t);
      RemoveFrees(s, t);
      RunSettles(s.(sched := Remove(s.sched, t)), t);
    }
  }

  lemma QueuedAre<T>(s: Sys<T>, t: T)
    requires Inv(s) && t in s.sched
    ensures t in s.tcb && s.tcb[t].state == Queued
  {
  }

  // ---------------------------------------------------------------------------
  // Every run
  // ---------------------------------------------------------------------------

  function Step<T(==)>(s: Sys<T>, i: Interrupt<T>): Sys<T>
    requires Ready(s, i)
  {
    Dispatch(Handle(s, i))
  }

  /** `s'` is the state after interrupt `i` in state `s`. */
  ghost predicate Steps<T>(s: Sys<T>, i: Interrupt<T>, s': Sys<T>) {
    Ready(s, i) && s' == Step(s, i)
  }

  /** `trace` is the states between the interrupts `run`. */
  ghost predicate IsRun<T>(run: seq<Interrupt<T>>, trace: seq<Sys<T>>) {
    && |trace| == |run| + 1
    && forall k {:trigger run[k]} :: 0 <= k < |run| ==> May(trace[k], run[k]) && Steps(trace[k], run[k], trace[k + 1])
  }

  lemma StepKeeps<T>(s: Sys<T>, i: Interrupt<T>, s': Sys<T>)
    requires Inv(s) && May(s, i) && Steps(s, i, s')
    ensures Inv(s') && (s'.active == None ==> s'.sched == [])
  {
    hide InvX, May, Handle, Dispatch;
    HandleKeeps(s, i);
    DispatchKeeps(Handle(s, i));
  }

  /** Over every run, whatever the threads call and whenever interrupts arrive: at most one
      thread is running and it is the active one, a thread is queued exactly if it is in
      the scheduler queue, where it stands once, and it is waiting exactly if it is in the
      one event queue its event names, once. The processor idles only if no thread is
      queued. */
  lemma {:induction false} RunKeeps<T>(run: seq<Interrupt<T>>, trace: seq<Sys<T>>, n: nat)
    requires IsRun(run, trace) && Inv(trace[0]) && n <= |run|
    ensures Inv(trace[n])
    ensures forall t :: t in trace[n].tcb ==>
              && (trace[n].tcb[t].state == Running <==> trace[n].active == Some(t))
              && (trace[n].tcb[t].state == Queued <==> t in trace[n].sched)
              && (trace[n].tcb[t].state == Waiting ==> InEventQueue(trace[n], t, trace[n].tcb[t].event))
              && (forall e :: InEventQueue(trace[n], t, e) ==> trace[n].tcb[t].state == Waiting && trace[n].tcb[t].event == e)
    ensures NoDup(trace[n].sched) && forall e :: 0 <= e < |trace[n].evq| ==> NoDup(trace[n].evq[e])
    ensures n > 0 && trace[n].active == None ==> trace[n].sched == []
  {
    hide InvX, Steps, May, NoDup, InEventQueue;
    if n > 0 {
      RunKeeps(run, trace, n - 1);
      OneStep(run, trace, n - 1);
      StepKeeps(trace[n - 1], run[n - 1], trace[n]);
    }
    InvMeans(trace[n]);
  }

  // What happens outside the guard.

  ghost predicate Parks<T>(s: Sys<T>) {
    ParkedOk(s.dead, s.fault, s.tcb, {})
  }

  lemma KillUnparks<T>(s: Sys<T>, image: T, t: T)
    requires Inv(s) && t in s.tcb && s.tcb[t].state == Paused && !Unparked(s, t)
    ensures !Parks(DoReap(s, image, t))
  {
    hide InvX, PairOk, HalfOk;
    EaxUnparked(s, image, t);
  }

  lemma QueueUnparks<T>(s: Sys<T>, image: T, t: T)
    requires t in s.tcb && s.tcb[t].state == Paused && !NotWaiter(s, t)
    ensures !Parks(DoResume(s, image, Some(t)))
  {
    hide PairOk, HalfOk;
  }

  lemma DeathUnparks<T>(s: Sys<T>, image: T, t: T, v: int)
    requires Inv(s) && t in s.tcb && !MayAnnounce(s.dead, t) && !IsIn(s, t, Queued) && !IsIn(s, t, Waiting)
    ensures !Parks(DoSetDead(s, image, Some(t), v))
  {
    hide InvX, PairOk, MayAnnounce, DeadPush, HalfOk;
    DeadPairOk(s);
    AnnounceOk(s.dead, t);
    StopOnly(s, t);
    DeadPushPair(s, t);
    DeadPushPair(WithState(Save(s), t, Paused), t);
  }

  lemma AskUnparks<T>(s: Sys<T>, image: T)
    requires Inv(s)
    ensures !MayAwait(s.dead, image) ==> !Parks(DoGetDead(s, image))
    ensures s.fault.items.queue == [] && !MayAwait(s.fault, image) ==> !Parks(DoGetFault(s, image))
  {
    hide InvX, PairOk, HalfOk, MayAwait, Await, WithState;
    DeadPairOk(s);
    AwaitOk(s.dead, image);
    if s.fault.items.queue == [] {
      AwaitHalfOk(s.fault, image);
    }
    DeadShape(s);
    StopOnly(s, image);
    AwaitNonempty(s, image);
  }

  lemma AwaitNonempty<T>(s: Sys<T>, image: T)
    requires Inv(s)
    ensures s.dead.items.tail.Some? ==> MayAwait(s.dead, image)
  {
    hide InvX;
    DeadShape(s);
  }

  lemma UnsoundUnparks<T>(s: Sys<T>, c: Call<T>)
    requires Inv(s) && s.active.Some? && Modelled(s, s.active.value, c) && !Sound(s, s.active.value, c)
    ensures |s.irq| == |s.evq| == EV_COUNT && !Parks(DoCall(s, s.active.value, c))
  {
    hide InvX, Parks, DoReap, DoResume, DoSetDead, DoGetDead, DoGetFault, Unparked, NotWaiter, MayAnnounce, MayAwait;
    InvShape(s, {});
    var image := s.active.value;
    match c {
      case Reap(id) => KillUnparks(s, image, s.table[id]);
      case Resume(id) => QueueUnparks(s, image, s.table[id]);
      case SetDead(id, v) =>
        TargetInTable(s, image, id);
        DeathUnparks(s, image, Target(s, image, id).value, v);
      case GetDead => AskUnparks(s, image);
      case GetFault => AskUnparks(s, image);
    }
  }

  lemma DispatchUnparks<T>(s: Sys<T>)
    requires !Parks(s)
    ensures !Parks(Dispatch(s))
  {
    hide PairOk, HalfOk, Remove;
  }

  /** The exact condition for a step: of the interrupts the model covers, exactly the sound
      ones keep the invariant. */
  lemma StepKeepsIff<T>(s: Sys<T>, i: Interrupt<T>, s': Sys<T>)
    requires Inv(s) && Covers(s, i) && Steps(s, i, s')
    ensures Inv(s') <==> SoundStep(s, i)
  {
    hide InvX, Modelled, Sound, DoCall, DoTick, EventSend, FaultPush, Dispatch;
    if SoundStep(s, i) {
      StepKeeps(s, i, s');
    } else {
      UnsoundUnparks(s, i.call);
      DispatchUnparks(Handle(s, i));
      if Inv(s') {
        InvParks(s');
      }
    }
  }

  lemma InvParks<T>(s: Sys<T>)
    requires Inv(s)
    ensures Parks(s)
  {
  }

  /** `trace` is the states between any interrupts that the model covers. */
  ghost predicate IsTrace<T>(run: seq<Interrupt<T>>, trace: seq<Sys<T>>) {
    && |trace| == |run| + 1
    && forall k {:trigger run[k]} :: 0 <= k < |run| ==> Covers(trace[k], run[k]) && Steps(trace[k], run[k], trace[k + 1])
  }

  ghost predicate AllSound<T>(run: seq<Interrupt<T>>, trace: seq<Sys<T>>, n: nat)
    requires n <= |run| < |trace|
  {
    forall k {:trigger run[k]} :: 0 <= k < n ==> SoundStep(trace[k], run[k])
  }

  ghost predicate AllInv<T>(trace: seq<Sys<T>>, n: nat)
    requires n < |trace|
  {
    forall k {:trigger trace[k]} :: 0 <= k <= n ==> Inv(trace[k])
  }

  /** Over every run of covered interrupts the invariant holds in every state if and only if
      every call is sound in the state in which it is made. */
  lemma {:induction false} RunKeepsIff<T>(run: seq<Interrupt<T>>, trace: seq<Sys<T>>, n: nat)
    requires IsTrace(run, trace) && Inv(trace[0]) && n <= |run| < |trace|
    ensures AllInv(trace, n) <==> AllSound(run, trace, n)
  {
    hide InvX, Steps, Covers, SoundStep;
    if n > 0 {
      RunKeepsIff(run, trace, n - 1);
      assert Covers(trace[n - 1], run[n - 1]) && Steps(trace[n - 1], run[n - 1], trace[n]);
      if Inv(trace[n - 1]) {
        StepKeepsIff(trace[n - 1], run[n - 1], trace[n]);
      }
      assert AllInv(trace, n) <==> AllInv(trace, n - 1) && Inv(trace[n]);
      assert AllSound(run, trace, n) <==> AllSound(run, trace, n - 1) && SoundStep(trace[n - 1], run[n - 1]);
      assert AllInv(trace, n - 1) ==> Inv(trace[n - 1]);
    }
  }

  ghost predicate InEventQueue<T>(s: Sys<T>, t: T, e: int) {
    0 <= e < |s.evq| && t in s.evq[e]
  }

  lemma OneStep<T>(run: seq<Interrupt<T>>, trace: seq<Sys<T>>, k: nat)
    requires IsRun(run, trace) && k < |run|
    ensures May(trace[k], run[k]) && Steps(trace[k], run[k], trace[k + 1])
  {
  }

  lemma InvMeans<T>(s: Sys<T>)
    requires Inv(s)
    ensures forall t :: t in s.tcb ==>
              && (s.tcb[t].state == Running <==> s.active == Some(t))
              && (s.tcb[t].state == Queued <==> t in s.sched)
              && (s.tcb[t].state == Waiting ==> InEventQueue(s, t, s.tcb[t].event))
              && (forall e :: InEventQueue(s, t, e) ==> s.tcb[t].state == Waiting && s.tcb[t].event == e)
    ensures NoDup(s.sched) && forall e :: 0 <= e < |s.evq| ==> NoDup(s.evq[e])
  {
    hide IrqOk, PairOk, HalfOk, TableOk;
  }

  /** RESUME of a thread that was paused while it waited: the thread waits again. */
  function ResumeWaiter<T(==)>(s: Sys<T>, image: T, t: T): Sys<T>
    requires |s.irq| == |s.evq| == EV_COUNT && t in s.tcb && 0 <= s.tcb[t].event
  {
    WithEax(WithState(EventWait(s, t, s.tcb[t].event).0, t, Waiting), image, 0)
  }

  /** Such a call keeps the invariant in no state at all where the event is a valid one:
      the wait clears the active thread, which is the caller, so the caller is left
      running, active nowhere and on no queue. This is why runs do without it. */
  lemma ResumeWaiterLosesCaller<T>(s: Sys<T>, t: T)
    requires Inv(s) && s.active.Some? && t in s.tcb && s.tcb[t].state == PausedW && 0 <= s.tcb[t].event < EV_COUNT
    ensures var image := s.active.value;
      var s' := ResumeWaiter(s, image, t);
      && !Inv(s') && s'.active == None && image in s'.tcb && s'.tcb[image].state == Running
  {
    hide InvX, EventWait;
    var image := s.active.value;
    RunningElsewhere(s);
    InvShape(s, {});
    WaitDeactivates(s, t, s.tcb[t].event, image);
    var s' := ResumeWaiter(s, image, t);
    if Inv(s') {
      RunningIsActive(s', image);
    }
  }

  /** Waiting on any valid event clears the active thread, whichever thread waits. */
  lemma WaitDeactivates<T>(s: Sys<T>, t: T, e: nat, u: T)
    requires |s.irq| == |s.evq| == EV_COUNT && e < EV_COUNT && u in s.tcb && u != t
    ensures var s' := EventWait(s, t, e).0; s'.active == None && u in s'.tcb && s'.tcb[u] == s.tcb[u]
  {
    hide WithState, WithEvent;
    OthersKept(Save(s).(sched := s.sched + [t]), t, Queued, 0, u);
    var s0 := s.(evq := s.evq[e := s.evq[e] + [t]]);
    OthersKept(s0, t, Waiting, e, u);
    OthersKept(Save(WithEvent(s0, t, e)), t, Waiting, e, u);
  }

  lemma OthersKept<T>(s: Sys<T>, t: T, st: RunState, e: int, u: T)
    requires u in s.tcb && u != t
    ensures u in WithState(s, t, st).tcb && WithState(s, t, st).tcb[u] == s.tcb[u] && WithState(s, t, st).active == s.active
    ensures u in WithEvent(s, t, e).tcb && WithEvent(s, t, e).tcb[u] == s.tcb[u] && WithEvent(s, t, e).active == s.active
  {
  }

  /** The state `init` leaves: one thread, running. */
  ghost function Boot<T>(t: T, freq: bv32): Sys<T> {
    Sys(map[t := Tcb(0, Running, 0, 0)], map[0 := t], Some(t), [], seq(EV_COUNT, _ => []),
        seq(EV_COUNT, _ => false), 0, NewPair(), NewPair(), 0, freq)
  }

  lemma BootKeeps<T>(t: T, freq: bv32)
    requires freq != 0
    ensures Inv(Boot(t, freq))
  {
    hide PairOk, Masked;
    NewPairOk<T>();
    forall e: nat | e < 16
      ensures !Masked(0, e)
    {
      NothingMasked(e);
    }
  }
}
