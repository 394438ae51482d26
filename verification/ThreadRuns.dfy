/** What runs of the thread state machine promise: the scheduler is fair, no interrupt is
    lost, waiters are woken in order, and the virtual timers keep their rates. */
module ThreadRuns {
  import opened Arith
  import opened Base
  import opened IrqMask
  import opened Rendezvous
  import opened Timer
  import opened ThreadModel

  // ---------------------------------------------------------------------------
  // Fairness
  // ---------------------------------------------------------------------------

  /** The handler lets go of the processor, so the closing dispatch runs a queued thread. */
  ghost predicate Dispatches<T>(s: Sys<T>, i: Interrupt<T>) {
    Ready(s, i) && Handle(s, i).active == None
  }

  /** Interrupt `i` pauses a thread at position `k` of the queue or ahead of it. */
  ghost predicate TakesOut<T>(s: Sys<T>, i: Interrupt<T>, k: nat) {
    && s.active.Some? && i.Kcall? && i.call.Pause? && k < |s.sched|
    && Target(s, s.active.value, i.call.target).Some?
    && Target(s, s.active.value, i.call.target).value in s.sched[..k + 1]
  }

  lemma EnqueueAppends<T>(s: Sys<T>, t: T)
    ensures Enqueue(s, t).sched == s.sched + [t]
  {
  }

  lemma DeadPushAppends<T>(s: Sys<T>, t: T)
    ensures s.sched <= DeadPush(s, t).sched
  {
  }

  lemma SetDeadAppends<T>(s: Sys<T>, image: T, target: Option<T>, v: int)
    ensures s.sched <= DoSetDead(s, image, target, v).sched
  {
    hide DeadPush;
    if target.Some? {
      DeadPushAppends(s, target.value);
      DeadPushAppends(WithState(Save(s), target.value, Paused), target.value);
    }
  }

  lemma GetDeadAppends<T>(s: Sys<T>, image: T)
    ensures s.sched <= DoGetDead(s, image).sched
  {
    hide Await;
  }

  lemma WaitAppends<T>(s: Sys<T>, t: T, e: int)
    requires -EV_COUNT <= e && |s.irq| == |s.evq| == EV_COUNT
    ensures s.sched <= EventWait(s, t, e).0.sched
  {
  }

  /** Every call but a pause only appends to the queue. */
  lemma CallAppends<T>(s: Sys<T>, image: T, c: Call<T>)
    requires |s.irq| == |s.evq| == EV_COUNT && (c.WaitFor? ==> -EV_COUNT <= c.event) && !c.Pause?
    ensures s.sched <= DoCall(s, image, c).sched
  {
    hide DoSetDead, DoGetDead, EventWait, Await;
    match c {
      case SetDead(id, v) => SetDeadAppends(s, image, Target(s, image, id), v);
      case GetDead => GetDeadAppends(s, image);
      case WaitFor(e) => WaitAppends(s, image, e);
      case _ =>
    }
  }

  lemma {:induction false} RemoveBehind<T>(q: seq<T>, t: T, k: nat)
    requires k < |q| && t !in q[..k + 1]
    ensures k < |Remove(q, t)| && Remove(q, t)[..k + 1] == q[..k + 1]
  {
    assert q[0] == q[..k + 1][0];
    if k > 0 {
      assert q[1..][..k] == q[..k + 1][1..];
      RemoveBehind(q[1..], t, k - 1);
    }
  }

  lemma PauseKeepsAhead<T>(s: Sys<T>, image: T, target: Option<T>, k: nat)
    requires k < |s.sched| && (target.Some? ==> target.value !in s.sched[..k + 1])
    ensures k < |DoPause(s, image, target).sched| && DoPause(s, image, target).sched[..k + 1] == s.sched[..k + 1]
  {
    if target.Some? {
      RemoveBehind(s.sched, target.value, k);
    }
  }

  /** The queue up to position `k` is untouched by a handler that takes nobody out of it. */
  lemma HandleKeepsAhead<T>(s: Sys<T>, i: Interrupt<T>, k: nat)
    requires Inv(s) && May(s, i) && k < |s.sched| && !TakesOut(s, i, k)
    ensures Ready(s, i) && k < |Handle(s, i).sched| && Handle(s, i).sched[..k + 1] == s.sched[..k + 1]
  {
    hide InvX, DoCall, DoTick, EventSend, DoPause;
    InvShape(s, {});
    var image := s.active.value;
    match i {
      case Kcall(c) =>
        if c.Pause? {
          PauseCall(s, image, c.target);
          PauseKeepsAhead(s, image, Target(s, image, c.target), k);
        } else {
          CallAppends(s, image, c);
        }
      case Irq(n) => SendEffect(s, n);
      case Tick => TickEffect(s, image, 0);
      case PageFault =>
    }
  }

  lemma PauseCall<T>(s: Sys<T>, image: T, id: int)
    requires |s.irq| == |s.evq| == EV_COUNT
    ensures DoCall(s, image, Pause(id)) == DoPause(s, image, Target(s, image, id))
  {
  }

  /** One step moves a queued thread up by one position if it dispatches, and makes it run
      if it was first; otherwise the thread stays where it is. */
  lemma StepMoves<T>(s: Sys<T>, i: Interrupt<T>, s': Sys<T>, k: nat)
    requires Inv(s) && May(s, i) && Steps(s, i, s') && k < |s.sched| && !TakesOut(s, i, k)
    ensures Dispatches(s, i) && k == 0 ==> s'.active == Some(s.sched[0])
    ensures Dispatches(s, i) && k > 0 ==> k - 1 < |s'.sched| && s'.sched[k - 1] == s.sched[k]
    ensures !Dispatches(s, i) ==> k < |s'.sched| && s'.sched[k] == s.sched[k]
  {
    hide InvX, May, Handle, TakesOut;
    HandleKeepsAhead(s, i, k);
    var h := Handle(s, i);
    assert h.sched[..k + 1][k] == s.sched[..k + 1][k] && h.sched[..k + 1][0] == s.sched[..k + 1][0];
  }

  /** How many of the first `n` steps of a run dispatch. */
  ghost function Turns<T>(run: seq<Interrupt<T>>, trace: seq<Sys<T>>, n: nat): nat
    requires n <= |run| < |trace|
  {
    if n == 0 then 0 else Turns(run, trace, n - 1) + if Dispatches(trace[n - 1], run[n - 1]) then 1 else 0
  }

  /** Nobody takes the thread at position `k`, or one ahead of it, out of the queue during
      the first `n` steps. */
  ghost predicate Undisturbed<T>(run: seq<Interrupt<T>>, trace: seq<Sys<T>>, k: nat, n: nat)
    requires n <= |run| < |trace|
  {
    forall j {:trigger run[j]} :: 0 <= j < n && Turns(run, trace, j) <= k ==> !TakesOut(trace[j], run[j], k - Turns(run, trace, j))
  }

  lemma NotTaken<T>(run: seq<Interrupt<T>>, trace: seq<Sys<T>>, k: nat, n: nat)
    requires 0 < n <= |run| < |trace| && Undisturbed(run, trace, k, n)
    ensures Undisturbed(run, trace, k, n - 1)
    ensures Turns(run, trace, n - 1) <= k ==> !TakesOut(trace[n - 1], run[n - 1], k - Turns(run, trace, n - 1))
  {
    hide TakesOut, Turns;
  }

  /** A thread at position `k` advances by exactly one position with every dispatch, however
      many threads are queued behind it meanwhile. */
  lemma {:induction false} Advances<T>(run: seq<Interrupt<T>>, trace: seq<Sys<T>>, k: nat, n: nat)
    requires IsRun(run, trace) && Inv(trace[0]) && k < |trace[0].sched| && n <= |run| < |trace|
    requires Undisturbed(run, trace, k, n) && Turns(run, trace, n) <= k
    ensures k - Turns(run, trace, n) < |trace[n].sched| && trace[n].sched[k - Turns(run, trace, n)] == trace[0].sched[k]
  {
    hide InvX, Steps, May, Dispatches, TakesOut, IsRun, Undisturbed;
    if n > 0 {
      NotTaken(run, trace, k, n);
      Advances(run, trace, k, n - 1);
      RunKeeps(run, trace, n - 1);
      OneStep(run, trace, n - 1);
      StepMoves(trace[n - 1], run[n - 1], trace[n], k - Turns(run, trace, n - 1));
    }
  }

  /** Fairness: a thread at position `k` runs at the dispatch after exactly `k` others. */
  lemma RunsInTurn<T>(run: seq<Interrupt<T>>, trace: seq<Sys<T>>, k: nat, n: nat)
    requires IsRun(run, trace) && Inv(trace[0]) && k < |trace[0].sched| && n < |run| < |trace|
    requires Undisturbed(run, trace, k, n + 1) && Turns(run, trace, n) == k && Dispatches(trace[n], run[n])
    ensures trace[n + 1].active == Some(trace[0].sched[k])
  {
    hide InvX, Steps, May, Dispatches, TakesOut, IsRun, Undisturbed;
    NotTaken(run, trace, k, n + 1);
    Advances(run, trace, k, n);
    RunKeeps(run, trace, n);
    OneStep(run, trace, n);
    StepMoves(trace[n], run[n], trace[n + 1], 0);
  }

  /** Every timer interrupt preempts the running thread, so the dispatch runs another. */
  lemma TickDispatches<T>(s: Sys<T>)
    requires Inv(s) && s.active.Some?
    ensures Dispatches(s, Interrupt<T>.Tick)
  {
    hide InvX, Fired, SendTimers;
    InvShape(s, {});
    var fired := Fired(s.tick + 1, s.freq);
    var s0 := s.(tick := s.tick + 1);
    NewTick(s, s.tick + 1);
    SendTimersKeeps(s0, fired, 16);
    RunningElsewhere(SendTimers(s0, fired, 16));
  }

  /** The timer interrupts among the first `n`. */
  ghost function Ticks<T>(run: seq<Interrupt<T>>, n: nat): nat
    requires n <= |run|
  {
    if n == 0 then 0 else Ticks(run, n - 1) + if run[n - 1].Tick? then 1 else 0
  }

  lemma {:induction false} TicksAreTurns<T>(run: seq<Interrupt<T>>, trace: seq<Sys<T>>, n: nat)
    requires IsRun(run, trace) && Inv(trace[0]) && n <= |run| < |trace|
    ensures Ticks(run, n) <= Turns(run, trace, n)
  {
    hide InvX, Steps, Dispatches, IsRun, Covers, SoundStep;
    if n > 0 {
      TicksAreTurns(run, trace, n - 1);
      RunKeeps(run, trace, n - 1);
      OneStep(run, trace, n - 1);
      if run[n - 1].Tick? {
        RunningNow(trace[n - 1], run[n - 1]);
        TickDispatches(trace[n - 1]);
      }
    }
  }

  lemma RunningNow<T>(s: Sys<T>, i: Interrupt<T>)
    requires May(s, i)
    ensures s.active.Some?
  {
  }

  /** Thread `t` runs after one of the first `n` steps. */
  ghost predicate HasRun<T>(trace: seq<Sys<T>>, t: T, n: nat)
    requires n < |trace|
  {
    exists j {:trigger trace[j]} :: 0 < j <= n && trace[j].active == Some(t)
  }

  /** A thread at position `k` has run when there have been more than `k` dispatches. */
  lemma {:induction false} HasHadItsTurn<T>(run: seq<Interrupt<T>>, trace: seq<Sys<T>>, k: nat, n: nat)
    requires IsRun(run, trace) && Inv(trace[0]) && k < |trace[0].sched| && n <= |run| < |trace|
    requires Undisturbed(run, trace, k, n) && Turns(run, trace, n) > k
    ensures HasRun(trace, trace[0].sched[k], n)
  {
    hide InvX, Steps, May, Dispatches, TakesOut, IsRun, Undisturbed;
    NotTaken(run, trace, k, n);
    if Turns(run, trace, n - 1) > k {
      HasHadItsTurn(run, trace, k, n - 1);
    } else {
      RunsInTurn(run, trace, k, n - 1);
      assert trace[n].active == Some(trace[0].sched[k]);
    }
  }

  /** Nobody starves: whatever the threads do, a queued thread has run after one timer
      interrupt more than there were threads ahead of it, unless it or one of those is taken
      out of the queue. */
  lemma NobodyStarves<T>(run: seq<Interrupt<T>>, trace: seq<Sys<T>>, k: nat, n: nat)
    requires IsRun(run, trace) && Inv(trace[0]) && k < |trace[0].sched| && n <= |run| < |trace|
    requires Undisturbed(run, trace, k, n) && Ticks(run, n) > k
    ensures HasRun(trace, trace[0].sched[k], n)
  {
    hide *;
    TicksAreTurns(run, trace, n);
    HasHadItsTurn(run, trace, k, n);
  }

  // ---------------------------------------------------------------------------
  // No interrupt is lost
  // ---------------------------------------------------------------------------

  /** The event queues, latches and clock are the same. */
  predicate Aside<T>(s: Sys<T>, s': Sys<T>) {
    s'.evq == s.evq && s'.irq == s.irq && s'.tick == s.tick && s'.freq == s.freq
  }

  lemma FieldsAside<T>(s: Sys<T>, t: T, v: int, st: RunState)
    ensures Aside(s, WithEax(s, t, v)) && Aside(s, WithState(s, t, st)) && Aside(s, WithEvent(s, t, v))
    ensures Aside(s, Save(s)) && Aside(s, Push(s, t)) && Aside(s, Enqueue(s, t))
  {
  }

  lemma DeadPushAside<T>(s: Sys<T>, t: T)
    ensures Aside(s, DeadPush(s, t))
  {
    hide Announce, Enqueue, WithEax;
    var s1 := s.(dead := Announce(s.dead, t));
    if s.dead.waiters.tail.Some? {
      var r := s.dead.waiters.tail.value;
      FieldsAside(s1, r, IdOf(s, t), Queued);
      FieldsAside(WithEax(s1, r, IdOf(s, t)), r, 0, Queued);
    }
  }

  lemma FaultPushAside<T>(s: Sys<T>, t: T)
    ensures Aside(s, FaultPush(s, t))
  {
    hide Announce, Enqueue, WithEax;
    var s1 := s.(fault := Announce(s.fault, t));
    if s.fault.waiters.tail.Some? {
      var r := s.fault.waiters.tail.value;
      FieldsAside(s1, r, IdOf(s, t), Queued);
      FieldsAside(WithEax(s1, r, IdOf(s, t)), r, 0, Queued);
    }
  }

  lemma SetDeadAside<T>(s: Sys<T>, image: T, target: Option<T>, v: int)
    ensures Aside(s, DoSetDead(s, image, target, v))
  {
    hide DeadPush;
    if target.Some? {
      DeadPushAside(s, target.value);
      DeadPushAside(WithState(Save(s), target.value, Paused), target.value);
    }
  }

  lemma GetDeadAside<T>(s: Sys<T>, image: T)
    ensures Aside(s, DoGetDead(s, image))
  {
    hide Await;
  }

  lemma SpawnAside<T>(s: Sys<T>, image: T, t: T, v: int)
    ensures Aside(s, DoSpawn(s, image, t, v))
  {
    hide FreeSlot, Cleared;
  }

  lemma ReapAside<T>(s: Sys<T>, image: T, t: T)
    ensures Aside(s, DoReap(s, image, t))
  {
  }

  lemma PauseAside<T>(s: Sys<T>, image: T, target: Option<T>)
    ensures Aside(s, DoPause(s, image, target)) && Aside(s, DoResume(s, image, target))
  {
    hide Remove;
  }

  lemma FaultAside<T>(s: Sys<T>, image: T)
    ensures Aside(s, DoGetFault(s, image)) && Aside(s, Enqueue(Save(s), image))
  {
    hide Await;
  }

  /** Every call but a wait and a reset. */
  lemma CallAside<T>(s: Sys<T>, image: T, c: Call<T>)
    requires |s.irq| == |s.evq| == EV_COUNT && !c.WaitFor? && !c.Reset?
    ensures Aside(s, DoCall(s, image, c))
  {
    hide DoSpawn, DoReap, DoPause, DoResume, DoSetDead, DoGetDead, DoGetFault, WithEax, Enqueue;
    match c {
      case Spawn(t, v) => SpawnAside(s, image, t, v);
      case Reap(id) =>
        if Get(s, id).Some? {
          ReapAside(s, image, Get(s, id).value);
        }
      case GetTid => FieldsAside(s, image, IdOf(s, image), Queued);
      case Pause(id) => PauseAside(s, image, Target(s, image, id));
      case Resume(id) => PauseAside(s, image, Get(s, id));
      case SetDead(id, v) => SetDeadAside(s, image, Target(s, image, id), v);
      case GetDead => GetDeadAside(s, image);
      case _ => FaultAside(s, image);
    }
  }

  /** A wait that enters an event queue. */
  lemma BlockEffect<T>(s: Sys<T>, t: T, e: nat)
    requires |s.irq| == |s.evq| == EV_COUNT && e < EV_COUNT && !s.irq[e]
    ensures var s' := EventWait(s, t, e).0;
      && s'.irq == s.irq && s'.tick == s.tick && s'.freq == s.freq
      && s'.evq == s.evq[e := s.evq[e] + [t]]
  {
    hide WithState, WithEvent, Enqueue;
    var s0 := s.(evq := s.evq[e := s.evq[e] + [t]]);
    var s1 := WithEvent(s0, t, e);
    FieldsAside(s0, t, e, Waiting);
    FieldsAside(s1, t, e, Waiting);
    FieldsAside(Save(s1), t, e, Waiting);
  }

  /** A wait that returns at once. */
  lemma PassEffect<T>(s: Sys<T>, t: T, e: int)
    requires |s.irq| == |s.evq| == EV_COUNT && -EV_COUNT <= e && (0 <= e < EV_COUNT ==> s.irq[e])
    ensures Aside(s, EventWait(s, t, e).0)
  {
    hide Enqueue;
    FieldsAside(s, t, 0, Queued);
    FieldsAside(Save(s), t, 0, Queued);
  }

  lemma WaitEffect<T>(s: Sys<T>, image: T, event: int)
    requires |s.irq| == |s.evq| == EV_COUNT && -EV_COUNT <= event
    ensures var s' := DoCall(s, image, WaitFor(event));
      && s'.irq == s.irq && s'.tick == s.tick && s'.freq == s.freq
      && s'.evq == if 0 <= event < EV_COUNT && !s.irq[event] then s.evq[event := s.evq[event] + [image]] else s.evq
  {
    hide EventWait, WithEax;
    var (s1, r) := EventWait(s, image, event);
    FieldsAside(s1, image, r, Queued);
    if 0 <= event < EV_COUNT && !s.irq[event] {
      BlockEffect(s, image, event);
    } else {
      PassEffect(s, image, event);
    }
  }

  lemma ResetEffect<T>(s: Sys<T>, image: T, e: nat)
    requires |s.irq| == |s.evq| == EV_COUNT
    ensures var s' := DoCall(s, image, Reset(e));
      && s'.evq == s.evq && s'.tick == s.tick && s'.freq == s.freq
      && s'.irq == if e < LATCHED then s.irq[e := false] else s.irq
  {
    hide MaskOff;
  }

  lemma WakeEffect<T>(s: Sys<T>, e: nat)
    requires e < |s.evq| && s.evq[e] != []
    ensures var s' := Wake(s, e);
      && s'.evq == s.evq[e := s.evq[e][1..]] && s'.irq == s.irq && s'.tick == s.tick && s'.freq == s.freq
      && s'.sched == s.sched + [s.evq[e][0]]
  {
    hide WithEax, WithEvent, Enqueue;
    var t := s.evq[e][0];
    var s1 := s.(evq := s.evq[e := s.evq[e][1..]]);
    var s2 := WithEax(s1, t, e);
    var s3 := WithEvent(s2, t, -1);
    FieldsAside(s1, t, e, Queued);
    FieldsAside(s2, t, -1, Queued);
    FieldsAside(s3, t, 0, Queued);
    FieldsAside(Save(s3), t, 0, Queued);
    FieldsSched(s1, t, e);
    FieldsSched(s2, t, -1);
    EnqueueAppends(s3, t);
    EnqueueAppends(Save(s3), t);
  }

  lemma FieldsSched<T>(s: Sys<T>, t: T, v: int)
    ensures WithEax(s, t, v).sched == s.sched && WithEvent(s, t, v).sched == s.sched
  {
  }

  /** `event_send` pops one queue, appends to the scheduler queue and may set one latch. */
  lemma SendEffect<T>(s: Sys<T>, e: nat)
    requires |s.irq| == |s.evq| == EV_COUNT && e < EV_COUNT
    ensures var s' := EventSend(s, e);
      && s'.evq == s.evq[e := Popped(s.evq[e], true)] && s'.tick == s.tick && s'.freq == s.freq
      && s'.irq == (if e < LATCHED then s.irq[e := true] else s.irq)
      && s'.sched == s.sched + if s.evq[e] != [] then [s.evq[e][0]] else []
  {
    hide MaskOn, Wake;
    if s.evq[e] != [] {
      WakeEffect(s, e);
    }
  }

  /** A queue after one send. */
  function Popped<T>(q: seq<T>, sent: bool): seq<T> {
    if sent && q != [] then q[1..] else q
  }

  /** The timers pop the queues of those that fire, set no latch and leave the clock. */
  lemma {:induction false} TimersEffect<T>(s: Sys<T>, fired: seq<bool>, n: nat, e: nat)
    requires |s.irq| == |s.evq| == EV_COUNT && n <= |fired| == 16 && e < EV_COUNT
    ensures var s' := SendTimers(s, fired, n);
      && s'.irq == s.irq && s'.tick == s.tick && s'.freq == s.freq && s.sched <= s'.sched
      && s'.evq[e] == Popped(s.evq[e], e > 255 - n && fired[255 - e])
      && (e > 255 - n && fired[255 - e] && s.evq[e] != [] ==> s.evq[e][0] in s'.sched)
  {
    hide EventSend;
    if n > 0 {
      TimersEffect(s, fired, n - 1, e);
      SendEffect(SendTimers(s, fired, n - 1), 255 - (n - 1));
    }
  }

  lemma TickWithEffect<T>(s: Sys<T>, image: T, tick: bv32, fired: seq<bool>, e: nat)
    requires |s.irq| == |s.evq| == EV_COUNT && |fired| == 16 && e < EV_COUNT
    ensures var s' := TickWith(s, image, tick, fired);
      && s'.irq == s.irq && s'.tick == tick && s'.freq == s.freq && |s'.evq| == EV_COUNT
      && s'.evq[e] == Popped(s.evq[e], e > 239 && fired[255 - e])
      && (e > 239 && fired[255 - e] && s.evq[e] != [] ==> s.evq[e][0] in s'.sched)
      && s.sched <= s'.sched
  {
    hide SendTimers, Enqueue, Popped;
    var s0 := s.(tick := tick);
    var s1 := SendTimers(s0, fired, 16);
    TimersEffect(s0, fired, 16, e);
    FieldsAside(Save(s1), image, 0, Queued);
    EnqueueAppends(Save(s1), image);
  }

  lemma TickEffect<T>(s: Sys<T>, image: T, e: nat)
    requires |s.irq| == |s.evq| == EV_COUNT && s.freq != 0 && e < EV_COUNT
    ensures var s' := DoTick(s, image);
      && s'.irq == s.irq && s'.tick == s.tick + 1 && s'.freq == s.freq && |s'.evq| == EV_COUNT
      && s'.evq[e] == Popped(s.evq[e], e > 239 && Fired(s.tick + 1, s.freq)[255 - e])
      && (e > 239 && Fired(s.tick + 1, s.freq)[255 - e] && s.evq[e] != [] ==> s.evq[e][0] in s'.sched)
      && s.sched <= s'.sched
  {
    hide Fired, TickWith, Popped;
    TickWithEffect(s, image, s.tick + 1, Fired(s.tick + 1, s.freq), e);
  }

  lemma DispatchEffect<T>(s: Sys<T>)
    ensures Aside(s, Dispatch(s))
    ensures forall u :: u in s.sched ==> u in Dispatch(s).sched || Dispatch(s).active == Some(u)
  {
    if s.active == None && s.sched != [] {
      assert Remove(s.sched, s.sched[0]) == s.sched[1..];
      assert forall u :: u in s.sched ==> u == s.sched[0] || u in s.sched[1..];
    }
  }

  /** The latch of line `e` after interrupt `i`. */
  ghost function LatchAfter<T>(latched: bool, i: Interrupt<T>, e: nat): bool {
    if i == Irq(e) then true else if i == Kcall(Reset(e)) then false else latched
  }

  lemma StepLatches<T>(s: Sys<T>, i: Interrupt<T>, s': Sys<T>, e: nat)
    requires Steps(s, i, s') && May(s, i) && e < 16
    ensures |s'.irq| == EV_COUNT && s'.irq[e] == LatchAfter(s.irq[e], i, e)
    ensures s'.tick == (if i.Tick? then s.tick + 1 else s.tick) && s'.freq == s.freq
  {
    hide DoCall, EventSend, DoTick, FaultPush, Dispatch, Modelled, Sound, Fired;
    var image := s.active.value;
    DispatchEffect(Handle(s, i));
    match i {
      case Kcall(c) =>
        if c.WaitFor? {
          WaitEffect(s, image, c.event);
        } else if c.Reset? {
          ResetEffect(s, image, c.irq);
        } else {
          CallAside(s, image, c);
        }
      case Irq(n) => SendEffect(s, n);
      case Tick => TickEffect(s, image, 0);
      case PageFault => FaultPushAside(WithState(Save(s), image, Paused), image);
    }
  }

  /** Whether line `e` was raised since its last reset, looking at the interrupts only. */
  ghost function Pending<T>(run: seq<Interrupt<T>>, e: nat, initial: bool): bool {
    if run == [] then initial
    else LatchAfter(Pending(run[..|run| - 1], e, initial), run[|run| - 1], e)
  }

  /** No interrupt is lost: over every run a line is latched exactly if it was raised since
      its last reset, and exactly then it is masked. */
  lemma {:induction false} LatchedIffPending<T>(run: seq<Interrupt<T>>, trace: seq<Sys<T>>, n: nat, e: nat)
    requires IsRun(run, trace) && Inv(trace[0]) && n <= |run| < |trace| && e < 16
    ensures Inv(trace[n]) && |trace[0].irq| == |trace[n].irq| == EV_COUNT
    ensures trace[n].irq[e] == Pending(run[..n], e, trace[0].irq[e])
    ensures trace[n].irq[e] <==> Masked(trace[n].mask, e)
  {
    hide Steps, May, Masked, IsRun, TableOk, ActiveOk, SchedOk, EventsOk, ParkedOk;
    RunKeeps(run, trace, n);
    RunKeeps(run, trace, 0);
    if n > 0 {
      LatchedIffPending(run, trace, n - 1, e);
      OneStep(run, trace, n - 1);
      StepLatches(trace[n - 1], run[n - 1], trace[n], e);
      assert run[..n][..n - 1] == run[..n - 1];
    }
  }

  /** A wait on a latched line does not block: the caller stays runnable. */
  lemma LatchedWaitDoesNotBlock<T>(s: Sys<T>, e: nat)
    requires Inv(s) && s.active.Some? && e < EV_COUNT && s.irq[e]
    ensures var t := s.active.value;
      var s' := Handle(s, Kcall(WaitFor(e)));
      t in s'.tcb && s'.tcb[t].state == Queued && t in s'.sched && s'.evq == s.evq
  {
    hide SchedOk, EventsOk, ParkedOk, IrqOk, TableOk;
    var t := s.active.value;
    assert (s.sched + [t])[|s.sched|] == t;
  }

  // ---------------------------------------------------------------------------
  // Waiters are woken in order
  // ---------------------------------------------------------------------------

  /** Interrupt `i` sends event `e`: an interrupt line, or a virtual timer that fires. */
  ghost predicate Sends<T>(s: Sys<T>, i: Interrupt<T>, e: nat) {
    || i == Irq(e)
    || (i.Tick? && s.freq != 0 && LATCHED <= e < EV_COUNT && Fired(s.tick + 1, s.freq)[255 - e])
  }

  lemma CallQueue<T>(s: Sys<T>, image: T, c: Call<T>, e: nat)
    requires |s.irq| == |s.evq| == EV_COUNT && (c.WaitFor? ==> -EV_COUNT <= c.event) && e < EV_COUNT
    ensures |DoCall(s, image, c).evq| == EV_COUNT && s.evq[e] <= DoCall(s, image, c).evq[e]
  {
    hide DoCall;
    if c.WaitFor? {
      WaitEffect(s, image, c.event);
    } else if c.Reset? {
      ResetEffect(s, image, c.irq);
    } else {
      CallAside(s, image, c);
    }
  }

  /** An interrupt that sends event `e` takes the front waiter off its queue and makes it
      runnable; any other interrupt leaves the waiters as they are, and may add one. */
  lemma HandleQueue<T>(s: Sys<T>, i: Interrupt<T>, e: nat)
    requires Inv(s) && May(s, i) && e < EV_COUNT
    ensures Ready(s, i) && |Handle(s, i).evq| == EV_COUNT
    ensures Popped(s.evq[e], Sends(s, i, e)) <= Handle(s, i).evq[e]
    ensures Sends(s, i, e) && s.evq[e] != [] ==> s.evq[e][0] in Handle(s, i).sched
  {
    hide InvX, DoCall, DoTick, EventSend, FaultPush, Modelled, Sound, Fired;
    HandleReady(s, i);
    var image := s.active.value;
    match i {
      case Kcall(c) => CallQueue(s, image, c, e);
      case Irq(n) => SendEffect(s, n);
      case Tick => TickQueue(s, image, e);
      case PageFault => FaultPushAside(WithState(Save(s), image, Paused), image);
    }
  }

  lemma TickQueue<T>(s: Sys<T>, image: T, e: nat)
    requires |s.irq| == |s.evq| == EV_COUNT && s.freq != 0 && e < EV_COUNT
    ensures |DoTick(s, image).evq| == EV_COUNT
    ensures Popped(s.evq[e], Sends(s, Interrupt<T>.Tick, e)) == DoTick(s, image).evq[e]
    ensures Sends(s, Interrupt<T>.Tick, e) && s.evq[e] != [] ==> s.evq[e][0] in DoTick(s, image).sched
  {
    hide Fired, DoTick, Popped;
    TickEffect(s, image, e);
  }

  lemma StepQueue<T>(s: Sys<T>, i: Interrupt<T>, s': Sys<T>, e: nat)
    requires Inv(s) && May(s, i) && Steps(s, i, s') && e < EV_COUNT
    ensures |s.evq| == |s'.evq| == EV_COUNT
    ensures Popped(s.evq[e], Sends(s, i, e)) <= s'.evq[e]
    ensures Sends(s, i, e) && s.evq[e] != [] ==> s.evq[e][0] in s'.sched || s'.active == Some(s.evq[e][0])
  {
    hide InvX, May, Handle, Sends;
    HandleQueue(s, i, e);
    InvShape(s, {});
    DispatchEffect(Handle(s, i));
  }

  /** How often event `e` is sent in the first `n` steps. */
  ghost function Sent<T>(run: seq<Interrupt<T>>, trace: seq<Sys<T>>, e: nat, n: nat): nat
    requires n <= |run| < |trace|
  {
    if n == 0 then 0 else Sent(run, trace, e, n - 1) + if Sends(trace[n - 1], run[n - 1], e) then 1 else 0
  }

  /** A thread with `k` waiters before it moves up by one with each send, whatever else
      happens. */
  lemma {:induction false} WaiterAdvances<T>(run: seq<Interrupt<T>>, trace: seq<Sys<T>>, e: nat, k: nat, n: nat)
    requires IsRun(run, trace) && Inv(trace[0]) && e < EV_COUNT && n <= |run| < |trace|
    requires |trace[0].evq| == EV_COUNT && k < |trace[0].evq[e]| && Sent(run, trace, e, n) <= k
    ensures |trace[n].evq| == EV_COUNT
    ensures k - Sent(run, trace, e, n) < |trace[n].evq[e]|
    ensures trace[n].evq[e][k - Sent(run, trace, e, n)] == trace[0].evq[e][k]
  {
    hide InvX, Steps, May, Sends, IsRun;
    if n > 0 {
      WaiterAdvances(run, trace, e, k, n - 1);
      RunKeeps(run, trace, n - 1);
      OneStep(run, trace, n - 1);
      StepQueue(trace[n - 1], run[n - 1], trace[n], e);
    }
  }

  /** The longest waiter first: a thread with `k` waiters before it is made runnable by
      exactly the send after `k` others. */
  lemma WokenInTurn<T>(run: seq<Interrupt<T>>, trace: seq<Sys<T>>, e: nat, k: nat, n: nat)
    requires IsRun(run, trace) && Inv(trace[0]) && e < EV_COUNT && n < |run| < |trace|
    requires |trace[0].evq| == EV_COUNT && k < |trace[0].evq[e]|
    requires Sent(run, trace, e, n) == k && Sends(trace[n], run[n], e)
    ensures var t := trace[0].evq[e][k]; t in trace[n + 1].sched || trace[n + 1].active == Some(t)
  {
    hide InvX, Steps, May, Sends, IsRun;
    WaiterAdvances(run, trace, e, k, n);
    RunKeeps(run, trace, n);
    OneStep(run, trace, n);
    StepQueue(trace[n], run[n], trace[n + 1], e);
  }

  // ---------------------------------------------------------------------------
  // Every death reaches one reaper
  // ---------------------------------------------------------------------------

  /** The history of the dead and the reapers is the same. */
  predicate SameHistory<T>(s: Sys<T>, s': Sys<T>) {
    s'.dead.came == s.dead.came && s'.dead.asked == s.dead.asked && s'.dead.met == s.dead.met
  }

  lemma FieldsHistory<T>(s: Sys<T>, t: T, v: int, st: RunState)
    ensures SameHistory(s, WithEax(s, t, v)) && SameHistory(s, WithState(s, t, st)) && SameHistory(s, WithEvent(s, t, v))
    ensures SameHistory(s, Enqueue(s, t)) && SameHistory(s, Enqueue(Save(s), t))
  {
  }

  lemma SendHistory<T>(s: Sys<T>, e: nat)
    requires |s.irq| == |s.evq| == EV_COUNT && e < EV_COUNT
    ensures SameHistory(s, EventSend(s, e))
  {
    hide WithEax, WithEvent, Enqueue, MaskOn;
    if s.evq[e] != [] {
      var t := s.evq[e][0];
      var s1 := s.(evq := s.evq[e := s.evq[e][1..]]);
      var s2 := WithEax(s1, t, e);
      var s3 := WithEvent(s2, t, -1);
      FieldsHistory(s1, t, e, Queued);
      FieldsHistory(s2, t, -1, Queued);
      FieldsHistory(s3, t, 0, Queued);
    }
  }

  lemma {:induction false} TimersHistory<T>(s: Sys<T>, fired: seq<bool>, n: nat)
    requires |s.irq| == |s.evq| == EV_COUNT && n <= |fired| == 16
    ensures SameHistory(s, SendTimers(s, fired, n))
  {
    hide EventSend;
    if n > 0 {
      TimersHistory(s, fired, n - 1);
      SendHistory(SendTimers(s, fired, n - 1), 255 - (n - 1));
    }
  }

  lemma TickHistory<T>(s: Sys<T>, image: T, tick: bv32, fired: seq<bool>)
    requires |s.irq| == |s.evq| == EV_COUNT && |fired| == 16
    ensures SameHistory(s, TickWith(s, image, tick, fired))
  {
    hide SendTimers, Enqueue;
    var s0 := s.(tick := tick);
    TimersHistory(s0, fired, 16);
    FieldsHistory(SendTimers(s0, fired, 16), image, 0, Queued);
  }

  lemma WaitHistory<T>(s: Sys<T>, t: T, e: int)
    requires |s.irq| == |s.evq| == EV_COUNT && -EV_COUNT <= e
    ensures SameHistory(s, EventWait(s, t, e).0)
  {
    hide WithEvent, WithState, Enqueue;
    FieldsHistory(s, t, 0, Queued);
    if 0 <= e < EV_COUNT {
      var s0 := s.(evq := s.evq[e := s.evq[e] + [t]]);
      var s1 := WithEvent(s0, t, e);
      FieldsHistory(s0, t, e, Waiting);
      FieldsHistory(Save(s1), t, 0, Waiting);
    }
  }

  lemma FaultHistory<T>(s: Sys<T>, t: T)
    ensures SameHistory(s, FaultPush(s, t)) && SameHistory(s, DoGetFault(s, t)) && SameHistory(s, Dispatch(s))
  {
    hide Announce, Await, Remove;
  }

  lemma TableHistory<T>(s: Sys<T>, image: T, t: T, v: int)
    ensures SameHistory(s, DoSpawn(s, image, t, v)) && SameHistory(s, DoReap(s, image, t))
  {
    hide FreeSlot;
  }

  lemma PauseHistory<T>(s: Sys<T>, image: T, target: Option<T>)
    ensures SameHistory(s, DoPause(s, image, target)) && SameHistory(s, DoResume(s, image, target))
  {
    hide Remove;
  }

  lemma ResetHistory<T>(s: Sys<T>, image: T, e: nat)
    requires |s.irq| == EV_COUNT
    ensures SameHistory(s, DoReset(s, image, e))
  {
    hide MaskOff;
  }

  /** Only a death and a reaper's call make history. */
  lemma CallHistory<T>(s: Sys<T>, image: T, c: Call<T>)
    requires |s.irq| == |s.evq| == EV_COUNT && (c.WaitFor? ==> -EV_COUNT <= c.event) && !c.SetDead? && !c.GetDead?
    ensures SameHistory(s, DoCall(s, image, c))
  {
    hide DoSpawn, DoReap, DoPause, DoResume, DoGetFault, DoReset, EventWait, WithEax, Enqueue;
    FieldsHistory(s, image, IdOf(s, image), Queued);
    match c {
      case Spawn(t, v) => TableHistory(s, image, t, v);
      case Reap(id) =>
        if Get(s, id).Some? {
          TableHistory(s, image, Get(s, id).value, 0);
        }
      case Pause(id) => PauseHistory(s, image, Target(s, image, id));
      case Resume(id) => PauseHistory(s, image, Get(s, id));
      case GetFault => FaultHistory(s, image);
      case WaitFor(e) =>
        WaitHistory(s, image, e);
        FieldsHistory(EventWait(s, image, e).0, image, EventWait(s, image, e).1, Queued);
      case Reset(e) => ResetHistory(s, image, e);
      case _ =>
    }
  }

  /** The thread that dies by interrupt `i`, if any. */
  ghost function Death<T>(s: Sys<T>, i: Interrupt<T>): seq<T>
    requires s.active.Some?
  {
    if i.Kcall? && i.call.SetDead? then Killed(s, Target(s, s.active.value, i.call.target)) else []
  }

  ghost function Killed<T>(s: Sys<T>, target: Option<T>): seq<T> {
    if target.Some? && target.value in s.tcb && s.tcb[target.value].state != Queued && s.tcb[target.value].state != Waiting
    then [target.value] else []
  }

  /** The thread that asks for a death by interrupt `i`, if any. */
  ghost function Asking<T>(s: Sys<T>, i: Interrupt<T>): seq<T>
    requires s.active.Some?
  {
    if i.Kcall? && i.call.GetDead? then [s.active.value] else []
  }

  /** What `dead_push` meets, and what a reaper's call meets. */
  ghost function Meets<T>(l: Lane<T>, t: T): seq<(T, T)> {
    if l.tail.Some? then [(t, l.tail.value)] else []
  }

  lemma DeadPushHistory<T>(s: Sys<T>, t: T)
    ensures var s' := DeadPush(s, t);
      && s'.dead.came == s.dead.came + [t] && s'.dead.asked == s.dead.asked
      && s'.dead.met == s.dead.met + Meets(s.dead.waiters, t)
  {
    hide Enqueue, WithEax;
    if s.dead.waiters.tail.Some? {
      var r := s.dead.waiters.tail.value;
      var s1 := s.(dead := Announce(s.dead, t));
      FieldsHistory(s1, r, IdOf(s, t), Queued);
      FieldsHistory(WithEax(s1, r, IdOf(s, t)), r, 0, Queued);
    }
  }

  lemma SetDeadHistory<T>(s: Sys<T>, image: T, target: Option<T>, v: int)
    ensures DoSetDead(s, image, target, v).dead.came == s.dead.came + Killed(s, target)
    ensures DoSetDead(s, image, target, v).dead.asked == s.dead.asked
  {
    hide DeadPush, WithEax;
    if target.Some? {
      var t := target.value;
      var s1 := WithState(Save(s), t, Paused);
      DeadPushHistory(s, t);
      DeadPushHistory(s1, t);
      FieldsHistory(DeadPush(s, t), t, v, Queued);
      FieldsHistory(WithEax(DeadPush(s, t), t, v), image, 0, Queued);
      FieldsHistory(DeadPush(s1, t), t, v, Queued);
      FieldsHistory(WithEax(DeadPush(s1, t), t, v), image, 0, Queued);
    }
    FieldsHistory(s, image, TE_STATE, Queued);
    FieldsHistory(s, image, TE_EXIST, Queued);
  }

  lemma GetDeadHistory<T>(s: Sys<T>, image: T)
    ensures DoGetDead(s, image).dead.came == s.dead.came && DoGetDead(s, image).dead.asked == s.dead.asked + [image]
  {
    hide WithEax, WithState, Enqueue;
    FieldsHistory(s.(dead := Await(s.dead, image)), image, match s.dead.items.tail case Some(d) => IdOf(s, d) case None => 0, Paused);
    StopOnly(s, image);
  }

  /** One step adds the thread that dies and the thread that asks to the history. */
  lemma StepHistory<T>(s: Sys<T>, i: Interrupt<T>, s': Sys<T>)
    requires Steps(s, i, s') && May(s, i)
    ensures s'.dead.came == s.dead.came + Death(s, i) && s'.dead.asked == s.dead.asked + Asking(s, i)
  {
    hide DoCall, EventSend, TickWith, FaultPush, Dispatch, Modelled, Sound, Fired, Killed;
    var image := s.active.value;
    FaultHistory(Handle(s, i), image);
    match i {
      case Kcall(c) => CallMakesHistory(s, image, c);
      case Irq(n) => SendHistory(s, n);
      case Tick => TickHistory(s, image, s.tick + 1, Fired(s.tick + 1, s.freq));
      case PageFault =>
        var s1 := WithState(Save(s), image, Paused);
        FaultHistory(s1, image);
    }
  }

  lemma CallMakesHistory<T>(s: Sys<T>, image: T, c: Call<T>)
    requires |s.irq| == |s.evq| == EV_COUNT && (c.WaitFor? ==> -EV_COUNT <= c.event)
    ensures DoCall(s, image, c).dead.came
         == s.dead.came + if c.SetDead? then Killed(s, Target(s, image, c.target)) else []
    ensures DoCall(s, image, c).dead.asked == s.dead.asked + if c.GetDead? then [image] else []
  {
    hide DoSetDead, DoGetDead, Killed;
    match c {
      case SetDead(id, v) => SetDeadHistory(s, image, Target(s, image, id), v);
      case GetDead => GetDeadHistory(s, image);
      case _ => CallHistory(s, image, c);
    }
  }

  /** A death while a reaper is parked: the longest waiting one gets the id of the dead
      thread and becomes runnable, unless it is the dead thread itself. */
  lemma DeathIsDelivered<T>(s: Sys<T>, image: T, t: T, v: int)
    requires Inv(s) && s.active == Some(image) && Killed(s, Some(t)) == [t] && s.dead.waiters.queue != []
    ensures var r := s.dead.waiters.queue[0];
      var s' := DoSetDead(s, image, Some(t), v);
      && s'.dead.met == s.dead.met + [(t, r)] && s'.dead.waiters.queue == s.dead.waiters.queue[1..]
      && r in s.tcb && r in s'.tcb && t in s.tcb
      && s'.tcb[r].eax == (if r == t then v else s.tcb[t].id) && s'.tcb[r].state == Queued && r in s'.sched
  {
    hide InvX, Announce, Killed;
    FrontReaper(s, image, t);
    var s1 := if s.tcb[t].state == Running then WithState(Save(s), t, Paused) else s;
    StopOnly(s, t);
    DeadPushDelivers(s1, t);
  }

  lemma FrontReaper<T>(s: Sys<T>, image: T, t: T)
    requires Inv(s) && s.active == Some(image) && Killed(s, Some(t)) == [t] && s.dead.waiters.queue != []
    ensures var r := s.dead.waiters.queue[0];
      && s.dead.waiters.tail == Some(r) && r in s.tcb && r != image
      && t in s.tcb && s.tcb[t].state != Queued && s.tcb[t].state != Waiting
      && Announce(s.dead, t).met == s.dead.met + [(t, r)]
      && Announce(s.dead, t).waiters.queue == s.dead.waiters.queue[1..]
  {
    hide TableOk, SchedOk, EventsOk, IrqOk, NoDup;
  }

  lemma DeadPushDelivers<T>(s: Sys<T>, t: T)
    requires t in s.tcb && s.dead.waiters.tail.Some? && s.dead.waiters.tail.value in s.tcb
    ensures var r := s.dead.waiters.tail.value;
      var s' := DeadPush(s, t);
      && s'.tcb == s.tcb[r := s.tcb[r].(eax := s.tcb[t].id, state := Queued)] && s'.dead == Announce(s.dead, t)
      && s'.sched == s.sched + [r]
  {
    hide Announce;
  }

  /** A call that finds a dead thread takes the one that died first and goes on running. */
  lemma DeathIsCollected<T>(s: Sys<T>, image: T)
    requires Inv(s) && s.active == Some(image) && s.dead.items.queue != []
    ensures var d := s.dead.items.queue[0];
      var s' := DoGetDead(s, image);
      && s'.dead.met == s.dead.met + [(d, image)] && s'.dead.items.queue == s.dead.items.queue[1..]
      && d in s.tcb && image in s'.tcb && s'.tcb[image].eax == s.tcb[d].id && s'.active == Some(image)
  {
    hide TableOk, SchedOk, EventsOk, IrqOk, NoDup;
  }

  /** The threads that die in the first `n` steps, in order. */
  ghost function Deaths<T>(run: seq<Interrupt<T>>, trace: seq<Sys<T>>, n: nat): seq<T>
    requires IsRun(run, trace) && n <= |run|
  {
    if n == 0 then [] else OneStep(run, trace, n - 1); Deaths(run, trace, n - 1) + Death(trace[n - 1], run[n - 1])
  }

  /** The threads that ask for a death in the first `n` steps, in order. */
  ghost function Askers<T>(run: seq<Interrupt<T>>, trace: seq<Sys<T>>, n: nat): seq<T>
    requires IsRun(run, trace) && n <= |run|
  {
    if n == 0 then [] else OneStep(run, trace, n - 1); Askers(run, trace, n - 1) + Asking(trace[n - 1], run[n - 1])
  }

  /** From a kernel in which nobody has died, over every run: the threads that died are
      those delivered, in order, followed by those pending, and likewise for the reapers
      that asked; the two are never both pending. */
  lemma {:induction false} DeathsReachReapersInOrder<T>(run: seq<Interrupt<T>>, trace: seq<Sys<T>>, n: nat)
    requires IsRun(run, trace) && Inv(trace[0]) && trace[0].dead == NewPair() && n <= |run| < |trace|
    ensures Deaths(run, trace, n) == Items(trace[n].dead.met) + trace[n].dead.items.queue
    ensures Askers(run, trace, n) == Waiters(trace[n].dead.met) + trace[n].dead.waiters.queue
    ensures trace[n].dead.items.queue == [] || trace[n].dead.waiters.queue == []
  {
    hide Steps, May, IsRun, InvX, Death, Asking, PairOk, HalfOk;
    HistoryIs(run, trace, n);
    RunKeeps(run, trace, n);
    DeadIsSound(trace[n]);
  }

  lemma DeadIsSound<T>(s: Sys<T>)
    requires Inv(s)
    ensures s.dead.came == Items(s.dead.met) + s.dead.items.queue
    ensures s.dead.asked == Waiters(s.dead.met) + s.dead.waiters.queue
    ensures s.dead.items.queue == [] || s.dead.waiters.queue == []
  {
    hide TableOk, ActiveOk, SchedOk, EventsOk, IrqOk, Holds;
  }

  lemma {:induction false} HistoryIs<T>(run: seq<Interrupt<T>>, trace: seq<Sys<T>>, n: nat)
    requires IsRun(run, trace) && trace[0].dead == NewPair() && n <= |run| < |trace|
    ensures trace[n].dead.came == Deaths(run, trace, n) && trace[n].dead.asked == Askers(run, trace, n)
  {
    hide Steps, May, IsRun, InvX, Death, Asking;
    if n > 0 {
      HistoryIs(run, trace, n - 1);
      OneStep(run, trace, n - 1);
      StepHistory(trace[n - 1], run[n - 1], trace[n]);
    }
  }

  // ---------------------------------------------------------------------------
  // Timers
  // ---------------------------------------------------------------------------

  lemma {:induction false} ClockCounts<T>(run: seq<Interrupt<T>>, trace: seq<Sys<T>>, n: nat)
    requires IsRun(run, trace) && n <= |run| < |trace| && trace[0].tick == 0
    ensures trace[n].tick == TickAt(Ticks(run, n)) && trace[n].freq == trace[0].freq
  {
    hide Steps, May, IsRun;
    if n > 0 {
      ClockCounts(run, trace, n - 1);
      OneStep(run, trace, n - 1);
      StepLatches(trace[n - 1], run[n - 1], trace[n], 0);
    }
  }

  /** From boot at a PIT rate of 2^m Hz, whatever the threads do: the timer interrupt that
      is the n-th since boot sends the event of virtual timer `v` exactly if 2^(m+5-v)
      divides n, or v > m + 5. */
  lemma TimerSendsOnTime<T>(run: seq<Interrupt<T>>, trace: seq<Sys<T>>, k: nat, m: nat, v: nat)
    requires IsRun(run, trace) && k < |run| < |trace| && run[k].Tick?
    requires 5 <= m <= 10 && v < 16 && trace[0].tick == 0 && trace[0].freq == Bit(m)
    ensures v <= m + 5 ==> Pow2(m + 5 - v) > 0
    ensures Sends(trace[k], run[k], 255 - v) <==> m + 5 < v || (Ticks(run, k) + 1) % Pow2(m + 5 - v) == 0
  {
    hide *;
    ClockCounts(run, trace, k);
    FreqNonzero(m);
    NextTick(Ticks(run, k));
    SendsIffFires(trace[k], run[k], v);
    FiresExactlyOnMultiples(Ticks(run, k) + 1, m, v);
  }

  lemma NextTick(n: nat)
    ensures TickAt(n + 1) == TickAt(n) + 1
  {
  }

  lemma SendsIffFires<T>(s: Sys<T>, i: Interrupt<T>, v: nat)
    requires i.Tick? && v < 16 && s.freq != 0
    ensures Sends(s, i, 255 - v) <==> Fires(s.tick + 1, s.freq, v)
  {
    hide Fires;
  }

  lemma FreqNonzero(m: nat)
    requires m < 16
    ensures Bit(m) != 0
  {
  }
}
