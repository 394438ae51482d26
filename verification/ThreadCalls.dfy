/** What each thread call, interrupt and fault answers and leaves behind, state by state. The
    whole new state is given by its fields, so that no thread but those named changes. */
module ThreadCalls {
  import opened Arith
  import opened Base
  import opened IrqMask
  import opened Rendezvous
  import opened Timer
  import opened ThreadModel
  import opened ThreadRuns

  // ---------------------------------------------------------------------------
  // Calls that return at once
  // ---------------------------------------------------------------------------

  /** GETTID returns the caller's id. */
  lemma GetTidResult<T>(s: Sys<T>, image: T)
    requires Inv(s) && s.active == Some(image)
    ensures image in s.tcb && Ready(s, Kcall(GetTid))
    ensures Handle(s, Kcall(GetTid)) == s.(tcb := s.tcb[image := s.tcb[image].(eax := s.tcb[image].id)])
  {
    hide InvX;
    InvShape(s, {});
  }

  /** YIELD sends the caller to the end of the queue. */
  lemma YieldResult<T>(s: Sys<T>, image: T)
    requires Inv(s) && s.active == Some(image)
    ensures image in s.tcb && Ready(s, Kcall(Yield))
    ensures Handle(s, Kcall(Yield)) ==
            s.(active := None, sched := s.sched + [image], tcb := s.tcb[image := s.tcb[image].(state := Queued)])
  {
    hide InvX;
    InvShape(s, {});
  }

  /** SPAWN gives the least free id to the new thread, queues it and returns the id. */
  lemma SpawnResult<T>(s: Sys<T>, image: T, t: T, value: int, id: nat)
    requires Inv(s) && s.active == Some(image) && t !in s.tcb
    requires id < 1024 && id !in s.table && forall j: nat :: j < id ==> j in s.table
    ensures image in s.tcb && Ready(s, Kcall(Spawn(t, value)))
    ensures var s' := Handle(s, Kcall(Spawn(t, value)));
      && s'.table == s.table[id := t]
      && s'.tcb == s.tcb[t := Tcb(id, Queued, 0, value)][image := s.tcb[image].(eax := id)]
      && s'.sched == s.sched + [t]
      && s'.(table := s.table, tcb := s.tcb, sched := s.sched, dead := s.dead, fault := s.fault) == s
      && s'.dead.items == s.dead.items && s'.dead.waiters == s.dead.waiters
      && s'.fault.items == s.fault.items && s'.fault.waiters == s.fault.waiters
  {
    hide InvX;
    InvShape(s, {});
    SlotIs(s, id);
  }

  /** With all ids taken it returns -1, and nothing else changes. */
  lemma SpawnFails<T>(s: Sys<T>, image: T, t: T, value: int)
    requires Inv(s) && s.active == Some(image) && forall j: nat :: j < 1024 ==> j in s.table
    ensures image in s.tcb && Ready(s, Kcall(Spawn(t, value)))
    ensures Handle(s, Kcall(Spawn(t, value))) == s.(tcb := s.tcb[image := s.tcb[image].(eax := -1)])
  {
    hide InvX;
    InvShape(s, {});
    SlotIs(s, 1024);
  }

  /** REAP frees a paused thread and returns 0; any other state is refused with 1. */
  lemma ReapResult<T>(s: Sys<T>, image: T, id: nat)
    requires Inv(s) && s.active == Some(image) && id in s.table
    ensures image in s.tcb && s.table[id] in s.tcb && Ready(s, Kcall(Reap(id)))
    ensures var t := s.table[id];
      Handle(s, Kcall(Reap(id))) ==
      if s.tcb[t].state == Paused then s.(tcb := s.tcb[image := s.tcb[image].(eax := 0)] - {t}, table := s.table - {id})
      else s.(tcb := s.tcb[image := s.tcb[image].(eax := 1)])
  {
    hide InvX;
    InvShape(s, {});
    TableEntry(s, id);
  }

  lemma TableEntry<T>(s: Sys<T>, id: nat)
    requires Inv(s) && id in s.table
    ensures s.table[id] in s.tcb && s.tcb[s.table[id]].id == id
  {
  }

  /** What a call that names a thread is about; -1 is the caller. */
  ghost predicate Means<T>(s: Sys<T>, image: T, id: int, t: T) {
    (id == -1 && t == image) || (id != -1 && id in s.table && s.table[id] == t)
  }

  ghost predicate MeansNobody<T>(s: Sys<T>, id: int) {
    id != -1 && id !in s.table
  }

  lemma MeantIn<T>(s: Sys<T>, image: T, id: int, t: T)
    requires Inv(s) && s.active == Some(image) && Means(s, image, id, t)
    ensures image in s.tcb && t in s.tcb && Target(s, image, id) == Some(t)
  {
    hide ActiveOk, SchedOk, EventsOk, ParkedOk, IrqOk;
    hide TableOk;
    if id == -1 {
      InvShape(s, {});
    } else {
      TableEntry(s, id);
      InvShape(s, {});
    }
  }

  /** PAUSE stops the running thread, or takes a queued one out of the queue, and returns 0;
      a paused one is refused with 1. */
  lemma PauseResult<T>(s: Sys<T>, image: T, id: int, t: T)
    requires Inv(s) && s.active == Some(image) && Means(s, image, id, t) && t in s.tcb && s.tcb[t].state != Waiting
    ensures image in s.tcb && Ready(s, Kcall(Pause(id)))
    ensures var s' := Handle(s, Kcall(Pause(id)));
      match s.tcb[t].state
      case Running => t == image && s' == s.(active := None, tcb := s.tcb[image := s.tcb[image].(state := Paused, eax := 0)])
      case Queued =>
        && t != image && TakenOut(s.sched, s'.sched, t)
        && s'.(sched := s.sched) == s.(tcb := s.tcb[t := s.tcb[t].(state := Paused)][image := s.tcb[image].(eax := 0)])
      case _ => s' == s.(tcb := s.tcb[image := s.tcb[image].(eax := 1)])
  {
    hide InvX, DoPause;
    InvShape(s, {});
    MeantIn(s, image, id, t);
    PauseTargetResult(s, image, t);
  }

  /** `q'` is `q` without its one `t`. */
  ghost predicate TakenOut<T>(q: seq<T>, q': seq<T>, t: T) {
    exists i {:trigger q[i]} :: 0 <= i < |q| && q[i] == t && q' == q[..i] + q[i + 1..]
  }

  lemma PauseTargetResult<T>(s: Sys<T>, image: T, t: T)
    requires Inv(s) && s.active == Some(image) && image in s.tcb && t in s.tcb && s.tcb[t].state != Waiting
    ensures var s' := DoPause(s, image, Some(t));
      match s.tcb[t].state
      case Running => t == image && s' == s.(active := None, tcb := s.tcb[image := s.tcb[image].(state := Paused, eax := 0)])
      case Queued =>
        && t != image && TakenOut(s.sched, s'.sched, t)
        && s'.(sched := s.sched) == s.(tcb := s.tcb[t := s.tcb[t].(state := Paused)][image := s.tcb[image].(eax := 0)])
      case _ => s' == s.(tcb := s.tcb[image := s.tcb[image].(eax := 1)])
  {
    hide InvX, Remove, TakenOut, NoDup;
    RunningElsewhere(s);
    if s.tcb[t].state == Running {
      RunningIsActive(s, t);
    } else if s.tcb[t].state == Queued {
      QueuedOnce(s, t);
      RemoveTakesOut(s.sched, t);
    }
  }

  lemma QueuedOnce<T>(s: Sys<T>, t: T)
    requires Inv(s) && t in s.tcb && s.tcb[t].state == Queued
    ensures t in s.sched && NoDup(s.sched)
  {
    hide TableOk, ActiveOk, EventsOk, ParkedOk, IrqOk, NoDup;
  }

  lemma RemoveTakesOut<T>(q: seq<T>, t: T)
    requires NoDup(q) && t in q
    ensures TakenOut(q, Remove(q, t), t)
  {
    hide Remove;
    var i :| 0 <= i < |q| && q[i] == t;
    RemoveAt(q, t, i);
  }

  lemma {:induction false} RemoveAt<T>(q: seq<T>, t: T, i: nat)
    requires NoDup(q) && i < |q| && q[i] == t
    ensures Remove(q, t) == q[..i] + q[i + 1..]
  {
    hide NoDup;
    NoDupTail(q);
    var r := q[1..];
    if i > 0 {
      assert r[i - 1] == t && q[0] != t;
      RemoveAt(r, t, i - 1);
      assert r[..i - 1] == q[1..i] && r[i - 1 + 1..] == q[i + 1..];
      assert [q[0]] + q[1..i] == q[..i];
    } else {
      assert q[..0] + q[0 + 1..] == q[1..];
    }
  }

  /** RESUME queues a paused thread and returns 0; any other is refused with 1. */
  lemma ResumeResult<T>(s: Sys<T>, image: T, id: nat)
    requires Inv(s) && s.active == Some(image) && id in s.table && s.table[id] in s.tcb && s.tcb[s.table[id]].state != PausedW
    ensures image in s.tcb && Ready(s, Kcall(Resume(id)))
    ensures var t := s.table[id];
      Handle(s, Kcall(Resume(id))) ==
      if s.tcb[t].state == Paused then
        s.(sched := s.sched + [t], tcb := s.tcb[t := s.tcb[t].(state := Queued)][image := s.tcb[image].(eax := 0)])
      else s.(tcb := s.tcb[image := s.tcb[image].(eax := 1)])
  {
    hide InvX;
    InvShape(s, {});
    RunningElsewhere(s);
  }

  /** Calls about no thread are refused with 2; RESUME does not know the caller by -1. */
  lemma NobodyResult<T>(s: Sys<T>, image: T, id: int, value: int)
    requires Inv(s) && s.active == Some(image)
    ensures image in s.tcb && Ready(s, Kcall(Pause(id)))
    ensures var s' := s.(tcb := s.tcb[image := s.tcb[image].(eax := 2)]);
      && (MeansNobody(s, id) ==> Handle(s, Kcall(Pause(id))) == s' && Handle(s, Kcall(SetDead(id, value))) == s')
      && (id !in s.table ==> Handle(s, Kcall(Resume(id))) == s')
  {
    hide InvX;
    InvShape(s, {});
  }

  /** RESET clears the latch and the mask bit of a line and returns 0. */
  lemma ResetResult<T>(s: Sys<T>, image: T, e: nat)
    requires Inv(s) && s.active == Some(image)
    ensures image in s.tcb && |s.irq| == 256 && Ready(s, Kcall(Reset(e)))
    ensures var s' := Handle(s, Kcall(Reset(e)));
      && s'.irq == (if e < 240 then s.irq[e := false] else s.irq)
      && (forall f: nat :: f < 16 ==> (Masked(s'.mask, f) <==> Masked(s.mask, f) && f != e))
      && s'.(irq := s.irq, mask := s.mask) == s.(tcb := s.tcb[image := s.tcb[image].(eax := 0)])
  {
    hide InvX, MaskOff, Masked;
    InvShape(s, {});
    forall f: nat | f < 16
      ensures Masked(MaskOff(s.mask, e), f) <==> Masked(s.mask, f) && f != e
    {
      MaskBits(s.mask, e, f);
    }
  }

  // ---------------------------------------------------------------------------
  // Waiting
  // ---------------------------------------------------------------------------

  /** WAIT on a negative event polls the latch of line -event - 1: 1 if it is set, else 0. */
  lemma PollResult<T>(s: Sys<T>, image: T, event: int)
    requires Inv(s) && s.active == Some(image) && -256 <= event < 0
    ensures image in s.tcb && |s.irq| == 256 && Ready(s, Kcall(WaitFor(event)))
    ensures Handle(s, Kcall(WaitFor(event))) ==
            s.(tcb := s.tcb[image := s.tcb[image].(eax := if s.irq[-event - 1] then 1 else 0)])
  {
    hide InvX;
    InvShape(s, {});
  }

  /** WAIT on an event that does not exist returns 1. */
  lemma NoEventResult<T>(s: Sys<T>, image: T, e: int)
    requires Inv(s) && s.active == Some(image) && e >= 256
    ensures image in s.tcb && Ready(s, Kcall(WaitFor(e)))
    ensures Handle(s, Kcall(WaitFor(e))) == s.(tcb := s.tcb[image := s.tcb[image].(eax := 1)])
  {
    hide InvX;
    InvShape(s, {});
  }

  /** WAIT returns 0 and sends the caller to the end of the scheduler queue if the event is
      latched, and otherwise to the end of the queue of the event. */
  lemma WaitResult<T>(s: Sys<T>, image: T, e: nat)
    requires Inv(s) && s.active == Some(image) && e < 256
    ensures image in s.tcb && |s.irq| == |s.evq| == 256 && Ready(s, Kcall(WaitFor(e)))
    ensures Handle(s, Kcall(WaitFor(e))) ==
      if s.irq[e] then
        s.(active := None, sched := s.sched + [image], tcb := s.tcb[image := s.tcb[image].(state := Queued, eax := 0)])
      else
        s.(active := None, evq := s.evq[e := s.evq[e] + [image]],
           tcb := s.tcb[image := s.tcb[image].(state := Waiting, event := e, eax := 0)])
  {
    hide InvX;
    InvShape(s, {});
    WaitState(s, image, e);
  }

  lemma WaitState<T>(s: Sys<T>, image: T, e: nat)
    requires |s.irq| == |s.evq| == EV_COUNT && image in s.tcb && e < EV_COUNT
    ensures EventWait(s, image, e) ==
      if s.irq[e] then
        (s.(active := None, sched := s.sched + [image], tcb := s.tcb[image := s.tcb[image].(state := Queued)]), 0)
      else
        (s.(active := None, evq := s.evq[e := s.evq[e] + [image]],
            tcb := s.tcb[image := s.tcb[image].(state := Waiting, event := e)]), 0)
  {
    if !s.irq[e] {
      var tcb1 := s.tcb[image := s.tcb[image].(event := e)];
      assert tcb1[image := tcb1[image].(state := Waiting)] == s.tcb[image := s.tcb[image].(state := Waiting, event := e)];
    }
  }

  // ---------------------------------------------------------------------------
  // Events
  // ---------------------------------------------------------------------------

  /** Sending an event tells the longest waiter its number: the thread is queued last, gets
      the number as its return value and waits for nothing. With nobody waiting only the
      latch is set. */
  lemma SendResult<T>(s: Sys<T>, e: nat)
    requires Inv(s) && e < 256
    ensures |s.irq| == |s.evq| == 256
    ensures var s' := EventSend(s, e);
      && s'.irq == (if e < 240 then s.irq[e := true] else s.irq)
      && (forall f: nat :: f < 16 ==> (Masked(s'.mask, f) <==> Masked(s.mask, f) || f == e))
      && s'.(irq := s.irq, mask := s.mask) ==
         if s.evq[e] == [] then s
         else
           var t := s.evq[e][0];
           if t in s.tcb then
             s.(tcb := s.tcb[t := s.tcb[t].(state := Queued, eax := e, event := -1)],
                sched := s.sched + [t], evq := s.evq[e := s.evq[e][1..]])
           else s
  {
    hide InvX, Wake, MaskOn, Masked;
    InvShape(s, {});
    forall f: nat | f < 16
      ensures Masked(MaskOn(s.mask, e), f) <==> Masked(s.mask, f) || f == e
    {
      MaskBits(s.mask, e, f);
    }
    if s.evq[e] != [] {
      FrontFrees(s, e);
      WakeResult(s, e);
    }
  }

  lemma WakeResult<T>(s: Sys<T>, e: nat)
    requires e < |s.evq| && s.evq[e] != [] && s.evq[e][0] in s.tcb && s.tcb[s.evq[e][0]].state == Waiting
    ensures var t := s.evq[e][0];
      Wake(s, e) == s.(tcb := s.tcb[t := s.tcb[t].(state := Queued, eax := e, event := -1)],
                       sched := s.sched + [t], evq := s.evq[e := s.evq[e][1..]])
  {
    var t := s.evq[e][0];
    var tcb1 := s.tcb[t := s.tcb[t].(eax := e)];
    var tcb2 := tcb1[t := tcb1[t].(event := -1)];
    assert tcb2[t := tcb2[t].(state := Queued)] == s.tcb[t := s.tcb[t].(state := Queued, eax := e, event := -1)];
  }

  /** An interrupt line sends the event of its number. */
  lemma IrqResult<T>(s: Sys<T>, n: nat)
    requires Inv(s) && s.active.Some? && 1 <= n < 16
    ensures |s.evq| == 256 && Ready(s, Interrupt<T>.Irq(n))
    ensures var s' := Handle(s, Interrupt<T>.Irq(n));
      && s'.active == s.active
      && (s.evq[n] == [] ==> s'.tcb == s.tcb && s'.sched == s.sched)
      && (s.evq[n] != [] ==> Told(s.tcb, s'.tcb, s.evq[n][0], n) && s'.sched == s.sched + [s.evq[n][0]]
                             && forall u :: u in s.tcb && u != s.evq[n][0] ==> u in s'.tcb && s'.tcb[u] == s.tcb[u])
  {
    hide InvX, EventSend;
    InvShape(s, {});
    SendResult(s, n);
    if s.evq[n] != [] {
      FrontFrees(s, n);
    }
  }

  /** Thread `t` has been woken by event `e`. */
  ghost predicate Told<T>(tcb: map<T, Tcb>, tcb': map<T, Tcb>, t: T, e: int) {
    t in tcb && t in tcb' && tcb'[t] == tcb[t].(state := Queued, eax := e, event := -1)
  }

  lemma SendTells<T>(s: Sys<T>, e: nat, u: T)
    requires Inv(s) && e < 256 && u in s.tcb
    ensures |s.irq| == |s.evq| == 256 && u in EventSend(s, e).tcb
    ensures if s.evq[e] != [] && s.evq[e][0] == u then Told(s.tcb, EventSend(s, e).tcb, u, e)
            else EventSend(s, e).tcb[u] == s.tcb[u]
  {
    hide InvX, EventSend;
    InvShape(s, {});
    SendResult(s, e);
    if s.evq[e] != [] {
      FrontFrees(s, e);
    }
  }

  /** Thread `u` is first in the queue of event `e`. */
  ghost predicate First<T>(evq: seq<seq<T>>, e: int, u: T) {
    0 <= e < |evq| && evq[e] != [] && evq[e][0] == u
  }

  /** A thread that is first in a queue waits for the event of that queue. */
  lemma FirstWaits<T>(s: Sys<T>, e: int, u: T)
    requires Inv(s) && First(s.evq, e, u)
    ensures u in s.tcb && s.tcb[u].state == Waiting && s.tcb[u].event == e
  {
    hide TableOk, ActiveOk, SchedOk, ParkedOk, IrqOk, NoDup;
    assert s.evq[e][0] in s.evq[e];
  }

  /** Thread `u` waits for the event of a firing timer below `n`, and is first in its queue. */
  ghost predicate Woken<T>(s: Sys<T>, fired: seq<bool>, n: nat, u: T)
    requires u in s.tcb && n <= |fired| == 16
  {
    var e := s.tcb[u].event;
    s.tcb[u].state == Waiting && 255 - n < e < 256 && fired[255 - e] && First(s.evq, e, u)
  }

  /** The firing timers below `n` tell the first thread of each of their queues its event and
      leave every other thread alone. */
  lemma {:induction false} TimersTell<T>(s: Sys<T>, fired: seq<bool>, n: nat, u: T)
    requires Inv(s) && n <= |fired| == 16 && u in s.tcb
    ensures |s.irq| == |s.evq| == 256 && u in SendTimers(s, fired, n).tcb
    ensures SendTimers(s, fired, n).tcb[u] ==
            if Woken(s, fired, n, u) then s.tcb[u].(state := Queued, eax := s.tcb[u].event, event := -1) else s.tcb[u]
  {
    hide InvX, EventSend;
    InvShape(s, {});
    if n > 0 {
      var p, f := SendTimers(s, fired, n - 1), 255 - (n - 1);
      TimersTell(s, fired, n - 1, u);
      SendTimersKeeps(s, fired, n - 1);
      TimersEffect(s, fired, n - 1, f);
      SendTells(p, f, u);
      if First(s.evq, f, u) {
        FirstWaits(s, f, u);
      }
    }
  }

  /** A timer interrupt tells the first thread of each firing timer its event, sends the
      running thread to the end of the queue, and changes no other thread. */
  lemma TickResult<T>(s: Sys<T>, image: T, u: T)
    requires Inv(s) && s.active == Some(image) && u in s.tcb
    ensures |s.evq| == 256 && s.freq != 0 && image in s.tcb && Ready(s, Interrupt<T>.Tick)
    ensures var s' := Handle(s, Interrupt<T>.Tick);
      && s'.active == None && s'.sched != [] && s'.sched[|s'.sched| - 1] == image && s'.tick == s.tick + 1
      && u in s'.tcb
      && s'.tcb[u] == if u == image then s.tcb[u].(state := Queued)
                      else if Woken(s, Fired(s.tick + 1, s.freq), 16, u) then s.tcb[u].(state := Queued, eax := s.tcb[u].event, event := -1)
                      else s.tcb[u]
  {
    hide InvX, SendTimers, Woken, Fired, TickWith;
    InvShape(s, {});
    NewTick(s, s.tick + 1);
    TickTells(s, image, s.tick + 1, Fired(s.tick + 1, s.freq), u);
  }

  lemma TickTells<T>(s: Sys<T>, image: T, tick: bv32, fired: seq<bool>, u: T)
    requires Inv(s) && Inv(s.(tick := tick)) && s.active == Some(image) && u in s.tcb && |fired| == 16
    ensures |s.irq| == |s.evq| == 256 && image in s.tcb
    ensures var s' := TickWith(s, image, tick, fired);
      && s'.active == None && s'.sched != [] && s'.sched[|s'.sched| - 1] == image && s'.tick == tick
      && u in s'.tcb
      && s'.tcb[u] == if u == image then s.tcb[u].(state := Queued)
                      else if Woken(s, fired, 16, u) then s.tcb[u].(state := Queued, eax := s.tcb[u].event, event := -1)
                      else s.tcb[u]
  {
    hide InvX, SendTimers, First;
    InvShape(s, {});
    var s0 := s.(tick := tick);
    TimersTell(s0, fired, 16, u);
    TimersTell(s0, fired, 16, image);
    SendTimersKeeps(s0, fired, 16);
    TimersEffect(s0, fired, 16, 0);
    RunningElsewhere(SendTimers(s0, fired, 16));
    RunningElsewhere(s);
  }

  // ---------------------------------------------------------------------------
  // Deaths and faults
  // ---------------------------------------------------------------------------

  /** The threads after `t` has been announced, to the parked thread `r` if there is one. */
  ghost function Announced<T>(tcb: map<T, Tcb>, t: T, waiters: seq<T>): map<T, Tcb> {
    if waiters != [] && waiters[0] in tcb && t in tcb then
      tcb[waiters[0] := tcb[waiters[0]].(state := Queued, eax := tcb[t].id)]
    else tcb
  }

  lemma DeadPushResult<T>(s: Sys<T>, t: T)
    requires Inv(s) && t in s.tcb
    ensures var s', w := DeadPush(s, t), s.dead.waiters.queue;
      && s'.tcb == Announced(s.tcb, t, w)
      && s'.sched == s.sched + (if w != [] then [w[0]] else [])
      && s'.dead.waiters.queue == (if w != [] then w[1..] else [])
      && s'.dead.items.queue == s.dead.items.queue + (if w != [] then [] else [t])
      && s'.(tcb := s.tcb, sched := s.sched, dead := s.dead) == s
  {
    hide InvX, PairOk, Announce;
    DeadPairOk(s);
    AnnounceOk(s.dead, t);
    ParkedAre(s);
  }

  lemma ParkedAre<T>(s: Sys<T>)
    requires Inv(s)
    ensures forall r :: r in s.dead.waiters.queue || r in s.fault.waiters.queue ==> r in s.tcb && s.tcb[r].state == Paused
    ensures forall r :: r in s.dead.items.queue ==> r in s.tcb
  {
    hide TableOk, ActiveOk, SchedOk, EventsOk, IrqOk, PairOk, HalfOk;
  }

  lemma FaultPushResult<T>(s: Sys<T>, t: T)
    requires Inv(s) && t in s.tcb
    ensures var s', w := FaultPush(s, t), s.fault.waiters.queue;
      && s'.tcb == Announced(s.tcb, t, w)
      && s'.sched == s.sched + (if w != [] then [w[0]] else [])
      && s'.fault.waiters.queue == (if w != [] then w[1..] else [])
      && s'.fault.items.queue == s.fault.items.queue + (if w != [] then [] else [t])
      && s'.(tcb := s.tcb, sched := s.sched, fault := s.fault) == s
  {
    hide InvX, HalfOk, Announce;
    DeadPairOk(s);
    AnnounceHalfOk(s.fault, t);
    ParkedAre(s);
  }

  /** A page fault pauses the running thread. The longest waiting debugger gets its id and is
      queued last; with no debugger parked the thread is queued for one. */
  lemma FaultResult<T>(s: Sys<T>, image: T)
    requires Inv(s) && s.active == Some(image)
    ensures image in s.tcb && Ready(s, Interrupt<T>.PageFault)
    ensures forall d :: d in s.fault.waiters.queue ==> d in s.tcb && d != image
    ensures var s', w := Handle(s, Interrupt<T>.PageFault), s.fault.waiters.queue;
      && s'.active == None
      && s'.tcb == (var tcb := s.tcb[image := s.tcb[image].(state := Paused)];
                    if w == [] then tcb else tcb[w[0] := s.tcb[w[0]].(state := Queued, eax := s.tcb[image].id)])
      && s'.sched == s.sched + (if w != [] then [w[0]] else [])
      && s'.fault.waiters.queue == (if w != [] then w[1..] else [])
      && s'.fault.items.queue == s.fault.items.queue + (if w != [] then [] else [image])
      && s'.(active := s.active, tcb := s.tcb, sched := s.sched, fault := s.fault) == s
  {
    hide InvX, FaultPush;
    InvShape(s, {});
    RunningElsewhere(s);
    ParkedAre(s);
    StopKeeps(s);
    FaultPushResult(WithState(Save(s), image, Paused), image);
  }

  /** SETSTATE with the dead flag. A queued or waiting thread is refused with 1. Otherwise the
      thread is stopped and announced, the call returns 0, and the thread keeps the value
      given for its register. */
  lemma SetDeadResult<T>(s: Sys<T>, image: T, id: int, t: T, value: int)
    requires Inv(s) && s.active == Some(image) && Means(s, image, id, t)
    ensures image in s.tcb && t in s.tcb && Ready(s, Kcall(SetDead(id, value)))
    ensures var s', w := Handle(s, Kcall(SetDead(id, value))), s.dead.waiters.queue;
      if s.tcb[t].state == Queued || s.tcb[t].state == Waiting then
        s' == s.(tcb := s.tcb[image := s.tcb[image].(eax := 1)])
      else
        && s'.active == (if t == image then None else s.active)
        && s'.tcb == Killing(s.tcb, image, t, value, w)
        && s'.sched == s.sched + (if w != [] then [w[0]] else [])
        && s'.dead.waiters.queue == (if w != [] then w[1..] else [])
        && s'.dead.items.queue == s.dead.items.queue + (if w != [] then [] else [t])
        && s'.(active := s.active, tcb := s.tcb, sched := s.sched, dead := s.dead) == s
  {
    hide InvX, DoSetDead, Killing;
    InvShape(s, {});
    MeantIn(s, image, id, t);
    KillResult(s, image, t, value);
  }

  /** The threads after a death: the dead one stops, the reaper is told its id, and last the
      registers of the dead one and of the caller are set. */
  ghost function Killing<T>(tcb: map<T, Tcb>, image: T, t: T, value: int, waiters: seq<T>): map<T, Tcb>
    requires image in tcb && t in tcb
  {
    var stopped := if tcb[t].state == Running then tcb[t := tcb[t].(state := Paused)] else tcb;
    var told := Announced(stopped, t, waiters);
    var saved := told[t := told[t].(eax := value)];
    saved[image := saved[image].(eax := 0)]
  }

  lemma KillResult<T>(s: Sys<T>, image: T, t: T, value: int)
    requires Inv(s) && s.active == Some(image) && image in s.tcb && t in s.tcb
    ensures var s', w := DoSetDead(s, image, Some(t), value), s.dead.waiters.queue;
      if s.tcb[t].state == Queued || s.tcb[t].state == Waiting then
        s' == s.(tcb := s.tcb[image := s.tcb[image].(eax := 1)])
      else
        && s'.active == (if t == image then None else s.active)
        && s'.tcb == Killing(s.tcb, image, t, value, w)
        && s'.sched == s.sched + (if w != [] then [w[0]] else [])
        && s'.dead.waiters.queue == (if w != [] then w[1..] else [])
        && s'.dead.items.queue == s.dead.items.queue + (if w != [] then [] else [t])
        && s'.(active := s.active, tcb := s.tcb, sched := s.sched, dead := s.dead) == s
  {
    hide InvX, DeadPush;
    RunningElsewhere(s);
    if s.tcb[t].state == Running {
      RunningIsActive(s, t);
      StopKeeps(s);
      DeadPushResult(WithState(Save(s), t, Paused), t);
    } else {
      DeadPushResult(s, t);
    }
  }

  /** GETDEAD returns the id of the thread that died first, or parks the caller as the last
      reaper. */
  lemma GetDeadResult<T>(s: Sys<T>, image: T)
    requires Inv(s) && s.active == Some(image)
    ensures image in s.tcb && Ready(s, Kcall(GetDead)) && forall d :: d in s.dead.items.queue ==> d in s.tcb
    ensures var s', q := Handle(s, Kcall(GetDead)), s.dead.items.queue;
      if q != [] then
        && s'.(dead := s.dead) == s.(tcb := s.tcb[image := s.tcb[image].(eax := s.tcb[q[0]].id)])
        && s'.dead.items.queue == q[1..] && s'.dead.waiters.queue == s.dead.waiters.queue
      else
        && s'.(dead := s.dead) == s.(active := None, tcb := s.tcb[image := s.tcb[image].(state := Paused)])
        && s'.dead.items.queue == [] && s'.dead.waiters.queue == s.dead.waiters.queue + [image]
  {
    hide InvX, PairOk, Await;
    InvShape(s, {});
    DeadPairOk(s);
    AwaitOk(s.dead, image);
    ParkedAre(s);
  }

  /** GETFAULT with no fault queued parks the caller as the last debugger. */
  lemma GetFaultResult<T>(s: Sys<T>, image: T)
    requires Inv(s) && s.active == Some(image) && s.fault.items.queue == []
    ensures image in s.tcb && Ready(s, Kcall(GetFault))
    ensures var s' := Handle(s, Kcall(GetFault));
      && s'.(fault := s.fault) == s.(active := None, tcb := s.tcb[image := s.tcb[image].(state := Paused)])
      && s'.fault.items.queue == [] && s'.fault.waiters.queue == s.fault.waiters.queue + [image]
  {
    hide InvX, HalfOk, Await;
    InvShape(s, {});
    DeadPairOk(s);
    AwaitHalfOk(s.fault, image);
  }

  // ---------------------------------------------------------------------------
  // The dispatch, and what a woken thread is told over runs
  // ---------------------------------------------------------------------------

  /** With no thread active the first of the queue runs, and nothing else changes. */
  lemma DispatchResult<T>(s: Sys<T>)
    requires Inv(s)
    ensures if s.active.Some? || s.sched == [] then Dispatch(s) == s
            else
              && s.sched[0] in s.tcb
              && Dispatch(s) == s.(active := Some(s.sched[0]), sched := s.sched[1..],
                                   tcb := s.tcb[s.sched[0] := s.tcb[s.sched[0]].(state := Running)])
  {
    hide InvX;
    if s.sched != [] {
      QueuedAre(s, s.sched[0]);
    }
  }

  /** A thread woken by event `e` finds the number of the event in its register, and runs or
      is queued. */
  ghost predicate KnowsEvent<T>(s: Sys<T>, t: T, e: int) {
    t in s.tcb && s.tcb[t].eax == e && s.tcb[t].event == -1 && (s.tcb[t].state == Queued || s.tcb[t].state == Running)
  }

  lemma StepTells<T>(s: Sys<T>, i: Interrupt<T>, s': Sys<T>, e: nat, t: T)
    requires Inv(s) && May(s, i) && Steps(s, i, s') && e < 256 && Sends(s, i, e) && First(s.evq, e, t)
    ensures KnowsEvent(s', t, e)
  {
    hide InvX, DoTick, EventSend, Dispatch, Fired, Modelled, Sound, DoCall, FaultPush;
    InvShape(s, {});
    FrontFrees(s, e);
    HandleKeeps(s, i);
    FirstWaits(s, e, t);
    if i.Tick? {
      RunningElsewhere(s);
      TickResult(s, s.active.value, t);
    } else {
      IrqResult(s, e);
    }
    DispatchResult(Handle(s, i));
  }

  /** Over every sound run: the thread with `k` waiters before it is woken by exactly the send
      after `k` others, and finds the number of the event in its register. */
  lemma WokenWithEvent<T>(run: seq<Interrupt<T>>, trace: seq<Sys<T>>, e: nat, k: nat, n: nat)
    requires IsRun(run, trace) && Inv(trace[0]) && e < 256 && n < |run| < |trace|
    requires |trace[0].evq| == 256 && k < |trace[0].evq[e]|
    requires Sent(run, trace, e, n) == k && Sends(trace[n], run[n], e)
    ensures KnowsEvent(trace[n + 1], trace[0].evq[e][k], e)
  {
    hide InvX, Steps, May, Sends, IsRun, KnowsEvent;
    WaiterAdvances(run, trace, e, k, n);
    RunKeeps(run, trace, n);
    OneStep(run, trace, n);
    StepTells(trace[n], run[n], trace[n + 1], e, trace[0].evq[e][k]);
  }

  // ---------------------------------------------------------------------------
  // The beginning
  // ---------------------------------------------------------------------------

  /** At boot the first thread runs with id 0; nobody is queued, waits, is parked or dead, and
      no line is latched or masked. */
  lemma BootResult<T>(t: T, freq: bv32)
    ensures var s := Boot(t, freq);
      && s.tcb == map[t := Tcb(0, Running, 0, 0)] && s.table == map[0 := t] && s.active == Some(t) && s.sched == []
      && |s.evq| == |s.irq| == 256 && (forall e: nat :: e < 256 ==> s.evq[e] == [] && !s.irq[e])
      && (forall e: nat :: e < 16 ==> !Masked(s.mask, e)) && s.tick == 0 && s.freq == freq
      && s.dead.items.queue == s.dead.waiters.queue == s.fault.items.queue == s.fault.waiters.queue == []
  {
    hide Masked;
    forall e: nat | e < 16
      ensures !Masked(0, e)
    {
      NothingMasked(e);
    }
  }
}
