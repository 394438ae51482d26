/** The thread structures and queues as the kernel keeps them, updated in place. Every
    operation is proved to be the one of the same name on the values of `ThreadModel`,
    so that what is proved there of every run holds of the pointers. */
module Kernel {
  import opened Base
  import opened IrqMask
  import opened Rendezvous
  import opened Timer
  import opened ThreadModel

  // ---------------------------------------------------------------------------
  // Queues threaded through a link field
  // ---------------------------------------------------------------------------

  /** Queues that clear the link of every thread that enters need no guard. */
  lemma JoinHolds<T>(link: LinkField<T>, l: Lane<T>, t: T)
    requires Holds(link, l) && t !in l.queue
    ensures Holds(EnterLinks(link, l, t)[t := None], Enter(l, t))
  {
    var link0 := link[t := None];
    LinkElsewhere(link, l, t, None);
    EnterHoldsIff(link0, l, t);
    assert EnterLinks(link0, l, t) == EnterLinks(link, l, t)[t := None];
  }

  /** The link of a thread outside a queue does not matter to it. */
  lemma LinkElsewhere<T>(link: LinkField<T>, l: Lane<T>, t: T, v: Option<T>)
    requires Holds(link, l) && t !in l.queue
    ensures Holds(link[t := v], l)
  {
    forall i | 0 <= i < |l.queue|
      ensures LinkOf(link[t := v], l.queue[i]) == Place(l.queue, i + 1)
    {
      assert LinkOf(link, l.queue[i]) == Place(l.queue, i + 1);
    }
  }

  lemma {:induction false} RemoveIsWithout<T>(q: seq<T>, t: T, i: nat)
    requires NoDup(q) && i < |q| && q[i] == t
    ensures Remove(q, t) == Without(q, i)
  {
    if i > 0 {
      NoDupTail(q);
      RemoveIsWithout(q[1..], t, i - 1);
      assert Without(q, i) == [q[0]] + Without(q[1..], i - 1);
    } else {
      assert Without(q, 0) == q[1..];
    }
  }

  lemma {:induction false} RemoveAbsent<T>(q: seq<T>, t: T)
    requires t !in q
    ensures Remove(q, t) == q
  {
    if q != [] {
      assert t != q[0] && t !in q[1..];
      RemoveAbsent(q[1..], t);
    }
  }

  /** The queue without `t`, which is not the one to leave next. */
  function Cut<T(==)>(l: Lane<T>, before: T, t: T): Lane<T> {
    Lane(l.tail, if l.head == Some(t) then Some(before) else l.head, Remove(l.queue, t))
  }

  /** The link at place `k` of a queue that lost place `i`. */
  lemma CutLink<T>(link: LinkField<T>, l: Lane<T>, i: nat, k: nat)
    requires Holds(link, l) && 0 < i < |l.queue| && k < |l.queue| - 1
    ensures LinkOf(link[l.queue[i - 1] := LinkOf(link, l.queue[i])], l.queue[Skip(i, k)]) == Place(Without(l.queue, i), k + 1)
  {
    var q := l.queue;
    assert LinkOf(link, q[Skip(i, k)]) == Place(q, Skip(i, k) + 1);
    assert LinkOf(link, q[i]) == Place(q, i + 1);
  }

  /** Linking the thread before to the thread behind takes a thread out of the middle. */
  lemma CutHolds<T>(link: LinkField<T>, l: Lane<T>, t: T, i: nat)
    requires Holds(link, l) && 0 < i < |l.queue| && l.queue[i] == t
    ensures Holds(link[l.queue[i - 1] := LinkOf(link, t)], Cut(l, l.queue[i - 1], t))
  {
    hide LinkOf, Remove, NoDup;
    var q, link' := l.queue, link[l.queue[i - 1] := LinkOf(link, t)];
    RemoveIsWithout(q, t, i);
    RemoveKeeps(q, t);
    var q' := Without(q, i);
    forall k | 0 <= k < |q'|
      ensures LinkOf(link', q'[k]) == Place(q', k + 1)
    {
      CutLink(link, l, i, k);
    }
  }

  // ---------------------------------------------------------------------------
  // Threads
  // ---------------------------------------------------------------------------

  class Thread {
    var id: nat
    var state: RunState
    var event: int
    var eax: int
    var next: Thread?           // scheduler queue
    var nextEvqueue: Thread?    // event queue
    var nextDead: Thread?       // dead or reaper queue
    var nextFault: Thread?      // fault or debugger queue

    constructor ()
    {
      id, state, event, eax := 0, Paused, 0, 0;
      next, nextEvqueue, nextDead, nextFault := null, null, null, null;
    }
  }

  function Opt(p: Thread?): Option<Thread> {
    if p == null then None else Some(p)
  }

  ghost predicate TcbsAre(threads: set<Thread>, tcb: map<Thread, Tcb>)
    reads threads`id, threads`state, threads`event, threads`eax
  {
    && threads == tcb.Keys
    && forall t {:trigger tcb[t]} :: t in threads ==> Tcb(t.id, t.state, t.event, t.eax) == tcb[t]
  }

  ghost predicate NextsAre(threads: set<Thread>, link: LinkField<Thread>)
    reads threads`next
  {
    forall t :: t in threads ==> Opt(t.next) == LinkOf(link, t)
  }

  ghost predicate EvNextsAre(threads: set<Thread>, link: LinkField<Thread>)
    reads threads`nextEvqueue
  {
    forall t :: t in threads ==> Opt(t.nextEvqueue) == LinkOf(link, t)
  }

  ghost predicate DeadNextsAre(threads: set<Thread>, link: LinkField<Thread>)
    reads threads`nextDead
  {
    forall t :: t in threads ==> Opt(t.nextDead) == LinkOf(link, t)
  }

  ghost predicate FaultNextsAre(threads: set<Thread>, link: LinkField<Thread>)
    reads threads`nextFault
  {
    forall t :: t in threads ==> Opt(t.nextFault) == LinkOf(link, t)
  }

  ghost predicate TableIs(entries: seq<Thread?>, table: map<nat, Thread>) {
    && |entries| == THREAD_COUNT
    && (forall k :: 0 <= k < THREAD_COUNT ==> Opt(entries[k]) == if k in table then Some(table[k]) else None)
    && (forall k :: k in table ==> k < THREAD_COUNT)
  }

  /** A queue from its first to its last thread. */
  ghost predicate QueueIs(link: LinkField<Thread>, first: Thread?, last: Thread?, queue: seq<Thread>, threads: set<Thread>) {
    && Holds(link, Lane(Opt(first), Opt(last), queue))
    && (forall t :: t in queue ==> t in threads)
  }

  ghost predicate Apart(evq: seq<seq<Thread>>) {
    forall e, f, t :: 0 <= e < |evq| && 0 <= f < |evq| && t in evq[e] && t in evq[f] ==> e == f
  }

  ghost predicate EvQueuesAre(link: LinkField<Thread>, front: seq<Thread?>, back: seq<Thread?>, evq: seq<seq<Thread>>, threads: set<Thread>) {
    && |front| == |back| == |evq| == EV_COUNT
    && (forall e {:trigger evq[e]} :: 0 <= e < EV_COUNT ==> QueueIs(link, front[e], back[e], evq[e], threads))
    && Apart(evq)
  }

  predicate LaneIs(tail: Thread?, head: Thread?, l: Lane<Thread>) {
    Opt(tail) == l.tail && Opt(head) == l.head
  }

  // ---------------------------------------------------------------------------
  // The kernel
  // ---------------------------------------------------------------------------

  class Kernel {
    var activeThread: Thread?
    const threadTable: array<Thread?>
    var schedHead: Thread?
    var schedTail: Thread?
    const frontThread: array<Thread?>
    const backThread: array<Thread?>
    const irqstate: array<bool>
    var irqMask: bv16
    var deadTail: Thread?
    var deadHead: Thread?
    var reaperTail: Thread?
    var reaperHead: Thread?
    var faultTail: Thread?
    var faultHead: Thread?
    var debugTail: Thread?
    var debugHead: Thread?
    var tick: bv32
    var pitFreq: bv32

    /** The value the structures stand for. */
    ghost var sys: Sys<Thread>
    /** The structures in the thread table. */
    ghost var threads: set<Thread>
    /** The `next` and `nextEvqueue` fields. */
    ghost var nexts: LinkField<Thread>
    ghost var evNexts: LinkField<Thread>

    ghost function Repr(): set<object>
      reads this`threads
    {
      {this, threadTable, frontThread, backThread, irqstate} + threads
    }

    ghost predicate TcbsMirror(tcb: map<Thread, Tcb>)
      reads this`threads, threads`id, threads`state, threads`event, threads`eax
    {
      TcbsAre(threads, tcb)
    }

    ghost predicate TableMirrors(table: map<nat, Thread>)
      reads threadTable
    {
      TableIs(threadTable[..], table)
    }

    ghost predicate SchedMirrors(sched: seq<Thread>)
      reads this`schedHead, this`schedTail, this`nexts, this`threads, threads`next
    {
      NextsAre(threads, nexts) && QueueIs(nexts, schedHead, schedTail, sched, threads)
    }

    ghost predicate EventsMirror(evq: seq<seq<Thread>>)
      reads this`evNexts, this`threads, frontThread, backThread, threads`nextEvqueue
    {
      EvNextsAre(threads, evNexts) && EvQueuesAre(evNexts, frontThread[..], backThread[..], evq, threads)
    }

    ghost predicate DeadMirrors(p: Pair<Thread>)
      reads this`deadTail, this`deadHead, this`reaperTail, this`reaperHead, this`threads, threads`nextDead
    {
      DeadNextsAre(threads, p.link) && LaneIs(deadTail, deadHead, p.items) && LaneIs(reaperTail, reaperHead, p.waiters)
    }

    ghost predicate FaultMirrors(p: Pair<Thread>)
      reads this`faultTail, this`faultHead, this`debugTail, this`debugHead, this`threads, threads`nextFault
    {
      FaultNextsAre(threads, p.link) && LaneIs(faultTail, faultHead, p.items) && LaneIs(debugTail, debugHead, p.waiters)
    }

    ghost predicate IrqMirrors(irq: seq<bool>, mask: bv16)
      reads irqstate, this`irqMask
    {
      irqstate[..] == irq && irqMask == mask
    }

    ghost predicate ClockMirrors(t: bv32, freq: bv32)
      reads this`tick, this`pitFreq
    {
      tick == t && pitFreq == freq
    }

    /** The structures hold exactly `sys`. */
    ghost predicate Mirrors()
      reads this, threadTable, frontThread, backThread, irqstate, threads
    {
      && threadTable != frontThread && threadTable != backThread && frontThread != backThread
      && TcbsMirror(sys.tcb) && TableMirrors(sys.table)
      && sys.active == Opt(activeThread)
      && SchedMirrors(sys.sched) && EventsMirror(sys.evq)
      && DeadMirrors(sys.dead) && FaultMirrors(sys.fault)
      && IrqMirrors(sys.irq, sys.mask) && ClockMirrors(sys.tick, sys.freq)
    }

    /** The kernel as it starts the first thread. */
    constructor (first: Thread, freq: bv32)
      requires freq != 0
      requires Tcb(first.id, first.state, first.event, first.eax) == Tcb(0, Running, 0, 0)
      requires first.next == null && first.nextEvqueue == null && first.nextDead == null && first.nextFault == null
      ensures Mirrors() && Inv(sys) && sys == Boot(first, freq) && threads == {first}
      ensures fresh(Repr() - {first})
    {
      hide InvX, Mirrors, Boot;
      activeThread := first;
      threadTable := new Thread?[THREAD_COUNT](i => if i == 0 then first else null);
      schedHead, schedTail := null, null;
      frontThread := new Thread?[EV_COUNT](_ => null);
      backThread := new Thread?[EV_COUNT](_ => null);
      irqstate := new bool[EV_COUNT](_ => false);
      irqMask := 0;
      deadTail, deadHead, reaperTail, reaperHead := null, null, null, null;
      faultTail, faultHead, debugTail, debugHead := null, null, null, null;
      tick, pitFreq := 0, freq;
      sys := Boot(first, freq);
      threads := {first};
      nexts, evNexts := map[], map[];
      new;
      BootKeeps(first, freq);
      StartedMirrors(first, freq);
    }

    lemma StartedMirrors(first: Thread, freq: bv32)
      requires Tcb(first.id, first.state, first.event, first.eax) == Tcb(0, Running, 0, 0)
      requires first.next == null && first.nextEvqueue == null && first.nextDead == null && first.nextFault == null
      requires threadTable != frontThread && threadTable != backThread && frontThread != backThread
      requires sys == Boot(first, freq) && threads == {first} && nexts == evNexts == map[]
      requires activeThread == first && schedHead == schedTail == null
      requires deadTail == deadHead == reaperTail == reaperHead == null
      requires faultTail == faultHead == debugTail == debugHead == null
      requires irqMask == 0 && tick == 0 && pitFreq == freq
      requires threadTable.Length == THREAD_COUNT && frontThread.Length == backThread.Length == irqstate.Length == EV_COUNT
      requires forall k :: 0 <= k < THREAD_COUNT ==> threadTable[k] == if k == 0 then first else null
      requires forall e :: 0 <= e < EV_COUNT ==> frontThread[e] == backThread[e] == null
      requires forall e :: 0 <= e < EV_COUNT ==> !irqstate[e]
      ensures Mirrors()
    {
      hide TableIs, QueueIs, EvQueuesAre;
      BootTable(threadTable[..], first);
      BootQueues(frontThread[..], backThread[..], {first});
      assert irqstate[..] == sys.irq;
    }

    // Single updates.

    method SetState(t: Thread, st: RunState)
      requires Mirrors() && t in threads
      modifies this`sys, t`state
      ensures Mirrors() && sys == WithState(old(sys), t, st)
    {
      hide TableMirrors, SchedMirrors, EventsMirror, DeadMirrors, FaultMirrors, IrqMirrors, ClockMirrors;
      t.state := st;
      sys := WithState(sys, t, st);
    }

    method SetEax(t: Thread, v: int)
      requires Mirrors() && t in threads
      modifies this`sys, t`eax
      ensures Mirrors() && sys == WithEax(old(sys), t, v)
    {
      hide TableMirrors, SchedMirrors, EventsMirror, DeadMirrors, FaultMirrors, IrqMirrors, ClockMirrors;
      t.eax := v;
      sys := WithEax(sys, t, v);
    }

    method SetEvent(t: Thread, e: int)
      requires Mirrors() && t in threads
      modifies this`sys, t`event
      ensures Mirrors() && sys == WithEvent(old(sys), t, e)
    {
      hide TableMirrors, SchedMirrors, EventsMirror, DeadMirrors, FaultMirrors, IrqMirrors, ClockMirrors;
      t.event := e;
      sys := WithEvent(sys, t, e);
    }

    method ThreadSave()
      requires Mirrors()
      modifies this`activeThread, this`sys
      ensures Mirrors() && sys == Save(old(sys))
    {
      hide TcbsMirror, TableMirrors, SchedMirrors, EventsMirror, DeadMirrors, FaultMirrors, IrqMirrors, ClockMirrors;
      activeThread := null;
      sys := Save(sys);
    }

    method ThreadLoad(t: Thread)
      requires Mirrors()
      modifies this`activeThread, this`sys
      ensures Mirrors() && sys == old(sys).(active := Some(t))
    {
      hide TcbsMirror, TableMirrors, SchedMirrors, EventsMirror, DeadMirrors, FaultMirrors, IrqMirrors, ClockMirrors;
      activeThread := t;
      sys := sys.(active := Some(t));
    }

    // The scheduler queue.

    method WriteNext(t: Thread, v: Thread?)
      requires NextsAre(threads, nexts) && t in threads
      modifies this`nexts, t`next
      ensures NextsAre(threads, nexts) && nexts == old(nexts)[t := Opt(v)]
    {
      t.next := v;
      nexts := nexts[t := Opt(v)];
    }

    method PushOnto(ghost q: seq<Thread>, t: Thread)
      requires SchedMirrors(q) && t in threads && t !in q
      modifies this`schedHead, this`schedTail, this`nexts, threads`next
      ensures SchedMirrors(q + [t])
    {
      hide NextsAre, QueueIs;
      EndsIn(nexts, schedHead, schedTail, q, threads);
      JoinIs(nexts, schedHead, schedTail, q, threads, t);
      if schedTail == null {
        schedHead := t;
      } else {
        WriteNext(schedTail, t);
      }
      schedTail := t;
      WriteNext(t, null);
    }

    method RemoveFrom(ghost q: seq<Thread>, t: Thread) returns (r: int)
      requires SchedMirrors(q)
      modifies this`schedHead, this`schedTail, this`nexts, threads`next
      ensures SchedMirrors(Remove(q, t)) && (r == 0 <==> t in q)
    {
      hide NextsAre, QueueIs, Remove;
      EndsIn(nexts, schedHead, schedTail, q, threads);
      if schedHead == null {
        RemoveAbsent(q, t);
        return 1;
      }
      if t == schedHead {
        NextField(threads, nexts, t);
        LeaveIs(nexts, schedHead, schedTail, q, threads, t.next);
        RemoveFirst(q);
        schedHead := schedHead.next;
        if schedHead == null {
          schedTail := null;
        }
        return 0;
      }
      var t1 := schedHead;
      ghost var i := 0;
      NextField(threads, nexts, t1);
      NextIs(nexts, schedHead, schedTail, q, threads, 0);
      while t1.next != null
        invariant NextsAre(threads, nexts) && QueueIs(nexts, schedHead, schedTail, q, threads)
        invariant i < |q| && t1 == q[i] && t1 in threads && t !in q[..i + 1]
        invariant Opt(t1.next) == Place(q, i + 1)
        invariant i + 1 < |q| ==> q[i + 1] in threads
        decreases |q| - i
      {
        if t1.next == t {
          NextField(threads, nexts, t);
          CutIs(nexts, schedHead, schedTail, q, threads, t, i + 1);
          WriteNext(t1, t.next);
          if schedTail == t {
            schedTail := t1;
          }
          return 0;
        }
        t1 := t1.next;
        i := i + 1;
        NextField(threads, nexts, t1);
        NextIs(nexts, schedHead, schedTail, q, threads, i);
      }
      assert q[..i + 1] == q;
      RemoveAbsent(q, t);
      return 1;
    }

    method SchedulePush(t: Thread)
      requires Mirrors() && t in threads && t !in sys.sched
      modifies this`schedHead, this`schedTail, this`nexts, threads`next, this`sys
      ensures Mirrors() && sys == Push(old(sys), t)
    {
      hide TcbsMirror, TableMirrors, SchedMirrors, EventsMirror, DeadMirrors, FaultMirrors, IrqMirrors, ClockMirrors;
      PushOnto(sys.sched, t);
      sys := Push(sys, t);
    }

    method ScheduleRemv(t: Thread) returns (r: int)
      requires Mirrors()
      modifies this`schedHead, this`schedTail, this`nexts, threads`next, this`sys
      ensures Mirrors() && sys == old(sys).(sched := Remove(old(sys).sched, t)) && (r == 0 <==> t in old(sys).sched)
    {
      hide TcbsMirror, TableMirrors, SchedMirrors, EventsMirror, DeadMirrors, FaultMirrors, IrqMirrors, ClockMirrors, Remove;
      r := RemoveFrom(sys.sched, t);
      sys := sys.(sched := Remove(sys.sched, t));
    }

    method ScheduleNext() returns (t: Thread?)
      requires Mirrors()
      ensures sys.sched == [] <==> t == null
      ensures t != null ==> t == sys.sched[0] && t in threads
    {
      EndsIn(nexts, schedHead, schedTail, sys.sched, threads);
      return schedHead;
    }

    // The event queues.

    method WriteEvNext(t: Thread, v: Thread?)
      requires EvNextsAre(threads, evNexts) && t in threads
      modifies this`evNexts, t`nextEvqueue
      ensures EvNextsAre(threads, evNexts) && evNexts == old(evNexts)[t := Opt(v)]
    {
      t.nextEvqueue := v;
      evNexts := evNexts[t := Opt(v)];
    }

    method JoinEvent(ghost evq: seq<seq<Thread>>, e: nat, t: Thread)
      requires frontThread != backThread && EventsMirror(evq) && e < |evq| && t in threads
      requires forall f :: 0 <= f < |evq| ==> t !in evq[f]
      modifies frontThread, backThread, this`evNexts, threads`nextEvqueue
      ensures EventsMirror(evq[e := evq[e] + [t]])
    {
      hide EvNextsAre, EvQueuesAre;
      EvShape(evNexts, frontThread[..], backThread[..], evq, threads, e);
      EvJoinIs(evNexts, frontThread[..], backThread[..], evq, threads, e, t);
      var back := backThread[e];
      if back == null {
        frontThread[e] := t;
      } else {
        WriteEvNext(back, t);
      }
      backThread[e] := t;
      WriteEvNext(t, null);
    }

    method LeaveEvent(ghost evq: seq<seq<Thread>>, e: nat) returns (t: Thread)
      requires frontThread != backThread && EventsMirror(evq) && e < |evq| && evq[e] != []
      modifies frontThread, backThread
      ensures EventsMirror(evq[e := evq[e][1..]]) && t == evq[e][0]
    {
      hide EvNextsAre, EvQueuesAre;
      EvShape(evNexts, frontThread[..], backThread[..], evq, threads, e);
      t := frontThread[e];
      EvNextField(threads, evNexts, t);
      EvLeaveIs(evNexts, frontThread[..], backThread[..], evq, threads, e, t.nextEvqueue);
      frontThread[e] := t.nextEvqueue;
      if t.nextEvqueue == null {
        backThread[e] := null;
      }
    }

    method LinkEvent(e: nat, t: Thread)
      requires Mirrors() && e < |sys.evq| && t in threads && forall f :: 0 <= f < |sys.evq| ==> t !in sys.evq[f]
      modifies frontThread, backThread, this`evNexts, threads`nextEvqueue, this`sys
      ensures Mirrors() && sys == old(sys).(evq := old(sys).evq[e := old(sys).evq[e] + [t]])
    {
      hide TcbsMirror, TableMirrors, SchedMirrors, EventsMirror, DeadMirrors, FaultMirrors, IrqMirrors, ClockMirrors;
      JoinEvent(sys.evq, e, t);
      sys := sys.(evq := sys.evq[e := sys.evq[e] + [t]]);
    }

    method UnlinkEvent(e: nat) returns (t: Thread)
      requires Mirrors() && e < |sys.evq| && sys.evq[e] != []
      modifies frontThread, backThread, this`sys
      ensures Mirrors() && sys == old(sys).(evq := old(sys).evq[e := old(sys).evq[e][1..]]) && t == old(sys).evq[e][0]
    {
      hide TcbsMirror, TableMirrors, SchedMirrors, EventsMirror, DeadMirrors, FaultMirrors, IrqMirrors, ClockMirrors;
      t := LeaveEvent(sys.evq, e);
      sys := sys.(evq := sys.evq[e := sys.evq[e][1..]]);
    }

    method WriteLatch(ghost irq: seq<bool>, ghost mask: bv16, e: nat, v: bool)
      requires IrqMirrors(irq, mask) && e < |irq|
      modifies irqstate, this`irqMask
      ensures IrqMirrors(irq[e := v], if v then MaskOn(mask, e) else MaskOff(mask, e))
    {
      hide MaskOn, MaskOff;
      irqMask := if v then MaskOn(irqMask, e) else MaskOff(irqMask, e);
      irqstate[e] := v;
    }

    /** `irq_mask` or `irq_unmask`, and the latch. */
    method SetIrq(e: nat, v: bool)
      requires Mirrors() && e < |sys.irq|
      modifies irqstate, this`irqMask, this`sys
      ensures Mirrors()
      ensures sys == old(sys).(irq := old(sys).irq[e := v], mask := if v then MaskOn(old(sys).mask, e) else MaskOff(old(sys).mask, e))
    {
      hide TcbsMirror, TableMirrors, SchedMirrors, EventsMirror, DeadMirrors, FaultMirrors, IrqMirrors, ClockMirrors, MaskOn, MaskOff;
      WriteLatch(sys.irq, sys.mask, e, v);
      sys := sys.(irq := sys.irq[e := v], mask := if v then MaskOn(sys.mask, e) else MaskOff(sys.mask, e));
    }

    // The dead and reaper queues.

    method TakeReaper(ghost p: Pair<Thread>, ghost t: Thread) returns (r: Thread)
      requires DeadMirrors(p) && p.waiters.tail.Some? && p.waiters.tail.value in threads
      modifies this`reaperTail, this`reaperHead
      ensures DeadMirrors(Announce(p, t)) && Some(r) == p.waiters.tail
    {
      r := reaperTail;
      reaperTail := reaperTail.nextDead;
      if reaperTail == null {
        reaperHead := null;
      }
    }

    method QueueDead(ghost p: Pair<Thread>, t: Thread)
      requires DeadMirrors(p) && p.waiters.tail == None && t in threads
      requires p.items.head.Some? ==> p.items.head.value in threads
      modifies this`deadTail, this`deadHead, threads`nextDead
      ensures DeadMirrors(Announce(p, t))
    {
      if deadHead != null {
        deadHead.nextDead := t;
        t.nextDead := null;
        deadHead := t;
      } else {
        deadHead := t;
        deadTail := t;
      }
    }

    method DeadPull(ghost p: Pair<Thread>, ghost w: Thread) returns (d: Thread?)
      requires DeadMirrors(p) && (p.items.tail.Some? ==> p.items.tail.value in threads)
      modifies this`deadTail, this`deadHead
      ensures Opt(d) == p.items.tail
      ensures DeadMirrors(if d == null then p else Await(p, w))
    {
      if deadTail == null {
        return null;
      }
      d := deadTail;
      deadTail := deadTail.nextDead;
      if deadTail == null {
        deadHead := null;
      }
    }

    method QueueReaper(ghost p: Pair<Thread>, r: Thread)
      requires DeadMirrors(p) && p.items.tail == None && r in threads
      requires p.waiters.head.Some? ==> p.waiters.head.value in threads
      modifies this`reaperTail, this`reaperHead, threads`nextDead
      ensures DeadMirrors(Await(p, r))
    {
      if reaperHead != null {
        reaperHead.nextDead := r;
        r.nextDead := null;
        reaperHead := r;
      } else {
        reaperHead := r;
        reaperTail := r;
      }
    }

    // The fault and debugger queues.

    method TakeDebugger(ghost p: Pair<Thread>, ghost t: Thread) returns (d: Thread)
      requires FaultMirrors(p) && p.waiters.tail.Some? && p.waiters.tail.value in threads
      modifies this`debugTail, this`debugHead
      ensures FaultMirrors(Announce(p, t)) && Some(d) == p.waiters.tail
    {
      d := debugTail;
      debugTail := debugTail.nextFault;
      if debugTail == null {
        debugHead := null;
      }
    }

    method QueueFault(ghost p: Pair<Thread>, t: Thread)
      requires FaultMirrors(p) && p.waiters.tail == None && t in threads
      requires p.items.head.Some? ==> p.items.head.value in threads
      modifies this`faultTail, this`faultHead, threads`nextFault
      ensures FaultMirrors(Announce(p, t))
    {
      if faultHead != null {
        faultHead.nextFault := t;
        t.nextFault := null;
        faultHead := t;
      } else {
        faultHead := t;
        faultTail := t;
      }
    }

    method QueueDebugger(ghost p: Pair<Thread>, d: Thread)
      requires FaultMirrors(p) && p.items.tail == None && d in threads
      requires p.waiters.head.Some? ==> p.waiters.head.value in threads
      modifies this`debugTail, this`debugHead, threads`nextFault
      ensures FaultMirrors(Await(p, d))
    {
      if debugHead != null {
        debugHead.nextFault := d;
        d.nextFault := null;
        debugHead := d;
      } else {
        debugHead := d;
        debugTail := d;
      }
    }

    // What the structures say about `sys`.

    lemma Fields(t: Thread)
      requires Mirrors() && t in threads
      ensures t in sys.tcb && Tcb(t.id, t.state, t.event, t.eax) == sys.tcb[t]
    {
    }

    lemma Pointers()
      requires Mirrors()
      ensures threads == sys.tcb.Keys && sys.active == Opt(activeThread)
      ensures LaneIs(deadTail, deadHead, sys.dead.items) && LaneIs(reaperTail, reaperHead, sys.dead.waiters)
      ensures LaneIs(faultTail, faultHead, sys.fault.items) && LaneIs(debugTail, debugHead, sys.fault.waiters)
      ensures irqstate[..] == sys.irq && tick == sys.tick && pitFreq == sys.freq
    {
    }

    method NotifyReaper(ghost t: Thread) returns (r: Thread)
      requires Mirrors() && sys.dead.waiters.tail.Some? && sys.dead.waiters.tail.value in threads
      modifies this`reaperTail, this`reaperHead, this`sys
      ensures Mirrors() && sys == old(sys).(dead := Announce(old(sys).dead, t)) && Some(r) == old(sys).dead.waiters.tail
    {
      hide TcbsMirror, TableMirrors, SchedMirrors, EventsMirror, DeadMirrors, FaultMirrors, IrqMirrors, ClockMirrors, Announce;
      r := TakeReaper(sys.dead, t);
      sys := sys.(dead := Announce(sys.dead, t));
    }

    method ParkDead(t: Thread)
      requires Mirrors() && sys.dead.waiters.tail == None && t in threads
      requires sys.dead.items.head.Some? ==> sys.dead.items.head.value in threads
      modifies this`deadTail, this`deadHead, threads`nextDead, this`sys
      ensures Mirrors() && sys == old(sys).(dead := Announce(old(sys).dead, t))
    {
      hide TcbsMirror, TableMirrors, SchedMirrors, EventsMirror, DeadMirrors, FaultMirrors, IrqMirrors, ClockMirrors, Announce;
      QueueDead(sys.dead, t);
      sys := sys.(dead := Announce(sys.dead, t));
    }

    method TakeDead(ghost w: Thread) returns (d: Thread)
      requires Mirrors() && sys.dead.items.tail.Some? && sys.dead.items.tail.value in threads
      modifies this`deadTail, this`deadHead, this`sys
      ensures Mirrors() && sys == old(sys).(dead := Await(old(sys).dead, w)) && Some(d) == old(sys).dead.items.tail
    {
      hide TcbsMirror, TableMirrors, SchedMirrors, EventsMirror, DeadMirrors, FaultMirrors, IrqMirrors, ClockMirrors, Await;
      d := DeadPull(sys.dead, w);
      sys := sys.(dead := Await(sys.dead, w));
    }

    method ParkReaper(r: Thread)
      requires Mirrors() && sys.dead.items.tail == None && r in threads
      requires sys.dead.waiters.head.Some? ==> sys.dead.waiters.head.value in threads
      modifies this`reaperTail, this`reaperHead, threads`nextDead, this`sys
      ensures Mirrors() && sys == old(sys).(dead := Await(old(sys).dead, r))
    {
      hide TcbsMirror, TableMirrors, SchedMirrors, EventsMirror, DeadMirrors, FaultMirrors, IrqMirrors, ClockMirrors, Await;
      QueueReaper(sys.dead, r);
      sys := sys.(dead := Await(sys.dead, r));
    }

    method NotifyDebugger(ghost t: Thread) returns (d: Thread)
      requires Mirrors() && sys.fault.waiters.tail.Some? && sys.fault.waiters.tail.value in threads
      modifies this`debugTail, this`debugHead, this`sys
      ensures Mirrors() && sys == old(sys).(fault := Announce(old(sys).fault, t)) && Some(d) == old(sys).fault.waiters.tail
    {
      hide TcbsMirror, TableMirrors, SchedMirrors, EventsMirror, DeadMirrors, FaultMirrors, IrqMirrors, ClockMirrors, Announce;
      d := TakeDebugger(sys.fault, t);
      sys := sys.(fault := Announce(sys.fault, t));
    }

    method ParkFault(t: Thread)
      requires Mirrors() && sys.fault.waiters.tail == None && t in threads
      requires sys.fault.items.head.Some? ==> sys.fault.items.head.value in threads
      modifies this`faultTail, this`faultHead, threads`nextFault, this`sys
      ensures Mirrors() && sys == old(sys).(fault := Announce(old(sys).fault, t))
    {
      hide TcbsMirror, TableMirrors, SchedMirrors, EventsMirror, DeadMirrors, FaultMirrors, IrqMirrors, ClockMirrors, Announce;
      QueueFault(sys.fault, t);
      sys := sys.(fault := Announce(sys.fault, t));
    }

    method ParkDebugger(d: Thread)
      requires Mirrors() && sys.fault.items.tail == None && d in threads
      requires sys.fault.waiters.head.Some? ==> sys.fault.waiters.head.value in threads
      modifies this`debugTail, this`debugHead, threads`nextFault, this`sys
      ensures Mirrors() && sys == old(sys).(fault := Await(old(sys).fault, d))
    {
      hide TcbsMirror, TableMirrors, SchedMirrors, EventsMirror, DeadMirrors, FaultMirrors, IrqMirrors, ClockMirrors, Await;
      QueueDebugger(sys.fault, d);
      sys := sys.(fault := Await(sys.fault, d));
    }

    // Operations.

    /** `schedule_push` and the state that goes with it. */
    method Queue(t: Thread)
      requires Mirrors() && t in threads && t !in sys.sched
      modifies this`schedHead, this`schedTail, this`nexts, this`sys, threads`next, t`state
      ensures Mirrors() && sys == Enqueue(old(sys), t)
    {
      hide Mirrors, WithState;
      SchedulePush(t);
      SetState(t, Queued);
    }

    /** Wakes a parked thread with a return value. */
    method Notify(t: Thread, v: int)
      requires Mirrors() && t in threads && t !in sys.sched
      modifies this`schedHead, this`schedTail, this`nexts, this`sys, threads`next, t`state, t`eax
      ensures Mirrors() && sys == Enqueue(WithEax(old(sys), t, v), t)
    {
      hide Mirrors, Enqueue;
      SetEax(t, v);
      Queue(t);
    }

    method DeadPush(t: Thread)
      requires Mirrors() && Inv(sys) && t in threads
      modifies Repr()
      ensures Mirrors() && threads == old(threads) && sys == ThreadModel.DeadPush(old(sys), t)
    {
      hide Mirrors, InvX, Announce, Enqueue, WithEax;
      Pointers();
      LaneFacts(sys);
      Fields(t);
      if reaperTail != null {
        var id := t.id;
        var reaper := NotifyReaper(t);
        Notify(reaper, id);
      } else {
        ParkDead(t);
      }
    }

    method DeadWait(r: Thread)
      requires Mirrors() && Inv(sys) && r in threads && r !in sys.sched
      modifies Repr()
      ensures Mirrors() && threads == old(threads) && sys == ThreadModel.DeadWait(old(sys), r)
    {
      hide Mirrors, InvX, Await, Enqueue, WithEax;
      Pointers();
      LaneFacts(sys);
      if deadTail != null {
        Fields(deadTail);
        var dead := TakeDead(r);
        Notify(r, dead.id);
      } else {
        ParkReaper(r);
      }
    }

    method FaultPush(t: Thread)
      requires Mirrors() && Inv(sys) && t in threads
      modifies Repr()
      ensures Mirrors() && threads == old(threads) && sys == ThreadModel.FaultPush(old(sys), t)
    {
      hide Mirrors, InvX, Announce, Enqueue, WithEax;
      Pointers();
      LaneFacts(sys);
      Fields(t);
      if debugTail != null {
        var id := t.id;
        var debug := NotifyDebugger(t);
        Notify(debug, id);
      } else {
        ParkFault(t);
      }
    }

    /** `fault_wait` while no fault is queued. */
    method FaultWait(d: Thread)
      requires Mirrors() && Inv(sys) && d in threads && sys.fault.items.tail == None
      modifies Repr()
      ensures Mirrors() && threads == old(threads) && sys == old(sys).(fault := Await(old(sys).fault, d))
    {
      hide Mirrors, InvX, Await;
      Pointers();
      LaneFacts(sys);
      ParkDebugger(d);
    }

    method ThreadGet(id: int) returns (t: Thread?)
      requires Mirrors()
      ensures Opt(t) == Get(sys, id)
    {
      if id < 0 || id >= THREAD_COUNT {
        return null;
      }
      return threadTable[id];
    }

    /** For the running thread; a negative event polls. */
    method EventWait(id: int, event: int) returns (r: int)
      requires Mirrors() && Inv(sys) && -EV_COUNT <= event
      requires Get(sys, id).Some? ==> Get(sys, id) == sys.active
      modifies Repr()
      ensures Mirrors() && threads == old(threads)
      ensures match Get(old(sys), id)
        case None => sys == old(sys) && r == 1
        case Some(t) => |old(sys).evq| == |old(sys).irq| == EV_COUNT && (sys, r) == ThreadModel.EventWait(old(sys), t, event)
    {
      hide Mirrors, InvX, WithState, WithEvent, Enqueue;
      InvShape(sys, {});
      Pointers();
      var thread := ThreadGet(id);
      if thread == null {
        return 1;
      }
      if event < 0 {
        return if irqstate[-event - 1] then 1 else 0;
      }
      if event >= EV_COUNT {
        return 1;
      }
      RunningNowhere(sys);
      if irqstate[event] {
        ThreadSave();
        Queue(thread);
      } else {
        Block(thread, event);
      }
      return 0;
    }

    /** The thread enters an event queue. */
    method Block(t: Thread, e: nat)
      requires Mirrors() && e < |sys.evq| && t in threads && forall f :: 0 <= f < |sys.evq| ==> t !in sys.evq[f]
      modifies Repr()
      ensures Mirrors() && threads == old(threads)
      ensures sys == WithState(Save(WithEvent(old(sys).(evq := old(sys).evq[e := old(sys).evq[e] + [t]]), t, e)), t, Waiting)
    {
      hide Mirrors, WithState, WithEvent;
      LinkEvent(e, t);
      SetEvent(t, e);
      ThreadSave();
      SetState(t, Waiting);
    }

    /** The front thread of an event queue becomes runnable. */
    method WakeFront(e: nat)
      requires Mirrors() && Inv(sys) && e < |sys.evq| && sys.evq[e] != []
      modifies Repr()
      ensures Mirrors() && threads == old(threads) && sys == Wake(old(sys), e)
    {
      hide Mirrors, InvX, WithEax, WithEvent, Enqueue;
      Pointers();
      FrontFacts(sys, e);
      var thread := UnlinkEvent(e);
      ghost var s1 := sys;
      SetEax(thread, e);
      SetEvent(thread, -1);
      FieldsOnly(s1, thread, e, -1);
      Fields(thread);
      if thread.state == Running {
        ThreadSave();
      }
      Queue(thread);
    }

    method EventSend(event: int)
      requires Mirrors() && Inv(sys)
      modifies Repr()
      ensures Mirrors() && threads == old(threads)
      ensures |old(sys).irq| == |old(sys).evq| == EV_COUNT && sys == ThreadModel.EventSend(old(sys), event)
    {
      hide Mirrors, InvX, Wake, MaskOn, MaskOff;
      InvShape(sys, {});
      if event < 0 || event >= EV_COUNT {
        return;
      }
      var waiting := HasWaiter(event);
      if waiting {
        WakeShape(sys, event);
        WakeFront(event);
      }
      if event < LATCHED {
        SetIrq(event, true);
      }
    }

    method HasWaiter(e: nat) returns (r: bool)
      requires Mirrors() && e < |sys.evq|
      ensures r == (sys.evq[e] != [])
    {
      hide EvQueuesAre, EvNextsAre;
      EvShape(evNexts, frontThread[..], backThread[..], sys.evq, threads, e);
      return frontThread[e] != null;
    }

    /** `irq_unmask`, after the latch is cleared. */
    method Reset(image: Thread, e: nat)
      requires Mirrors() && |sys.irq| == EV_COUNT && image in threads && Modelled(sys, image, Call.Reset(e))
      modifies Repr()
      ensures Mirrors() && threads == old(threads) && sys == DoReset(old(sys), image, e)
    {
      hide Mirrors, MaskOn, MaskOff, WithEax;
      if e < LATCHED {
        SetIrq(e, false);
      }
      SetEax(image, 0);
    }

    // Threads come and go.

    /** The first free slot of the thread table, or its size. */
    method FindSlot() returns (i: nat)
      requires Mirrors()
      ensures FreeSlot(sys, 0) == if i < THREAD_COUNT then Some(i) else None
      ensures i <= THREAD_COUNT
    {
      hide TcbsMirror, SchedMirrors, EventsMirror, DeadMirrors, FaultMirrors, IrqMirrors, ClockMirrors;
      i := 0;
      while i < THREAD_COUNT && threadTable[i] != null
        invariant i <= THREAD_COUNT && forall j :: 0 <= j < i ==> j in sys.table
      {
        i := i + 1;
      }
      SlotIs(sys, i);
    }

    /** A structure fresh from the heap is cleared, numbered and paused. */
    method Clear(t: Thread, i: nat)
      requires Mirrors() && t !in threads
      modifies t
      ensures Mirrors() && t.id == i && t.state == Paused && t.event == 0 && t.eax == 0
      ensures t.next == null && t.nextEvqueue == null && t.nextDead == null && t.nextFault == null
    {
      hide Mirrors;
      t.id, t.state, t.event, t.eax := i, Paused, 0, 0;
      t.next, t.nextEvqueue, t.nextDead, t.nextFault := null, null, null, null;
    }

    lemma GrowQueues(t: Thread)
      requires Mirrors() && t !in threads && t.next == null && t.nextEvqueue == null
      ensures NextsAre(threads + {t}, nexts[t := None]) && EvNextsAre(threads + {t}, evNexts[t := None])
      ensures QueueIs(nexts[t := None], schedHead, schedTail, sys.sched, threads + {t})
      ensures EvQueuesAre(evNexts[t := None], frontThread[..], backThread[..], sys.evq, threads + {t})
    {
      hide QueueIs, EvQueuesAre;
      QueueGrows(nexts, schedHead, schedTail, sys.sched, threads, t);
      EvGrows(evNexts, frontThread[..], backThread[..], sys.evq, threads, t);
    }

    lemma GrowRest(t: Thread)
      requires Mirrors() && t !in threads && t.nextDead == null && t.nextFault == null
      ensures TcbsAre(threads + {t}, sys.tcb[t := Tcb(t.id, t.state, t.event, t.eax)])
      ensures DeadNextsAre(threads + {t}, sys.dead.link - {t}) && FaultNextsAre(threads + {t}, sys.fault.link - {t})
    {
      hide NextsAre, EvNextsAre, QueueIs, EvQueuesAre;
    }

    method PutTable(ghost table: map<nat, Thread>, t: Thread, i: nat)
      requires TableMirrors(table) && i < THREAD_COUNT
      modifies threadTable
      ensures TableMirrors(table[i := t])
    {
      threadTable[i] := t;
    }

    /** The structures the queues may hold are one more. */
    ghost method Extend(t: Thread)
      requires Mirrors() && t !in threads
      requires t.next == null && t.nextEvqueue == null && t.nextDead == null && t.nextFault == null
      modifies this`threads, this`nexts, this`evNexts
      ensures threads == old(threads) + {t}
      ensures TcbsMirror(sys.tcb[t := Tcb(t.id, t.state, t.event, t.eax)])
      ensures SchedMirrors(sys.sched) && EventsMirror(sys.evq)
      ensures DeadMirrors(Cleared(sys.dead, t)) && FaultMirrors(Cleared(sys.fault, t))
    {
      hide TcbsAre, NextsAre, EvNextsAre, DeadNextsAre, FaultNextsAre, QueueIs, EvQueuesAre, LaneIs;
      hide IrqMirrors, ClockMirrors, TableMirrors;
      GrowQueues(t);
      GrowRest(t);
      threads := threads + {t};
      nexts := nexts[t := None];
      evNexts := evNexts[t := None];
    }

    /** Enters a cleared structure into the thread table. */
    method Install(t: Thread, i: nat)
      requires Mirrors() && t !in threads && i < THREAD_COUNT
      requires Tcb(t.id, t.state, t.event, t.eax) == Tcb(i, Paused, 0, 0)
      requires t.next == null && t.nextEvqueue == null && t.nextDead == null && t.nextFault == null
      modifies this`threads, this`sys, this`nexts, this`evNexts, threadTable
      ensures Mirrors() && threads == old(threads) + {t} && sys == Grow(old(sys), t, Tcb(i, Paused, 0, 0))
    {
      hide TcbsMirror, TableMirrors, SchedMirrors, EventsMirror, DeadMirrors, FaultMirrors, IrqMirrors, ClockMirrors, Cleared;
      Extend(t);
      PutTable(sys.table, t, i);
      sys := Grow(sys, t, Tcb(i, Paused, 0, 0));
    }

    /** The structures the queues may hold are one fewer. */
    ghost method Shrink(t: Thread)
      requires Mirrors() && t in threads && t !in sys.sched && forall e :: 0 <= e < |sys.evq| ==> t !in sys.evq[e]
      modifies this`threads
      ensures threads == old(threads) - {t}
      ensures TcbsMirror(sys.tcb - {t}) && SchedMirrors(sys.sched) && EventsMirror(sys.evq)
      ensures DeadMirrors(sys.dead) && FaultMirrors(sys.fault)
    {
      hide TcbsAre, NextsAre, EvNextsAre, DeadNextsAre, FaultNextsAre;
      hide QueueIs, EvQueuesAre, LaneIs, IrqMirrors, ClockMirrors, TableMirrors;
      LinksShrink(threads, t, nexts, evNexts, sys.dead.link, sys.fault.link, sys.tcb);
      QueueShrinks(nexts, schedHead, schedTail, sys.sched, threads, t);
      EvShrinks(evNexts, frontThread[..], backThread[..], sys.evq, threads, t);
      threads := threads - {t};
    }

    method ClearTable(ghost table: map<nat, Thread>, i: nat)
      requires TableMirrors(table) && i < THREAD_COUNT
      modifies threadTable
      ensures TableMirrors(table - {i})
    {
      threadTable[i] := null;
    }

    method ThreadKill(t: Thread)
      requires Mirrors() && Inv(sys) && t in threads && t !in sys.sched && forall e :: 0 <= e < |sys.evq| ==> t !in sys.evq[e]
      modifies this`threads, this`sys, threadTable
      ensures Mirrors() && threads == old(threads) - {t} && t in old(sys).tcb
      ensures sys == old(sys).(tcb := old(sys).tcb - {t}, table := old(sys).table - {old(sys).tcb[t].id})
    {
      hide TcbsMirror, TableMirrors, SchedMirrors, EventsMirror, DeadMirrors, FaultMirrors, IrqMirrors, ClockMirrors, InvX;
      Fields(t);
      IdInRange(sys, t);
      Shrink(t);
      ClearTable(sys.table, t.id);
      sys := sys.(tcb := sys.tcb - {t}, table := sys.table - {t.id});
    }

    /** The running thread is paused. */
    method Stop(t: Thread)
      requires Mirrors() && t in threads
      modifies this`activeThread, this`sys, t`state
      ensures Mirrors() && sys == WithState(Save(old(sys)), t, Paused)
    {
      hide Mirrors, WithState;
      ThreadSave();
      SetState(t, Paused);
    }

    // Kernel calls of the running thread `image`.

    /** `thread` is what the heap hands out for the new structure. */
    method Spawn(image: Thread, thread: Thread, value: int)
      requires Mirrors() && image in threads && Modelled(sys, image, Call.Spawn(thread, value))
      modifies Repr(), thread
      ensures Mirrors() && threads <= old(threads) + {thread} && sys == DoSpawn(old(sys), image, thread, value)
    {
      hide Mirrors, WithEax, WithState, FreeSlot, Grow;
      ghost var s := sys;
      Pointers();
      var id := FindSlot();
      if id >= THREAD_COUNT {
        SetEax(image, -1);
        return;
      }
      SchedIn();
      Clear(thread, id);
      Install(thread, id);
      SetEax(thread, value);
      SetState(thread, Queued);
      SpawnFields(s, thread, id, value);
      SchedulePush(thread);
      SetEax(image, id);
    }

    lemma SchedIn()
      requires Mirrors()
      ensures forall t :: t in sys.sched ==> t in threads
    {
    }

    method Reap(image: Thread, id: int)
      requires Mirrors() && Inv(sys) && image in threads && Modelled(sys, image, Call.Reap(id))
      modifies Repr()
      ensures Mirrors() && threads <= old(threads) && Get(old(sys), id).Some? && sys == DoReap(old(sys), image, Get(old(sys), id).value)
    {
      hide Mirrors, InvX, WithEax;
      ghost var s := sys;
      var target := ThreadGet(id);
      Pointers();
      GetIn(sys, id);
      Fields(target);
      if target.state != Paused {
        SetEax(image, TE_STATE);
      } else {
        EaxKeeps(s, image, 0, {});
        EaxOnly(s, image, 0, target);
        PausedNowhere(s, target);
        SetEax(image, 0);
        ThreadKill(target);
      }
    }

    method Pause(image: Thread, id: int)
      requires Mirrors() && Inv(sys) && sys.active == Some(image) && Modelled(sys, image, Call.Pause(id))
      modifies Repr()
      ensures Mirrors() && threads == old(threads) && sys == DoPause(old(sys), image, Target(old(sys), image, id))
    {
      hide Mirrors, InvX, WithEax;
      Pointers();
      InvShape(sys, {});
      var target := ThreadGet(id);
      if id == -1 {
        target := image;
      }
      if target == null {
        SetEax(image, TE_EXIST);
        return;
      }
      PauseTarget(image, target);
    }

    method PauseTarget(image: Thread, target: Thread)
      requires Mirrors() && image in threads && target in threads && target in sys.tcb && sys.tcb[target].state != Waiting
      modifies Repr()
      ensures Mirrors() && threads == old(threads) && sys == DoPause(old(sys), image, Some(target))
    {
      hide Mirrors, WithEax, WithState, Remove;
      Fields(target);
      if target.state == Running {
        Stop(target);
        SetEax(image, 0);
      } else if target.state == Queued {
        var _ := ScheduleRemv(target);
        SetState(target, Paused);
        SetEax(image, 0);
      } else {
        SetEax(image, TE_STATE);
      }
    }

    method Resume(image: Thread, id: int)
      requires Mirrors() && Inv(sys) && image in threads && Modelled(sys, image, Call.Resume(id))
      modifies Repr()
      ensures Mirrors() && threads == old(threads) && sys == DoResume(old(sys), image, Get(old(sys), id))
    {
      hide Mirrors, InvX, WithEax, Enqueue;
      Pointers();
      var target := ThreadGet(id);
      if target == null {
        SetEax(image, TE_EXIST);
        return;
      }
      Fields(target);
      if target.state == Paused {
        PausedNowhere(sys, target);
        Queue(target);
        SetEax(image, 0);
      } else {
        SetEax(image, TE_STATE);
      }
    }

    /** Kills a thread: it is paused if it is running, and announced to the reapers. */
    method Die(target: Thread)
      requires Mirrors() && Inv(sys) && target in threads
      modifies Repr()
      ensures Mirrors() && threads == old(threads) && target in old(sys).tcb
      ensures sys == ThreadModel.DeadPush(if old(sys).tcb[target].state == Running then WithState(Save(old(sys)), target, Paused) else old(sys), target)
    {
      hide Mirrors, InvX, WithState, ThreadModel.DeadPush;
      Fields(target);
      if target.state == Running {
        RunningIsActive(sys, target);
        StopKeeps(sys);
        Stop(target);
      }
      DeadPush(target);
    }

    /** SETSTATE with the dead flag set; `value` is the saved `eax`. */
    method SetDead(image: Thread, id: int, value: int)
      requires Mirrors() && Inv(sys) && sys.active == Some(image)
      modifies Repr()
      ensures Mirrors() && threads == old(threads) && sys == DoSetDead(old(sys), image, Target(old(sys), image, id), value)
    {
      hide Mirrors, InvX, WithEax, DoSetDead;
      Pointers();
      InvShape(sys, {});
      NoSuchThread(sys, image, value);
      var target := ThreadGet(id);
      if id == -1 {
        target := image;
      }
      if target == null {
        SetEax(image, TE_EXIST);
        return;
      }
      TargetInTable(sys, image, id);
      SetDeadTarget(image, target, value);
    }

    method SetDeadTarget(image: Thread, target: Thread, value: int)
      requires Mirrors() && Inv(sys) && image in threads && target in threads && target in sys.tcb
      modifies Repr()
      ensures Mirrors() && threads == old(threads) && sys == DoSetDead(old(sys), image, Some(target), value)
    {
      hide Mirrors, InvX, WithEax, WithState, ThreadModel.DeadPush;
      Fields(target);
      if target.state == Queued || target.state == Waiting {
        SetEax(image, TE_STATE);
        return;
      }
      Die(target);
      SetEax(target, value);
      SetEax(image, 0);
    }

    method GetDead(image: Thread)
      requires Mirrors() && Inv(sys) && sys.active == Some(image)
      modifies Repr()
      ensures Mirrors() && threads == old(threads) && sys == DoGetDead(old(sys), image)
    {
      hide Mirrors, InvX, WithEax, WithState, ThreadModel.DeadWait, Await;
      Pointers();
      InvShape(sys, {});
      LaneFacts(sys);
      if deadTail != null {
        Fields(deadTail);
        var dead := TakeDead(image);
        SetEax(image, dead.id);
      } else {
        StopKeeps(sys);
        StopOnly(sys, image);
        RunningNowhere(sys);
        Stop(image);
        DeadWait(image);
      }
    }

    /** GETFAULT while no fault is queued. */
    method GetFault(image: Thread)
      requires Mirrors() && Inv(sys) && sys.active == Some(image) && Modelled(sys, image, Call.GetFault)
      modifies Repr()
      ensures Mirrors() && threads == old(threads) && sys == DoGetFault(old(sys), image)
    {
      hide Mirrors, InvX, WithState, Await, MayAwait;
      DeadShape(sys);
      Pointers();
      InvShape(sys, {});
      StopKeeps(sys);
      StopOnly(sys, image);
      Stop(image);
      FaultWait(image);
    }

    method Yield(image: Thread)
      requires Mirrors() && Inv(sys) && sys.active == Some(image)
      modifies Repr()
      ensures Mirrors() && threads == old(threads) && sys == Enqueue(Save(old(sys)), image)
    {
      hide Mirrors, InvX, Enqueue;
      Pointers();
      RunningNowhere(sys);
      ThreadSave();
      Queue(image);
    }

    method Wait(image: Thread, event: int)
      requires |sys.irq| == |sys.evq| == EV_COUNT && -EV_COUNT <= event
      requires Mirrors() && Inv(sys) && sys.active == Some(image)
      modifies Repr()
      ensures Mirrors() && threads == old(threads)
      ensures var (s1, r) := ThreadModel.EventWait(old(sys), image, event); sys == WithEax(s1, image, r)
    {
      hide Mirrors, InvX, WithEax, ThreadModel.EventWait;
      Pointers();
      InvShape(sys, {});
      Fields(image);
      IdInRange(sys, image);
      var r := EventWait(image.id, event);
      SetEax(image, r);
    }

    method GetTid(image: Thread)
      requires Mirrors() && image in threads
      modifies Repr()
      ensures Mirrors() && threads == old(threads) && sys == WithEax(old(sys), image, IdOf(old(sys), image))
    {
      hide Mirrors, WithEax;
      Fields(image);
      SetEax(image, image.id);
    }

    /** The kernel call handler. */
    method Kcall(image: Thread, call: Call<Thread>)
      requires Ready(sys, Interrupt.Kcall(call)) && sys.active == Some(image)
      requires Mirrors() && Inv(sys) && Modelled(sys, image, call)
      modifies Repr(), Brought(call)
      ensures Mirrors() && threads <= old(threads) + Brought(call)
      ensures sys == DoCall(old(sys), image, call)
    {
      hide Mirrors, InvX, WithEax, Enqueue, ThreadModel.EventWait;
      hide DoSpawn, DoReap, DoPause, DoResume, DoSetDead, DoGetDead, DoGetFault, DoReset, Modelled;
      Pointers();
      InvShape(sys, {});
      match call {
        case Spawn(thread, value) => Spawn(image, thread, value);
        case Reap(id) => Reap(image, id);
        case GetTid => GetTid(image);
        case Yield => Yield(image);
        case Pause(id) => Pause(image, id);
        case Resume(id) => Resume(image, id);
        case SetDead(id, value) => SetDead(image, id, value);
        case GetDead => GetDead(image);
        case GetFault => GetFault(image);
        case WaitFor(event) => Wait(image, event);
        case Reset(irq) => Reset(image, irq);
      }
    }

    // Interrupts.

    method NextTick()
      requires Mirrors()
      modifies this`tick, this`sys
      ensures Mirrors() && sys == old(sys).(tick := old(sys).tick + 1)
    {
      hide TcbsMirror, TableMirrors, SchedMirrors, EventsMirror, DeadMirrors, FaultMirrors, IrqMirrors;
      tick := tick + 1;
      sys := sys.(tick := tick);
    }

    method SendTimerEvents(ghost fired: seq<bool>, now: bv32)
      requires Mirrors() && Inv(sys) && |sys.irq| == |sys.evq| == EV_COUNT
      requires pitFreq != 0 && fired == Fired(now, pitFreq)
      modifies Repr()
      ensures Mirrors() && threads == old(threads) && sys == SendTimers(old(sys), fired, 16)
    {
      hide Mirrors, InvX, Fired, FiredBits, ThreadModel.EventSend;
      ghost var s := sys;
      var time := FiredBits(now, pitFreq);
      for i := 0 to 16
        invariant Mirrors() && Inv(sys) && threads == old(threads) && sys == SendTimers(s, fired, i)
      {
        TestIsFires(now, old(pitFreq), i, time);
        SendTimersKeeps(s, fired, i + 1);
        if TestBit(time, i) {
          EventSend(255 - i);
        }
      }
    }

    /** Preemption: the running thread goes to the end of the queue. */
    method Preempt(image: Thread)
      requires Mirrors() && Inv(sys) && sys.active == Some(image)
      modifies Repr()
      ensures Mirrors() && threads == old(threads)
      ensures sys == if image in old(sys).tcb && old(sys).tcb[image].state == Running then Enqueue(Save(old(sys)), image) else old(sys)
    {
      hide Mirrors, InvX, Enqueue;
      Pointers();
      RunningNowhere(sys);
      Fields(image);
      if image.state == Running {
        ThreadSave();
        Queue(image);
      }
    }

    /** The events of the timers that fire at the present tick, then preemption. */
    method RunTimers(image: Thread)
      requires Mirrors() && Inv(sys) && sys.active == Some(image) && |sys.irq| == |sys.evq| == EV_COUNT && sys.freq != 0
      modifies Repr()
      ensures Mirrors() && threads == old(threads)
      ensures sys == TickWith(old(sys), image, old(sys).tick, Fired(old(sys).tick, old(sys).freq))
    {
      hide Mirrors, InvX, Fired, SendTimers, Enqueue;
      Pointers();
      ghost var fired := Fired(sys.tick, sys.freq);
      SendTimersKeeps(sys, fired, 16);
      SendTimerEvents(fired, tick);
      Preempt(image);
    }

    method TimerHandler(image: Thread)
      requires Mirrors() && Inv(sys) && sys.active == Some(image)
      modifies Repr()
      ensures Mirrors() && threads == old(threads)
      ensures |old(sys).irq| == |old(sys).evq| == EV_COUNT && old(sys).freq != 0 && sys == DoTick(old(sys), image)
    {
      hide Mirrors, InvX, Fired, TickWith;
      InvShape(sys, {});
      ghost var s := sys;
      NextTick();
      NewTick(s, sys.tick);
      TickTwice(s, image, sys.tick, Fired(sys.tick, sys.freq));
      RunTimers(image);
    }

    method FaultPage(image: Thread)
      requires Mirrors() && Inv(sys) && sys.active == Some(image)
      modifies Repr()
      ensures Mirrors() && threads == old(threads)
      ensures sys == ThreadModel.FaultPush(WithState(Save(old(sys)), image, Paused), image)
    {
      hide Mirrors, InvX, WithState, ThreadModel.FaultPush;
      Pointers();
      InvShape(sys, {});
      StopKeeps(sys);
      Stop(image);
      FaultPush(image);
    }

    /** Runs the handler of an interrupt. */
    method Serve(image: Thread, i: Interrupt<Thread>)
      requires Mirrors() && Inv(sys) && sys.active == Some(image) && Covers(sys, i)
      modifies Repr(), BroughtBy(i)
      ensures Mirrors() && threads <= old(threads) + BroughtBy(i)
      ensures Ready(old(sys), i) && sys == Handle(old(sys), i)
    {
      hide Mirrors, InvX, DoCall, DoTick, ThreadModel.EventSend, ThreadModel.FaultPush, Modelled;
      HandleReady(sys, i);
      match i {
        case Kcall(call) => Kcall(image, call);
        case Irq(n) => EventSend(n);
        case Tick => TimerHandler(image);
        case PageFault => FaultPage(image);
      }
    }

    /** The end of every interrupt: returns the thread to run, or null if none can. */
    method Schedule() returns (image: Thread?)
      requires Mirrors()
      modifies Repr()
      ensures Mirrors() && threads == old(threads) && sys == Dispatch(old(sys)) && Opt(image) == sys.active
      ensures image == null ==> sys.sched == []
    {
      hide Mirrors, WithState, Remove;
      Pointers();
      image := activeThread;
      if image == null {
        image := ScheduleNext();
        if image != null {
          var _ := ScheduleRemv(image);
          ThreadLoad(image);
          RunOnly(sys, image);
          SetState(image, Running);
        }
      }
    }

    /** The active thread is the unique one whose state is running. */
    lemma ActiveIsUnique()
      requires Mirrors() && Inv(sys)
      ensures forall t :: t in threads ==> (t.state == Running <==> t == activeThread)
    {
      hide InvX, TableMirrors, SchedMirrors, EventsMirror, DeadMirrors, FaultMirrors, IrqMirrors, ClockMirrors;
      InvMeans(sys);
    }

    /** Every interrupt the model covers is one step of the state machine. It keeps the
        invariant exactly if it is sound, and then the thread it returns is the only running
        one. */
    method IntHandler(image: Thread, i: Interrupt<Thread>) returns (next: Thread?)
      requires Mirrors() && Inv(sys) && sys.active == Some(image) && Covers(sys, i)
      modifies Repr(), BroughtBy(i)
      ensures Mirrors() && threads <= old(threads) + BroughtBy(i)
      ensures Steps(old(sys), i, sys) && (Inv(sys) <==> SoundStep(old(sys), i))
      ensures Opt(next) == sys.active && (next == null ==> sys.sched == [])
      ensures SoundStep(old(sys), i) ==> forall t :: t in threads ==> (t.state == Running <==> t == next)
    {
      hide Mirrors, InvX, Handle, Dispatch, Covers, SoundStep;
      ghost var s := sys;
      Serve(image, i);
      next := Schedule();
      StepKeepsIff(s, i, sys);
      if SoundStep(s, i) {
        Pointers();
        ActiveIsUnique();
      }
    }
  }

  lemma TickTwice<T>(s: Sys<T>, image: T, tick: bv32, fired: seq<bool>)
    requires |s.irq| == |s.evq| == EV_COUNT && |fired| == 16
    ensures TickWith(s.(tick := tick), image, tick, fired) == TickWith(s, image, tick, fired)
  {
    hide SendTimers, Enqueue;
  }

  lemma RunOnly<T>(s: Sys<T>, t: T)
    ensures WithState(s, t, Running).active == s.active
  {
  }

  /** The bit of timer `i` in the handler's loop. */
  predicate TestBit(time: bv32, i: nat)
    requires i < 16
  {
    time & ((1 as bv32) << (15 - i)) != 0
  }

  lemma TestIsFires(now: bv32, freq: bv32, i: nat, time: bv32)
    requires freq != 0 && i < 16 && time == FiredBits(now, freq)
    ensures TestBit(time, i) == Fired(now, freq)[i]
  {
    hide FiredBits;
  }

  /** The structure a call brings along. */
  function Brought(call: Call<Thread>): set<Thread> {
    if call.Spawn? then {call.thread} else {}
  }

  function BroughtBy(i: Interrupt<Thread>): set<Thread> {
    if i.Kcall? then Brought(i.call) else {}
  }

  lemma NoSuchThread<T>(s: Sys<T>, image: T, v: int)
    ensures DoSetDead(s, image, None, v) == WithEax(s, image, TE_EXIST)
  {
  }

  lemma SpawnFields<T>(s: Sys<T>, t: T, i: nat, v: int)
    ensures WithState(WithEax(Grow(s, t, Tcb(i, Paused, 0, 0)), t, v), t, Queued) == Grow(s, t, Tcb(i, Queued, 0, v))
    ensures Grow(s, t, Tcb(i, Queued, 0, v)).sched == s.sched
  {
    var g := Grow(s, t, Tcb(i, Paused, 0, 0));
    assert WithState(WithEax(g, t, v), t, Queued).tcb == s.tcb[t := Tcb(i, Queued, 0, v)];
  }

  lemma GetIn<T>(s: Sys<T>, id: int)
    requires Inv(s) && Get(s, id).Some?
    ensures Get(s, id).value in s.tcb
  {
  }

  lemma EaxOnly<T>(s: Sys<T>, t: T, v: int, u: T)
    requires u in s.tcb
    ensures var s' := WithEax(s, t, v);
      s'.sched == s.sched && s'.evq == s.evq && s'.table == s.table && u in s'.tcb && s'.tcb[u].id == s.tcb[u].id
  {
  }

  lemma PausedNowhere<T>(s: Sys<T>, t: T)
    requires Inv(s) && t in s.tcb && s.tcb[t].state == Paused
    ensures t !in s.sched && forall e :: 0 <= e < |s.evq| ==> t !in s.evq[e]
  {
    hide TableOk, ActiveOk, ParkedOk, IrqOk, NoDup;
  }

  lemma IdInRange<T>(s: Sys<T>, t: T)
    requires Inv(s) && t in s.tcb
    ensures s.tcb[t].id < THREAD_COUNT && s.tcb[t].id in s.table && s.table[s.tcb[t].id] == t
  {
  }

  lemma LinksShrink(threads: set<Thread>, t: Thread, next: LinkField<Thread>, ev: LinkField<Thread>, dead: LinkField<Thread>, fault: LinkField<Thread>,
                    tcb: map<Thread, Tcb>)
    requires NextsAre(threads, next) && EvNextsAre(threads, ev) && DeadNextsAre(threads, dead) && FaultNextsAre(threads, fault)
    requires TcbsAre(threads, tcb)
    ensures NextsAre(threads - {t}, next) && EvNextsAre(threads - {t}, ev)
    ensures DeadNextsAre(threads - {t}, dead) && FaultNextsAre(threads - {t}, fault)
    ensures TcbsAre(threads - {t}, tcb - {t})
  {
  }

  lemma QueueShrinks(link: LinkField<Thread>, first: Thread?, last: Thread?, queue: seq<Thread>, threads: set<Thread>, t: Thread)
    requires QueueIs(link, first, last, queue, threads) && t !in queue
    ensures QueueIs(link, first, last, queue, threads - {t})
  {
  }

  lemma EvShrinks(link: LinkField<Thread>, front: seq<Thread?>, back: seq<Thread?>, evq: seq<seq<Thread>>, threads: set<Thread>, t: Thread)
    requires EvQueuesAre(link, front, back, evq, threads) && forall e :: 0 <= e < |evq| ==> t !in evq[e]
    ensures EvQueuesAre(link, front, back, evq, threads - {t})
  {
    hide QueueIs, Apart;
    forall e | 0 <= e < EV_COUNT
      ensures QueueIs(link, front[e], back[e], evq[e], threads - {t})
    {
      assert QueueIs(link, front[e], back[e], evq[e], threads);
      QueueShrinks(link, front[e], back[e], evq[e], threads, t);
    }
  }

  /** The threads at the ends of the rendezvous queues. */
  lemma LaneFacts<T>(s: Sys<T>)
    requires Inv(s)
    ensures s.dead.waiters.tail.Some? ==> s.dead.waiters.tail.value in s.tcb && s.dead.waiters.tail.value !in s.sched
    ensures s.dead.waiters.head.Some? ==> s.dead.waiters.head.value in s.tcb
    ensures s.dead.items.tail.Some? ==> s.dead.items.tail.value in s.tcb
    ensures s.dead.items.head.Some? ==> s.dead.items.head.value in s.tcb
    ensures s.fault.waiters.tail.Some? ==> s.fault.waiters.tail.value in s.tcb && s.fault.waiters.tail.value !in s.sched
    ensures s.fault.waiters.head.Some? ==> s.fault.waiters.head.value in s.tcb
    ensures s.fault.items.head.Some? ==> s.fault.items.head.value in s.tcb
  {
    hide TableOk, ActiveOk, EventsOk, IrqOk, NoDup;
  }

  lemma RunningNowhere<T>(s: Sys<T>)
    requires Inv(s) && s.active.Some?
    ensures s.active.value in s.tcb && s.active.value !in s.sched
    ensures forall e :: 0 <= e < |s.evq| ==> s.active.value !in s.evq[e]
  {
    hide TableOk, ParkedOk, IrqOk, NoDup;
  }

  /** The thread at the front of an event queue waits. */
  lemma FrontFacts<T>(s: Sys<T>, e: nat)
    requires Inv(s) && e < |s.evq| && s.evq[e] != []
    ensures s.evq[e][0] in s.tcb && s.evq[e][0] !in s.sched
  {
    hide TableOk, ParkedOk, IrqOk, NoDup;
    assert s.evq[e][0] in s.evq[e];
  }

  lemma FieldsOnly<T>(s: Sys<T>, t: T, v: int, e: int)
    ensures WithEvent(WithEax(s, t, v), t, e).sched == s.sched
  {
  }

  lemma WakeShape<T>(s: Sys<T>, e: nat)
    requires e < |s.evq| && s.evq[e] != []
    ensures Wake(s, e).irq == s.irq && Wake(s, e).mask == s.mask
  {
  }

  lemma QueueGrows(link: LinkField<Thread>, first: Thread?, last: Thread?, queue: seq<Thread>, threads: set<Thread>, t: Thread)
    requires QueueIs(link, first, last, queue, threads) && t !in threads
    ensures QueueIs(link[t := None], first, last, queue, threads + {t})
  {
    LinkElsewhere(link, Lane(Opt(first), Opt(last), queue), t, None);
  }

  lemma EvGrows(link: LinkField<Thread>, front: seq<Thread?>, back: seq<Thread?>, evq: seq<seq<Thread>>, threads: set<Thread>, t: Thread)
    requires EvQueuesAre(link, front, back, evq, threads) && t !in threads
    ensures EvQueuesAre(link[t := None], front, back, evq, threads + {t})
  {
    hide QueueIs, Apart;
    forall e | 0 <= e < EV_COUNT
      ensures QueueIs(link[t := None], front[e], back[e], evq[e], threads + {t})
    {
      assert QueueIs(link, front[e], back[e], evq[e], threads);
      QueueGrows(link, front[e], back[e], evq[e], threads, t);
    }
  }

  lemma EvNextField(threads: set<Thread>, link: LinkField<Thread>, t: Thread)
    requires EvNextsAre(threads, link) && t in threads
    ensures Opt(t.nextEvqueue) == LinkOf(link, t)
  {
  }

  lemma EvShape(link: LinkField<Thread>, front: seq<Thread?>, back: seq<Thread?>, evq: seq<seq<Thread>>, threads: set<Thread>, e: nat)
    requires EvQueuesAre(link, front, back, evq, threads) && e < |evq|
    ensures |front| == |back| == |evq| == EV_COUNT
    ensures front[e] == null <==> evq[e] == []
    ensures front[e] == null <==> back[e] == null
    ensures front[e] != null ==> front[e] == evq[e][0] && front[e] in threads && back[e] in threads
  {
    hide QueueIs;
    assert QueueIs(link, front[e], back[e], evq[e], threads);
    EndsIn(link, front[e], back[e], evq[e], threads);
  }

  /** Writing the links of threads outside a queue leaves it alone. */
  lemma QueueElsewhere(link: LinkField<Thread>, first: Thread?, last: Thread?, queue: seq<Thread>, threads: set<Thread>, t: Thread, v: Option<Thread>)
    requires QueueIs(link, first, last, queue, threads) && t !in queue
    ensures QueueIs(link[t := v], first, last, queue, threads)
  {
    LinkElsewhere(link, Lane(Opt(first), Opt(last), queue), t, v);
  }

  lemma LastOf(link: LinkField<Thread>, first: Thread?, last: Thread?, queue: seq<Thread>, threads: set<Thread>)
    requires QueueIs(link, first, last, queue, threads)
    ensures last != null ==> last in queue
  {
  }

  lemma ApartJoin(evq: seq<seq<Thread>>, e: nat, t: Thread)
    requires Apart(evq) && e < |evq| && forall f :: 0 <= f < |evq| ==> t !in evq[f]
    ensures Apart(evq[e := evq[e] + [t]])
  {
    assert forall u :: u in evq[e] + [t] <==> u == t || u in evq[e];
  }

  lemma ApartLeave(evq: seq<seq<Thread>>, e: nat)
    requires Apart(evq) && e < |evq| && evq[e] != []
    ensures Apart(evq[e := evq[e][1..]])
  {
    assert forall u :: u in evq[e][1..] ==> u in evq[e];
  }

  lemma EvJoinIs(link: LinkField<Thread>, front: seq<Thread?>, back: seq<Thread?>, evq: seq<seq<Thread>>, threads: set<Thread>, e: nat, t: Thread)
    requires EvQueuesAre(link, front, back, evq, threads) && e < |evq| && t in threads
    requires forall f :: 0 <= f < |evq| ==> t !in evq[f]
    ensures EvQueuesAre((if back[e] == null then link else link[back[e] := Some(t)])[t := None],
                        if back[e] == null then front[e := t] else front, back[e := t], evq[e := evq[e] + [t]], threads)
  {
    hide QueueIs, Apart;
    ApartJoin(evq, e, t);
    var b := back[e];
    var link1 := if b == null then link else link[b := Some(t)];
    var link' := link1[t := None];
    assert QueueIs(link, front[e], b, evq[e], threads);
    JoinIs(link, front[e], b, evq[e], threads, t);
    LastOf(link, front[e], b, evq[e], threads);
    forall f | 0 <= f < EV_COUNT && f != e
      ensures QueueIs(link', front[f], back[f], evq[f], threads)
    {
      assert QueueIs(link, front[f], back[f], evq[f], threads);
      if b != null {
        NotIn(evq, e, f, b);
        QueueElsewhere(link, front[f], back[f], evq[f], threads, b, Some(t));
      }
      QueueElsewhere(link1, front[f], back[f], evq[f], threads, t, None);
    }
  }

  lemma NotIn(evq: seq<seq<Thread>>, e: nat, f: nat, t: Thread)
    requires Apart(evq) && e < |evq| && f < |evq| && e != f && t in evq[e]
    ensures t !in evq[f]
  {
  }

  lemma EvLeaveIs(link: LinkField<Thread>, front: seq<Thread?>, back: seq<Thread?>, evq: seq<seq<Thread>>, threads: set<Thread>, e: nat, next: Thread?)
    requires EvQueuesAre(link, front, back, evq, threads) && e < |evq| && front[e] != null && Opt(next) == LinkOf(link, front[e])
    ensures evq[e] != []
    ensures EvQueuesAre(link, front[e := next], if next == null then back[e := null] else back, evq[e := evq[e][1..]], threads)
  {
    hide QueueIs, Apart;
    assert QueueIs(link, front[e], back[e], evq[e], threads);
    LeaveIs(link, front[e], back[e], evq[e], threads, next);
    ApartLeave(evq, e);
    var back' := if next == null then back[e := null] else back;
    forall f | 0 <= f < EV_COUNT && f != e
      ensures QueueIs(link, front[f], back'[f], evq[f], threads)
    {
      assert QueueIs(link, front[f], back[f], evq[f], threads);
    }
  }

  lemma BootTable(entries: seq<Thread?>, first: Thread)
    requires |entries| == THREAD_COUNT && forall k :: 0 <= k < THREAD_COUNT ==> entries[k] == if k == 0 then first else null
    ensures TableIs(entries, map[0 := first])
  {
  }

  lemma BootQueues(front: seq<Thread?>, back: seq<Thread?>, threads: set<Thread>)
    requires |front| == |back| == EV_COUNT && forall e :: 0 <= e < EV_COUNT ==> front[e] == back[e] == null
    ensures QueueIs(map[], null, null, [], threads)
    ensures EvQueuesAre(map[], front, back, seq(EV_COUNT, _ => []), threads)
  {
  }

  lemma NextField(threads: set<Thread>, link: LinkField<Thread>, t: Thread)
    requires NextsAre(threads, link) && t in threads
    ensures Opt(t.next) == LinkOf(link, t)
  {
  }

  lemma NextIs(link: LinkField<Thread>, first: Thread?, last: Thread?, queue: seq<Thread>, threads: set<Thread>, i: nat)
    requires QueueIs(link, first, last, queue, threads) && i < |queue|
    ensures LinkOf(link, queue[i]) == Place(queue, i + 1) && queue[i] in threads
    ensures i + 1 < |queue| ==> queue[i + 1] in threads
  {
  }

  /** The first thread leaves. */
  lemma LeaveIs(link: LinkField<Thread>, first: Thread?, last: Thread?, queue: seq<Thread>, threads: set<Thread>, next: Thread?)
    requires QueueIs(link, first, last, queue, threads) && first != null && Opt(next) == LinkOf(link, first)
    ensures queue != [] && QueueIs(link, next, if next == null then null else last, queue[1..], threads)
  {
    var l := Lane(Opt(first), Opt(last), queue);
    LeaveHolds(link, l);
    assert Leave(link, l) == Lane(Opt(next), Opt(if next == null then null else last), queue[1..]);
  }

  lemma CutIs(link: LinkField<Thread>, first: Thread?, last: Thread?, queue: seq<Thread>, threads: set<Thread>, t: Thread, i: nat)
    requires QueueIs(link, first, last, queue, threads) && 0 < i < |queue| && queue[i] == t
    ensures QueueIs(link[queue[i - 1] := LinkOf(link, t)], first, if last == t then queue[i - 1] else last, Remove(queue, t), threads)
  {
    var l := Lane(Opt(first), Opt(last), queue);
    CutHolds(link, l, t, i);
    RemoveKeeps(queue, t);
    assert Cut(l, queue[i - 1], t) == Lane(Opt(first), Opt(if last == t then queue[i - 1] else last), Remove(queue, t));
  }

  lemma RemoveFirst(queue: seq<Thread>)
    requires queue != []
    ensures Remove(queue, queue[0]) == queue[1..]
  {
  }

  lemma JoinIs(link: LinkField<Thread>, first: Thread?, last: Thread?, queue: seq<Thread>, threads: set<Thread>, t: Thread)
    requires QueueIs(link, first, last, queue, threads) && t in threads && t !in queue
    ensures QueueIs((if last == null then link else link[last := Some(t)])[t := None],
                    if last == null then t else first, t, queue + [t], threads)
  {
    EndsIn(link, first, last, queue, threads);
    var l := Lane(Opt(first), Opt(last), queue);
    JoinHolds(link, l, t);
    assert EnterLinks(link, l, t)[t := None] == (if last == null then link else link[last := Some(t)])[t := None];
    assert Enter(l, t) == Lane(Opt(if last == null then t else first), Opt(t), queue + [t]);
    assert forall u :: u in queue + [t] <==> u == t || u in queue;
  }

  lemma EndsIn(link: LinkField<Thread>, first: Thread?, last: Thread?, queue: seq<Thread>, threads: set<Thread>)
    requires QueueIs(link, first, last, queue, threads)
    ensures last != null ==> last in threads
    ensures first != null ==> first in threads
    ensures first == null <==> queue == []
    ensures first == null <==> last == null
    ensures first != null ==> first == queue[0]
  {
  }
}
