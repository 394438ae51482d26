/** The dead/reaper pair of queues (and the fault/debugger pair, which has the same code):
    two pointer queues that share one link field per thread. Threads are named by their
    pointers, of type `T`. */
module Rendezvous {
  import opened Base

  /** One queue: the pointers the kernel keeps, and the threads they are meant to hold.
      Threads leave at the tail and enter at the head. */
  datatype Lane<T> = Lane(tail: Option<T>, head: Option<T>, queue: seq<T>)

  type LinkField<T> = map<T, Option<T>>

  /** The link field of a thread, NULL until it is first written. */
  function LinkOf<T>(link: LinkField<T>, t: T): Option<T> {
    if t in link then link[t] else None
  }

  function Empty<T>(): Lane<T> {
    Lane(None, None, [])
  }

  /** The links after thread `t` enters. The link of `t` itself is cleared only when the
      queue is not empty. */
  function EnterLinks<T>(link: LinkField<T>, l: Lane<T>, t: T): LinkField<T> {
    if l.head.Some? then link[l.head.value := Some(t)][t := None] else link
  }

  function Enter<T>(l: Lane<T>, t: T): Lane<T> {
    Lane(if l.head.Some? then l.tail else Some(t), Some(t), l.queue + [t])
  }

  /** The queue after the thread at the tail leaves; no link is written. */
  function Leave<T>(link: LinkField<T>, l: Lane<T>): Lane<T>
    requires l.tail.Some?
  {
    var next := LinkOf(link, l.tail.value);
    Lane(next, if next.Some? then l.head else None, if l.queue == [] then [] else l.queue[1..])
  }

  ghost function Place<T>(q: seq<T>, i: int): Option<T> {
    if 0 <= i < |q| then Some(q[i]) else None
  }

  /** The pointers hold exactly the queue. */
  ghost predicate Holds<T>(link: LinkField<T>, l: Lane<T>) {
    && NoDup(l.queue)
    && l.tail == Place(l.queue, 0) && l.head == Place(l.queue, |l.queue| - 1)
    && forall i {:trigger LinkOf(link, l.queue[i])} :: 0 <= i < |l.queue| ==> LinkOf(link, l.queue[i]) == Place(l.queue, i + 1)
  }

  /** Entering works exactly when the thread is not in the queue yet, and the queue is not
      empty or the thread's link is NULL. */
  lemma EnterHoldsIff<T>(link: LinkField<T>, l: Lane<T>, t: T)
    requires Holds(link, l)
    ensures Holds(EnterLinks(link, l, t), Enter(l, t)) <==> t !in l.queue && (l.queue != [] || LinkOf(link, t) == None)
  {
    var link', l' := EnterLinks(link, l, t), Enter(l, t);
    var n := |l.queue|;
    assert l'.queue[n] == t;
    if t in l.queue {
      var i :| 0 <= i < n && l.queue[i] == t;
      assert l'.queue[i] == l'.queue[n];
    } else if l.queue == [] {
      assert LinkOf(link', l'.queue[0]) == LinkOf(link, t);
    } else {
      forall i | 0 <= i < |l'.queue|
        ensures LinkOf(link', l'.queue[i]) == Place(l'.queue, i + 1)
      {
        if i < n {
          assert l'.queue[i] == l.queue[i];
          assert LinkOf(link, l.queue[i]) == Place(l.queue, i + 1);
        }
      }
    }
  }

  /** The thread that leaves is the one that has waited longest. */
  lemma LeaveHolds<T>(link: LinkField<T>, l: Lane<T>)
    requires Holds(link, l) && l.tail.Some?
    ensures Holds(link, Leave(link, l)) && l.queue != [] && l.tail.value == l.queue[0]
  {
    var l' := Leave(link, l);
    assert LinkOf(link, l.queue[0]) == Place(l.queue, 1);
    forall i | 0 <= i < |l'.queue|
      ensures LinkOf(link, l'.queue[i]) == Place(l'.queue, i + 1)
    {
      assert l'.queue[i] == l.queue[i + 1];
      assert LinkOf(link, l.queue[i + 1]) == Place(l.queue, i + 2);
    }
  }

  /** Two reapers wait and are served; the first waits again while the queue is empty. Its
      stale link makes the second, which is not waiting, next in line. */
  lemma StaleLinkServesTheWrongThread()
    ensures
      var link0: LinkField<int> := map[];
      var l0: Lane<int> := Empty();
      var l1, link1 := Enter(l0, 1), EnterLinks(link0, l0, 1);
      var l2, link2 := Enter(l1, 2), EnterLinks(link1, l1, 2);
      var l3 := Leave(link2, l2);
      var l4 := Leave(link2, l3);
      var l5, link5 := Enter(l4, 1), EnterLinks(link2, l4, 1);
      && Holds(link2, l2) && Holds(link2, l4) && l4.queue == [] && LinkOf(link2, 1) == Some(2)
      && l5.queue == [1] && !Holds(link5, l5) && Leave(link5, l5).tail == Some(2)
  {
    var link0: LinkField<int> := map[];
    var l0: Lane<int> := Empty();
    var l1, link1 := Enter(l0, 1), EnterLinks(link0, l0, 1);
    EnterHoldsIff(link0, l0, 1);
    var l2, link2 := Enter(l1, 2), EnterLinks(link1, l1, 2);
    EnterHoldsIff(link1, l1, 2);
    LeaveHolds(link2, l2);
    var l3 := Leave(link2, l2);
    LeaveHolds(link2, l3);
    var l4 := Leave(link2, l3);
    assert l2.queue == [1, 2];
    EnterHoldsIff(link2, l4, 1);
  }

  // ---------------------------------------------------------------------------
  // The pair
  // ---------------------------------------------------------------------------

  /** Items meet waiters. The last three fields are history: the items and waiters in order
      of arrival and the meetings so far. */
  datatype Pair<T> = Pair(link: LinkField<T>, items: Lane<T>, waiters: Lane<T>,
                          came: seq<T>, asked: seq<T>, met: seq<(T, T)>)

  function NewPair<T>(): Pair<T> {
    Pair(map[], Empty(), Empty(), [], [], [])
  }

  /** `dead_push`: an item meets the longest waiter, or queues up. */
  function Announce<T>(p: Pair<T>, t: T): Pair<T> {
    if p.waiters.tail.Some? then
      p.(waiters := Leave(p.link, p.waiters), came := p.came + [t], met := p.met + [(t, p.waiters.tail.value)])
    else
      p.(link := EnterLinks(p.link, p.items, t), items := Enter(p.items, t), came := p.came + [t])
  }

  /** `dead_wait`, and `dead_pull` for a thread that takes an item at once. */
  function Await<T>(p: Pair<T>, w: T): Pair<T> {
    if p.items.tail.Some? then
      p.(items := Leave(p.link, p.items), asked := p.asked + [w], met := p.met + [(p.items.tail.value, w)])
    else
      p.(link := EnterLinks(p.link, p.waiters, w), waiters := Enter(p.waiters, w), asked := p.asked + [w])
  }

  /** A new thread structure starts with a NULL link. */
  function Cleared<T>(p: Pair<T>, t: T): Pair<T> {
    p.(link := p.link - {t})
  }

  function Items<T>(met: seq<(T, T)>): seq<T> {
    seq(|met|, i requires 0 <= i < |met| => met[i].0)
  }

  function Waiters<T>(met: seq<(T, T)>): seq<T> {
    seq(|met|, i requires 0 <= i < |met| => met[i].1)
  }

  /** The waiters' queue is sound and the two queues are never both pending. */
  ghost predicate HalfOk<T>(p: Pair<T>) {
    && Holds(p.link, p.waiters)
    && (p.items.tail == None <==> p.items.queue == [])
    && (p.items.head == None <==> p.items.queue == [])
    && (p.items.queue != [] ==> p.items.head.value == p.items.queue[|p.items.queue| - 1])
    && (p.items.queue == [] || p.waiters.queue == [])
  }

  /** An exactly-once first-in first-out rendezvous: the items met are the items that came,
      in order, but for those pending, and the waiters served are those that asked. */
  ghost predicate PairOk<T>(p: Pair<T>) {
    && HalfOk(p)
    && Holds(p.link, p.items)
    && p.came == Items(p.met) + p.items.queue
    && p.asked == Waiters(p.met) + p.waiters.queue
  }

  /** The exact condition for an item to come: it meets a waiter, or it is not pending and
      its link is NULL where that matters. */
  ghost predicate MayAnnounce<T>(p: Pair<T>, t: T) {
    p.waiters.queue != [] || (t !in p.items.queue && (p.items.queue != [] || LinkOf(p.link, t) == None))
  }

  ghost predicate MayAwait<T>(p: Pair<T>, w: T) {
    p.items.queue != [] || (w !in p.waiters.queue && (p.waiters.queue != [] || LinkOf(p.link, w) == None))
  }

  lemma NewPairOk<T>()
    ensures PairOk(NewPair<T>())
  {
    assert Items<T>([]) == [] && Waiters<T>([]) == [];
  }

  /** The link of a thread that is on neither queue does not matter. */
  lemma BlankOk<T>(p: Pair<T>, t: T)
    requires HalfOk(p) && t !in p.items.queue && t !in p.waiters.queue
    ensures HalfOk(Cleared(p, t)) && (PairOk(p) ==> PairOk(Cleared(p, t)))
  {
    assert forall u :: u != t ==> LinkOf(p.link - {t}, u) == LinkOf(p.link, u);
  }

  lemma MeetingExtends<T>(met: seq<(T, T)>, t: T, w: T)
    ensures Items(met + [(t, w)]) == Items(met) + [t]
    ensures Waiters(met + [(t, w)]) == Waiters(met) + [w]
  {
  }

  /** An item that comes meets the longest waiter if there is one. The pair stays sound
      exactly under the condition. */
  lemma AnnounceOk<T>(p: Pair<T>, t: T)
    requires PairOk(p)
    ensures PairOk(Announce(p, t)) <==> MayAnnounce(p, t)
    ensures HalfOk(Announce(p, t)) && Announce(p, t).came == p.came + [t]
    ensures p.waiters.queue != [] ==> p.waiters.tail == Some(p.waiters.queue[0])
                                      && Announce(p, t).waiters.queue == p.waiters.queue[1..] && Announce(p, t).items == p.items
    ensures p.waiters.queue == [] ==> p.waiters.tail == None
                                      && Announce(p, t).items.queue == p.items.queue + [t] && Announce(p, t).waiters == p.waiters
  {
    if p.waiters.tail.Some? {
      LeaveHolds(p.link, p.waiters);
      MeetingExtends(p.met, t, p.waiters.queue[0]);
    } else {
      EnterHoldsIff(p.link, p.items, t);
    }
  }

  /** A waiter gets the oldest item if there is one. The pair stays sound exactly under the
      condition. */
  lemma AwaitOk<T>(p: Pair<T>, w: T)
    requires PairOk(p)
    ensures PairOk(Await(p, w)) <==> MayAwait(p, w)
    ensures Await(p, w).asked == p.asked + [w] && (PairOk(Await(p, w)) ==> HalfOk(Await(p, w)))
    ensures p.items.queue != [] ==> p.items.tail == Some(p.items.queue[0])
                                    && Await(p, w).items.queue == p.items.queue[1..] && Await(p, w).waiters == p.waiters
    ensures p.items.queue == [] ==> p.items.tail == None
                                    && Await(p, w).waiters.queue == p.waiters.queue + [w] && Await(p, w).items == p.items
  {
    if p.items.tail.Some? {
      LeaveHolds(p.link, p.items);
      MeetingExtends(p.met, p.items.queue[0], w);
    } else {
      EnterHoldsIff(p.link, p.waiters, w);
    }
  }

  /** A thread that is pending and dies again closes the queue behind itself: threads 1 and
      2 die, then 1 again. The first reaper takes 1, the queue looks empty, the next reaper
      parks, and the death of 2 is lost. */
  lemma SecondDeathLosesAnother()
    ensures
      var p := Announce(Announce(NewPair<int>(), 1), 2);
      var p1 := Announce(p, 1);
      var p2 := Await(p1, 8);
      var p3 := Await(p2, 9);
      && PairOk(p) && p.items.queue == [1, 2] && !PairOk(p1)
      && p2.met == [(1, 8)] && p2.items.tail == None
      && p3.met == [(1, 8)] && p3.waiters.tail == Some(9)
  {
    hide PairOk, MayAnnounce;
    TwoDeaths();
    var p := Announce(Announce(NewPair<int>(), 1), 2);
    assert p.link == map[1 := Some(2), 2 := None];
    var p1 := Announce(p, 1);
    assert LinkOf(p1.link, 1) == None && p1.items.tail == Some(1);
    assert Await(p1, 8).items.tail == None;
  }

  lemma TwoDeaths()
    ensures
      var p := Announce(Announce(NewPair<int>(), 1), 2);
      PairOk(p) && p.items == Lane(Some(1), Some(2), [1, 2]) && p.waiters == Empty() && p.met == [] && !PairOk(Announce(p, 1))
  {
    hide PairOk, Announce;
    var p0 := Announce(NewPair<int>(), 1);
    DeathQueues();
    NewPairOk<int>();
    AnnounceOk(NewPair<int>(), 1);
    AnnounceOk(p0, 2);
    AnnounceOk(Announce(p0, 2), 1);
  }

  lemma DeathQueues()
    ensures
      var p0 := Announce(NewPair<int>(), 1);
      var p := Announce(p0, 2);
      && p0.items == Lane(Some(1), Some(1), [1]) && p0.waiters == Empty()
      && p.items == Lane(Some(1), Some(2), [1, 2]) && p.waiters == Empty() && p.met == []
  {
  }

  /** Without the guard on items the waiters' side still works. */
  lemma AnnounceHalfOk<T>(p: Pair<T>, t: T)
    requires HalfOk(p)
    ensures HalfOk(Announce(p, t))
    ensures p.waiters.queue != [] ==> p.waiters.tail == Some(p.waiters.queue[0])
                                      && Announce(p, t).waiters.queue == p.waiters.queue[1..] && Announce(p, t).items == p.items
    ensures p.waiters.queue == [] ==> p.waiters.tail == None
                                      && Announce(p, t).items.queue == p.items.queue + [t] && Announce(p, t).waiters == p.waiters
  {
    if p.waiters.tail.Some? {
      LeaveHolds(p.link, p.waiters);
    }
  }

  lemma AwaitHalfOk<T>(p: Pair<T>, w: T)
    requires HalfOk(p) && p.items.queue == []
    ensures HalfOk(Await(p, w)) <==> MayAwait(p, w)
    ensures Await(p, w).waiters.queue == p.waiters.queue + [w] && Await(p, w).items == p.items
  {
    EnterHoldsIff(p.link, p.waiters, w);
  }
}
