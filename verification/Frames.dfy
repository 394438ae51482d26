/** The physical frame allocator: a free list and 256 hash chains of frame structures,
    an `out_of_memory` flag, and an emergency pool that grows down from the top of the
    boot memory. */
module Frames {
  import opened Base

  const PAGESZ := 0x1000
  const BOOT_SIZE := 0x80_0000
  const BOOT_PAGES := 0x800
  const PAGE_COUNT := 0x10_0000
  const MAX_COUNT := 0xFFFF_FFFF

  // ---------------------------------------------------------------------------
  // The allocator as a value
  // ---------------------------------------------------------------------------

  /** What the linked structures stand for: the free pages in list order and, for every
      page handed out, its reference count. Pages are numbered; `pool` is a byte address. */
  datatype State = State(free: seq<nat>, count: map<nat, int>, oom: bool, pool: nat)

  datatype Request = New | Ref(frame: nat) | Free(frame: nat) | Add(frame: nat)

  datatype Outcome = Panic | Got(frame: nat, after: State)

  ghost predicate Inv(s: State) {
    && NoDup(s.free)
    && (forall i :: 0 <= i < |s.free| ==> s.free[i] !in s.count)
    && (forall p :: p in s.count ==> 1 <= s.count[p] <= MAX_COUNT)
    && (forall i :: 0 <= i < |s.free| ==> BOOT_PAGES <= s.free[i] < PAGE_COUNT)
    && (forall p :: p in s.count ==> BOOT_PAGES <= p < PAGE_COUNT)
    && (s.oom ==> s.free == [])
    && s.pool % PAGESZ == 0
    && s.pool <= BOOT_SIZE
  }

  ghost function Managed(s: State): set<nat> {
    (set p | p in s.free) + s.count.Keys
  }

  /** The count `frame_refc` reports: zero for a page that is free or unknown. */
  function RefCount(s: State, page: nat): int {
    if page in s.count then s.count[page] else 0
  }

  /** Pages somebody may be using: handed out, taken from the pool, or part of the kernel
      image, which ends at physical address `end`. */
  ghost predicate Taken(s: State, end: nat, page: nat) {
    page in s.count || s.pool <= page * PAGESZ < BOOT_SIZE || page * PAGESZ <= end
  }

  function NewFrame(s: State, end: nat): Outcome {
    if s.oom || s.free == [] then
      if s.pool <= end + PAGESZ then Panic
      else Got(s.pool - PAGESZ, s.(oom := true, pool := s.pool - PAGESZ))
    else
      Got(s.free[0] * PAGESZ, s.(free := s.free[1..], count := s.count[s.free[0] := 1]))
  }

  /** Page `p` of the emergency pool is left, above the kernel. */
  predicate PoolPage(s: State, end: nat, p: nat) {
    end < p * PAGESZ && (p + 1) * PAGESZ <= s.pool
  }

  /** No frame is free and no page of the pool is left. */
  ghost predicate Exhausted(s: State, end: nat) {
    s.free == [] && !exists p: nat :: PoolPage(s, end, p)
  }

  /** The kernel panics for want of a frame exactly if memory is exhausted. */
  lemma PanicsIff(s: State, end: nat)
    requires Inv(s)
    ensures NewFrame(s, end) == Panic <==> Exhausted(s, end)
  {
    if s.pool > end + PAGESZ {
      var p := (s.pool - PAGESZ) / PAGESZ;
      assert PoolPage(s, end, p);
    }
  }

  /** The counter has 32 bits. */
  function RefFrame(s: State, frame: nat): State {
    var page := frame / PAGESZ;
    if page in s.count then s.(count := s.count[page := (s.count[page] + 1) % (MAX_COUNT + 1)]) else s
  }

  function FreeFrame(s: State, frame: nat): State {
    var page := frame / PAGESZ;
    if page !in s.count then s
    else if s.count[page] == 1 then
      s.(free := [page] + s.free, count := s.count - {page}, oom := false)
    else
      s.(count := s.count[page := s.count[page] - 1])
  }

  function AddFrame(s: State, frame: nat): State {
    s.(free := [frame / PAGESZ] + s.free, oom := false)
  }

  lemma UncountKeeps(s: State, page: nat)
    requires Inv(s) && page in s.count
    ensures Inv(s.(count := s.count - {page}))
    ensures Managed(s) == Managed(s.(count := s.count - {page})) + {page}
    ensures page !in Managed(s.(count := s.count - {page}))
  {
  }

  lemma PushKeeps(s: State, page: nat)
    requires Inv(s) && page !in Managed(s) && BOOT_PAGES <= page < PAGE_COUNT
    ensures var s' := s.(free := [page] + s.free, oom := false);
      Inv(s') && Managed(s') == Managed(s) + {page}
  {
    var f := [page] + s.free;
    assert forall i :: 0 < i < |f| ==> f[i] == s.free[i - 1];
    assert forall p :: p in f <==> p == page || p in s.free;
  }

  lemma FreeKeeps(s: State, frame: nat)
    requires Inv(s)
    ensures Inv(FreeFrame(s, frame))
    ensures Managed(FreeFrame(s, frame)) == Managed(s)
    ensures frame / PAGESZ in s.count ==> BOOT_PAGES <= frame / PAGESZ < PAGE_COUNT && 1 <= s.count[frame / PAGESZ] <= MAX_COUNT
  {
    var page := frame / PAGESZ;
    if page in s.count && s.count[page] == 1 {
      UncountKeeps(s, page);
      PushKeeps(s.(count := s.count - {page}), page);
    }
  }

  /** Taking a reference keeps the invariant exactly if the counter does not wrap. */
  lemma RefKeepsIff(s: State, frame: nat)
    requires Inv(s)
    ensures Inv(RefFrame(s, frame)) <==> RefCount(s, frame / PAGESZ) < MAX_COUNT
    ensures Managed(RefFrame(s, frame)) == Managed(s)
  {
    var page := frame / PAGESZ;
    if page in s.count {
      assert 1 <= s.count[page] <= MAX_COUNT;
      assert RefFrame(s, frame).count[page] == (s.count[page] + 1) % (MAX_COUNT + 1);
    }
  }

  /** A reference more on page `frame / PAGESZ` if it is handed out, none on any other. */
  lemma RefCounts(s: State, frame: nat, p: nat)
    requires Inv(s) && RefCount(s, frame / PAGESZ) < MAX_COUNT
    ensures RefCount(RefFrame(s, frame), p) == RefCount(s, p) + if p in s.count && p == frame / PAGESZ then 1 else 0
    ensures RefFrame(s, frame).free == s.free && RefFrame(s, frame).oom == s.oom && RefFrame(s, frame).pool == s.pool
  {
  }

  lemma IssueKeeps(s: State)
    requires Inv(s) && s.free != []
    ensures var s' := s.(free := s.free[1..], count := s.count[s.free[0] := 1]);
      Inv(s') && Managed(s') == Managed(s)
  {
    assert forall p :: p in s.free <==> p == s.free[0] || p in s.free[1..];
  }

  lemma PoolKeeps(s: State, pool: nat)
    requires Inv(s) && pool == s.pool - PAGESZ
    ensures Inv(s.(pool := pool)) && Managed(s.(pool := pool)) == Managed(s)
  {
  }

  lemma OomKeeps(s: State)
    requires Inv(s) && s.free == []
    ensures Inv(s.(oom := true)) && Managed(s.(oom := true)) == Managed(s)
  {
  }

  // ---------------------------------------------------------------------------
  // Every run
  // ---------------------------------------------------------------------------

  /** Carries out one request; `frame` is meaningful for `New` only. */
  function Do(s: State, end: nat, r: Request): Outcome {
    match r
    case New => NewFrame(s, end)
    case Ref(f) => Got(f, RefFrame(s, f))
    case Free(f) => Got(f, FreeFrame(s, f))
    case Add(f) => Got(f, AddFrame(s, f))
  }

  /** Frames are added once, above the boot memory, and counters do not overflow. */
  ghost predicate Admissible(s: State, r: Request) {
    match r
    case New => true
    case Ref(f) => RefCount(s, f / PAGESZ) < MAX_COUNT
    case Free(f) => true
    case Add(f) => f / PAGESZ !in Managed(s) && BOOT_PAGES <= f / PAGESZ < PAGE_COUNT
  }

  /** `trace` is the states of a run that serves `rs` without a panic. */
  ghost predicate IsRun(end: nat, rs: seq<Request>, trace: seq<State>) {
    && |trace| == |rs| + 1
    && forall i {:trigger rs[i]} :: 0 <= i < |rs| ==>
         Admissible(trace[i], rs[i]) && Do(trace[i], end, rs[i]).Got? && Do(trace[i], end, rs[i]).after == trace[i + 1]
  }

  lemma StepKeeps(s: State, end: nat, r: Request)
    requires Inv(s) && Admissible(s, r) && Do(s, end, r).Got?
    ensures var s' := Do(s, end, r).after;
      && Inv(s')
      && Managed(s') == Managed(s) + (if r.Add? then {r.frame / PAGESZ} else {})
      && s'.pool <= s.pool
  {
    match r
    case New =>
      if s.oom || s.free == [] {
        OomKeeps(s);
        PoolKeeps(s.(oom := true), s.pool - PAGESZ);
      } else {
        IssueKeeps(s);
      }
    case Ref(f) => RefKeepsIff(s, f);
    case Free(f) => FreeKeeps(s, f);
    case Add(f) => PushKeeps(s, f / PAGESZ);
  }

  /** The pages the run has added. */
  ghost function Added(rs: seq<Request>): set<nat> {
    set i | 0 <= i < |rs| && rs[i].Add? :: rs[i].frame / PAGESZ
  }

  /** Every state of every run keeps the invariant, and the managed pages are exactly the
      initial ones and those added: no page is lost and none is created. */
  lemma {:induction false} RunKeeps(end: nat, rs: seq<Request>, trace: seq<State>, k: nat)
    requires IsRun(end, rs, trace) && Inv(trace[0]) && k <= |rs|
    ensures Inv(trace[k])
    ensures Managed(trace[k]) == Managed(trace[0]) + Added(rs[..k])
    ensures trace[k].pool <= trace[0].pool
  {
    if k == 0 {
      assert Added(rs[..0]) == {};
    } else {
      RunKeeps(end, rs, trace, k - 1);
      StepKeeps(trace[k - 1], end, rs[k - 1]);
      AddedSnoc(rs, k - 1);
    }
  }

  lemma AddedSnoc(rs: seq<Request>, k: nat)
    requires k < |rs|
    ensures Added(rs[..k + 1]) == Added(rs[..k]) + if rs[k].Add? then {rs[k].frame / PAGESZ} else {}
  {
    var a, b := rs[..k], rs[..k + 1];
    assert forall i :: 0 <= i < k ==> a[i] == b[i];
    assert b[k] == rs[k];
    forall p | p in Added(a)
      ensures p in Added(b)
    {
      var i :| 0 <= i < |a| && a[i].Add? && a[i].frame / PAGESZ == p;
      assert b[i].Add?;
    }
  }

  /** A new frame is page-aligned, not zero, and nobody's: neither handed out, nor taken
      from the pool before, nor kernel image. The pool serves only when the free list is
      empty, and what it serves lies between the kernel and the boot limit. */
  lemma NewIsFresh(s: State, end: nat)
    requires Inv(s) && NewFrame(s, end).Got? && end < BOOT_SIZE
    ensures var Got(frame, s') := NewFrame(s, end);
      && frame > 0 && frame % PAGESZ == 0
      && !Taken(s, end, frame / PAGESZ)
      && (forall p: nat :: Taken(s', end, p) <==> Taken(s, end, p) || p == frame / PAGESZ)
      && (frame < BOOT_SIZE <==> s.free == [])
      && (s.free == [] ==> end < frame < s.pool)
      && (s.free != [] ==> RefCount(s', frame / PAGESZ) == 1)
      && (forall p: nat :: p != frame / PAGESZ ==> RefCount(s', p) == RefCount(s, p))
  {
    var Got(frame, s') := NewFrame(s, end);
    if s.oom || s.free == [] {
      forall p: nat
        ensures Taken(s', end, p) <==> Taken(s, end, p) || p == frame / PAGESZ
      {
        PageBetween(p, s.pool);
      }
    } else {
      assert s.free[0] !in s.count;
    }
  }

  lemma PageBetween(p: nat, pool: nat)
    requires pool % PAGESZ == 0 && pool >= PAGESZ
    ensures p == (pool - PAGESZ) / PAGESZ <==> pool - PAGESZ <= p * PAGESZ < pool
  {
  }

  /** No later `New` returns a frame the pool has issued: freeing such a frame does
      nothing, so it stays taken for ever. */
  lemma PoolNeverReissues(end: nat, rs: seq<Request>, trace: seq<State>, k: nat, frame: nat)
    requires IsRun(end, rs, trace) && Inv(trace[0]) && k < |rs| && rs[k].New?
    requires trace[0].pool <= frame < BOOT_SIZE && end < BOOT_SIZE
    ensures Do(trace[k], end, rs[k]).frame != frame
  {
    RunKeeps(end, rs, trace, k);
    NewIsFresh(trace[k], end);
  }

  function FreeAll(s: State, frames: seq<nat>): State {
    if frames == [] then s else FreeFrame(FreeAll(s, frames[..|frames| - 1]), frames[|frames| - 1])
  }

  function Times(frames: seq<nat>, page: nat): nat {
    if frames == [] then 0
    else Times(frames[..|frames| - 1], page) + if frames[|frames| - 1] / PAGESZ == page then 1 else 0
  }

  /** Freeing any list of frames, repetitions and strangers included, lowers each count by
      the number of times the list names the page, floored at zero. */
  lemma {:induction false} FreeAllCounts(s: State, frames: seq<nat>, page: nat)
    requires Inv(s)
    ensures Inv(FreeAll(s, frames))
    ensures Managed(FreeAll(s, frames)) == Managed(s)
    ensures var left := RefCount(s, page) - Times(frames, page);
      RefCount(FreeAll(s, frames), page) == if left > 0 then left else 0
  {
    if frames != [] {
      var init, last := frames[..|frames| - 1], frames[|frames| - 1];
      FreeAllCounts(s, init, page);
      FreeKeeps(FreeAll(s, init), last);
    }
  }

  // ---------------------------------------------------------------------------
  // The links as a value
  // ---------------------------------------------------------------------------

  const NIL := -1

  /** The pointers of the allocator, a structure being named by its page and `NULL` by
      `NIL`. */
  datatype Links = Links(next: map<nat, int>, prev: map<nat, int>, hash: seq<int>, list: int)

  function Look(m: map<nat, int>, page: nat): int {
    if page in m then m[page] else NIL
  }

  ghost function Nth(s: seq<nat>, i: int): int {
    if 0 <= i < |s| then s[i] else NIL
  }

  /** Following `next` from `head` visits exactly `s`. */
  ghost predicate Forward(next: map<nat, int>, head: int, s: seq<nat>) {
    && head == Nth(s, 0)
    && (forall i {:trigger Look(next, s[i])} :: 0 <= i < |s| ==> Look(next, s[i]) == Nth(s, i + 1))
  }

  ghost predicate Backward(prev: map<nat, int>, s: seq<nat>) {
    forall i {:trigger Look(prev, s[i])} :: 0 <= i < |s| ==> Look(prev, s[i]) == Nth(s, i - 1)
  }

  /** Chain `b` is exactly doubly linked and holds distinct handed-out pages congruent to `b`. */
  ghost predicate ChainIs(l: Links, c: seq<nat>, b: nat, count: map<nat, int>)
    requires b < |l.hash|
  {
    && NoDup(c)
    && (forall i :: 0 <= i < |c| ==> c[i] in count && c[i] % 256 == b)
    && Forward(l.next, l.hash[b], c)
    && Backward(l.prev, c)
  }

  /** The links realise the value: nothing is said of `prev` on the free list. */
  ghost predicate Realises(l: Links, chain: seq<seq<nat>>, s: State) {
    && |l.hash| == |chain| == 256
    && (forall b: nat :: b < 256 ==> ChainIs(l, chain[b], b, s.count))
    && (forall p :: p in s.count ==> p in chain[p % 256])
    && Forward(l.next, l.list, s.free)
  }

  /** The pointer writes of `frame_pull`. */
  function Pull(l: Links, page: nat): Links
    requires |l.hash| == 256
  {
    var n, p := Look(l.next, page), Look(l.prev, page);
    var l1 := if p >= 0 then l.(next := l.next[p := n]) else l.(hash := l.hash[page % 256 := n]);
    if n >= 0 then l1.(prev := l1.prev[n := p]) else l1
  }

  /** Unlinking entry `i` of a chain leaves every other list as it was. */
  lemma PullRemoves(l: Links, chain: seq<seq<nat>>, s: State, page: nat, i: nat)
    requires Realises(l, chain, s) && Inv(s)
    requires page in s.count && i < |chain[page % 256]| && chain[page % 256][i] == page
    ensures Realises(Pull(l, page), chain[page % 256 := Without(chain[page % 256], i)], s.(count := s.count - {page}))
  {
    var b := page % 256;
    var c := chain[b];
    var l' := Pull(l, page);
    var chain' := chain[b := Without(c, i)];
    assert ChainIs(l, c, b, s.count);
    assert Look(l.next, page) == Nth(c, i + 1) && Look(l.prev, page) == Nth(c, i - 1);
    forall a: nat | a < 256
      ensures ChainIs(l', chain'[a], a, s.count - {page})
    {
      if a == b {
        PullFromChain(l, c, b, i, s.count);
      } else {
        PullElsewhere(l, chain, s, page, i, a);
      }
    }
    forall p | p in s.count && p != page
      ensures p in chain'[p % 256]
    {
      if p % 256 == b {
        WithoutKeeps(c, i, p);
      }
    }
    PullKeepsFree(l, chain, s, page, i);
  }

  lemma NoSelfLink(l: Links, chain: seq<seq<nat>>, s: State, page: nat, i: nat)
    requires Realises(l, chain, s)
    requires i < |chain[page % 256]| && chain[page % 256][i] == page
    ensures Look(l.prev, page) != page && Look(l.next, page) != page
  {
    assert ChainIs(l, chain[page % 256], page % 256, s.count);
    assert Look(l.next, chain[page % 256][i]) == Nth(chain[page % 256], i + 1);
  }

  lemma RecountKeeps(l: Links, chain: seq<seq<nat>>, s: State, page: nat, n: int)
    requires Realises(l, chain, s) && Inv(s) && page in s.count && 1 <= n <= MAX_COUNT
    ensures var s' := s.(count := s.count[page := n]);
      Realises(l, chain, s') && Inv(s') && Managed(s') == Managed(s)
  {
    var count := s.count[page := n];
    forall b: nat | b < 256
      ensures ChainIs(l, chain[b], b, count)
    {
      assert ChainIs(l, chain[b], b, s.count);
    }
  }

  /** The links know nothing of the flag and the pool. */
  lemma SameLists(l: Links, chain: seq<seq<nat>>, s: State, s': State)
    requires Realises(l, chain, s) && s'.free == s.free && s'.count == s.count
    ensures Realises(l, chain, s')
  {
  }

  /** Links of a structure that is on no list do not matter. */
  lemma LooseRealises(l: Links, l': Links, chain: seq<seq<nat>>, s: State, page: nat)
    requires Realises(l, chain, s) && page !in Managed(s)
    requires l' == l.(next := l.next[page := NIL], prev := l.prev[page := NIL])
    ensures Realises(l', chain, s)
  {
    forall b: nat | b < 256
      ensures ChainIs(l', chain[b], b, s.count)
    {
      assert ChainIs(l, chain[b], b, s.count);
      var c := chain[b];
      forall k | 0 <= k < |c|
        ensures Look(l'.next, c[k]) == Look(l.next, c[k]) && Look(l'.prev, c[k]) == Look(l.prev, c[k])
      {
      }
    }
    forall k | 0 <= k < |s.free|
      ensures Look(l'.next, s.free[k]) == Look(l.next, s.free[k])
    {
    }
  }

  lemma PullFromChain(l: Links, c: seq<nat>, b: nat, i: nat, count: map<nat, int>)
    requires |l.hash| == 256 && b < 256 && ChainIs(l, c, b, count) && i < |c|
    ensures ChainIs(Pull(l, c[i]), Without(c, i), b, count - {c[i]})
  {
    var l' := Pull(l, c[i]);
    var d := Without(c, i);
    forall k | 0 <= k < |d|
      ensures Look(l'.next, d[k]) == Nth(d, k + 1) && Look(l'.prev, d[k]) == Nth(d, k - 1)
    {
      assert d[k] == c[Skip(i, k)];
      assert k != i - 1 ==> Look(l'.next, d[k]) == Look(l.next, d[k]);
      assert k != i ==> Look(l'.prev, d[k]) == Look(l.prev, d[k]);
    }
  }

  lemma PullElsewhere(l: Links, chain: seq<seq<nat>>, s: State, page: nat, i: nat, a: nat)
    requires Realises(l, chain, s)
    requires page in s.count && i < |chain[page % 256]| && chain[page % 256][i] == page
    requires a < 256 && a != page % 256
    ensures ChainIs(Pull(l, page), chain[a], a, s.count - {page})
  {
    var b := page % 256;
    var l', c, e := Pull(l, page), chain[b], chain[a];
    assert ChainIs(l, e, a, s.count);
    assert ChainIs(l, c, b, s.count);
    assert Look(l.next, page) == Nth(c, i + 1) && Look(l.prev, page) == Nth(c, i - 1);
    forall k | 0 <= k < |e|
      ensures Look(l'.next, e[k]) == Look(l.next, e[k]) && Look(l'.prev, e[k]) == Look(l.prev, e[k])
    {
    }
  }

  lemma PullKeepsFree(l: Links, chain: seq<seq<nat>>, s: State, page: nat, i: nat)
    requires Realises(l, chain, s) && Inv(s)
    requires page in s.count && i < |chain[page % 256]| && chain[page % 256][i] == page
    ensures Forward(Pull(l, page).next, Pull(l, page).list, s.free)
  {
    var c := chain[page % 256];
    var l' := Pull(l, page);
    assert ChainIs(l, c, page % 256, s.count);
    assert Look(l.prev, page) == Nth(c, i - 1);
    forall k | 0 <= k < |s.free|
      ensures Look(l'.next, s.free[k]) == Look(l.next, s.free[k])
    {
    }
  }

  /** The pointer writes that put a structure at the front of the free list. */
  function PushFree(l: Links, page: nat): Links {
    var l1 := l.(prev := l.prev[page := NIL], next := l.next[page := l.list], list := page);
    if l.list >= 0 then l1.(prev := l1.prev[l.list := page]) else l1
  }

  lemma PushFreeRealises(l: Links, chain: seq<seq<nat>>, s: State, page: nat)
    requires Realises(l, chain, s) && Inv(s)
    requires page !in Managed(s)
    ensures l.list != page
    ensures Realises(PushFree(l, page), chain, s.(free := [page] + s.free, oom := false))
  {
    var l' := PushFree(l, page);
    forall b: nat | b < 256
      ensures ChainIs(l', chain[b], b, s.count)
    {
      assert ChainIs(l, chain[b], b, s.count);
      var c := chain[b];
      forall k | 0 <= k < |c|
        ensures Look(l'.next, c[k]) == Look(l.next, c[k]) && Look(l'.prev, c[k]) == Look(l.prev, c[k])
      {
      }
    }
    var f := [page] + s.free;
    forall k | 0 <= k < |f|
      ensures Look(l'.next, f[k]) == Nth(f, k + 1)
    {
      if k > 0 {
        assert f[k] == s.free[k - 1];
        assert Look(l.next, s.free[k - 1]) == Nth(s.free, k);
      }
    }
  }

  /** The pointer writes that put a structure at the front of its chain. */
  function OntoChain(l: Links, page: nat): Links
    requires |l.hash| == 256
  {
    var h := l.hash[page % 256];
    var l1 := l.(next := l.next[page := h], prev := l.prev[page := NIL], hash := l.hash[page % 256 := page]);
    if h >= 0 then l1.(prev := l1.prev[h := page]) else l1
  }

  /** The pointer writes of `frame_new`: off the free list and onto a chain. */
  function Issue(l: Links, page: nat): Links
    requires |l.hash| == 256
  {
    OntoChain(l.(list := Look(l.next, page)), page)
  }

  lemma IssueRealises(l: Links, chain: seq<seq<nat>>, s: State)
    requires Realises(l, chain, s) && Inv(s) && s.free != []
    ensures var page := s.free[0];
      Realises(Issue(l, page), chain[page % 256 := [page] + chain[page % 256]],
               s.(free := s.free[1..], count := s.count[page := 1]))
  {
    var page := s.free[0];
    var b := page % 256;
    var l' := Issue(l, page);
    var chain' := chain[b := [page] + chain[b]];
    var count' := s.count[page := 1];
    assert ChainIs(l, chain[b], b, s.count);
    forall a: nat | a < 256
      ensures ChainIs(l', chain'[a], a, count')
    {
      if a == b {
        IssueOntoChain(l, chain[b], b, page, s.count);
      } else {
        IssueElsewhere(l, chain[a], a, chain[b], b, page, s.count);
      }
    }
    forall p | p in count'
      ensures p in chain'[p % 256]
    {
      if p == page {
        assert chain'[b][0] == p;
      } else if p % 256 == b {
        var k :| 0 <= k < |chain[b]| && chain[b][k] == p;
        assert chain'[b][k + 1] == p;
      }
    }
    IssueLeavesFree(l, s, page);
  }

  /** Popping the free list leaves the `prev` of the new head as it was: links that were
      exact stay so exactly if the list is empty afterwards. */
  lemma IssueLeavesStalePrev(l: Links, chain: seq<seq<nat>>, s: State)
    requires Realises(l, chain, s) && Inv(s) && s.free != [] && Backward(l.prev, s.free)
    ensures Backward(Issue(l, s.free[0]).prev, s.free[1..]) <==> |s.free| == 1
  {
    if |s.free| > 1 {
      var page, rest := s.free[0], s.free[1..];
      assert Look(l.prev, s.free[1]) == Nth(s.free, 0);
      assert rest[0] == s.free[1] && rest[0] !in s.count;
      HashIsCounted(l, chain, s, page % 256);
      assert Look(Issue(l, page).prev, rest[0]) != Nth(rest, -1);
    }
  }

  lemma HashIsCounted(l: Links, chain: seq<seq<nat>>, s: State, b: nat)
    requires Realises(l, chain, s) && b < 256
    ensures l.hash[b] == NIL || (l.hash[b] >= 0 && l.hash[b] in s.count)
  {
    assert ChainIs(l, chain[b], b, s.count);
  }

  lemma IssueOntoChain(l: Links, c: seq<nat>, b: nat, page: nat, count: map<nat, int>)
    requires |l.hash| == 256 && b < 256 && ChainIs(l, c, b, count)
    requires page !in count && page % 256 == b
    ensures ChainIs(Issue(l, page), [page] + c, b, count[page := 1])
  {
    var l', d := Issue(l, page), [page] + c;
    forall k | 0 <= k < |d|
      ensures Look(l'.next, d[k]) == Nth(d, k + 1) && Look(l'.prev, d[k]) == Nth(d, k - 1)
    {
      if k > 0 {
        assert d[k] == c[k - 1];
        assert Look(l.next, c[k - 1]) == Nth(c, k) && Look(l.prev, c[k - 1]) == Nth(c, k - 2);
      }
    }
  }

  lemma IssueElsewhere(l: Links, e: seq<nat>, a: nat, c: seq<nat>, b: nat, page: nat, count: map<nat, int>)
    requires |l.hash| == 256 && a < 256 && b < 256 && a != b
    requires ChainIs(l, e, a, count) && ChainIs(l, c, b, count)
    requires page !in count && page % 256 == b
    ensures ChainIs(Issue(l, page), e, a, count[page := 1])
  {
    var l' := Issue(l, page);
    forall k | 0 <= k < |e|
      ensures Look(l'.next, e[k]) == Look(l.next, e[k]) && Look(l'.prev, e[k]) == Look(l.prev, e[k])
    {
    }
  }

  lemma IssueLeavesFree(l: Links, s: State, page: nat)
    requires |l.hash| == 256 && Inv(s) && s.free != [] && page == s.free[0]
    requires Forward(l.next, l.list, s.free)
    ensures Forward(Issue(l, page).next, Issue(l, page).list, s.free[1..])
  {
    var l', f := Issue(l, page), s.free[1..];
    assert Look(l.next, s.free[0]) == Nth(s.free, 1);
    forall k | 0 <= k < |f|
      ensures Look(l'.next, f[k]) == Nth(f, k + 1)
    {
      assert f[k] == s.free[k + 1];
      assert Look(l.next, s.free[k + 1]) == Nth(s.free, k + 2);
    }
  }

  // ---------------------------------------------------------------------------
  // The allocator
  // ---------------------------------------------------------------------------

  class FrameStruct {
    var next: FrameStruct?
    var prev: FrameStruct?
    var refc: int
    var addr: nat

    constructor ()
      ensures next == null && prev == null && refc == 0 && addr == 0
    {
      next, prev, refc, addr := null, null, 0, 0;
    }
  }

  class FrameAllocator {
    var outOfMemory: bool
    var frameList: FrameStruct?
    const frameHash: array<FrameStruct?>
    var oomPool: nat
    /** Physical address of the end of the kernel image. */
    const end: nat

    /** The value the structures stand for. */
    ghost var state: State
    /** The pages of each hash chain, in chain order. */
    ghost var chain: seq<seq<nat>>
    /** The structure of each managed page. */
    ghost var node: map<nat, FrameStruct>
    ghost var nodes: set<FrameStruct>
    /** The pointers in `node`, `frameHash` and `frameList`. */
    ghost var links: Links

    ghost function Repr(): set<object>
      reads this
    {
      {this, frameHash} + nodes
    }

    ghost function Ptr(page: int): FrameStruct?
      reads this`node
    {
      if page in node then node[page] else null
    }

    ghost predicate Points(p: FrameStruct?, page: int)
      reads this`node
    {
      p == Ptr(page) && (page == NIL || page in node)
    }

    /** The fields hold the pointers `links` says they hold, and none leaves the managed
        structures. */
    ghost predicate Coupled()
      reads this`frameList, this`links, this`node, this`nodes, frameHash
      reads nodes`next, nodes`prev, nodes`addr
    {
      && frameHash.Length == |links.hash| == 256
      && (forall p {:trigger node[p]} :: p in node ==> node[p] in nodes && node[p].addr == p)
      && (forall p {:trigger node[p].next} :: p in node ==> node[p].next == Ptr(Look(links.next, p)))
      && (forall p {:trigger node[p].prev} :: p in node ==> node[p].prev == Ptr(Look(links.prev, p)))
      && (forall b :: 0 <= b < 256 ==> Points(frameHash[b], links.hash[b]))
      && Points(frameList, links.list)
      && (forall p {:trigger Look(links.next, p)} :: p in node ==> Look(links.next, p) == NIL || Look(links.next, p) in node)
      && (forall p {:trigger Look(links.prev, p)} :: p in node ==> Look(links.prev, p) == NIL || Look(links.prev, p) in node)
    }

    ghost predicate Counted()
      reads this`state, this`node, this`nodes, nodes`refc
    {
      forall p :: p in state.count ==> p in node && node[p] in nodes && node[p].refc == state.count[p]
    }

    ghost predicate Valid()
      reads this, frameHash, nodes
    {
      ValidBut({})
    }

    /** Consistent, the structures of the pages in `loose` being on no list. */
    ghost predicate ValidBut(loose: set<nat>)
      reads this, frameHash, nodes
    {
      && Inv(state)
      && state.oom == outOfMemory && state.pool == oomPool
      && |chain| == 256
      && node.Keys == Managed(state) + loose
      && Counted()
      && Coupled()
      && Realises(links, chain, state)
    }

    constructor (end: nat)
      ensures Valid()
      ensures this.end == end
      ensures state == State([], map[], true, BOOT_SIZE)
      ensures fresh(Repr())
    {
      outOfMemory := true;
      frameList := null;
      oomPool := BOOT_SIZE;
      this.end := end;
      frameHash := new FrameStruct?[256](_ => null);
      state := State([], map[], true, BOOT_SIZE);
      chain := seq(256, _ => []);
      links := Links(map[], map[], seq(256, _ => NIL), NIL);
      node := map[];
      nodes := {};
    }

    /** Looks a page up in its hash chain. */
    method FrameFind(frame: nat) returns (fs: FrameStruct?, ghost i: nat)
      requires Valid()
      ensures fs == null <==> frame / PAGESZ !in state.count
      ensures fs != null ==> frame / PAGESZ in node && fs == node[frame / PAGESZ]
      ensures fs != null ==> i < |chain[frame / PAGESZ % 256]| && chain[frame / PAGESZ % 256][i] == frame / PAGESZ
    {
      var page := frame / PAGESZ;
      ghost var c := chain[page % 256];
      assert ChainIs(links, c, page % 256, state.count);
      fs := frameHash[page % 256];
      i := 0;
      while fs != null
        invariant 0 <= i <= |c|
        invariant fs == Ptr(Nth(c, i))
        invariant forall k :: 0 <= k < i ==> c[k] != page
        decreases |c| - i
      {
        assert i < |c| && c[i] in node;
        assert fs == node[c[i]];
        assert Look(links.next, c[i]) == Nth(c, i + 1);
        if fs.addr == page {
          return;
        }
        fs := fs.next;
        i := i + 1;
      }
    }

    method FrameRefc(frame: nat) returns (n: int)
      requires Valid()
      ensures n == RefCount(state, frame / PAGESZ)
    {
      var fs, _ := FrameFind(frame);
      if fs != null {
        n := fs.refc;
      } else {
        n := 0;
      }
    }

    method SetNext(fs: FrameStruct, p: FrameStruct?, ghost page: nat, ghost to: int)
      requires Coupled() && page in node && fs == node[page] && Points(p, to)
      modifies fs`next, this`links
      ensures links == old(links).(next := old(links).next[page := to])
      ensures fs.next == p && Coupled()
    {
      fs.next := p;
      links := links.(next := links.next[page := to]);
      assert forall q :: q in node && q != page ==> Look(links.next, q) == Look(old(links).next, q);
    }

    method SetPrev(fs: FrameStruct, p: FrameStruct?, ghost page: nat, ghost to: int)
      requires Coupled() && page in node && fs == node[page] && Points(p, to)
      modifies fs`prev, this`links
      ensures links == old(links).(prev := old(links).prev[page := to])
      ensures fs.prev == p && Coupled()
    {
      fs.prev := p;
      links := links.(prev := links.prev[page := to]);
      assert forall q :: q in node && q != page ==> Look(links.prev, q) == Look(old(links).prev, q);
    }

    method SetHash(b: nat, p: FrameStruct?, ghost to: int)
      requires Coupled() && b < 256 && Points(p, to)
      modifies frameHash, this`links
      ensures links == old(links).(hash := old(links).hash[b := to])
      ensures Coupled()
    {
      frameHash[b] := p;
      links := links.(hash := links.hash[b := to]);
    }

    method SetList(p: FrameStruct?, ghost to: int)
      requires Coupled() && Points(p, to)
      modifies this`frameList, this`links
      ensures links == old(links).(list := to)
      ensures Coupled()
    {
      frameList := p;
      links := links.(list := to);
    }

    lemma ListPoints()
      requires Coupled()
      ensures Points(frameList, links.list)
      ensures forall p {:trigger node[p]} :: p in node ==> node[p] in nodes
    {
    }

    lemma PointsFrom(page: nat)
      requires Coupled() && page in node
      ensures Points(node[page].next, Look(links.next, page))
      ensures Points(frameHash[page % 256], links.hash[page % 256])
    {
    }

    lemma Distinct(page: nat)
      requires Coupled() && page in node
      ensures node[page] in nodes
      ensures forall p :: p in node && p != page ==> node[p] != node[page]
    {
    }

    /** Unlinks a structure from its hash chain. */
    method FramePull(fs: FrameStruct, ghost page: nat)
      requires Coupled()
      requires page in node && fs == node[page]
      requires Look(links.prev, page) != page && Look(links.next, page) != page
      modifies frameHash, nodes`next, nodes`prev, this`links
      ensures links == Pull(old(links), page)
      ensures Coupled()
    {
      ghost var n, p := Look(links.next, page), Look(links.prev, page);
      if fs.prev != null {
        SetNext(fs.prev, fs.next, p, n);
      } else {
        SetHash(fs.addr % 256, fs.next, n);
      }
      assert fs.next == Ptr(n) && fs.prev == Ptr(p);
      if fs.next != null {
        SetPrev(fs.next, fs.prev, n, p);
      }
    }

    /** Takes entry `i` of its chain out of the hash table. */
    method Unhash(fs: FrameStruct, ghost page: nat, ghost i: nat)
      requires Valid()
      requires page in state.count && page in node && fs == node[page]
      requires i < |chain[page % 256]| && chain[page % 256][i] == page
      modifies frameHash, nodes`next, nodes`prev, this`links, this`chain, this`state
      ensures ValidBut({page}) && page !in Managed(state)
      ensures state == old(state).(count := old(state).count - {page})
    {
      hide Coupled, Realises, Inv, Managed;
      PullRemoves(links, chain, state, page, i);
      NoSelfLink(links, chain, state, page, i);
      UncountKeeps(state, page);
      FramePull(fs, page);
      chain := chain[page % 256 := Without(chain[page % 256], i)];
      state := state.(count := state.count - {page});
    }

    /** Puts a loose structure at the front of the free list, which ends any shortage. */
    method PushOnFreeList(fs: FrameStruct, ghost page: nat)
      requires ValidBut({page})
      requires page !in Managed(state) && page in node && fs == node[page]
      requires BOOT_PAGES <= page < PAGE_COUNT
      modifies nodes`next, nodes`prev, this`links, this`state, this`frameList, this`outOfMemory
      ensures Valid()
      ensures state == old(state).(free := [page] + old(state).free, oom := false)
    {
      hide Coupled, Realises, Inv, Managed;
      PushFreeRealises(links, chain, state, page);
      PushKeeps(state, page);
      LinkFree(fs, page);
      outOfMemory := false;
      state := state.(free := [page] + state.free, oom := false);
    }

    method LinkFree(fs: FrameStruct, ghost page: nat)
      requires Coupled() && page in node && fs == node[page] && links.list != page
      modifies nodes`next, nodes`prev, this`links, this`frameList
      ensures Coupled() && links == PushFree(old(links), page)
    {
      hide Coupled;
      ListPoints();
      ghost var l, head := links, links.list;
      SetPrev(fs, null, page, NIL);
      SetNext(fs, frameList, page, head);
      if fs.next != null {
        SetPrev(fs.next, fs, head, page);
      }
      SetList(fs, page);
    }

    method SetCount(fs: FrameStruct, n: int, ghost page: nat)
      requires Valid() && page in state.count && page in node && fs == node[page]
      modifies fs`refc, this`state
      ensures 1 <= n <= MAX_COUNT ==> Valid()
      ensures Counted()
      ensures state == old(state).(count := old(state).count[page := n])
    {
      hide Coupled, Realises, Inv, Managed;
      Distinct(page);
      if 1 <= n <= MAX_COUNT {
        RecountKeeps(links, chain, state, page, n);
      }
      fs.refc := n;
      state := state.(count := state.count[page := n]);
    }

    /** Drops one reference; the last one puts the frame back on the free list. */
    method FrameFree(frame: nat)
      requires Valid()
      modifies Repr()
      ensures Valid()
      ensures state == FreeFrame(old(state), frame)
      ensures node == old(node) && nodes == old(nodes)
    {
      hide Coupled, Realises, Inv, Managed;
      FreeKeeps(state, frame);
      ListPoints();
      var fs, i := FrameFind(frame);
      ghost var page := frame / PAGESZ;
      if fs == null {
        return;
      }
      if fs.refc == 1 {
        Unhash(fs, page, i);
        PushOnFreeList(fs, page);
      } else {
        SetCount(fs, fs.refc - 1, page);
      }
    }

    /** One reference more. A counter that wraps to zero leaves the allocator unsound. */
    method FrameRef(frame: nat)
      requires Valid()
      modifies Repr()
      ensures Valid() <==> old(RefCount(state, frame / PAGESZ)) < MAX_COUNT
      ensures Counted()
      ensures state == RefFrame(old(state), frame)
      ensures node == old(node) && nodes == old(nodes)
    {
      hide Coupled, Realises, Inv, Managed;
      FreeKeeps(state, frame);
      ListPoints();
      var fs, _ := FrameFind(frame);
      if fs == null {
        return;
      }
      RefKeepsIff(state, frame);
      SetCount(fs, (fs.refc + 1) % (MAX_COUNT + 1), frame / PAGESZ);
    }

    /** Moves the first structure of the free list to the front of its hash chain. */
    method IssueFirst(fs: FrameStruct)
      requires Valid() && state.free != [] && fs == frameList
      modifies frameHash, nodes`next, nodes`prev, nodes`refc, this`links, this`chain, this`state, this`frameList
      ensures Valid() && state.free == old(state).free[1..]
      ensures state == old(state).(free := old(state).free[1..], count := old(state).count[old(state).free[0] := 1])
      ensures fs.addr == old(state).free[0]
    {
      hide Coupled, Counted, Realises, Inv, Managed, Issue;
      ghost var page := state.free[0];
      ghost var b := page % 256;
      FirstOfList(page);
      Distinct(page);
      IssueRealises(links, chain, state);
      IssueKeeps(state);
      MovePointers(fs, page);
      CountFirst(fs);
      chain := chain[b := [page] + chain[b]];
    }

    method CountFirst(fs: FrameStruct)
      requires Counted() && state.free != [] && state.free[0] in node && node[state.free[0]] == fs && fs in nodes
      requires forall p :: p in node && p != state.free[0] ==> node[p] != fs
      modifies fs`refc, this`state
      ensures Counted()
      ensures state == old(state).(free := old(state).free[1..], count := old(state).count[old(state).free[0] := 1])
    {
      fs.refc := 1;
      state := state.(free := state.free[1..], count := state.count[state.free[0] := 1]);
    }

    lemma FirstOfList(page: nat)
      requires Valid() && state.free != [] && page == state.free[0]
      ensures page in node && frameList == node[page] && node[page] in nodes
      ensures links.list == page && node[page].addr == page && Look(links.next, page) != page
      ensures frameHash.Length == |links.hash| == 256 && links.hash[page % 256] != page
    {
      assert Look(links.next, state.free[0]) == Nth(state.free, 1);
      assert ChainIs(links, chain[page % 256], page % 256, state.count);
    }

    method MovePointers(fs: FrameStruct, ghost page: nat)
      requires Coupled() && page in node && fs == node[page] && fs == frameList && fs.addr == page
      requires frameHash.Length == |links.hash| == 256
      requires links.hash[page % 256] != page
      modifies frameHash, nodes`next, nodes`prev, this`links, this`frameList
      ensures Coupled() && links == Issue(old(links), page)
    {
      hide Coupled;
      ghost var l := links;
      ListPoints();
      PointsFrom(page);
      SetList(fs.next, Look(l.next, page));
      if frameList != null {
        SetPrev(fs, null, page, NIL);
      }
      LinkHash(fs, page);
      assert l.prev[page := NIL][page := NIL] == l.prev[page := NIL];
    }

    method LinkHash(fs: FrameStruct, ghost page: nat)
      requires Coupled() && page in node && fs == node[page] && fs.addr == page
      requires frameHash.Length == |links.hash| == 256
      requires links.hash[page % 256] != page
      modifies frameHash, nodes`next, nodes`prev, this`links
      ensures Coupled() && links == OntoChain(old(links), page)
    {
      hide Coupled;
      ghost var h := links.hash[page % 256];
      ListPoints();
      PointsFrom(page);
      SetNext(fs, frameHash[fs.addr % 256], page, h);
      SetPrev(fs, null, page, NIL);
      if fs.next != null {
        SetPrev(fs.next, fs, h, page);
      }
      SetHash(fs.addr % 256, fs, page);
    }

    /** Hands out a frame. `ok` is false when the kernel panics for want of memory. The
        call after `out_of_memory` is set takes the first branch, so it nests once. */
    method FrameNew() returns (ok: bool, frame: nat)
      requires Valid()
      modifies Repr()
      ensures node == old(node) && nodes == old(nodes)
      ensures ok <==> NewFrame(old(state), end).Got?
      ensures ok <==> !Exhausted(old(state), end)
      ensures !ok ==> Exhausted(state, end)
      ensures ok ==> Valid() && Got(frame, state) == NewFrame(old(state), end)
      decreases !outOfMemory
    {
      hide Coupled, Realises, Inv, Managed, Exhausted;
      ghost var s := state;
      PanicsIff(s, end);
      if outOfMemory {
        if oomPool - PAGESZ <= end {
          return false, 0;
        }
        PoolKeeps(state, oomPool - PAGESZ);
        oomPool := oomPool - PAGESZ;
        state := state.(pool := oomPool);
        SameLists(links, chain, s, state);
        return true, oomPool;
      }
      var fs := frameList;
      EmptyList();
      if fs == null {
        OomKeeps(state);
        outOfMemory := true;
        state := state.(oom := true);
        SameLists(links, chain, s, state);
        PanicsIff(state, end);
        ok, frame := FrameNew();
        return;
      }
      IssueFirst(fs);
      return true, fs.addr * PAGESZ;
    }

    lemma EmptyList()
      requires Valid()
      ensures frameList == null <==> state.free == []
    {
    }

    /** Enters a new structure for a frame the allocator does not know, the part of
        `frame_add` that follows its heap allocation. */
    method Enroll(frame: nat)
      requires Valid()
      requires frame / PAGESZ !in Managed(state) && BOOT_PAGES <= frame / PAGESZ < PAGE_COUNT
      modifies Repr()
      ensures Valid()
      ensures state == AddFrame(old(state), frame)
      ensures fresh(Repr() - old(Repr()))
    {
      hide Realises, Inv;
      var fs := new FrameStruct();
      fs.addr := frame / PAGESZ;
      EnterLoose(fs, frame / PAGESZ);
      PushOnFreeList(fs, frame / PAGESZ);
    }

    ghost method EnterLoose(fs: FrameStruct, page: nat)
      requires Valid() && page !in Managed(state)
      requires fs !in nodes && fs.addr == page && fs.next == null && fs.prev == null
      modifies this`node, this`nodes, this`links
      ensures ValidBut({page}) && node == old(node)[page := fs] && nodes == old(nodes) + {fs}
    {
      hide Realises, Inv, Coupled;
      LooseRealises(links, links.(next := links.next[page := NIL], prev := links.prev[page := NIL]), chain, state, page);
      ListPoints();
      EnterNode(fs, page);
    }

    ghost method EnterNode(fs: FrameStruct, page: nat)
      requires Coupled() && page !in node
      requires fs !in nodes && fs.addr == page && fs.next == null && fs.prev == null
      modifies this`node, this`nodes, this`links
      ensures Coupled() && node == old(node)[page := fs] && nodes == old(nodes) + {fs}
      ensures links == old(links).(next := old(links).next[page := NIL], prev := old(links).prev[page := NIL])
    {
      ghost var l := links;
      node := node[page := fs];
      nodes := nodes + {fs};
      links := links.(next := links.next[page := NIL], prev := links.prev[page := NIL]);
      assert forall q :: q != page ==> Ptr(q) == old(Ptr(q));
      assert forall q :: q != page ==> Look(links.next, q) == Look(l.next, q);
      assert forall q :: q != page ==> Look(links.prev, q) == Look(l.prev, q);
    }
  }
}
