/** The kernel heap: sixteen buckets of power-of-two blocks whose free lists are threaded
    through the free blocks themselves. The blocks live in virtual memory: every word is
    read and written through the page tables, on pages the heap maps as it grows. */
module Heap {
  import opened Arith
  import opened Base
  import opened Frames
  import opened Paging

  const KERNEL_HEAP := 0xF100_0000
  const KERNEL_HEAP_END := 0xF800_0000
  const BUCKETS := 16
  const MAX_SIZE := 0x2_0000
  const TOO_LARGE := 17

  // ---------------------------------------------------------------------------
  // Size classes
  // ---------------------------------------------------------------------------

  /** Bytes in a block of bucket `b`: four times two to the `b`. */
  function Size(b: nat): nat
    requires b < BUCKETS
  {
    match b
    case 0 => 4
    case 1 => 8
    case 2 => 16
    case 3 => 32
    case 4 => 64
    case 5 => 128
    case 6 => 256
    case 7 => 512
    case 8 => 1024
    case 9 => 2048
    case 10 => 4096
    case 11 => 8192
    case 12 => 16384
    case 13 => 32768
    case 14 => 65536
    case 15 => 131072
  }

  /** What a block's address is a multiple of. */
  function Align(b: nat): nat
    requires b < BUCKETS
  {
    if b < 10 then Size(b) else PAGESZ
  }

  /** Bytes in a slab of bucket `b`: a page, or four blocks. */
  function SlabSize(b: nat): nat
    requires b < BUCKETS
  {
    if b <= 10 then PAGESZ else 4 * Size(b)
  }

  /** Blocks in a slab. */
  function SlabBlocks(b: nat): (n: nat)
    requires b < BUCKETS
    ensures n >= 1 && n * Size(b) == SlabSize(b)
  {
    match b
    case 0 => 1024
    case 1 => 512
    case 2 => 256
    case 3 => 128
    case 4 => 64
    case 5 => 32
    case 6 => 16
    case 7 => 8
    case 8 => 4
    case 9 => 2
    case 10 => 1
    case _ => 4
  }

  /** The classes are the powers of two from 4 up, and a slab is a page or four blocks,
      whichever is more. */
  lemma SizesArePowers(b: nat)
    requires b < BUCKETS
    ensures Size(b) == 4 * Pow2(b)
    ensures SlabSize(b) == if b <= 10 then 4096 else 16 * Pow2(b)
    ensures Align(b) == if Size(b) < 4096 then Size(b) else 4096
  {
  }

  lemma Sizes(b: nat)
    requires b < BUCKETS
    ensures 4 <= Size(b) <= MAX_SIZE && Size(b) % 4 == 0
    ensures Align(b) >= 4 && PAGESZ % Align(b) == 0 && Size(b) % Align(b) == 0
    ensures SlabSize(b) % PAGESZ == 0 && PAGESZ <= SlabSize(b) <= 0x8_0000
  {
  }

  /** `b` is the class of `size`: the smallest that fits, or none. */
  ghost predicate IsBucket(size: nat, b: nat) {
    if size > MAX_SIZE then b == TOO_LARGE
    else b < BUCKETS && size <= Size(b) && (b > 0 ==> Size(b - 1) < size)
  }

  lemma BucketUnique(size: nat, b: nat, c: nat)
    requires IsBucket(size, b) && IsBucket(size, c)
    ensures b == c
  {
  }

  // ---------------------------------------------------------------------------
  // Heap memory is flat
  // ---------------------------------------------------------------------------

  /** The word at virtual address `a`. */
  function VWord(m: Phys, d: nat, a: nat): Word
    requires Shaped(m) && d < PAGE_COUNT && a / PAGESZ < PAGE_COUNT
  {
    m[FrameOf(Entry(m, d, a / PAGESZ))][a % PAGESZ / 4]
  }

  /** The pages `lo` up to `hi` are mapped, each to a frame of its own that is no table. */
  ghost predicate OwnPages(m: Phys, dirs: set<nat>, d: nat, s: State, end: nat, lo: nat, hi: nat)
    requires Shaped(m) && Directories(m, dirs) && d in dirs && hi <= TMP_PAGE
  {
    && (forall p: nat :: lo <= p < hi ==> OwnPage(m, dirs, s, end, Entry(m, d, p)))
    && (forall p: nat, q: nat :: lo <= p < q < hi ==> FrameOf(Entry(m, d, p)) != FrameOf(Entry(m, d, q)))
  }

  /** Present, writable and closed to users. */
  predicate Privileged(e: Word) {
    Present(e) && HasBit(e, 1) && !HasBit(e, 2)
  }

  ghost predicate OwnPage(m: Phys, dirs: set<nat>, s: State, end: nat, e: Word)
    requires Shaped(m) && Directories(m, dirs)
  {
    Privileged(e) && !Structural(m, dirs, FrameOf(e)) && Taken(s, end, FrameOf(e))
  }

  /** A store to a heap word changes that word and nothing else the heap can see. */
  lemma StoreIsFlat(m: Phys, dirs: set<nat>, d: nat, s: State, end: nat, lo: nat, hi: nat, a: nat, v: Word)
    requires Shaped(m) && Separated(m, dirs) && d in dirs && hi <= TMP_PAGE && OwnPages(m, dirs, d, s, end, lo, hi)
    requires lo * PAGESZ <= a < hi * PAGESZ && a % 4 == 0
    ensures Walk(m, d, a) == Some((FrameOf(Entry(m, d, a / PAGESZ)), a % PAGESZ / 4))
    ensures var m' := Poke(m, FrameOf(Entry(m, d, a / PAGESZ)), a % PAGESZ / 4, v);
      && SameSpaces(m, m', dirs)
      && OwnPages(m', dirs, d, s, end, lo, hi)
      && (forall c: nat :: lo * PAGESZ <= c < hi * PAGESZ && c % 4 == 0 ==> VWord(m', d, c) == if c == a then v else VWord(m, d, c))
      && (forall f: nat :: f < PAGE_COUNT && f != FrameOf(Entry(m, d, a / PAGESZ)) ==> m'[f] == m[f])
  {
    hide Entry, Structural, Taken, Walk;
    var p := a / PAGESZ;
    var f := FrameOf(Entry(m, d, p));
    var m' := Poke(m, f, a % PAGESZ / 4, v);
    assert OwnPage(m, dirs, s, end, Entry(m, d, p));
    WalkIsEntry(m, dirs, d, a);
    DataWrite(m, m', dirs, f);
    forall q: nat | lo <= q < hi
      ensures Entry(m', d, q) == Entry(m, d, q) && OwnPage(m', dirs, s, end, Entry(m', d, q))
    {
      assert OwnPage(m, dirs, s, end, Entry(m, d, q));
    }
    forall c: nat | lo * PAGESZ <= c < hi * PAGESZ && c % 4 == 0
      ensures VWord(m', d, c) == if c == a then v else VWord(m, d, c)
    {
      var q := c / PAGESZ;
      assert lo <= q < hi;
      if c != a && q == p {
        WordIndexes(a, c);
      }
    }
  }

  lemma WordIndexes(a: nat, c: nat)
    requires a % 4 == 0 && c % 4 == 0 && a != c && a / PAGESZ == c / PAGESZ
    ensures a % PAGESZ / 4 != c % PAGESZ / 4
  {
    WordOffset(a);
    WordOffset(c);
  }

  lemma WordOffset(a: nat)
    requires a % 4 == 0
    ensures a == a / PAGESZ * PAGESZ + 4 * (a % PAGESZ / 4)
  {
    var p, r := a / PAGESZ, a % PAGESZ;
    assert a == p * 4096 + r;
    assert r % 4 == 0;
  }

  /** Growing the heap leaves the words it had and gives the new pages frames of their own. */
  lemma GrowthKeeps(m: Phys, s: State, t: State, m1: Phys, s1: State, m2: Phys, s2: State,
                    dirs: set<nat>, d: nat, end: nat, lo: nat, hi: nat, n: nat, g: nat, v: Word, flags: Word)
    requires Shaped(m) && Directories(m, dirs) && d in dirs && lo <= hi < n <= TMP_PAGE
    requires OwnPages(m, dirs, d, s, end, lo, hi)
    requires forall p: nat :: hi <= p < n ==> !Present(Entry(m, d, p))
    requires !Taken(s, end, g) && Taken(t, end, g) && !Structural(m, dirs, g)
    requires Preserves(m, s, m, t, dirs, end)
    requires Shaped(m1) && Directories(m1, dirs) && Preserves(m, t, m1, s1, dirs, end)
    requires SetsPage(m, m1, dirs, d, hi, v) && Privileged(v) && FrameOf(v) == g
    requires HasBit(flags, 1) && !HasBit(flags, 2)
    requires Shaped(m2) && Directories(m2, dirs) && Preserves(m1, s1, m2, s2, dirs, end)
    requires MapsRange(m1, s1, m2, s2, dirs, end, d, hi, n, flags)
    ensures OwnPages(m2, dirs, d, s2, end, lo, n)
    ensures Preserves(m, s, m2, s2, dirs, end)
    ensures forall e, p: nat :: e in dirs && p < TMP_PAGE && !(hi <= p < n) ==> Entry(m2, e, p) == Entry(m, e, p)
    ensures forall a: nat :: lo * PAGESZ <= a < hi * PAGESZ ==> VWord(m2, d, a) == VWord(m, d, a)
  {
    hide Entry, Structural, Taken, Recursive, Separated, IsNew, Preserves;
    PreservesTransitive(m, s, m, t, m1, s1, dirs, end);
    PreservesTransitive(m, s, m1, s1, m2, s2, dirs, end);
    PreservesTransitive(m, t, m1, s1, m2, s2, dirs, end);
    forall p: nat | lo <= p < hi
      ensures Entry(m2, d, p) == Entry(m, d, p) && m2[FrameOf(Entry(m, d, p))] == m[FrameOf(Entry(m, d, p))]
      ensures OwnPage(m2, dirs, s2, end, Entry(m2, d, p))
      ensures FrameOf(Entry(m, d, p)) != g
    {
      StaysOwn(m, s, m2, s2, dirs, end, Entry(m, d, p));
    }
    assert Entry(m1, d, hi) == v && Entry(m2, d, hi) == v;
    StaysOwn(m, t, m2, s2, dirs, end, v);
    forall p: nat | hi < p < n
      ensures OwnPage(m2, dirs, s2, end, Entry(m2, d, p))
      ensures !Taken(s, end, FrameOf(Entry(m2, d, p))) && FrameOf(Entry(m2, d, p)) != g
    {
      assert Entry(m1, d, p) == Entry(m, d, p);
      assert IsNew(m2, dirs, s1, s2, end, Entry(m2, d, p), flags);
      NewStaysApart(m, s, t, m1, s1, m2, s2, dirs, end, Entry(m2, d, p), flags, g);
    }
    forall p: nat, q: nat | lo <= p < q < n
      ensures FrameOf(Entry(m2, d, p)) != FrameOf(Entry(m2, d, q))
    {
      if p < hi {
        assert OwnPage(m, dirs, s, end, Entry(m, d, p));
      } else if p > hi {
        assert Entry(m1, d, p) == Entry(m, d, p) && Entry(m1, d, q) == Entry(m, d, q);
      }
    }
  }

  lemma StaysOwn(m: Phys, s: State, m': Phys, s': State, dirs: set<nat>, end: nat, e: Word)
    requires Shaped(m) && Shaped(m') && Directories(m, dirs) && Directories(m', dirs)
    requires Preserves(m, s, m', s', dirs, end) && OwnPage(m, dirs, s, end, e)
    ensures OwnPage(m', dirs, s', end, e) && m'[FrameOf(e)] == m[FrameOf(e)]
  {
    hide Structural, Taken;
  }

  lemma NewStaysApart(m: Phys, s: State, t: State, m1: Phys, s1: State, m2: Phys, s2: State,
                      dirs: set<nat>, end: nat, e: Word, flags: Word, g: nat)
    requires Shaped(m) && Shaped(m1) && Shaped(m2)
    requires Directories(m, dirs) && Directories(m1, dirs) && Directories(m2, dirs)
    requires Preserves(m, s, m1, s1, dirs, end) && Preserves(m, t, m1, s1, dirs, end) && Taken(t, end, g)
    requires IsNew(m2, dirs, s1, s2, end, e, flags) && Present(e) && HasBit(flags, 1) && !HasBit(flags, 2)
    ensures OwnPage(m2, dirs, s2, end, e) && !Taken(s, end, FrameOf(e)) && FrameOf(e) != g
  {
    hide Structural, Taken;
  }

  /** No page outside the heap's range is mapped differently, in any space. */
  ghost predicate MapsKept(m: Phys, m': Phys, dirs: set<nat>)
    requires forall d :: d in dirs ==> d < PAGE_COUNT
  {
    && Shaped(m) && Shaped(m')
    && forall e, p: nat :: e in dirs && p < TMP_PAGE && !(KERNEL_HEAP / PAGESZ <= p < KERNEL_HEAP_END / PAGESZ) ==>
         Entry(m', e, p) == Entry(m, e, p)
  }

  lemma MapsKeptTransitive(m: Phys, m1: Phys, m2: Phys, dirs: set<nat>)
    requires (forall d :: d in dirs ==> d < PAGE_COUNT) && MapsKept(m, m1, dirs) && MapsKept(m1, m2, dirs)
    ensures MapsKept(m, m2, dirs)
  {
    hide Entry;
  }

  // ---------------------------------------------------------------------------
  // Blocks and free lists
  // ---------------------------------------------------------------------------

  /** Every block ever carved with its bucket, and the free ones in list order. The other
      blocks are live. */
  datatype Layout = Layout(blocks: map<nat, nat>, live: set<nat>, free: seq<seq<nat>>)

  /** Each block is in its bucket's free list once, or live, but not both. */
  ghost predicate Sorted(h: Layout) {
    && |h.free| == BUCKETS
    && (forall a :: a in h.blocks ==> h.blocks[a] < BUCKETS)
    && (forall b: nat :: b < BUCKETS ==> NoDup(h.free[b]))
    && (forall b: nat, i: nat {:trigger h.free[b][i]} :: b < BUCKETS && i < |h.free[b]| ==>
          h.free[b][i] in h.blocks && h.blocks[h.free[b][i]] == b && h.free[b][i] !in h.live)
    && h.live <= h.blocks.Keys
    && (forall a :: a in h.blocks && a !in h.live ==> a in h.free[h.blocks[a]])
  }

  /** Blocks are aligned, lie within the heap and do not overlap. */
  ghost predicate Placed(h: Layout, brk: nat) {
    && (forall a :: a in h.blocks ==> BlockAt(a, h.blocks[a], brk))
    && (forall a, c :: a in h.blocks && c in h.blocks && a < c && h.blocks[a] < BUCKETS ==> a + Size(h.blocks[a]) <= c)
  }

  ghost predicate BlockAt(a: nat, b: nat, brk: nat) {
    b < BUCKETS && KERNEL_HEAP <= a && a + Size(b) <= brk && a % Align(b) == 0 && a % 4 == 0
  }

  /** No byte up to `top` belongs to no block. */
  ghost predicate Covered(h: Layout, top: nat) {
    forall x :: KERNEL_HEAP <= x < top ==> HasBlock(h, x)
  }

  ghost predicate HasBlock(h: Layout, x: int) {
    exists a :: a in h.blocks && InBlock(h, a, x)
  }

  ghost predicate InBlock(h: Layout, a: nat, x: int) {
    a in h.blocks && h.blocks[a] < BUCKETS && a <= x < a + Size(h.blocks[a])
  }

  ghost function Nth0(s: seq<nat>, i: int): nat {
    if 0 <= i < |s| then s[i] else 0
  }

  /** Following the first words of free blocks from `head` visits exactly `s`. */
  ghost predicate Threads(m: Phys, d: nat, head: nat, s: seq<nat>)
    requires Shaped(m) && d < PAGE_COUNT
    requires forall i :: 0 <= i < |s| ==> s[i] / PAGESZ < PAGE_COUNT
  {
    && head == Nth0(s, 0)
    && (forall i {:trigger VWord(m, d, s[i])} :: 0 <= i < |s| ==> VWord(m, d, s[i]) == Nth0(s, i + 1))
  }

  ghost predicate Threaded(m: Phys, d: nat, heads: seq<nat>, h: Layout)
    requires Shaped(m) && d < PAGE_COUNT
  {
    && |heads| == BUCKETS && Sorted(h)
    && (forall a :: a in h.blocks ==> a / PAGESZ < PAGE_COUNT)
    && (forall b: nat :: b < BUCKETS ==> Threads(m, d, heads[b], h.free[b]))
  }

  /** The live blocks of a bucket. */
  ghost function LiveIn(h: Layout, b: nat): set<nat> {
    set a | a in h.live && a in h.blocks && h.blocks[a] == b
  }

  function Pop(h: Layout, b: nat): Layout
    requires b < |h.free| && h.free[b] != []
  {
    h.(live := h.live + {h.free[b][0]}, free := h.free[b := h.free[b][1..]])
  }

  function Push(h: Layout, b: nat, a: nat): Layout
    requires b < |h.free|
  {
    h.(live := h.live - {a}, free := h.free[b := [a] + h.free[b]])
  }

  function Carve(h: Layout, b: nat, a: nat): Layout {
    h.(blocks := h.blocks[a := b], live := h.live + {a})
  }

  lemma PopSorts(h: Layout, b: nat)
    requires Sorted(h) && b < BUCKETS && h.free[b] != []
    ensures Sorted(Pop(h, b)) && h.free[b][0] !in h.live
  {
    var a, h' := h.free[b][0], Pop(h, b);
    var f := h.free[b];
    assert forall i :: 0 <= i < |h'.free[b]| ==> h'.free[b][i] == f[i + 1];
    forall c | c in h'.blocks && c !in h'.live
      ensures c in h'.free[h'.blocks[c]]
    {
      if h.blocks[c] == b {
        var i :| 0 <= i < |f| && f[i] == c;
        assert h'.free[b][i - 1] == c;
      }
    }
  }

  lemma PushSorts(h: Layout, b: nat, a: nat)
    requires Sorted(h) && b < BUCKETS && a in h.live && h.blocks[a] == b
    ensures Sorted(Push(h, b, a)) && a !in h.free[b]
  {
    var h', f := Push(h, b, a), h.free[b];
    assert forall i :: 0 <= i < |f| ==> f[i] == h.free[b][i] && f[i] != a;
    assert forall i :: 0 < i < |h'.free[b]| ==> h'.free[b][i] == f[i - 1];
    forall c | c in h'.blocks && c !in h'.live
      ensures c in h'.free[h'.blocks[c]]
    {
      if c == a {
        assert h'.free[b][0] == a;
      } else if h.blocks[c] == b {
        var i :| 0 <= i < |f| && f[i] == c;
        assert h'.free[b][i + 1] == c;
      }
    }
  }

  lemma CarveSorts(h: Layout, b: nat, a: nat)
    requires Sorted(h) && b < BUCKETS && a !in h.blocks
    ensures Sorted(Carve(h, b, a))
  {
  }

  lemma PopThreads(m: Phys, d: nat, heads: seq<nat>, h: Layout, b: nat)
    requires Shaped(m) && d < PAGE_COUNT && Threaded(m, d, heads, h) && b < BUCKETS && h.free[b] != []
    ensures heads[b] == h.free[b][0] && heads[b] / PAGESZ < PAGE_COUNT
    ensures Threaded(m, d, heads[b := VWord(m, d, heads[b])], Pop(h, b))
  {
    PopSorts(h, b);
    var f, g := h.free[b], h.free[b][1..];
    assert Threads(m, d, heads[b], f);
    assert VWord(m, d, f[0]) == Nth0(f, 1);
    forall i | 0 <= i < |g|
      ensures VWord(m, d, g[i]) == Nth0(g, i + 1)
    {
      assert g[i] == f[i + 1];
      assert VWord(m, d, f[i + 1]) == Nth0(f, i + 2);
    }
  }

  /** Only the first words of free blocks matter to the lists. */
  lemma ThreadedFrame(m: Phys, m': Phys, d: nat, heads: seq<nat>, h: Layout)
    requires Shaped(m) && Shaped(m') && d < PAGE_COUNT && Threaded(m, d, heads, h)
    requires forall a :: a in h.blocks && a !in h.live ==> VWord(m', d, a) == VWord(m, d, a)
    ensures Threaded(m', d, heads, h)
  {
    hide VWord;
    forall b: nat | b < BUCKETS
      ensures Threads(m', d, heads[b], h.free[b])
    {
      var f := h.free[b];
      assert Threads(m, d, heads[b], f);
      forall i | 0 <= i < |f|
        ensures VWord(m', d, f[i]) == Nth0(f, i + 1)
      {
        assert h.free[b][i] == f[i];
        assert VWord(m, d, f[i]) == Nth0(f, i + 1);
      }
    }
  }

  lemma PushThreads(m: Phys, m': Phys, d: nat, heads: seq<nat>, h: Layout, b: nat, a: nat)
    requires Shaped(m) && Shaped(m') && d < PAGE_COUNT && Threaded(m, d, heads, h) && b < BUCKETS
    requires a in h.live && h.blocks[a] == b && VWord(m', d, a) == heads[b]
    requires forall c :: c in h.blocks && c != a ==> VWord(m', d, c) == VWord(m, d, c)
    ensures Threaded(m', d, heads[b := a], Push(h, b, a))
  {
    hide VWord;
    PushSorts(h, b, a);
    var h' := Push(h, b, a);
    forall e: nat | e < BUCKETS
      ensures Threads(m', d, heads[b := a][e], h'.free[e])
    {
      PushThread(m, m', d, heads, h, b, a, e);
    }
  }

  lemma PushThread(m: Phys, m': Phys, d: nat, heads: seq<nat>, h: Layout, b: nat, a: nat, e: nat)
    requires Shaped(m) && Shaped(m') && d < PAGE_COUNT && Threaded(m, d, heads, h) && b < BUCKETS && e < BUCKETS
    requires a in h.live && h.blocks[a] == b && VWord(m', d, a) == heads[b]
    requires forall c :: c in h.blocks && c != a ==> VWord(m', d, c) == VWord(m, d, c)
    ensures |heads| == |Push(h, b, a).free| == BUCKETS
    ensures Threads(m', d, heads[b := a][e], Push(h, b, a).free[e])
  {
    hide VWord;
    PushSorts(h, b, a);
    var f, g := h.free[e], Push(h, b, a).free[e];
    assert Threads(m, d, heads[e], f);
    forall i | 0 <= i < |g|
      ensures VWord(m', d, g[i]) == Nth0(g, i + 1)
    {
      var k := if e == b then i - 1 else i;
      if k >= 0 {
        assert h.free[e][k] == f[k] == g[i];
        assert VWord(m, d, f[k]) == Nth0(f, k + 1);
      }
    }
  }

  lemma CarveThreads(m: Phys, d: nat, heads: seq<nat>, h: Layout, b: nat, a: nat)
    requires Shaped(m) && d < PAGE_COUNT && Threaded(m, d, heads, h) && b < BUCKETS && a !in h.blocks && a / PAGESZ < PAGE_COUNT
    ensures Threaded(m, d, heads, Carve(h, b, a))
  {
    hide VWord;
    CarveSorts(h, b, a);
    var h' := Carve(h, b, a);
    forall e: nat | e < BUCKETS
      ensures Threads(m, d, heads[e], h'.free[e])
    {
      assert Threads(m, d, heads[e], h.free[e]);
    }
  }

  // ---------------------------------------------------------------------------
  // The allocator
  // ---------------------------------------------------------------------------

  class HeapAllocator {
    const space: AddressSpace
    /** `heap_bucket`: addresses of the first free blocks, 0 for none. */
    var bucket: seq<nat>
    var analysis: seq<int>
    var brk: nat
    ghost var layout: Layout

    ghost function Repr(): set<object>
      reads this, space, space.frames
    {
      {this} + space.Repr()
    }

    /** The heap's pages are its own, nothing is mapped beyond them, and all spaces share the
        kernel's tables. */
    ghost predicate Mapped()
      reads this`brk, space, space.frames, space.frames.frameHash, space.frames.nodes
    {
      && space.Valid() && Shaped(space.phys) && space.cr3 < PAGE_COUNT
      && brk % PAGESZ == 0 && KERNEL_HEAP <= brk < KERNEL_HEAP_END
      && OwnPages(space.phys, space.dirs, space.cr3, space.frames.state, space.frames.end, KERNEL_HEAP / PAGESZ, brk / PAGESZ)
      && (forall p: nat :: brk / PAGESZ <= p < KERNEL_HEAP_END / PAGESZ ==> !Present(Entry(space.phys, space.cr3, p)))
      && KernelShared(space.phys, space.dirs, space.cr3)
    }

    /** The lists and blocks are sound. */
    ghost predicate Core()
      reads this, space, space.frames, space.frames.frameHash, space.frames.nodes
    {
      && Mapped() && Shaped(space.phys) && space.cr3 < PAGE_COUNT && KERNEL_HEAP <= brk < KERNEL_HEAP_END
      && |analysis| == |bucket| == |layout.free| == BUCKETS && layout.live <= layout.blocks.Keys
      && Sorted(layout) && Placed(layout, brk)
      && Threaded(space.phys, space.cr3, bucket, layout)
    }

    ghost predicate Counted()
      reads this`analysis, this`layout
    {
      |analysis| == BUCKETS && forall b: nat :: b < BUCKETS ==> analysis[b] == |LiveIn(layout, b)|
    }

    ghost predicate Valid()
      reads this, space, space.frames, space.frames.frameHash, space.frames.nodes
    {
      Core() && Covered(layout, brk) && Counted()
    }

    /** The words of the heap up to `top` are those of `m`, except from `lo` up to `hi`. */
    ghost predicate WordsKept(m: Phys, top: nat, lo: nat, hi: nat)
      requires Shaped(m)
      reads this`brk, space
    {
      && Shaped(space.phys) && space.cr3 < PAGE_COUNT
      && forall c: nat :: KERNEL_HEAP <= c < top && c < KERNEL_HEAP_END && c % 4 == 0 && !(lo <= c < hi) ==>
           VWord(space.phys, space.cr3, c) == VWord(m, space.cr3, c)
    }

    /** No mapping outside the heap differs from `m`. */
    ghost predicate MapsAsIn(m: Phys)
      reads space
    {
      && (forall d :: d in space.dirs ==> d < PAGE_COUNT)
      && MapsKept(m, space.phys, space.dirs)
    }

    lemma MapsAsNow()
      requires Mapped()
      ensures MapsAsIn(space.phys)
    {
      hide AllTaken, Taken, Structural, FrameAllocator.Valid, Inv, Entry, OwnPages, Separated, KernelShared;
    }

    lemma MapsAsBefore(m: Phys, m1: Phys)
      requires MapsAsIn(m1) && MapsKept(m, m1, space.dirs)
      ensures MapsAsIn(m)
    {
      hide MapsKept;
      MapsKeptTransitive(m, m1, space.phys, space.dirs);
    }

    constructor (space: AddressSpace)
      requires space.Valid() && KernelShared(space.phys, space.dirs, space.cr3)
      requires forall p: nat :: KERNEL_HEAP / PAGESZ <= p < KERNEL_HEAP_END / PAGESZ ==> !Present(Entry(space.phys, space.cr3, p))
      ensures Valid() && this.space == space && layout == Layout(map[], {}, seq(BUCKETS, _ => []))
    {
      hide Separated, AllTaken, Taken, Structural, FrameAllocator.Valid, Inv, Entry, Sorted, Placed, Threaded, Covered, LiveIn;
      this.space := space;
      bucket := seq(BUCKETS, _ => 0);
      analysis := seq(BUCKETS, _ => 0);
      brk := KERNEL_HEAP;
      layout := Layout(map[], {}, seq(BUCKETS, _ => []));
      new;
      EmptyHeap(space.phys, space.cr3, bucket, layout);
    }

    method LoadWord(a: nat) returns (w: Word)
      requires Mapped() && KERNEL_HEAP <= a < brk && a % 4 == 0
      ensures w == VWord(space.phys, space.cr3, a)
    {
      hide Separated, AllTaken, Taken, Structural, FrameAllocator.Valid, Inv, Entry, Walk, OwnPages;
      StoreIsFlat(space.phys, space.dirs, space.cr3, space.frames.state, space.frames.end, KERNEL_HEAP / PAGESZ, brk / PAGESZ, a, 0);
      w := space.Load(a);
    }

    method StoreWord(a: nat, w: Word)
      requires Mapped() && KERNEL_HEAP <= a < brk && a % 4 == 0
      modifies space`phys
      ensures Mapped() && VWord(space.phys, space.cr3, a) == w
      ensures WordsKept(old(space.phys), brk, a, a + 4) && MapsAsIn(old(space.phys))
    {
      hide Separated, AllTaken, Taken, Structural, FrameAllocator.Valid, Inv, Entry, Walk, OwnPages, VWord, SameSpaces, KernelShared;
      ghost var m := space.phys;
      StoreIsFlat(m, space.dirs, space.cr3, space.frames.state, space.frames.end, KERNEL_HEAP / PAGESZ, brk / PAGESZ, a, w);
      space.Store(a, w);
      SameSpacesTaken(m, space.phys, space.dirs, space.frames.state, space.frames.end);
      SameEntries(m, space.phys, space.dirs, space.cr3);
      KernelStays(m, space.phys, space.dirs, space.cr3);
    }

    /** `memclr` on a block. */
    method ClearWords(a: nat, n: nat)
      requires Mapped() && Shaped(space.phys) && space.cr3 < PAGE_COUNT && brk < KERNEL_HEAP_END
      requires KERNEL_HEAP <= a && a + n <= brk && a % 4 == 0 && n % 4 == 0
      modifies space`phys
      ensures Mapped() && WordsKept(old(space.phys), brk, a, a + n) && MapsAsIn(old(space.phys))
      ensures forall c: nat :: a <= c < a + n && c % 4 == 0 ==> VWord(space.phys, space.cr3, c) == 0
    {
      hide Mapped, VWord, Shaped, MapsKept;
      ghost var m := space.phys;
      var k := 0;
      MapsAsNow();
      while k < n
        invariant 0 <= k <= n && k % 4 == 0
        invariant Mapped() && WordsKept(m, brk, a, a + k) && MapsAsIn(m)
        invariant forall c: nat :: a <= c < a + k && c % 4 == 0 ==> VWord(space.phys, space.cr3, c) == 0
      {
        ghost var m1 := space.phys;
        StoreWord(a + k, 0);
        MapsAsBefore(m, m1);
        k := k + 4;
      }
    }

    /** The owner of a live block may write any word of it: the heap stays sound, and no word
        of another block changes. */
    method WriteBlock(ptr: nat, a: nat, w: Word)
      requires Valid() && ptr in layout.live && a % 4 == 0
      requires InBlock(layout, ptr, a)
      modifies space`phys
      ensures Valid() && VWord(space.phys, space.cr3, a) == w
      ensures WordsKept(old(space.phys), brk, a, a + 4) && MapsAsIn(old(space.phys))
    {
      hide Mapped, Sorted, Placed, Threaded, Covered, VWord, LiveIn, MapsKept;
      ghost var m := space.phys;
      LiveBlock(layout, brk, ptr);
      StoreWord(a, w);
      WithinBlock(m, ptr, a);
      AfterClear(m, ptr, layout.blocks[ptr]);
    }

    lemma WithinBlock(m: Phys, ptr: nat, a: nat)
      requires Shaped(m) && InBlock(layout, ptr, a) && a % 4 == 0 && ptr % 4 == 0 && WordsKept(m, brk, a, a + 4)
      ensures WordsKept(m, brk, ptr, ptr + Size(layout.blocks[ptr]))
    {
      hide VWord;
      Sizes(layout.blocks[ptr]);
    }

    /** Heap memory is accessible from all address spaces: whichever space is current, an
        address in the heap leads to the same word. */
    lemma HeapEverywhere(e: nat, a: nat)
      requires Mapped() && e in space.dirs && KERNEL_HEAP <= a < brk
      ensures Shaped(space.phys) && e < PAGE_COUNT && Walk(space.phys, e, a) == Walk(space.phys, space.cr3, a)
      ensures Walk(space.phys, e, a).Some?
      ensures VWord(space.phys, e, a) == VWord(space.phys, space.cr3, a)
    {
      hide AllTaken, Taken, Structural, FrameAllocator.Valid, Inv, Entry, Walk, OwnPages, Separated, KernelShared;
      KernelEverywhere(space.phys, space.dirs, space.cr3, e, a);
      MappedAt(a);
    }

    lemma MappedAt(a: nat)
      requires Mapped() && KERNEL_HEAP <= a < brk
      ensures Shaped(space.phys) && space.cr3 < PAGE_COUNT && Walk(space.phys, space.cr3, a).Some?
    {
      hide AllTaken, Taken, Structural, FrameAllocator.Valid, Inv, Entry, Walk, KernelShared, Separated;
      WalkIsEntry(space.phys, space.dirs, space.cr3, a);
      assert OwnPage(space.phys, space.dirs, space.frames.state, space.frames.end, Entry(space.phys, space.cr3, a / PAGESZ));
    }

    /** The search for the size class at the head of `heap_alloc` and `heap_free`. */
    method FindBucket(size: nat) returns (b: nat)
      ensures IsBucket(size, b)
    {
      b := TOO_LARGE;
      var i := 0;
      while i < BUCKETS
        invariant 0 <= i <= BUCKETS && b == TOO_LARGE
        invariant i > 0 ==> Size(i - 1) < size
      {
        if size <= Size(i) {
          b := i;
          break;
        }
        i := i + 1;
      }
    }

    /** Gives a block back. The size must be of the class the block was allocated with. */
    method HeapFree(ptr: nat, size: nat)
      requires Core()
      requires ptr in layout.live && size <= MAX_SIZE && IsBucket(size, layout.blocks[ptr])
      modifies this, space`phys
      ensures Core() && brk == old(brk)
      ensures layout == Push(old(layout), old(layout).blocks[ptr], ptr)
      ensures layout.blocks == old(layout).blocks && layout.live == old(layout).live - {ptr}
      ensures analysis == old(analysis)[old(layout).blocks[ptr] := old(analysis)[old(layout).blocks[ptr]] - 1]
      ensures WordsKept(old(space.phys), brk, ptr, ptr + 4) && MapsAsIn(old(space.phys))
      ensures old(Valid()) ==> Valid()
    {
      hide MapsKept, Mapped, Sorted, Placed, Threaded, Covered, VWord, LiveIn, HasBlock;
      ghost var h, m, heads := layout, space.phys, bucket;
      ghost var e := h.blocks[ptr];
      var b := FindBucket(size);
      BucketUnique(size, b, e);
      LiveBlock(h, brk, ptr);
      HeadInRange(m, space.cr3, bucket, h, brk, b);
      analysis := analysis[b := analysis[b] - 1];
      StoreWord(ptr, bucket[b]);
      bucket := bucket[b := ptr];
      layout := Push(layout, b, ptr);
      KeepsFirstWords(m, h, ptr);
      PushThreads(m, space.phys, space.cr3, heads, h, b, ptr);
      PushSorts(h, b, ptr);
      PushPlaces(h, b, ptr, brk);
      CountPush(h, b, ptr);
    }

    /** A store to block `ptr` leaves the first words of the other blocks. */
    lemma KeepsFirstWords(m: Phys, h: Layout, ptr: nat)
      requires Shaped(m) && Placed(h, brk) && brk < KERNEL_HEAP_END && ptr in h.blocks && WordsKept(m, brk, ptr, ptr + 4)
      ensures forall c :: c in h.blocks && c != ptr ==>
                c / PAGESZ < PAGE_COUNT && VWord(space.phys, space.cr3, c) == VWord(m, space.cr3, c)
    {
      hide VWord;
      forall c | c in h.blocks && c != ptr
        ensures c / PAGESZ < PAGE_COUNT && VWord(space.phys, space.cr3, c) == VWord(m, space.cr3, c)
      {
        assert BlockAt(c, h.blocks[c], brk) && BlockAt(ptr, h.blocks[ptr], brk);
        Sizes(h.blocks[c]);
        Sizes(h.blocks[ptr]);
      }
    }

    /** Maps fresh pages at the break. `ok` is false when the kernel panics. */
    method HeapValloc(size: nat) returns (ok: bool, base: nat)
      requires Mapped() && Shaped(space.phys) && space.cr3 < PAGE_COUNT && 0 < size && size % PAGESZ == 0
      modifies this`brk, space.Repr()
      ensures space.cr3 == old(space.cr3) && space.dirs == old(space.dirs) && space.frames.Repr() == old(space.frames.Repr())
      ensures ok ==> Mapped() && base == old(brk) && brk == old(brk) + size
      ensures ok ==> WordsKept(old(space.phys), old(brk), 0, 0) && MapsAsIn(old(space.phys))
      ensures ok ==> Directories(old(space.phys), space.dirs) && Directories(space.phys, space.dirs)
                     && Preserves(old(space.phys), old(space.frames.state), space.phys, space.frames.state, space.dirs, space.frames.end)
      ensures !ok ==> brk == old(brk) && (space.Starved() || brk + size >= KERNEL_HEAP_END)
    {
      hide Separated, AllTaken, Preserves, Taken, Structural, SetsPage, FrameAllocator.Valid, NewFrame, Inv, Entry, MapsRange, OwnPages, VWord, KernelShared;
      ok, base := false, brk;
      if brk + size >= KERNEL_HEAP_END {
        return;
      }
      ghost var m, s, lo, hi := space.phys, space.frames.state, KERNEL_HEAP / PAGESZ, brk / PAGESZ;
      var frame: nat;
      ok, frame := space.frames.FrameNew();
      if !ok {
        return;
      }
      ghost var t, g := space.frames.state, frame / PAGESZ;
      AlignedFrame(s, space.frames.end);
      NewDataFrame(m, space.dirs, s, space.frames.end, g, t);
      var v := PageFmt(frame, 3);
      PageFmtFields(frame, 3);
      KernelFlags(frame);
      ok := space.PageSet(brk, v);
      if !ok {
        return;
      }
      ghost var m1, s1 := space.phys, space.frames.state;
      ok := space.MemAlloc(brk, size, 3);
      if !ok {
        return;
      }
      ghost var n := (brk + size) / PAGESZ;
      PagesUpTo(brk, size);
      GrowthKeeps(m, s, t, m1, s1, space.phys, space.frames.state, space.dirs, space.cr3, space.frames.end,
                  lo, hi, n, g, v, 3);
      PreservesKernel(m, s, space.phys, space.frames.state, space.dirs, space.frames.end, space.cr3);
      brk := brk + size;
    }

    /** Maps a slab and puts its blocks on the bucket's list. */
    method HeapNewSlab(b: nat) returns (ok: bool)
      requires Core() && Covered(layout, brk) && b < BUCKETS
      modifies Repr()
      ensures space.cr3 == old(space.cr3) && space.dirs == old(space.dirs) && space.frames.Repr() == old(space.frames.Repr())
      ensures ok ==> Core() && Covered(layout, brk) && layout.free[b] != []
      ensures ok ==> analysis == old(analysis) && layout.live == old(layout).live && Extends(old(layout), layout)
      ensures ok ==> old(brk) < brk && WordsKept(old(space.phys), old(brk), 0, 0) && MapsAsIn(old(space.phys))
      ensures ok ==> OnlyTakes(old(space.frames.state), space.frames.state, space.frames.end)
      ensures ok ==> brk == old(brk) + SlabSize(b)
      ensures !ok ==> brk == old(brk) && (space.Starved() || brk + SlabSize(b) >= KERNEL_HEAP_END)
    {
      hide MapsKept, Mapped, Sorted, Placed, Threaded, Covered, VWord, Preserves, Extends, HasBlock, OnlyTakes;
      var slab: nat;
      ghost var m, s, h := space.phys, space.frames.state, layout;
      Sizes(b);
      ok, slab := HeapValloc(SlabSize(b));
      if !ok {
        return;
      }
      PreservesTakes(m, s, space.phys, space.frames.state, space.dirs, space.frames.end);
      MappedFacts();
      GrownThreads(m, h, slab);
      CarveSlab(b, slab, m);
    }

    lemma MappedFacts()
      requires Mapped()
      ensures Shaped(space.phys) && space.cr3 < PAGE_COUNT && KERNEL_HEAP <= brk < KERNEL_HEAP_END && brk % PAGESZ == 0
    {
    }

    /** Growing the heap disturbs no block. */
    lemma GrownThreads(m: Phys, h: Layout, slab: nat)
      requires Shaped(m) && slab <= brk < KERNEL_HEAP_END && Placed(h, slab)
      requires WordsKept(m, slab, 0, 0) && Threaded(m, space.cr3, bucket, h)
      ensures Placed(h, brk) && BelowTop(h, slab)
      ensures Threaded(space.phys, space.cr3, bucket, h)
    {
      hide VWord, Threads;
      forall c | c in h.blocks
        ensures BlockAt(c, h.blocks[c], brk) && VWord(space.phys, space.cr3, c) == VWord(m, space.cr3, c)
      {
        assert BlockAt(c, h.blocks[c], slab);
        Sizes(h.blocks[c]);
      }
      ThreadedFrame(m, space.phys, space.cr3, bucket, h);
    }

    /** The loop of `HeapNewSlab`, which frees the blocks of the slab one by one. */
    method CarveSlab(b: nat, slab: nat, ghost m: Phys)
      requires Core() && b < BUCKETS && slab % PAGESZ == 0 && slab + SlabSize(b) == brk && KERNEL_HEAP <= slab
      requires BelowTop(layout, slab) && Covered(layout, slab) && Shaped(m) && WordsKept(m, slab, 0, 0) && MapsAsIn(m)
      modifies this, space`phys
      ensures Core() && Covered(layout, brk) && layout.free[b] != [] && brk == old(brk)
      ensures analysis == old(analysis) && layout.live == old(layout).live && Extends(old(layout), layout)
      ensures WordsKept(m, slab, 0, 0) && MapsAsIn(m)
    {
      hide MapsKept, Mapped, Sorted, Placed, Threaded, Covered, VWord, HasBlock, Shaped, BelowTop, SlabSize, Extends;
      Sizes(b);
      ExtendsSelf(layout);
      var i := 0;
      ghost var k, n, h0 := 0, SlabBlocks(b), layout;
      while i < SlabSize(b) / 4
        invariant 0 <= k <= n && 4 * i == k * Size(b)
        invariant Core() && brk == old(brk) && analysis == old(analysis)
        invariant layout.live == h0.live && Extends(h0, layout) && (k > 0 ==> layout.free[b] != [])
        invariant BelowTop(layout, slab + k * Size(b)) && Covered(layout, slab + k * Size(b))
        invariant WordsKept(m, slab, 0, 0) && MapsAsIn(m)
        decreases SlabSize(b) - 4 * i
      {
        CarveInSlab(b, k, n, slab);
        ghost var h := layout;
        CarveOne(b, slab + 4 * i, slab, m);
        ExtendsMore(h0, h, layout, b, slab + 4 * i);
        i := i + Size(b) / 4;
        k := k + 1;
      }
    }

    /** One round of the carving loop: `heap_free` on a block nobody has allocated, and the
        correction of its count. */
    method CarveOne(b: nat, a: nat, slab: nat, ghost m: Phys)
      requires Core() && b < BUCKETS && KERNEL_HEAP <= slab <= a && a + Size(b) <= brk && a % Align(b) == 0 && a % 4 == 0
      requires BelowTop(layout, a) && Covered(layout, a) && Shaped(m) && WordsKept(m, slab, 0, 0) && MapsAsIn(m)
      modifies this, space`phys
      ensures Core() && brk == old(brk) && analysis == old(analysis)
      ensures layout == Push(Carve(old(layout), b, a), b, a) && layout.live == old(layout).live
      ensures BelowTop(layout, a + Size(b)) && Covered(layout, a + Size(b))
      ensures WordsKept(m, slab, 0, 0) && MapsAsIn(m)
    {
      hide MapsKept, Mapped, Sorted, Placed, Threaded, Covered, VWord, HasBlock, Shaped, BelowTop, Size;
      ghost var h, m1 := layout, space.phys;
      CarvePlaces(h, b, a, brk);
      CarveSorts(h, b, a);
      CarveThreads(space.phys, space.cr3, bucket, h, b, a);
      layout := Carve(h, b, a);
      SizeIsClass(b);
      HeapFree(a, Size(b));
      MapsAsBefore(m, m1);
      analysis := analysis[b := analysis[b] + 1];
      SameBlocksCover(Carve(h, b, a), layout);
      SameBlocksBelow(Carve(h, b, a), layout, a + Size(b));
    }

    /** Allocates a zeroed block of the smallest class that fits; 0 if none does. `ok` is
        false when the kernel panics for want of memory. */
    method HeapAlloc(size: nat) returns (ok: bool, ptr: nat, ghost b: nat)
      requires Valid()
      modifies Repr()
      ensures space.cr3 == old(space.cr3) && space.dirs == old(space.dirs) && space.frames.Repr() == old(space.frames.Repr())
      ensures ok ==> Valid() && IsBucket(size, b)
      ensures ok && size > MAX_SIZE ==> ptr == 0 && layout == old(layout) && brk == old(brk) && space.phys == old(space.phys)
      ensures ok && size <= MAX_SIZE ==> Extends(old(layout), layout)
      ensures ok && size <= MAX_SIZE ==> Granted(old(layout), layout, brk, ptr, b)
      ensures ok && size <= MAX_SIZE ==>
                forall c: nat :: ptr <= c < ptr + Size(b) && c % 4 == 0 ==> VWord(space.phys, space.cr3, c) == 0
      ensures ok && size <= MAX_SIZE ==> WordsKept(old(space.phys), old(brk), ptr, ptr + Size(b))
      ensures ok ==> OnlyTakes(old(space.frames.state), space.frames.state, space.frames.end) && MapsAsIn(old(space.phys))
      ensures ok && size <= MAX_SIZE ==> brk == old(brk) + if old(layout).free[b] != [] then 0 else SlabSize(b)
      ensures !ok ==> size <= MAX_SIZE && IsBucket(size, b) && old(layout).free[b] == [] && brk == old(brk)
                      && (space.Starved() || brk + SlabSize(b) >= KERNEL_HEAP_END)
    {
      hide MapsKept, Mapped, Sorted, Placed, Threaded, Covered, VWord, HasBlock, Extends, OnlyTakes, LiveIn, Shaped, IsBucket, Size, Align;
      ghost var h0, m0 := layout, space.phys;
      TakesSelf(space.frames.state, space.frames.end);
      ExtendsSelf(layout);
      var i := FindBucket(size);
      b := i;
      BucketRange(size, b);
      MapsAsNow();
      if i > BUCKETS {
        return true, 0, b;
      }
      HeadInRange(space.phys, space.cr3, bucket, layout, brk, i);
      if bucket[i] == 0 {
        ok := HeapNewSlab(i);
        if !ok {
          return false, 0, b;
        }
        HeadInRange(space.phys, space.cr3, bucket, layout, brk, i);
      }
      ghost var h, m := layout, space.phys;
      CountLive(h0, h, i);
      analysis := analysis[i := analysis[i] + 1];
      ptr := TakeFirst(i);
      Sizes(i);
      ClearWords(ptr, Size(i));
      MapsAsBefore(m0, m);
      AfterClear(m, ptr, i);
      ok := true;
    }

    /** Takes the first block off a bucket's list. */
    method TakeFirst(b: nat) returns (ptr: nat)
      requires Core() && b < BUCKETS && layout.free[b] != []
      modifies this`bucket, this`layout
      ensures Core() && ptr == old(layout).free[b][0] && layout == Pop(old(layout), b)
      ensures ptr in layout.blocks && BlockAt(ptr, b, brk) && ptr !in old(layout).live && layout.blocks[ptr] == b
      ensures Covered(old(layout), brk) ==> Covered(layout, brk)
    {
      hide Mapped, Sorted, Placed, Threaded, Covered, VWord, HasBlock;
      ghost var h := layout;
      PopThreads(space.phys, space.cr3, bucket, h, b);
      PopSorts(h, b);
      PopPlaces(h, b, brk);
      MappedFacts();
      ptr := bucket[b];
      var next := LoadWord(ptr);
      bucket := bucket[b := next];
      layout := Pop(layout, b);
    }

    /** Clearing a live block leaves the lists alone. */
    lemma AfterClear(m: Phys, ptr: nat, b: nat)
      requires Shaped(m) && brk < KERNEL_HEAP_END && Placed(layout, brk) && ptr in layout.live && ptr in layout.blocks && layout.blocks[ptr] == b < BUCKETS
      requires WordsKept(m, brk, ptr, ptr + Size(b)) && Threaded(m, space.cr3, bucket, layout)
      ensures Threaded(space.phys, space.cr3, bucket, layout)
    {
      hide VWord, Threads;
      forall c | c in layout.blocks && c !in layout.live
        ensures VWord(space.phys, space.cr3, c) == VWord(m, space.cr3, c)
      {
        assert BlockAt(c, layout.blocks[c], brk) && BlockAt(ptr, b, brk);
        Sizes(layout.blocks[c]);
      }
      ThreadedFrame(m, space.phys, space.cr3, bucket, layout);
    }
  }

  /** Block `ptr` of bucket `b` has become live, was not before, and is aligned within the heap. */
  ghost predicate Granted(h: Layout, h': Layout, brk: nat, ptr: nat, b: nat) {
    && ptr in h'.blocks && h'.blocks[ptr] == b && BlockAt(ptr, b, brk)
    && ptr !in h.live && h'.live == h.live + {ptr}
  }

  lemma TakesSelf(s: State, end: nat)
    ensures OnlyTakes(s, s, end)
  {
  }

  lemma BucketRange(size: nat, b: nat)
    requires IsBucket(size, b)
    ensures b < BUCKETS <==> size <= MAX_SIZE
    ensures b > BUCKETS <==> size > MAX_SIZE
  {
  }

  lemma PopPlaces(h: Layout, b: nat, brk: nat)
    requires Sorted(h) && Placed(h, brk) && b < BUCKETS && h.free[b] != []
    ensures Placed(Pop(h, b), brk)
    ensures var a := h.free[b][0]; a in h.blocks && h.blocks[a] == b && BlockAt(a, b, brk) && a !in h.live && a < brk
    ensures Covered(h, brk) ==> Covered(Pop(h, b), brk)
  {
    assert h.free[b][0] in h.blocks;
    assert BlockAt(h.free[b][0], b, brk);
    Sizes(b);
    SameBlocksCover(h, Pop(h, b));
  }

  /** Allocating adds one block to the bucket's count; carving a slab first changes none. */
  lemma CountLive(h0: Layout, h: Layout, b: nat)
    requires Sorted(h0) && Sorted(h) && h.live == h0.live && Extends(h0, h) && b < BUCKETS && h.free[b] != []
    ensures Extends(h0, Pop(h, b))
    ensures forall e: nat :: e < BUCKETS ==> |LiveIn(Pop(h, b), e)| == |LiveIn(h0, e)| + if e == b then 1 else 0
  {
    var a := h.free[b][0];
    forall e: nat | e < BUCKETS
      ensures |LiveIn(Pop(h, b), e)| == |LiveIn(h0, e)| + if e == b then 1 else 0
    {
      assert LiveIn(Pop(h, b), e) == LiveIn(h0, e) + if e == b then {a} else {};
    }
  }

  lemma PagesUpTo(brk: nat, size: nat)
    requires brk % PAGESZ == 0 && size % PAGESZ == 0 && size > 0
    ensures (brk + size + PAGESZ - 1) / PAGESZ == (brk + size) / PAGESZ
    ensures brk / PAGESZ < (brk + size) / PAGESZ && (brk + size) % PAGESZ == 0
  {
    var k, n := brk / PAGESZ, size / PAGESZ;
    DivModUnique(k + n, 0, PAGESZ, brk + size);
    DivModUnique(k + n, PAGESZ - 1, PAGESZ, brk + size + PAGESZ - 1);
  }

  lemma KernelFlags(frame: Word)
    ensures HasBit(3, 1) && !HasBit(3, 2)
    ensures Present(PageFmt(frame, 3)) ==> Privileged(PageFmt(frame, 3))
  {
    Pow2Table();
    PageFmtBits(frame, 3, 1);
    PageFmtBits(frame, 3, 2);
  }

  lemma PreservesTakes(m: Phys, s: State, m': Phys, s': State, dirs: set<nat>, end: nat)
    requires Shaped(m) && Shaped(m') && Directories(m, dirs) && Directories(m', dirs) && Preserves(m, s, m', s', dirs, end)
    ensures OnlyTakes(s, s', end)
  {
  }

  /** The allocator manages the same frames, and none in use has been given back. */
  ghost predicate OnlyTakes(s: State, s': State, end: nat) {
    Managed(s') == Managed(s) && forall f: nat :: Taken(s, end, f) ==> Taken(s', end, f)
  }

  /** All blocks end at or before `top`. */
  ghost predicate BelowTop(h: Layout, top: nat) {
    forall a :: a in h.blocks ==> h.blocks[a] < BUCKETS && a + Size(h.blocks[a]) <= top
  }

  /** The class of a block's own size is its bucket, so carving through `heap_free` puts it
      on the right list. */
  lemma SizeIsClass(b: nat)
    requires b < BUCKETS
    ensures IsBucket(Size(b), b) && Size(b) <= MAX_SIZE
  {
  }

  lemma SameBlocksBelow(h: Layout, h': Layout, top: nat)
    requires h'.blocks == h.blocks && BelowTop(h, top)
    ensures BelowTop(h', top)
  {
  }

  lemma CarvePlaces(h: Layout, b: nat, a: nat, brk: nat)
    requires Placed(h, brk) && Sorted(h) && b < BUCKETS && BelowTop(h, a) && Covered(h, a)
    requires BlockAt(a, b, brk)
    ensures a !in h.blocks && a !in h.live
    ensures Placed(Carve(h, b, a), brk) && BelowTop(Carve(h, b, a), a + Size(b)) && Covered(Carve(h, b, a), a + Size(b))
  {
    var h' := Carve(h, b, a);
    Sizes(b);
    if a in h.blocks {
      Sizes(h.blocks[a]);
    }
    forall x | KERNEL_HEAP <= x < a + Size(b)
      ensures HasBlock(h', x)
    {
      if x < a {
        assert HasBlock(h, x);
        var c :| c in h.blocks && InBlock(h, c, x);
        assert InBlock(h', c, x);
      } else {
        assert InBlock(h', a, x);
      }
    }
    forall c | c in h.blocks
      ensures c < a
    {
      Sizes(h.blocks[c]);
    }
  }

  lemma AlignedIn(slab: nat, k: nat, size: nat, d: nat)
    requires d > 0 && slab % PAGESZ == 0 && PAGESZ % d == 0 && size % d == 0
    ensures (slab + k * size) % d == 0
  {
    MultipleTimes(slab / PAGESZ, PAGESZ, d);
    MultipleTimes(k, size, d);
    MultipleSum(slab, k * size, d);
  }

  /** The k-th block of a slab lies within it and is aligned. */
  lemma CarveInSlab(b: nat, k: nat, n: nat, slab: nat)
    requires b < BUCKETS && n == SlabBlocks(b) && k < n && slab % PAGESZ == 0
    ensures k * Size(b) + Size(b) <= SlabSize(b)
    ensures (slab + k * Size(b)) % Align(b) == 0 && (slab + k * Size(b)) % 4 == 0
  {
    Sizes(b);
    assert (k + 1) * Size(b) <= n * Size(b);
    AlignedIn(slab, k, Size(b), Align(b));
    AlignedIn(slab, k, Size(b), 4);
  }

  lemma ExtendsMore(h0: Layout, h: Layout, h': Layout, b: nat, a: nat)
    requires Extends(h0, h) && BelowTop(h, a) && b < |h.free| && h' == Push(Carve(h, b, a), b, a)
    ensures Extends(h0, h')
  {
    forall c | c in h.blocks
      ensures c != a
    {
      Sizes(h.blocks[c]);
    }
  }

  lemma ExtendsSelf(h: Layout)
    ensures Extends(h, h)
  {
  }

  /** Blocks are never moved, resized or forgotten. */
  ghost predicate Extends(h: Layout, h': Layout) {
    forall a :: a in h.blocks ==> a in h'.blocks && h'.blocks[a] == h.blocks[a]
  }

  lemma LiveBlock(h: Layout, brk: nat, a: nat)
    requires Sorted(h) && Placed(h, brk) && a in h.live
    ensures a in h.blocks && BlockAt(a, h.blocks[a], brk) && a + 4 <= brk
  {
    assert BlockAt(a, h.blocks[a], brk);
    Sizes(h.blocks[a]);
  }

  lemma HeadInRange(m: Phys, d: nat, heads: seq<nat>, h: Layout, brk: nat, b: nat)
    requires Shaped(m) && d < PAGE_COUNT && Threaded(m, d, heads, h) && Placed(h, brk) && brk < KERNEL_HEAP_END && b < BUCKETS
    ensures |heads| == BUCKETS && heads[b] < 0x1_0000_0000
    ensures heads[b] == 0 <==> h.free[b] == []
  {
    assert Threads(m, d, heads[b], h.free[b]);
    if h.free[b] != [] {
      assert BlockAt(h.free[b][0], h.blocks[h.free[b][0]], brk);
    }
  }

  lemma PushPlaces(h: Layout, b: nat, a: nat, brk: nat)
    requires Placed(h, brk) && b < |h.free|
    ensures Placed(Push(h, b, a), brk)
    ensures forall top :: Covered(h, top) ==> Covered(Push(h, b, a), top)
  {
    SameBlocksCover(h, Push(h, b, a));
  }

  lemma SameBlocksCover(h: Layout, h': Layout)
    requires h'.blocks == h.blocks
    ensures forall top :: Covered(h, top) ==> Covered(h', top)
  {
    forall x | HasBlock(h, x)
      ensures HasBlock(h', x)
    {
      var a :| a in h.blocks && InBlock(h, a, x);
      assert InBlock(h', a, x);
    }
  }

  /** Freeing takes one block off the bucket's count. */
  lemma CountPush(h: Layout, b: nat, a: nat)
    requires Sorted(h) && a in h.live && b < BUCKETS && h.blocks[a] == b
    ensures forall e: nat :: e < BUCKETS ==>
              |LiveIn(Push(h, b, a), e)| == |LiveIn(h, e)| - if e == b then 1 else 0
  {
    forall e: nat | e < BUCKETS
      ensures |LiveIn(Push(h, b, a), e)| == |LiveIn(h, e)| - if e == b then 1 else 0
    {
      assert LiveIn(Push(h, b, a), e) == LiveIn(h, e) - if e == b then {a} else {};
    }
  }

  lemma EmptyHeap(m: Phys, d: nat, heads: seq<nat>, h: Layout)
    requires Shaped(m) && d < PAGE_COUNT
    requires heads == seq(BUCKETS, _ => 0) && h == Layout(map[], {}, seq(BUCKETS, _ => []))
    ensures Sorted(h) && Placed(h, KERNEL_HEAP) && Covered(h, KERNEL_HEAP) && Threaded(m, d, heads, h)
    ensures forall b: nat :: LiveIn(h, b) == {}
  {
  }

  lemma SameEntries(m: Phys, m': Phys, dirs: set<nat>, d: nat)
    requires Shaped(m) && Directories(m, dirs) && d in dirs && SameSpaces(m, m', dirs)
    ensures Shaped(m') && d < PAGE_COUNT
    ensures forall p: nat :: p < TMP_PAGE ==> Entry(m', d, p) == Entry(m, d, p)
    ensures MapsKept(m, m', dirs)
    ensures KeepsTables(m, m', dirs)
  {
  }

  // ---------------------------------------------------------------------------
  // What the invariant means
  // ---------------------------------------------------------------------------

  /** Blocks, free and live, tile the heap: every byte below the break is in exactly one. */
  lemma BlocksTile(h: Layout, brk: nat, x: int)
    requires Sorted(h) && Placed(h, brk) && Covered(h, brk) && KERNEL_HEAP <= x < brk
    ensures exists a :: a in h.blocks && InBlock(h, a, x) && forall c :: c in h.blocks && InBlock(h, c, x) ==> c == a
  {
    assert HasBlock(h, x);
    var a :| a in h.blocks && InBlock(h, a, x);
    forall c | c in h.blocks && InBlock(h, c, x)
      ensures c == a
    {
    }
  }

  /** The documented alignment: 16 bytes from 9 bytes up, a page from 2049 to 4096 bytes. */
  lemma DocumentedAlignment(size: nat, b: nat, a: nat, brk: nat)
    requires size <= MAX_SIZE && IsBucket(size, b) && BlockAt(a, b, brk)
    ensures size >= 9 ==> a % 16 == 0
    ensures 2049 <= size <= 4096 ==> a % PAGESZ == 0 && Size(b) == PAGESZ
    ensures size <= Size(b) && (size > 4 ==> Size(b) < 2 * size)
  {
    if size >= 9 {
      AlignSixteen(b);
      MultipleTimes(a / Align(b), Align(b), 16);
    }
  }

  lemma AlignSixteen(b: nat)
    requires 2 <= b < BUCKETS
    ensures Align(b) % 16 == 0 && Align(b) > 0
  {
  }

  /** Blocks of one size that do not overlap fit the space they take. */
  lemma {:induction false} Packed(blocks: set<nat>, lo: nat, hi: nat, size: nat)
    requires size > 0 && lo <= hi
    requires forall a :: a in blocks ==> lo <= a && a + size <= hi
    requires forall a, c :: a in blocks && c in blocks && a < c ==> a + size <= c
    ensures |blocks| * size <= hi - lo
    decreases |blocks|
  {
    if blocks != {} {
      var top := Greatest(blocks);
      var rest := blocks - {top};
      Packed(rest, lo, top, size);
      assert |blocks| == |rest| + 1;
      assert |blocks| * size == |rest| * size + size;
    }
  }

  lemma {:induction false} Greatest(s: set<nat>) returns (top: nat)
    requires s != {}
    ensures top in s && forall a :: a in s ==> a <= top
    decreases |s|
  {
    var x :| x in s;
    var rest := s - {x};
    top := x;
    if rest != {} {
      var t := Greatest(rest);
      top := if t > x then t else x;
    }
    forall a | a in s
      ensures a <= top
    {
      assert a == x || a in rest;
    }
  }

  /** The heap range bounds every counter, so a 32-bit counter cannot overflow. */
  lemma CountersBounded(h: Layout, brk: nat, b: nat)
    requires Sorted(h) && Placed(h, brk) && b < BUCKETS && KERNEL_HEAP <= brk < KERNEL_HEAP_END
    ensures |LiveIn(h, b)| * Size(b) <= brk - KERNEL_HEAP
    ensures |LiveIn(h, b)| < 0x8000_0000
  {
    Sizes(b);
    var live := LiveIn(h, b);
    forall a | a in live
      ensures KERNEL_HEAP <= a && a + Size(b) <= brk
    {
      assert BlockAt(a, h.blocks[a], brk);
    }
    Packed(live, KERNEL_HEAP, brk, Size(b));
    assert |live| <= |live| * Size(b);
  }
}
