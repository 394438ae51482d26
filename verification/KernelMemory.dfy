/** The memory calls of the kernel on a machine with a heap: contexts come and go and pages
    are remapped, and the heap stays sound, keeps its words and stays the same in all
    address spaces. */
module KernelMemory {
  import opened Arith
  import opened Frames
  import opened Paging
  import opened Contexts
  import opened Heap

  const FIRST_PAGE := KERNEL_HEAP / PAGESZ
  const LAST_PAGE := KERNEL_HEAP_END / PAGESZ

  // ---------------------------------------------------------------------------
  // What the heap needs
  // ---------------------------------------------------------------------------

  /** The frame of a heap page is still in use, holds no table and has not been written. */
  ghost predicate Untouched(m: Phys, m': Phys, dirs': set<nat>, s': State, end: nat, f: nat)
    requires Shaped(m) && Shaped(m') && Directories(m', dirs') && f < PAGE_COUNT
  {
    !Structural(m', dirs', f) && Taken(s', end, f) && m'[f] == m[f]
  }

  /** The heap's range is mapped as before, and its frames are untouched. */
  ghost predicate Spares(m: Phys, dirs: set<nat>, m': Phys, dirs': set<nat>, s': State, end: nat, d: nat, hi: nat)
    requires Shaped(m) && Directories(m, dirs) && d in dirs && hi <= LAST_PAGE
  {
    && Shaped(m') && Directories(m', dirs') && d in dirs'
    && (forall p: nat :: FIRST_PAGE <= p < LAST_PAGE ==> Entry(m', d, p) == Entry(m, d, p))
    && (forall p: nat :: FIRST_PAGE <= p < hi ==> Untouched(m, m', dirs', s', end, FrameOf(Entry(m, d, p))))
  }

  lemma PagesStay(m: Phys, s: State, dirs: set<nat>, m': Phys, s': State, dirs': set<nat>, end: nat, d: nat, hi: nat)
    requires Shaped(m) && Directories(m, dirs) && d in dirs && hi <= LAST_PAGE
    requires OwnPages(m, dirs, d, s, end, FIRST_PAGE, hi) && Spares(m, dirs, m', dirs', s', end, d, hi)
    ensures OwnPages(m', dirs', d, s', end, FIRST_PAGE, hi)
    ensures forall a: nat :: KERNEL_HEAP <= a < hi * PAGESZ ==> VWord(m', d, a) == VWord(m, d, a)
  {
    hide Entry, Structural, Taken, Recursive;
    forall p: nat | FIRST_PAGE <= p < hi
      ensures Entry(m', d, p) == Entry(m, d, p) && OwnPage(m', dirs', s', end, Entry(m', d, p))
      ensures m'[FrameOf(Entry(m, d, p))] == m[FrameOf(Entry(m, d, p))]
    {
      assert OwnPage(m, dirs, s, end, Entry(m, d, p));
      assert Untouched(m, m', dirs', s', end, FrameOf(Entry(m, d, p)));
    }
  }

  /** The heap as it was on memory `m` is sound on the memory there is now. */
  lemma HeapStays(heap: HeapAllocator, m: Phys, s: State, dirs: set<nat>)
    requires heap.space.Valid() && Shaped(m) && Directories(m, dirs) && heap.space.cr3 in dirs
    requires heap.brk % PAGESZ == 0 && KERNEL_HEAP <= heap.brk < KERNEL_HEAP_END
    requires OwnPages(m, dirs, heap.space.cr3, s, heap.space.frames.end, FIRST_PAGE, heap.brk / PAGESZ)
    requires forall p: nat :: heap.brk / PAGESZ <= p < LAST_PAGE ==> !Present(Entry(m, heap.space.cr3, p))
    requires Sorted(heap.layout) && Placed(heap.layout, heap.brk) && Covered(heap.layout, heap.brk) && heap.Counted()
    requires |heap.bucket| == BUCKETS && Threaded(m, heap.space.cr3, heap.bucket, heap.layout)
    requires Spares(m, dirs, heap.space.phys, heap.space.dirs, heap.space.frames.state, heap.space.frames.end,
                    heap.space.cr3, heap.brk / PAGESZ)
    requires KernelShared(heap.space.phys, heap.space.dirs, heap.space.cr3)
    ensures heap.Valid() && heap.WordsKept(m, heap.brk, 0, 0)
  {
    hide AddressSpace.Valid, Entry, OwnPages, Placed, Threaded, Covered, VWord, LiveIn, KernelShared, Recursive;
    var space := heap.space;
    var m' := space.phys;
    PagesStay(m, s, dirs, m', space.frames.state, space.dirs, space.frames.end, space.cr3, heap.brk / PAGESZ);
    forall a | a in heap.layout.blocks
      ensures KERNEL_HEAP <= a < heap.brk
    {
      BlockInRange(heap.layout, heap.brk, a);
    }
    ThreadedFrame(m, m', space.cr3, heap.bucket, heap.layout);
  }

  lemma BlockInRange(h: Layout, brk: nat, a: nat)
    requires Sorted(h) && Placed(h, brk) && a in h.blocks
    ensures KERNEL_HEAP <= a < brk
  {
    assert BlockAt(a, h.blocks[a], brk);
    Sizes(h.blocks[a]);
  }

  /** What `heap.Valid()` says, in pieces. */
  lemma HeapFacts(heap: HeapAllocator)
    requires heap.Valid()
    ensures var space := heap.space;
      && space.Valid() && Shaped(space.phys) && Directories(space.phys, space.dirs) && space.cr3 in space.dirs
      && heap.brk % PAGESZ == 0 && KERNEL_HEAP <= heap.brk < KERNEL_HEAP_END
      && OwnPages(space.phys, space.dirs, space.cr3, space.frames.state, space.frames.end, FIRST_PAGE, heap.brk / PAGESZ)
      && (forall p: nat :: heap.brk / PAGESZ <= p < LAST_PAGE ==> !Present(Entry(space.phys, space.cr3, p)))
      && Sorted(heap.layout) && Placed(heap.layout, heap.brk) && Covered(heap.layout, heap.brk) && heap.Counted()
      && |heap.bucket| == BUCKETS && Threaded(space.phys, space.cr3, heap.bucket, heap.layout)
      && KernelShared(space.phys, space.dirs, space.cr3)
  {
    hide Sorted, Placed, Covered, Threaded, OwnPages, KernelShared, Entry, LiveIn;
  }

  // ---------------------------------------------------------------------------
  // Contexts
  // ---------------------------------------------------------------------------

  lemma GrowsSpares(m: Phys, s: State, dirs: set<nat>, m': Phys, s': State, dirs': set<nat>, end: nat, d: nat, hi: nat)
    requires Shaped(m) && Directories(m, dirs) && d in dirs && hi <= LAST_PAGE
    requires OwnPages(m, dirs, d, s, end, FIRST_PAGE, hi) && Grows(m, s, dirs, m', s', dirs', end, d) && KernelShared(m, dirs, d)
    ensures Spares(m, dirs, m', dirs', s', end, d, hi) && KernelShared(m', dirs', d)
  {
    hide Entry, Structural, Taken, KernelShared;
    forall p: nat | FIRST_PAGE <= p < hi
      ensures Untouched(m, m', dirs', s', end, FrameOf(Entry(m, d, p)))
    {
      assert OwnPage(m, dirs, s, end, Entry(m, d, p));
    }
  }

  /** NEWPCTX: a new context leaves the heap sound and its words alone. */
  method NewContext(contexts: ContextTable, heap: HeapAllocator) returns (ok: bool, id: int)
    requires contexts.Valid() && heap.Valid() && contexts.space == heap.space
    modifies contexts.space.Repr(), contexts.table
    ensures ok ==> contexts.Valid() && heap.Valid()
    ensures ok ==> Shaped(old(heap.space.phys)) && heap.WordsKept(old(heap.space.phys), heap.brk, 0, 0)
    ensures ok ==> if id == -1 then forall j :: 0 <= j < PCTX_COUNT ==> contexts.table[j] != 0
                   else 0 < id < PCTX_COUNT && old(contexts.table[id]) == 0
                        && IsClone(heap.space.phys, heap.space.cr3, contexts.table[id] / PAGESZ)
    ensures !ok ==> heap.space.Starved()
  {
    hide HeapAllocator.Valid, AddressSpace.Valid, Grows, Spares, OwnPages, Entry, Sorted, Placed, Threaded, Covered, IsClone, TableOk;
    hide HeapAllocator.Counted, HeapAllocator.WordsKept, KernelShared, Directories;
    HeapFacts(heap);
    ghost var space := heap.space;
    ghost var m, s, ds := space.phys, space.frames.state, space.dirs;
    ok, id := contexts.PctxNew();
    if ok {
      GrowsSpares(m, s, ds, space.phys, space.frames.state, space.dirs, space.frames.end, space.cr3, heap.brk / PAGESZ);
      HeapStays(heap, m, s, ds);
    }
  }

  /** The frames of the heap's pages outlive space `x`. */
  ghost predicate HeapOutlives(m: Phys, dirs: set<nat>, d: nat, x: nat, s: State, hi: nat)
    requires Shaped(m) && Directories(m, dirs) && d in dirs && x < PAGE_COUNT && hi <= LAST_PAGE
  {
    forall q: nat :: FIRST_PAGE <= q < hi ==> Outlives(m, x, s, FrameOf(Entry(m, d, q)))
  }

  lemma DropsSpares(m: Phys, s: State, dirs: set<nat>, m': Phys, end: nat, d: nat, x: nat, hi: nat)
    requires Shaped(m) && Directories(m, dirs) && d in dirs && x in dirs && d != x && hi <= LAST_PAGE && Inv(s) && end < BOOT_SIZE
    requires OwnPages(m, dirs, d, s, end, FIRST_PAGE, hi) && Drops(m, dirs, m', x) && HeapOutlives(m, dirs, d, x, s, hi)
    requires KernelShared(m, dirs, d)
    ensures Spares(m, dirs, m', dirs - {x}, FreeAll(s, Doomed(m, x)), end, d, hi) && KernelShared(m', dirs - {x}, d)
  {
    hide Entry, Structural, Taken, Inv, Recursive, KernelShared, Doomed, FreeAll, TableBelow, Outlives;
    forall p: nat | FIRST_PAGE <= p < hi
      ensures Untouched(m, m', dirs - {x}, FreeAll(s, Doomed(m, x)), end, FrameOf(Entry(m, d, p)))
    {
      var f := FrameOf(Entry(m, d, p));
      assert OwnPage(m, dirs, s, end, Entry(m, d, p));
      NoTable(m, dirs, x, f);
      TeardownSparesIff(m, x, s, end, f);
    }
    FewerShared(m, dirs, d, x);
    KernelStays(m, m', dirs - {x}, d);
  }

  /** If the heap's pages are still in use after a teardown, they have outlived it. */
  lemma DropsOutlives(m: Phys, s: State, dirs: set<nat>, m': Phys, end: nat, d: nat, x: nat, hi: nat)
    requires Shaped(m) && Directories(m, dirs) && d in dirs && x in dirs && d != x && hi <= LAST_PAGE && Inv(s) && end < BOOT_SIZE
    requires OwnPages(m, dirs, d, s, end, FIRST_PAGE, hi) && Drops(m, dirs, m', x)
    requires Shaped(m') && Directories(m', dirs - {x}) && OwnPages(m', dirs - {x}, d, FreeAll(s, Doomed(m, x)), end, FIRST_PAGE, hi)
    ensures HeapOutlives(m, dirs, d, x, s, hi)
  {
    hide Entry, Structural, Taken, Inv, Recursive, Doomed, FreeAll, TableBelow, Outlives;
    forall p: nat | FIRST_PAGE <= p < hi
      ensures Outlives(m, x, s, FrameOf(Entry(m, d, p)))
    {
      var f := FrameOf(Entry(m, d, p));
      assert OwnPage(m, dirs, s, end, Entry(m, d, p));
      assert OwnPage(m', dirs - {x}, FreeAll(s, Doomed(m, x)), end, Entry(m', d, p));
      NoTable(m, dirs, x, f);
      TeardownSparesIff(m, x, s, end, f);
    }
  }

  lemma FewerShared(m: Phys, dirs: set<nat>, d: nat, x: nat)
    requires Shaped(m) && Directories(m, dirs) && d in dirs && KernelShared(m, dirs, d)
    ensures KernelShared(m, dirs - {x}, d)
  {
  }

  /** FREEPCTX. The contexts and the heap stay sound exactly if the context may be freed,
      and then the heap keeps its words. */
  method FreeContext(contexts: ContextTable, heap: HeapAllocator, id: int) returns (r: int)
    requires contexts.Valid() && heap.Valid() && contexts.space == heap.space
    modifies contexts.space.Repr(), contexts.table
    ensures contexts.Valid() && heap.Valid() <==> old(Freeable(contexts, heap, id))
    ensures old(Freeable(contexts, heap, id)) ==>
              Shaped(old(heap.space.phys)) && heap.WordsKept(old(heap.space.phys), heap.brk, 0, 0)
    ensures r == 0 <==> 0 < id < PCTX_COUNT && old(contexts.table[id]) != 0
    ensures contexts.table[..] == if r == 0 then old(contexts.table[..])[id := 0] else old(contexts.table[..])
  {
    hide HeapAllocator.Valid, AddressSpace.Valid, Drops, Spares, OwnPages, Entry, Sorted, Placed, Threaded, Covered, TableOk, HeapOutlives;
    hide HeapAllocator.Counted, HeapAllocator.WordsKept, KernelShared, Survives, FrameAllocator.Valid, Separated, FreeAll, Doomed;
    HeapFacts(heap);
    ghost var space := heap.space;
    ghost var m, s, ds := space.phys, space.frames.state, space.dirs;
    ghost var may := Freeable(contexts, heap, id);
    ghost var x := if 0 < id < PCTX_COUNT then contexts.table[id] / PAGESZ else 0;
    AllocatorSound(heap.space);
    r := contexts.PctxFree(id);
    if r != 0 {
      NothingSpared(m, s, ds, space.frames.end, space.cr3, heap.brk / PAGESZ);
      HeapStays(heap, m, s, ds);
    } else if may {
      DropsSpares(m, s, ds, space.phys, space.frames.end, space.cr3, x, heap.brk / PAGESZ);
      HeapStays(heap, m, s, ds);
    } else if contexts.Valid() && heap.Valid() {
      HeapFacts(heap);
      DropsOutlives(m, s, ds, space.phys, space.frames.end, space.cr3, x, heap.brk / PAGESZ);
    }
  }

  lemma AllocatorSound(space: AddressSpace)
    requires space.Valid()
    ensures Inv(space.frames.state) && space.frames.end < BOOT_SIZE
  {
  }

  lemma NothingSpared(m: Phys, s: State, dirs: set<nat>, end: nat, d: nat, hi: nat)
    requires Shaped(m) && Directories(m, dirs) && d in dirs && hi <= LAST_PAGE && OwnPages(m, dirs, d, s, end, FIRST_PAGE, hi)
    ensures Spares(m, dirs, m, dirs, s, end, d, hi)
  {
    hide Entry, Structural, Taken, Recursive;
    forall p: nat | FIRST_PAGE <= p < hi
      ensures Untouched(m, m, dirs, s, end, FrameOf(Entry(m, d, p)))
    {
      assert OwnPage(m, dirs, s, end, Entry(m, d, p));
    }
  }

  /** Context `id`, if there is one, is not current, and neither the tables of the others nor
      the pages of the heap lose their last reference with it. */
  ghost predicate Freeable(contexts: ContextTable, heap: HeapAllocator, id: int)
    reads contexts, contexts.table, contexts.space, contexts.space.frames, heap
  {
    0 < id < contexts.table.Length && contexts.table[id] != 0 ==>
      && contexts.Disposable(id) && contexts.space.cr3 in contexts.space.dirs && heap.brk / PAGESZ <= LAST_PAGE
      && HeapOutlives(contexts.space.phys, contexts.space.dirs, contexts.space.cr3, contexts.table[id] / PAGESZ,
                      contexts.space.frames.state, heap.brk / PAGESZ)
  }

  // ---------------------------------------------------------------------------
  // Pages
  // ---------------------------------------------------------------------------

  lemma SetSpares(m: Phys, s: State, m': Phys, s': State, dirs: set<nat>, end: nat, d: nat, p: nat, v: Word, hi: nat)
    requires Shaped(m) && Directories(m, dirs) && d in dirs && hi <= LAST_PAGE && p < TMP_PAGE && !(FIRST_PAGE <= p < LAST_PAGE)
    requires Shaped(m') && Directories(m', dirs)
    requires OwnPages(m, dirs, d, s, end, FIRST_PAGE, hi) && KernelShared(m, dirs, d)
    requires SetsPage(m, m', dirs, d, p, v) && Preserves(m, s, m', s', dirs, end)
    ensures Spares(m, dirs, m', dirs, s', end, d, hi) && KernelShared(m', dirs, d)
  {
    hide Entry, Structural, Taken, Recursive, KernelShared, Managed;
    PreservesKernel(m, s, m', s', dirs, end, d);
    forall q: nat | FIRST_PAGE <= q < hi
      ensures Untouched(m, m', dirs, s', end, FrameOf(Entry(m, d, q)))
    {
      StaysOwn(m, s, m', s', dirs, end, Entry(m, d, q));
    }
  }

  /** `page_set` on a page outside the heap leaves the heap sound and its words alone. */
  method MapPage(heap: HeapAllocator, page: Word, value: Word) returns (ok: bool)
    requires heap.Valid() && page < TMP_MAP && !(KERNEL_HEAP <= page < KERNEL_HEAP_END)
    modifies heap.space.Repr()
    ensures heap.space.cr3 == old(heap.space.cr3) && heap.space.dirs == old(heap.space.dirs)
    ensures Shaped(old(heap.space.phys)) && Directories(old(heap.space.phys), heap.space.dirs) && heap.space.cr3 in heap.space.dirs
    ensures ok ==> heap.Valid() && heap.WordsKept(old(heap.space.phys), heap.brk, 0, 0)
    ensures ok ==> SetsPage(old(heap.space.phys), heap.space.phys, heap.space.dirs, heap.space.cr3, page / PAGESZ, value)
    ensures !ok ==> heap.space.Starved() && !Present(old(heap.space.phys)[heap.space.cr3][page / SEGMENT])
  {
    hide HeapAllocator.Valid, AddressSpace.Valid, SetsPage, Preserves, Spares, OwnPages, Entry, Sorted, Placed, Threaded, Covered;
    hide HeapAllocator.Counted, HeapAllocator.WordsKept, KernelShared, NewFrame;
    HeapFacts(heap);
    var space := heap.space;
    ghost var m, s, ds := space.phys, space.frames.state, space.dirs;
    ok := space.PageSet(page, value);
    if ok {
      CurrentFacts(space);
      SetSpares(m, s, space.phys, space.frames.state, ds, space.frames.end, space.cr3, page / PAGESZ, value, heap.brk / PAGESZ);
      HeapStays(heap, m, s, ds);
    }
  }

  lemma CurrentFacts(space: AddressSpace)
    requires space.Valid()
    ensures Shaped(space.phys) && Directories(space.phys, space.dirs) && space.cr3 in space.dirs && space.Mapped()
  {
  }

  /** SETFRAME: the page moves to another frame and keeps its flags. */
  method SetFrame(heap: HeapAllocator, page: Word, frame: Word) returns (ok: bool)
    requires heap.Valid() && page < TMP_MAP && !(KERNEL_HEAP <= page < KERNEL_HEAP_END)
    modifies heap.space.Repr()
    ensures heap.space.cr3 == old(heap.space.cr3) && heap.space.dirs == old(heap.space.dirs)
    ensures Shaped(old(heap.space.phys)) && Directories(old(heap.space.phys), heap.space.dirs) && heap.space.cr3 in heap.space.dirs
    ensures ok ==> heap.Valid() && heap.WordsKept(old(heap.space.phys), heap.brk, 0, 0) && Shaped(heap.space.phys)
    ensures ok ==> SetsPage(old(heap.space.phys), heap.space.phys, heap.space.dirs, heap.space.cr3, page / PAGESZ,
                            Entry(heap.space.phys, heap.space.cr3, page / PAGESZ))
    ensures ok ==> var e, e' := Entry(old(heap.space.phys), heap.space.cr3, page / PAGESZ), Entry(heap.space.phys, heap.space.cr3, page / PAGESZ);
              FrameOf(e') == FrameOf(frame) && TakesFlags(e', e)
    ensures !ok ==> heap.space.Starved() && !Present(old(heap.space.phys)[heap.space.cr3][page / SEGMENT])
  {
    hide HeapAllocator.Valid, AddressSpace.Valid, AddressSpace.Mapped, Entry, HeapAllocator.WordsKept, TakesFlags, PageFmt;
    HeapFacts(heap);
    var space := heap.space;
    CurrentFacts(space);
    ghost var m := space.phys;
    var e := space.PageGet(page);
    var v := PageFmt(frame, e);
    PageFmtFields(frame, e);
    FmtTakesFlags(frame, e);
    ok := MapPage(heap, page, v);
  }

  /** SETFLAGS: the page gets other flags and keeps its frame. */
  method SetFlags(heap: HeapAllocator, page: Word, flags: Word) returns (ok: bool)
    requires heap.Valid() && page < TMP_MAP && !(KERNEL_HEAP <= page < KERNEL_HEAP_END)
    modifies heap.space.Repr()
    ensures heap.space.cr3 == old(heap.space.cr3) && heap.space.dirs == old(heap.space.dirs)
    ensures Shaped(old(heap.space.phys)) && Directories(old(heap.space.phys), heap.space.dirs) && heap.space.cr3 in heap.space.dirs
    ensures ok ==> heap.Valid() && heap.WordsKept(old(heap.space.phys), heap.brk, 0, 0) && Shaped(heap.space.phys)
    ensures ok ==> SetsPage(old(heap.space.phys), heap.space.phys, heap.space.dirs, heap.space.cr3, page / PAGESZ,
                            Entry(heap.space.phys, heap.space.cr3, page / PAGESZ))
    ensures ok ==> var e, e' := Entry(old(heap.space.phys), heap.space.cr3, page / PAGESZ), Entry(heap.space.phys, heap.space.cr3, page / PAGESZ);
              FrameOf(e') == FrameOf(e) && TakesFlags(e', flags)
    ensures !ok ==> heap.space.Starved() && !Present(old(heap.space.phys)[heap.space.cr3][page / SEGMENT])
  {
    hide HeapAllocator.Valid, AddressSpace.Valid, AddressSpace.Mapped, Entry, HeapAllocator.WordsKept, TakesFlags, PageFmt, PageUfmt;
    HeapFacts(heap);
    var space := heap.space;
    CurrentFacts(space);
    ghost var m := space.phys;
    var e := space.PageGet(page);
    var v := PageFmt(PageUfmt(e), flags);
    UfmtFrame(e);
    PageFmtFields(PageUfmt(e), flags);
    FmtTakesFlags(PageUfmt(e), flags);
    ok := MapPage(heap, page, v);
  }
}
