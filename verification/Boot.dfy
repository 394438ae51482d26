/** Filling the frame allocator at boot: `frame_add`, which takes heap memory and so may
    re-enter the allocator it is filling, and the loop over the multiboot memory map. */
module Boot {
  import opened Arith
  import opened Frames
  import opened Paging
  import opened Heap

  const FRAME_STRUCT_SIZE := 16

  lemma AddKeepsTaken(s: State, frame: nat, end: nat, f: nat)
    ensures Taken(AddFrame(s, frame), end, f) <==> Taken(s, end, f)
  {
  }

  /** Adding a free frame changes nothing an address space or the heap relies on. */
  lemma AddKeepsHeap(m: Phys, dirs: set<nat>, d: nat, s: State, frame: nat, end: nat, lo: nat, hi: nat)
    requires Shaped(m) && Directories(m, dirs) && d in dirs && hi <= TMP_PAGE
    requires AllTaken(m, dirs, s, end) && OwnPages(m, dirs, d, s, end, lo, hi)
    ensures AllTaken(m, dirs, AddFrame(s, frame), end) && OwnPages(m, dirs, d, AddFrame(s, frame), end, lo, hi)
  {
    hide Taken, Structural, AddFrame, Entry;
    forall f: nat
      ensures Taken(AddFrame(s, frame), end, f) <==> Taken(s, end, f)
    {
      AddKeepsTaken(s, frame, end, f);
    }
    forall p: nat | lo <= p < hi
      ensures OwnPage(m, dirs, AddFrame(s, frame), end, Entry(m, d, p))
    {
      assert OwnPage(m, dirs, s, end, Entry(m, d, p));
    }
  }

  /** No frame is left, or a slab for frame structures does not fit below the heap's end. */
  ghost predicate NoRoom(heap: HeapAllocator)
    reads heap`brk, heap.space, heap.space.frames`state
  {
    heap.space.Starved() || heap.brk + PAGESZ >= KERNEL_HEAP_END
  }

  lemma StructSlab(b: nat)
    requires IsBucket(FRAME_STRUCT_SIZE, b)
    ensures b == 2 && SlabSize(b) == PAGESZ
  {
    BucketUnique(FRAME_STRUCT_SIZE, b, 2);
  }

  /** Adds one frame to the allocator. The structure for it comes from the heap, whose own
      growth may take frames from the same allocator in mid-call; still exactly one frame
      joins the managed ones, and it is free. */
  method FrameAdd(heap: HeapAllocator, frame: nat) returns (ok: bool)
    requires heap.Valid()
    requires frame / PAGESZ !in Managed(heap.space.frames.state) && BOOT_PAGES <= frame / PAGESZ < PAGE_COUNT
    modifies heap.Repr()
    ensures fresh(heap.Repr() - old(heap.Repr()))
    ensures ok ==> heap.Valid()
    ensures heap.space.cr3 == old(heap.space.cr3) && heap.space.dirs == old(heap.space.dirs)
    ensures ok ==> heap.MapsAsIn(old(heap.space.phys))
    ensures ok ==> Managed(heap.space.frames.state) == old(Managed(heap.space.frames.state)) + {frame / PAGESZ}
    ensures ok ==> RefCount(heap.space.frames.state, frame / PAGESZ) == 0 && !heap.space.frames.state.oom
    ensures ok ==> forall f: nat :: old(Taken(heap.space.frames.state, heap.space.frames.end, f)) ==>
              Taken(heap.space.frames.state, heap.space.frames.end, f)
    ensures !ok ==> NoRoom(heap)
  {
    hide FrameAllocator.Valid, Inv, Taken, Structural, Separated, AllTaken, OwnPages, Entry, Managed, Sorted, Placed, Threaded, Covered, MapsKept;
    ghost var s0 := heap.space.frames.state;
    var ptr: nat;
    ghost var b: nat;
    ok, ptr, b := heap.HeapAlloc(FRAME_STRUCT_SIZE);
    if !ok {
      StructSlab(b);
      return;
    }
    var space := heap.space;
    ghost var s := space.frames.state;
    AddKeepsHeap(space.phys, space.dirs, space.cr3, s, frame, space.frames.end, KERNEL_HEAP / PAGESZ, heap.brk / PAGESZ);
    AddFacts(s, frame, space.frames.end);
    space.frames.Enroll(frame);
  }

  lemma AddFacts(s: State, frame: nat, end: nat)
    requires Inv(s) && frame / PAGESZ !in Managed(s) && BOOT_PAGES <= frame / PAGESZ < PAGE_COUNT
    ensures Inv(AddFrame(s, frame)) && Managed(AddFrame(s, frame)) == Managed(s) + {frame / PAGESZ}
    ensures RefCount(AddFrame(s, frame), frame / PAGESZ) == 0 && !AddFrame(s, frame).oom
    ensures forall f: nat :: Taken(s, end, f) ==> Taken(AddFrame(s, frame), end, f)
    ensures forall p: nat :: RefCount(AddFrame(s, frame), p) == RefCount(s, p)
  {
    PushKeeps(s, frame / PAGESZ);
  }

  // ---------------------------------------------------------------------------
  // The memory map
  // ---------------------------------------------------------------------------

  /** The fields of a multiboot memory map entry that the loop reads. */
  datatype Region = Region(base: Word, length: Word, kind: nat)

  function Ceil(n: nat): nat {
    (n + PAGESZ - 1) / PAGESZ
  }

  /** Below 4 GB. */
  predicate Fits(r: Region) {
    r.base + r.length <= 0x1_0000_0000 && r.base / PAGESZ + Ceil(r.length) <= PAGE_COUNT
  }

  predicate Aligned(r: Region) {
    r.base % PAGESZ == 0 && r.length % PAGESZ == 0
  }

  /** The loop passes over the entry: it is not available memory, or ends below the end of
      the boot memory. */
  predicate Skipped(r: Region) {
    r.kind != 1 || (r.base < BOOT_SIZE && r.length < BOOT_SIZE - r.base)
  }

  /** What is left of a region once the boot memory is cut off. */
  function Clip(r: Region): Region
    requires !Skipped(r)
  {
    if r.base >= BOOT_SIZE then r else Region(BOOT_SIZE, r.length - (BOOT_SIZE - r.base), r.kind)
  }

  /** The pages of the frames the inner loop adds: one for each started page of length, from
      the page of the base on. */
  ghost function PagesOf(r: Region): set<nat> {
    FirstPages(r, Ceil(r.length))
  }

  ghost function FirstPages(r: Region, n: nat): set<nat> {
    set p: nat | p < r.base / PAGESZ + n && NotBefore(r, p)
  }

  predicate NotBefore(r: Region, p: nat) {
    r.base / PAGESZ <= p
  }

  /** The pages an entry contributes. */
  ghost function Usable(r: Region): set<nat> {
    if Skipped(r) then {} else PagesOf(Clip(r))
  }

  ghost function UsableOf(rs: seq<Region>, n: nat): set<nat>
    requires n <= |rs|
  {
    if n == 0 then {} else UsableOf(rs, n - 1) + Usable(rs[n - 1])
  }

  lemma ClipFits(r: Region)
    requires !Skipped(r) && Fits(r)
    ensures Fits(Clip(r)) && Clip(r).base >= BOOT_SIZE && Clip(r).kind == 1
  {
  }

  /** An aligned region contributes exactly the pages of available memory in it that lie
      above the boot memory. */
  lemma AlignedUsable(r: Region)
    requires Aligned(r) && Fits(r)
    ensures forall p: nat :: p in Usable(r) <==>
              BOOT_PAGES <= p < PAGE_COUNT && r.kind == 1 && r.base <= p * PAGESZ < r.base + r.length
  {
    if !Skipped(r) {
      var c := Clip(r);
      assert c.length % PAGESZ == 0 by {
        if r.base < BOOT_SIZE {
          MultipleSum(r.length, r.base - BOOT_SIZE, PAGESZ);
        }
      }
      forall p: nat
        ensures p in Usable(r) <==> c.base <= p * PAGESZ < c.base + c.length
      {
        StartedPages(c.base / PAGESZ, c.length / PAGESZ, p);
      }
    }
  }

  lemma StartedPages(b: nat, n: nat, p: nat)
    ensures Ceil(n * PAGESZ) == n
    ensures b <= p < b + n <==> b * PAGESZ <= p * PAGESZ < b * PAGESZ + n * PAGESZ
  {
    DivModUnique(n, PAGESZ - 1, PAGESZ, n * PAGESZ + PAGESZ - 1);
  }

  /** Page `p` lies wholly within the region. */
  predicate Within(r: Region, p: nat) {
    r.base <= p * PAGESZ && p * PAGESZ + PAGESZ <= r.base + r.length
  }

  /** Nothing is added that is not available memory exactly if what is left of the region is
      empty or aligned: the loop rounds the base down and the length up. */
  lemma WholePagesIff(r: Region)
    requires !Skipped(r)
    ensures (forall p :: p in Usable(r) ==> Within(Clip(r), p)) <==> Clip(r).length == 0 || Aligned(Clip(r))
  {
    var c := Clip(r);
    var b, n := c.base / PAGESZ, Ceil(c.length);
    if c.length > 0 {
      assert b in Usable(r) && b + n - 1 in Usable(r);
      if Within(c, b) && Within(c, b + n - 1) {
        assert c.base == b * PAGESZ;
        assert (b + n - 1) * PAGESZ + PAGESZ == c.base + n * PAGESZ;
        assert c.length == n * PAGESZ;
        DivModUnique(n, 0, PAGESZ, c.length);
        DivModUnique(b, 0, PAGESZ, c.base);
      }
      if Aligned(c) {
        forall p | p in Usable(r)
          ensures Within(c, p)
        {
          StartedPages(b, c.length / PAGESZ, p);
        }
      }
    }
  }

  /** Adds the frames of one clipped region. */
  method AddRegion(heap: HeapAllocator, r: Region) returns (ok: bool)
    requires heap.Valid() && Fits(r) && r.base >= BOOT_SIZE
    requires PagesOf(r) !! Managed(heap.space.frames.state)
    modifies heap.Repr()
    ensures fresh(heap.Repr() - old(heap.Repr()))
    ensures heap.space.cr3 == old(heap.space.cr3) && heap.space.dirs == old(heap.space.dirs)
    ensures ok ==> heap.Valid() && Managed(heap.space.frames.state) == old(Managed(heap.space.frames.state)) + PagesOf(r)
    ensures ok ==> heap.MapsAsIn(old(heap.space.phys))
    ensures !ok ==> NoRoom(heap)
  {
    hide HeapAllocator.Valid, Managed, Taken, FirstPages, MapsKept;
    ghost var before, m := Managed(heap.space.frames.state), heap.space.phys;
    ok := true;
    var addr := 0;
    NoPages(r);
    HeapMaps(heap);
    while addr < r.length
      invariant 0 <= addr < r.length + PAGESZ && addr % PAGESZ == 0
      invariant fresh(heap.Repr() - old(heap.Repr())) && heap.Valid() && heap.MapsAsIn(m)
      invariant heap.space.cr3 == old(heap.space.cr3) && heap.space.dirs == old(heap.space.dirs)
      invariant Managed(heap.space.frames.state) == before + FirstPages(r, addr / PAGESZ)
    {
      NextPage(r, addr);
      ghost var m1 := heap.space.phys;
      ok := FrameAdd(heap, r.base + addr);
      if !ok {
        return;
      }
      heap.MapsAsBefore(m, m1);
      addr := addr + PAGESZ;
    }
    LastPage(r.length, addr);
  }

  lemma HeapMaps(heap: HeapAllocator)
    requires heap.Valid()
    ensures heap.MapsAsIn(heap.space.phys)
  {
    hide Sorted, Placed, Threaded, Covered, MapsKept;
    heap.MapsAsNow();
  }

  lemma NoPages(r: Region)
    ensures FirstPages(r, 0) == {}
  {
  }

  lemma LastPage(length: nat, addr: nat)
    requires addr % PAGESZ == 0 && length <= addr < length + PAGESZ
    ensures addr / PAGESZ == Ceil(length)
  {
    DivModUnique(addr / PAGESZ, length + PAGESZ - 1 - addr, PAGESZ, length + PAGESZ - 1);
  }

  lemma NextPage(r: Region, addr: nat)
    requires Fits(r) && r.base >= BOOT_SIZE && addr < r.length && addr % PAGESZ == 0
    ensures var p := (r.base + addr) / PAGESZ;
      && p in PagesOf(r) && p !in FirstPages(r, addr / PAGESZ) && BOOT_PAGES <= p < PAGE_COUNT
      && FirstPages(r, (addr + PAGESZ) / PAGESZ) == FirstPages(r, addr / PAGESZ) + {p}
    ensures (addr + PAGESZ) % PAGESZ == 0
  {
    var b, n := r.base / PAGESZ, addr / PAGESZ;
    DivModUnique(b + n, r.base % PAGESZ, PAGESZ, r.base + addr);
    DivModUnique(n + 1, 0, PAGESZ, addr + PAGESZ);
    assert n < Ceil(r.length);
  }

  /** The loop over the memory map, which clips the entries in place and adds their frames:
      afterwards the allocator manages exactly the pages the original entries contribute. */
  method AddMemory(heap: HeapAllocator, memMap: array<Region>) returns (ok: bool)
    requires heap.Valid() && memMap !in heap.Repr()
    requires forall i :: 0 <= i < memMap.Length ==>
               (Skipped(memMap[i]) || Fits(memMap[i])) && Usable(memMap[i]) !! Managed(heap.space.frames.state)
    requires forall i, j :: 0 <= i < j < memMap.Length ==> Usable(memMap[i]) !! Usable(memMap[j])
    modifies heap.Repr(), memMap
    ensures heap.space.cr3 == old(heap.space.cr3) && heap.space.dirs == old(heap.space.dirs)
    ensures ok ==> heap.Valid() && heap.MapsAsIn(old(heap.space.phys))
    ensures ok ==> Managed(heap.space.frames.state) ==
                   old(Managed(heap.space.frames.state)) + UsableOf(old(memMap[..]), memMap.Length)
    ensures !ok ==> NoRoom(heap)
  {
    hide HeapAllocator.Valid, Managed, Taken, PagesOf, Clip, MapsKept, Fits, Usable;
    ghost var before, rs, m := Managed(heap.space.frames.state), memMap[..], heap.space.phys;
    ok := true;
    var i := 0;
    HeapMaps(heap);
    while i < memMap.Length
      invariant 0 <= i <= memMap.Length && memMap !in heap.Repr()
      invariant fresh(heap.Repr() - old(heap.Repr())) && heap.Valid() && heap.MapsAsIn(m)
      invariant heap.space.cr3 == old(heap.space.cr3) && heap.space.dirs == old(heap.space.dirs)
      invariant forall k :: i <= k < memMap.Length ==> memMap[k] == rs[k]
      invariant Managed(heap.space.frames.state) == before + UsableOf(rs, i)
    {
      UsableApart(rs, i);
      UsableIs(rs[i]);
      if memMap[i].kind == 1 {
        if memMap[i].base < BOOT_SIZE && memMap[i].length < BOOT_SIZE - memMap[i].base {
          i := i + 1;
          continue;
        }
        ClipFits(rs[i]);
        memMap[i] := Clip(memMap[i]);
        ghost var m1 := heap.space.phys;
        ok := AddRegion(heap, memMap[i]);
        if !ok {
          return;
        }
        heap.MapsAsBefore(m, m1);
      }
      i := i + 1;
    }
  }

  lemma UsableIs(r: Region)
    ensures Usable(r) == if Skipped(r) then {} else PagesOf(Clip(r))
  {
  }

  lemma {:induction false} UsableApart(rs: seq<Region>, n: nat)
    requires n < |rs| && forall i, j :: 0 <= i < j < |rs| ==> Usable(rs[i]) !! Usable(rs[j])
    ensures UsableOf(rs, n) !! Usable(rs[n])
  {
    UsablePrefix(rs, n, n);
  }

  lemma {:induction false} UsablePrefix(rs: seq<Region>, k: nat, n: nat)
    requires k <= n < |rs| && forall i, j :: 0 <= i < j < |rs| ==> Usable(rs[i]) !! Usable(rs[j])
    ensures UsableOf(rs, k) !! Usable(rs[n])
  {
    hide Usable;
    if k > 0 {
      UsablePrefix(rs, k - 1, n);
    }
  }

  // ---------------------------------------------------------------------------
  // From the boot image to a machine with a heap
  // ---------------------------------------------------------------------------

  /** The directory and table that `boot.s` leaves: kernel space starts with a table for the
      first 4 MB, and the directory maps itself. */
  ghost predicate BootImage(m: Phys, d: nat, t: nat) {
    && Shaped(m) && d < PAGE_COUNT && t < PAGE_COUNT && d != t
    && m[d][KERNEL_DIRS] == t * PAGESZ + 0x203 && m[d][PGE_DIR] == d * PAGESZ + 0x203
    && (forall i: nat :: i < WORDS && i != KERNEL_DIRS && i != PGE_DIR ==> m[d][i] == 0)
    && (forall j: nat :: j < WORDS ==> m[t][j] == j * PAGESZ + 3)
  }

  lemma ImageSound(m: Phys, d: nat, t: nat, s: State, end: nat)
    requires BootImage(m, d, t) && d * PAGESZ <= end && t * PAGESZ <= end
    ensures Separated(m, {d}) && Directories(m, {d}) && AllTaken(m, {d}, s, end)
    ensures forall p: nat :: KERNEL_HEAP / PAGESZ <= p < KERNEL_HEAP_END / PAGESZ ==> Entry(m, d, p) == 0
  {
    FieldsOfEntry(t, 1, 3, t * PAGESZ + 0x203);
    FieldsOfEntry(d, 1, 3, d * PAGESZ + 0x203);
    forall i: nat, u | i < TMP_DIR
      ensures Names(m, d, i, u) <==> i == KERNEL_DIRS && u == t
    {
    }
    forall p: nat | KERNEL_HEAP / PAGESZ <= p < KERNEL_HEAP_END / PAGESZ
      ensures Entry(m, d, p) == 0
    {
      assert KERNEL_DIRS < p / WORDS < TMP_DIR;
    }
  }

  /** The heap's range is empty and the boot memory is mapped at the base of kernel space. */
  ghost predicate ReadyForHeap(m: Phys, d: nat) {
    && Shaped(m) && d < PAGE_COUNT && BootIsMapped(m, d)
    && (forall p: nat :: KERNEL_HEAP / PAGESZ <= p < KERNEL_HEAP_END / PAGESZ ==> !Present(Entry(m, d, p)))
  }

  ghost predicate BootIsMapped(m: Phys, d: nat)
    requires Shaped(m) && d < PAGE_COUNT
  {
    forall p: nat :: KERNEL_PAGES <= p < KERNEL_PAGES + BOOT_PAGES ==> BootPage(Entry(m, d, p), p - KERNEL_PAGES)
  }

  /** The first loops of `init`: touch the tables and map the boot memory. */
  method PrepareSpace(space: AddressSpace, ghost phys: Phys) returns (ok: bool)
    requires space.Valid() && space.dirs == {space.cr3} && space.phys == phys && Shaped(phys) && space.cr3 < PAGE_COUNT
    requires forall p: nat :: KERNEL_HEAP / PAGESZ <= p < KERNEL_HEAP_END / PAGESZ ==> Entry(phys, space.cr3, p) == 0
    modifies space.Repr()
    ensures space.cr3 == old(space.cr3) && space.dirs == old(space.dirs) && space.frames.Repr() == old(space.frames.Repr())
    ensures ok ==> space.Valid() && KernelShared(space.phys, space.dirs, space.cr3) && ReadyForHeap(space.phys, space.cr3)
    ensures ok ==> Managed(space.frames.state) == old(Managed(space.frames.state))
    ensures ok ==> forall i: nat :: USER_DIRS <= i < KERNEL_DIRS ==> space.phys[space.cr3][i] == phys[space.cr3][i]
    ensures !ok ==> space.Starved()
  {
    hide FrameAllocator.Valid, AddressSpace.Valid, Managed, Separated, AllTaken, Entry, KernelShared;
    hide SameReads, BootMapped, HasTables;
    ok := space.TouchKernel();
    if !ok {
      return;
    }
    ghost var m1 := space.phys;
    ok := space.TouchSystem();
    if !ok {
      return;
    }
    ghost var m2 := space.phys;
    ok := space.MapBoot();
    if ok {
      SpaceShaped(space);
      SpaceReady(phys, m1, m2, space.phys, {space.cr3}, space.cr3);
    }
  }

  /** The memory part of `init`, from the boot image on: touches the tables, maps the boot
      memory and fills the allocator. Afterwards the heap is sound, the boot memory is mapped
      at the base of kernel space and the allocator manages exactly the pages of the map.
      `ok` is false when the kernel panics for want of memory. */
  method Init(end: nat, phys: Phys, cr3: nat, ghost table: nat, memMap: array<Region>) returns (ok: bool, frames: FrameAllocator, heap: HeapAllocator?)
    requires end < BOOT_SIZE && BootImage(phys, cr3, table) && cr3 * PAGESZ <= end && table * PAGESZ <= end
    requires forall i :: 0 <= i < memMap.Length ==> Skipped(memMap[i]) || Fits(memMap[i])
    requires forall i, j :: 0 <= i < j < memMap.Length ==> Usable(memMap[i]) !! Usable(memMap[j])
    modifies memMap
    ensures ok ==> heap != null && heap.Valid() && heap.space.cr3 == cr3 && heap.space.dirs == {cr3}
    ensures ok ==> Managed(heap.space.frames.state) == UsableOf(old(memMap[..]), memMap.Length)
    ensures ok ==> Shaped(heap.space.phys) && BootIsMapped(heap.space.phys, cr3)
    ensures heap != null ==> heap.space.frames == frames
    ensures !ok ==> Exhausted(frames.state, frames.end) || (heap != null && heap.brk + PAGESZ >= KERNEL_HEAP_END)
  {
    hide FrameAllocator.Valid, AddressSpace.Valid, HeapAllocator.Valid, Managed, Separated, AllTaken, Entry, Usable, Fits, Skipped, MapsKept, KernelShared;
    hide BootIsMapped, BootImage, Directories;
    heap := null;
    frames := new FrameAllocator(end);
    ImageSound(phys, cr3, table, frames.state, end);
    ImageShaped(phys, cr3, table);
    var space := new AddressSpace(frames, phys, cr3);
    NothingManaged(frames.state);
    ok := PrepareSpace(space, phys);
    if !ok {
      return;
    }
    heap := new HeapAllocator(space);
    ghost var m := space.phys;
    ok := AddMemory(heap, memMap);
    if ok {
      HeapShaped(heap);
      BootStaysMapped(m, heap.space.phys, {cr3}, cr3);
    }
  }

  lemma ImageShaped(m: Phys, d: nat, t: nat)
    requires BootImage(m, d, t)
    ensures Shaped(m) && d < PAGE_COUNT
  {
  }

  lemma SpaceShaped(space: AddressSpace)
    requires space.Valid()
    ensures Shaped(space.phys)
  {
  }

  lemma HeapShaped(heap: HeapAllocator)
    requires heap.Valid()
    ensures Shaped(heap.space.phys) && heap.space.cr3 < PAGE_COUNT
  {
  }

  lemma NothingManaged(s: State)
    requires s == State([], map[], true, BOOT_SIZE)
    ensures Managed(s) == {}
  {
  }

  lemma SpaceReady(m: Phys, m1: Phys, m2: Phys, m3: Phys, dirs: set<nat>, d: nat)
    requires Shaped(m) && Shaped(m1) && Shaped(m2) && Shaped(m3) && d in dirs && forall e :: e in dirs ==> e < PAGE_COUNT
    requires SameReads(m, m1, dirs) && SameReads(m1, m2, dirs) && BootMapped(m2, m3, d, BOOT_PAGES)
    requires forall p: nat :: KERNEL_HEAP / PAGESZ <= p < KERNEL_HEAP_END / PAGESZ ==> Entry(m, d, p) == 0
    ensures ReadyForHeap(m3, d)
  {
    hide Entry;
    forall p: nat | KERNEL_HEAP / PAGESZ <= p < KERNEL_HEAP_END / PAGESZ
      ensures Entry(m3, d, p) == 0
    {
      assert Entry(m3, d, p) == Entry(m2, d, p) && Entry(m2, d, p) == Entry(m1, d, p) && Entry(m1, d, p) == Entry(m, d, p);
    }
  }

  lemma BootStaysMapped(m: Phys, m': Phys, dirs: set<nat>, d: nat)
    requires Shaped(m) && d in dirs && (forall e :: e in dirs ==> e < PAGE_COUNT) && MapsKept(m, m', dirs) && BootIsMapped(m, d)
    ensures Shaped(m') && BootIsMapped(m', d)
  {
    hide Entry;
    forall p: nat | KERNEL_PAGES <= p < KERNEL_PAGES + BOOT_PAGES
      ensures BootPage(Entry(m', d, p), p - KERNEL_PAGES)
    {
      assert BootPage(Entry(m, d, p), p - KERNEL_PAGES) && Entry(m', d, p) == Entry(m, d, p);
    }
  }
}
