/** Two-level 32-bit paging (section 4.3 of the Intel 64 and IA-32 Architectures Software
    Developer's Manual, Volume 3A), edited by the kernel through the recursive window at
    the top of the address space. Memory is physical; every access of the kernel goes
    through the page walk. */
module Paging {
  import opened Arith
  import opened Base
  import opened Frames

  const WORDS := 1024
  const CMAP := 0xFFFF_F000     // virtual address of the current directory
  const CTBL := 0xFFC0_0000     // virtual address of the current tables
  const TMP_MAP := 0xFF80_0000
  const PGE_DIR := 1023
  const TMP_DIR := 1022
  const USER_DIRS := 768        // SYSTEM_ADDR_BASE >> 22
  const SEGMENT := 0x40_0000    // what one table maps
  const SYSTEM_ADDR_SIZE := 0x3000_0000
  const KERNEL_ADDR_BASE := 0xF000_0000
  const KERNEL_ADDR_SIZE := 0x1000_0000
  const KERNEL_DIRS := 960      // KERNEL_ADDR_BASE >> 22
  const TMP_PAGE := 1022 * 1024 // TMP_MAP >> 12
  const KERNEL_PAGES := 960 * 1024

  type Word = w: int | 0 <= w < 0x1_0000_0000
  type Phys = map<nat, seq<Word>>

  // ---------------------------------------------------------------------------
  // Entries and the page walk
  // ---------------------------------------------------------------------------

  predicate Present(e: Word) {
    e % 2 == 1
  }

  predicate Large(e: Word) {
    e / 0x80 % 2 == 1
  }

  function FrameOf(e: Word): (f: nat)
    ensures f < PAGE_COUNT
  {
    e / PAGESZ
  }

  /** `flags & PF_MASK`: bits 0-6 and 9-11. */
  function MaskFlags(flags: Word): (m: Word)
    ensures m < PAGESZ
  {
    flags / 512 % 8 * 512 + flags % 128
  }

  /** `page_fmt(base, flags)`. */
  function PageFmt(base: Word, flags: Word): Word {
    base / PAGESZ * PAGESZ + MaskFlags(flags)
  }

  lemma PageFmtFields(base: Word, flags: Word)
    ensures FrameOf(PageFmt(base, flags)) == FrameOf(base)
    ensures Present(PageFmt(base, flags)) <==> Present(flags)
    ensures !Large(PageFmt(base, flags))
    ensures PageFmt(base, flags) % PAGESZ == MaskFlags(flags)
  {
    var q, r := flags / 512 % 8, flags % 128;
    FieldsOfEntry(base / PAGESZ, q, r, PageFmt(base, flags));
    SameParity(flags / 128, r, flags);
  }

  /** Of the flags, an entry has those in the mask 0x0E7F and no others; its upper bits are
      those of the base. */
  lemma PageFmtBits(base: Word, flags: Word, k: nat)
    ensures HasBit(PageFmt(base, flags), k) <==> if k < 12 then k != 7 && k != 8 && HasBit(flags, k) else HasBit(base, k)
  {
    hide HasBit, PageFmt, MaskFlags;
    var e := PageFmt(base, flags);
    var b, q, r := base / PAGESZ, flags / 512 % 8, flags % 128;
    FmtParts(base, flags);
    if k < 7 {
      LowFlag(e, b * 32 + q * 4, r, k);
      LowFlag(flags, flags / 128, r, k);
    } else if k < 9 {
      ClearBits(b, q, r, e, k);
    } else if k < 12 {
      HighFlag(e, b, q, r, k);
      HighFlag(flags, flags / 4096, q, flags % 512, k);
    } else {
      FrameBit(e, b, k);
      FrameBit(base, b, k);
    }
  }

  lemma FmtParts(base: Word, flags: Word)
    ensures PageFmt(base, flags) == base / PAGESZ * PAGESZ + flags / 512 % 8 * 512 + flags % 128
    ensures PageFmt(base, flags) / PAGESZ == base / PAGESZ
  {
    PageFmtFields(base, flags);
  }

  lemma LowFlag(n: nat, x: nat, r: nat, k: nat)
    requires n == x * 128 + r && k < 7
    ensures HasBit(n, k) <==> HasBit(r, k)
  {
    hide HasBit;
    Pow2Table();
    LowBits(x, r, 7, k);
  }

  lemma HighFlag(n: nat, b: nat, q: nat, r: nat, k: nat)
    requires n == b * PAGESZ + q * 512 + r && q < 8 && r < 512 && 9 <= k < 12
    ensures HasBit(n, k) <==> HasBit(q, k - 9)
  {
    hide HasBit;
    Pow2Table();
    DivModUnique(b * 8 + q, r, 512, n);
    BitAbove(n, 9, k - 9, b * 8 + q);
    LowBits(b, q, 3, k - 9);
  }

  lemma FrameBit(n: nat, b: nat, k: nat)
    requires b == n / PAGESZ && 12 <= k
    ensures HasBit(n, k) <==> HasBit(b, k - 12)
  {
    hide HasBit;
    Pow2Table();
    BitAbove(n, 12, k - 12, b);
  }

  lemma ClearBits(b: nat, q: nat, r: nat, e: nat, k: nat)
    requires e == b * PAGESZ + q * 512 + r && r < 128 && 7 <= k < 9
    ensures !HasBit(e, k)
  {
    Pow2Table();
    DivModUnique(b * 32 + q * 4, r, 128, e);
    DivModUnique(b * 16 + q * 2, r, 256, e);
  }

  /** Entry `e` has the flags asked for, as far as the mask allows them. */
  ghost predicate TakesFlags(e: Word, flags: Word) {
    forall k: nat :: k < 12 ==> (HasBit(e, k) <==> k != 7 && k != 8 && HasBit(flags, k))
  }

  /** The same, and it is present. */
  ghost predicate AsksFlags(e: Word, flags: Word) {
    forall k: nat :: k < 12 ==> (HasBit(e, k) <==> k == 0 || (k != 7 && k != 8 && HasBit(flags, k)))
  }

  lemma FmtTakesFlags(base: Word, flags: Word)
    ensures TakesFlags(PageFmt(base, flags), flags)
  {
    hide HasBit, PageFmt;
    forall k: nat | k < 12
      ensures HasBit(PageFmt(base, flags), k) <==> k != 7 && k != 8 && HasBit(flags, k)
    {
      PageFmtBits(base, flags, k);
    }
  }

  lemma NewEntryFlags(base: Word, flags: Word)
    ensures AsksFlags(PageFmt(base, WithPresent(flags)), flags)
  {
    hide HasBit, PageFmt, WithPresent;
    forall k: nat | k < 12
      ensures HasBit(PageFmt(base, WithPresent(flags)), k) <==> k == 0 || (k != 7 && k != 8 && HasBit(flags, k))
    {
      PageFmtBits(base, WithPresent(flags), k);
      PresentBit(flags, k);
    }
  }

  lemma PresentBit(flags: Word, k: nat)
    ensures HasBit(WithPresent(flags), k) <==> k == 0 || HasBit(flags, k)
  {
    Pow2Table();
    if k > 0 {
      BitAbove(flags, 1, k - 1, flags / 2);
      BitAbove(WithPresent(flags), 1, k - 1, flags / 2);
    }
  }

  /** A new table is present, writable and open to users, and has no other flag. */
  lemma TableEntryBits(f: nat, k: nat)
    requires f < PAGE_COUNT && k < 12
    ensures HasBit(TableEntry(f), k) <==> k < 3
  {
    Pow2Table();
    LowBits(f, 7, 12, k);
  }

  lemma SameParity(q: int, r: int, n: int)
    requires n == q * 128 + r
    ensures n % 2 == r % 2
  {
    DivModUnique(q * 64 + r / 2, r % 2, 2, n);
  }

  lemma FieldsOfEntry(k: int, q: int, r: int, e: int)
    requires 0 <= k < PAGE_COUNT && 0 <= q < 8 && 0 <= r < 128
    requires e == k * PAGESZ + q * 512 + r
    ensures 0 <= e < 0x1_0000_0000 && e / PAGESZ == k && e % PAGESZ == q * 512 + r
    ensures e / 0x80 % 2 == 0
    ensures e % 2 == r % 2
  {
    DivModUnique(k, q * 512 + r, PAGESZ, e);
    DivModUnique(k * 32 + q * 4, r, 0x80, e);
    DivModUnique(k * 16 + q * 2, 0, 2, k * 32 + q * 4);
    DivModUnique(k * 2048 + q * 256 + r / 2, r % 2, 2, e);
  }

  /** `page_ufmt(page)`. */
  function PageUfmt(e: Word): Word {
    e / PAGESZ * PAGESZ
  }

  ghost predicate Shaped(m: Phys) {
    forall f: nat :: f < PAGE_COUNT ==> f in m && |m[f]| == WORDS
  }

  /** The word of physical memory a virtual address names, as frame and index, or `None`
      for a page fault. */
  function Walk(m: Phys, cr3: nat, va: Word): Option<(nat, nat)>
    requires Shaped(m) && cr3 < PAGE_COUNT
  {
    var pde := m[cr3][va / 0x40_0000];
    if !Present(pde) then None
    else if Large(pde) then Some((pde / 0x40_0000 * WORDS + va / PAGESZ % WORDS, va % PAGESZ / 4))
    else
      var pte := m[FrameOf(pde)][va / PAGESZ % WORDS];
      if Present(pte) then Some((FrameOf(pte), va % PAGESZ / 4)) else None
  }

  function Updated(ws: seq<Word>, i: nat, v: Word): seq<Word>
    requires i < |ws|
  {
    ws[i := v]
  }

  /** Physical memory with one word changed. */
  function Poke(m: Phys, f: nat, i: nat, v: Word): (m': Phys)
    requires Shaped(m) && f < PAGE_COUNT && i < WORDS
    ensures Shaped(m')
    ensures forall g: nat, j: nat :: g < PAGE_COUNT && j < WORDS ==>
              m'[g][j] == if g == f && j == i then v else m[g][j]
    ensures forall g: nat :: g < PAGE_COUNT && g != f ==> m'[g] == m[g]
  {
    m[f := Updated(m[f], i, v)]
  }

  /** Directory `d` maps itself through its last entry. */
  ghost predicate Recursive(m: Phys, d: nat)
    requires Shaped(m) && d < PAGE_COUNT
  {
    var e := m[d][PGE_DIR];
    Present(e) && !Large(e) && FrameOf(e) == d
  }

  /** The directory window names the directory itself. */
  lemma CmapIsDirectory(m: Phys, d: nat, i: nat)
    requires Shaped(m) && d < PAGE_COUNT && Recursive(m, d) && i < WORDS
    ensures Walk(m, d, CMAP + 4 * i) == Some((d, i))
  {
  }

  /** The table window names the tables of present directory entries. */
  lemma CtblIsTable(m: Phys, d: nat, p: nat)
    requires Shaped(m) && d < PAGE_COUNT && Recursive(m, d) && p < PAGE_COUNT
    requires Present(m[d][p / WORDS])
    ensures Walk(m, d, CTBL + 4 * p) == Some((FrameOf(m[d][p / WORDS]), p % WORDS))
  {
  }

  // ---------------------------------------------------------------------------
  // Address spaces as values
  // ---------------------------------------------------------------------------

  /** What `page_get` returns for page number `p` in the space of directory `d`. */
  function Entry(m: Phys, d: nat, p: nat): Word
    requires Shaped(m) && d < PAGE_COUNT && p < PAGE_COUNT
  {
    var pde := m[d][p / WORDS];
    if Present(pde) then m[FrameOf(pde)][p % WORDS] else 0
  }

  /** Entry `i` of directory `d` is a table in frame `t`. */
  ghost predicate Names(m: Phys, d: nat, i: nat, t: nat)
    requires Shaped(m) && d < PAGE_COUNT && i < WORDS
  {
    Present(m[d][i]) && FrameOf(m[d][i]) == t
  }

  ghost predicate Directories(m: Phys, dirs: set<nat>)
    requires Shaped(m)
  {
    && (forall d :: d in dirs ==> d < PAGE_COUNT)
    && (forall d :: d in dirs ==> Recursive(m, d))
  }

  /** Page tables below the window at TMP_MAP are never aliased: a table frame is no
      directory, and two entries name the same table only if it is a table above user
      space, shared by two spaces at the same index. */
  ghost predicate Separated(m: Phys, dirs: set<nat>)
    requires Shaped(m)
  {
    && Directories(m, dirs)
    && (forall d, i: nat {:trigger m[d][i]} :: d in dirs && i < TMP_DIR && Present(m[d][i]) ==>
          !Large(m[d][i]) && FrameOf(m[d][i]) !in dirs)
    && (forall d, e, i: nat, j: nat, t {:trigger Names(m, d, i, t), Names(m, e, j, t)} ::
          d in dirs && e in dirs && i < TMP_DIR && j < TMP_DIR && Names(m, d, i, t) && Names(m, e, j, t) ==>
          i == j && (d == e || i >= USER_DIRS))
  }

  /** Frame `f` is a directory or a table of one of the spaces. */
  ghost predicate Structural(m: Phys, dirs: set<nat>, f: nat)
    requires Shaped(m) && Directories(m, dirs)
  {
    f in dirs || exists d, i: nat :: d in dirs && i < TMP_DIR && Names(m, d, i, f)
  }

  /** A page of zeros. */
  function Blank(): (ws: seq<Word>)
    ensures |ws| == WORDS && forall i :: 0 <= i < WORDS ==> ws[i] == 0
  {
    seq(WORDS, _ => 0)
  }

  /** The table entry `page_touch` writes: present, writable, user. */
  function TableEntry(f: nat): (e: Word)
    requires f < PAGE_COUNT
    ensures Present(e) && !Large(e) && FrameOf(e) == f
  {
    FieldsOfEntry(f, 0, 7, f * PAGESZ + 7);
    f * PAGESZ + 7
  }

  /** Gives directory `d` a blank table `f` at index `i`. */
  function Touch(m: Phys, d: nat, i: nat, f: nat): Phys
    requires Shaped(m) && d < PAGE_COUNT && i < WORDS && f < PAGE_COUNT
  {
    Poke(m, d, i, TableEntry(f))[f := Blank()]
  }

  /** Writes the table word of page `p` in the space of `d`. */
  function Put(m: Phys, d: nat, p: nat, v: Word): Phys
    requires Shaped(m) && d < PAGE_COUNT && p < PAGE_COUNT
  {
    var t := FrameOf(m[d][p / WORDS]);
    Poke(m, t, p % WORDS, v)
  }

  /** A fresh blank table changes what no page of any space reads. */
  lemma TouchKeeps(m: Phys, dirs: set<nat>, d: nat, i: nat, f: nat)
    requires Shaped(m) && Separated(m, dirs)
    requires d in dirs && i < TMP_DIR && !Present(m[d][i])
    requires f < PAGE_COUNT && !Structural(m, dirs, f)
    ensures var m' := Touch(m, d, i, f);
      && Shaped(m') && Separated(m', dirs)
      && (forall e, p: nat :: e in dirs && p < TMP_PAGE ==> Entry(m', e, p) == Entry(m, e, p))
      && (forall g: nat :: Structural(m', dirs, g) <==> Structural(m, dirs, g) || g == f)
  {
    var m' := Touch(m, d, i, f);
    assert forall e :: e in dirs && e != d ==> m'[e] == m[e];
    assert m'[d] == m[d][i := TableEntry(f)];
    forall e, j: nat, t | e in dirs && j < TMP_DIR
      ensures Names(m', e, j, t) <==> Names(m, e, j, t) || (e == d && j == i && t == f)
    {
    }
    assert Names(m', d, i, f);
    forall e, p: nat | e in dirs && p < TMP_PAGE
      ensures Entry(m', e, p) == Entry(m, e, p)
    {
      if Present(m[e][p / WORDS]) {
        assert Names(m, e, p / WORDS, FrameOf(m[e][p / WORDS]));
      }
    }
  }

  /** A write through a table changes one page, in the spaces that share the table. */
  lemma PutKeeps(m: Phys, dirs: set<nat>, d: nat, p: nat, v: Word)
    requires Shaped(m) && Separated(m, dirs)
    requires d in dirs && p < TMP_PAGE && Present(m[d][p / WORDS])
    ensures var m' := Put(m, d, p, v);
      && Shaped(m') && Separated(m', dirs)
      && (forall e, q: nat :: e in dirs && q < TMP_PAGE ==>
            Entry(m', e, q) == if q == p && Names(m, e, p / WORDS, FrameOf(m[d][p / WORDS])) then v else Entry(m, e, q))
      && (forall g: nat :: Structural(m', dirs, g) <==> Structural(m, dirs, g))
  {
    var m', t := Put(m, d, p, v), FrameOf(m[d][p / WORDS]);
    assert forall e :: e in dirs ==> m'[e] == m[e];
    assert Names(m, d, p / WORDS, t);
    forall e, j: nat, u | e in dirs && j < TMP_DIR
      ensures Names(m', e, j, u) <==> Names(m, e, j, u)
    {
    }
    forall e, q: nat | e in dirs && q < TMP_PAGE
      ensures Entry(m', e, q) == if q == p && Names(m, e, p / WORDS, t) then v else Entry(m, e, q)
    {
      if Names(m, e, q / WORDS, t) {
        assert q / WORDS == p / WORDS;
      }
    }
  }

  /** Below the windows, the walk goes where the page's entry says. */
  lemma WalkIsEntry(m: Phys, dirs: set<nat>, d: nat, va: Word)
    requires Shaped(m) && Separated(m, dirs) && d in dirs && va < TMP_MAP
    ensures var e := Entry(m, d, va / PAGESZ);
      Walk(m, d, va) == if Present(e) then Some((FrameOf(e), va % PAGESZ / 4)) else None
  {
    assert va / PAGESZ / WORDS == va / 0x40_0000;
  }

  /** Memories that differ in one frame at most. */
  ghost predicate SameBut(m: Phys, m': Phys, x: nat)
    requires Shaped(m)
  {
    Shaped(m') && forall g: nat :: g < PAGE_COUNT && g != x ==> m'[g] == m[g]
  }

  /** Tables stay where they are: no present directory entry below the windows changes. */
  ghost predicate KeepsTables(m: Phys, m': Phys, dirs: set<nat>)
    requires Shaped(m) && Shaped(m') && forall d :: d in dirs ==> d < PAGE_COUNT
  {
    forall d, i: nat {:trigger m'[d][i]} :: d in dirs && i < TMP_DIR && Present(m[d][i]) ==> m'[d][i] == m[d][i]
  }

  /** The spaces read alike and have the same tables. */
  ghost predicate SameSpaces(m: Phys, m': Phys, dirs: set<nat>)
    requires Shaped(m) && Directories(m, dirs)
  {
    && Shaped(m') && Directories(m', dirs) && Separated(m', dirs)
    && (forall e, p: nat :: e in dirs && p < TMP_PAGE ==> Entry(m', e, p) == Entry(m, e, p))
    && (forall g: nat :: Structural(m', dirs, g) <==> Structural(m, dirs, g))
    && KeepsTables(m, m', dirs)
  }

  /** Writing a frame that is no table leaves the spaces alone. */
  lemma DataWrite(m: Phys, m': Phys, dirs: set<nat>, x: nat)
    requires Shaped(m) && Separated(m, dirs) && !Structural(m, dirs, x) && SameBut(m, m', x)
    ensures SameSpaces(m, m', dirs)
  {
    forall e, j: nat, t | e in dirs && j < TMP_DIR
      ensures Names(m', e, j, t) <==> Names(m, e, j, t)
    {
      assert m'[e] == m[e];
    }
    forall e, p: nat | e in dirs && p < TMP_PAGE
      ensures Entry(m', e, p) == Entry(m, e, p)
    {
      if Present(m[e][p / WORDS]) {
        assert Names(m, e, p / WORDS, FrameOf(m[e][p / WORDS]));
      }
    }
  }

  lemma SameSpacesTaken(m: Phys, m': Phys, dirs: set<nat>, s: State, end: nat)
    requires Shaped(m) && Directories(m, dirs) && AllTaken(m, dirs, s, end) && SameSpaces(m, m', dirs)
    ensures Shaped(m') && Directories(m', dirs) && Separated(m', dirs) && AllTaken(m', dirs, s, end)
  {
    hide Taken, Structural;
  }

  /** What any amount of mapping leaves alone: taken frames stay taken, a frame becomes a
      table only if nobody had it, and memory that holds no table is not written. */
  ghost predicate Preserves(m: Phys, s: State, m': Phys, s': State, dirs: set<nat>, end: nat)
    requires Shaped(m) && Shaped(m') && Directories(m, dirs) && Directories(m', dirs)
  {
    && Managed(s') == Managed(s)
    && (forall f: nat :: Taken(s, end, f) ==> Taken(s', end, f))
    && (forall f: nat :: Structural(m, dirs, f) ==> Structural(m', dirs, f))
    && (forall f: nat :: Structural(m', dirs, f) ==> Structural(m, dirs, f) || !Taken(s, end, f))
    && (forall f: nat :: f < PAGE_COUNT && !Structural(m', dirs, f) ==> m'[f] == m[f])
    && KeepsTables(m, m', dirs)
  }

  /** The tables of the kernel are there, and all spaces share those of `d`. */
  ghost predicate KernelShared(m: Phys, dirs: set<nat>, d: nat)
    requires Shaped(m) && d < PAGE_COUNT && forall e :: e in dirs ==> e < PAGE_COUNT
  {
    forall e, i: nat {:trigger m[e][i]} :: e in dirs && KERNEL_DIRS <= i < TMP_DIR ==> Present(m[e][i]) && m[e][i] == m[d][i]
  }

  /** Once shared, the kernel's tables stay shared. */
  lemma KernelStays(m: Phys, m': Phys, dirs: set<nat>, d: nat)
    requires Shaped(m) && Shaped(m') && d in dirs && forall e :: e in dirs ==> e < PAGE_COUNT
    requires KernelShared(m, dirs, d) && KeepsTables(m, m', dirs)
    ensures KernelShared(m', dirs, d)
  {
    forall e, i: nat | e in dirs && KERNEL_DIRS <= i < TMP_DIR
      ensures Present(m'[e][i]) && m'[e][i] == m'[d][i]
    {
      assert Present(m[e][i]) && m[e][i] == m[d][i];
      assert m'[e][i] == m[e][i] && m'[d][i] == m[d][i];
    }
  }

  /** Kernel memory is the same in all address spaces: every address of it leads to the
      same word, whichever space is current. */
  lemma KernelEverywhere(m: Phys, dirs: set<nat>, d: nat, e: nat, va: Word)
    requires Shaped(m) && Separated(m, dirs) && d in dirs && e in dirs && KernelShared(m, dirs, d)
    requires KERNEL_DIRS * 0x40_0000 <= va < TMP_MAP
    ensures Walk(m, e, va) == Walk(m, d, va) && Entry(m, e, va / PAGESZ) == Entry(m, d, va / PAGESZ)
  {
    var i := va / 0x40_0000;
    assert va / PAGESZ / WORDS == i;
    assert m[e][i] == m[d][i];
  }

  lemma PreservesKernel(m: Phys, s: State, m': Phys, s': State, dirs: set<nat>, end: nat, d: nat)
    requires Shaped(m) && Shaped(m') && Directories(m, dirs) && Directories(m', dirs) && d in dirs
    requires Preserves(m, s, m', s', dirs, end) && KernelShared(m, dirs, d)
    ensures KernelShared(m', dirs, d)
  {
    hide KernelShared, Structural, Taken, Managed;
    KernelStays(m, m', dirs, d);
  }

  lemma PreservesSelf(m: Phys, s: State, dirs: set<nat>, end: nat)
    requires Shaped(m) && Directories(m, dirs)
    ensures Preserves(m, s, m, s, dirs, end)
  {
  }

  lemma PreservesTransitive(m0: Phys, s0: State, m1: Phys, s1: State, m2: Phys, s2: State, dirs: set<nat>, end: nat)
    requires Shaped(m0) && Shaped(m1) && Shaped(m2)
    requires Directories(m0, dirs) && Directories(m1, dirs) && Directories(m2, dirs)
    requires Preserves(m0, s0, m1, s1, dirs, end) && Preserves(m1, s1, m2, s2, dirs, end)
    ensures Preserves(m0, s0, m2, s2, dirs, end)
  {
    hide Taken, Structural, Directories, Managed;
  }

  /** `m'` is `m` with page `p` of the space of `d` set to `v`: a flat map update. Every
      other page of every space reads as before, and page `p` of another space changes
      only if the two share the table. */
  ghost predicate SetsPage(m: Phys, m': Phys, dirs: set<nat>, d: nat, p: nat, v: Word)
    requires Shaped(m) && Directories(m, dirs) && d in dirs && p < TMP_PAGE
  {
    && Shaped(m') && Separated(m', dirs)
    && Entry(m', d, p) == v
    && (forall e, q: nat :: e in dirs && q < TMP_PAGE && q != p ==> Entry(m', e, q) == Entry(m, e, q))
    && (forall e :: e in dirs && e != d ==>
          Entry(m', e, p) == if Present(m[d][p / WORDS]) && Names(m, e, p / WORDS, FrameOf(m[d][p / WORDS])) then v else Entry(m, e, p))
  }

  ghost predicate AllTaken(m: Phys, dirs: set<nat>, s: State, end: nat)
    requires Shaped(m) && Directories(m, dirs)
  {
    forall f: nat :: Structural(m, dirs, f) ==> Taken(s, end, f)
  }

  lemma TouchPreserves(m: Phys, dirs: set<nat>, d: nat, i: nat, s: State, end: nat, f: nat, s': State)
    requires Shaped(m) && Separated(m, dirs) && AllTaken(m, dirs, s, end)
    requires d in dirs && i < TMP_DIR && !Present(m[d][i])
    requires Inv(s) && end < BOOT_SIZE && NewFrame(s, end) == Got(f * PAGESZ, s')
    ensures f < PAGE_COUNT && !Structural(m, dirs, f) && Inv(s')
    ensures var m' := Touch(m, d, i, f);
      && Shaped(m') && Directories(m', dirs) && Separated(m', dirs)
      && AllTaken(m', dirs, s', end) && Preserves(m, s, m', s', dirs, end)
  {
    NewIsFresh(s, end);
    NewInRange(s, end);
    assert f * PAGESZ / PAGESZ == f;
    TouchKeeps(m, dirs, d, i, f);
  }

  /** A table for the temporary window changes no space below it. */
  lemma TouchWindow(m: Phys, dirs: set<nat>, d: nat, f: nat)
    requires Shaped(m) && Separated(m, dirs) && d in dirs && f < PAGE_COUNT && !Structural(m, dirs, f)
    ensures SameSpaces(m, Touch(m, d, TMP_DIR, f), dirs)
  {
    hide Structural;
    var m1 := Poke(m, d, TMP_DIR, TableEntry(f));
    WindowWrite(m, dirs, d, TableEntry(f));
    DataWrite(m1, Touch(m, d, TMP_DIR, f), dirs, f);
    OutsideDirs(m, dirs, f);
  }

  lemma OutsideDirs(m: Phys, dirs: set<nat>, f: nat)
    requires Shaped(m) && Directories(m, dirs) && !Structural(m, dirs, f)
    ensures f !in dirs
  {
  }

  /** Writing the temporary window's directory entry leaves the spaces alone. */
  lemma WindowWrite(m: Phys, dirs: set<nat>, d: nat, v: Word)
    requires Shaped(m) && Separated(m, dirs) && d in dirs
    ensures SameSpaces(m, Poke(m, d, TMP_DIR, v), dirs)
  {
    var m' := Poke(m, d, TMP_DIR, v);
    forall e, j: nat, t | e in dirs && j < TMP_DIR
      ensures Names(m', e, j, t) <==> Names(m, e, j, t)
    {
      assert m'[e][j] == m[e][j];
    }
    forall e, p: nat | e in dirs && p < TMP_PAGE
      ensures Entry(m', e, p) == Entry(m, e, p)
    {
      assert m'[e][p / WORDS] == m[e][p / WORDS];
      if Present(m[e][p / WORDS]) {
        assert Names(m, e, p / WORDS, FrameOf(m[e][p / WORDS]));
      }
    }
  }

  /** A table at any index that has none, in the frame `frame_new` gives for it. */
  lemma TouchedSoundly(m: Phys, dirs: set<nat>, d: nat, i: nat, s: State, end: nat, f: nat, s': State)
    requires Shaped(m) && Directories(m, dirs) && Separated(m, dirs) && AllTaken(m, dirs, s, end)
    requires d in dirs && i < WORDS && !Present(m[d][i])
    requires Inv(s) && end < BOOT_SIZE && NewFrame(s, end) == Got(f * PAGESZ, s')
    ensures i < PGE_DIR && f < PAGE_COUNT && f != d && Inv(s')
    ensures var m' := Touch(m, d, i, f);
      && m' == Poke(m, d, i, TableEntry(f))[f := Blank()]
      && Shaped(m') && Directories(m', dirs) && Separated(m', dirs)
      && AllTaken(m', dirs, s', end) && KeepsTables(m, m', dirs)
      && SameReads(m, m', dirs) && OnlyEntries(m, m', dirs, d, i, i + 1) && Managed(s') == Managed(s)
      && (i < TMP_DIR ==> Preserves(m, s, m', s', dirs, end))
      && (i >= TMP_DIR ==> SameSpaces(m, m', dirs))
  {
    hide Structural, AllTaken, Taken, NewFrame, Inv, Separated, Managed, Entry;
    NewDataFrame(m, dirs, s, end, f, s');
    OutsideDirs(m, dirs, f);
    NewInRange(s, end);
    if i < TMP_DIR {
      TouchPreserves(m, dirs, d, i, s, end, f, s');
      TouchKeeps(m, dirs, d, i, f);
    } else {
      TouchWindow(m, dirs, d, f);
      SameSpacesTaken(m, Touch(m, d, i, f), dirs, s', end);
    }
  }

  /** Every page of every space reads as before. */
  ghost predicate SameReads(m: Phys, m': Phys, dirs: set<nat>)
    requires Shaped(m) && Shaped(m') && forall d :: d in dirs ==> d < PAGE_COUNT
  {
    forall e, p: nat :: e in dirs && p < TMP_PAGE ==> Entry(m', e, p) == Entry(m, e, p)
  }

  /** The directories differ in the entries `lo` up to `hi` of `d` at most. */
  ghost predicate OnlyEntries(m: Phys, m': Phys, dirs: set<nat>, d: nat, lo: nat, hi: nat)
    requires Shaped(m) && Shaped(m') && forall e :: e in dirs ==> e < PAGE_COUNT
  {
    forall e, k: nat {:trigger m'[e][k]} :: e in dirs && k < WORDS && !(e == d && lo <= k < hi) ==> m'[e][k] == m[e][k]
  }

  ghost predicate HasTables(m: Phys, d: nat, lo: nat, hi: nat)
    requires Shaped(m) && d < PAGE_COUNT
  {
    forall k: nat :: lo <= k < hi && k < WORDS ==> Present(m[d][k])
  }

  lemma NothingTouched(m: Phys, dirs: set<nat>, d: nat, lo: nat)
    requires Shaped(m) && d in dirs && forall e :: e in dirs ==> e < PAGE_COUNT
    ensures SameReads(m, m, dirs) && HasTables(m, d, lo, lo) && OnlyEntries(m, m, dirs, d, lo, lo) && OnlyEntries(m, m, dirs, d, lo, lo + 1)
  {
  }

  lemma OneMoreTouched(m: Phys, m1: Phys, m2: Phys, dirs: set<nat>, d: nat, lo: nat, k: nat)
    requires Shaped(m) && Shaped(m1) && Shaped(m2) && d in dirs && (forall e :: e in dirs ==> e < PAGE_COUNT) && lo <= k < WORDS
    requires SameReads(m, m1, dirs) && SameReads(m1, m2, dirs)
    requires OnlyEntries(m, m1, dirs, d, lo, k) && OnlyEntries(m1, m2, dirs, d, k, k + 1)
    requires HasTables(m1, d, lo, k) && Present(m2[d][k])
    ensures SameReads(m, m2, dirs) && OnlyEntries(m, m2, dirs, d, lo, k + 1) && HasTables(m2, d, lo, k + 1)
  {
    hide Entry;
    forall e, j: nat | e in dirs && j < WORDS && !(e == d && lo <= j < k + 1)
      ensures m2[e][j] == m[e][j]
    {
      assert m2[e][j] == m1[e][j] && m1[e][j] == m[e][j];
    }
  }

  lemma NoTableYet(m: Phys, m1: Phys, dirs: set<nat>, d: nat, lo: nat, hi: nat, k: nat)
    requires Shaped(m) && Shaped(m1) && d in dirs && (forall e :: e in dirs ==> e < PAGE_COUNT) && lo <= k < hi && k < WORDS
    requires OnlyEntries(m, m1, dirs, d, lo, k) && !Present(m1[d][k])
    ensures !HasTables(m, d, lo, hi)
  {
    assert m1[d][k] == m[d][k];
  }

  lemma SegmentOf(base: int, i: int)
    requires 0 <= base && 0 <= i && base % SEGMENT == 0 && i % SEGMENT == 0
    ensures (base + i) / SEGMENT == base / SEGMENT + i / SEGMENT
    ensures (i + SEGMENT) / SEGMENT == i / SEGMENT + 1 && (i + SEGMENT) % SEGMENT == 0
  {
    var b, n := base / SEGMENT, i / SEGMENT;
    DivModUnique(b + n, 0, SEGMENT, base + i);
    DivModUnique(n + 1, 0, SEGMENT, i + SEGMENT);
  }

  /** The first `n` boot frames are mapped at the base of kernel space, and no other page
      has changed. */
  ghost predicate BootMapped(m: Phys, m': Phys, d: nat, n: nat)
    requires Shaped(m) && Shaped(m') && d < PAGE_COUNT && n <= BOOT_PAGES
  {
    && (forall p: nat :: KERNEL_PAGES <= p < KERNEL_PAGES + n ==> BootPage(Entry(m', d, p), p - KERNEL_PAGES))
    && (forall p: nat :: p < TMP_PAGE && !(KERNEL_PAGES <= p < KERNEL_PAGES + n) ==> Entry(m', d, p) == Entry(m, d, p))
  }

  /** Present, writable and in frame `k`. */
  predicate BootPage(e: Word, k: int) {
    e == k * PAGESZ + 3
  }

  lemma BootMapsOne(m: Phys, m1: Phys, m2: Phys, dirs: set<nat>, d: nat, n: nat, v: Word)
    requires Shaped(m) && Shaped(m1) && Directories(m1, dirs) && d in dirs && n < BOOT_PAGES
    requires BootMapped(m, m1, d, n) && SetsPage(m1, m2, dirs, d, KERNEL_PAGES + n, v) && v == PageFmt(n * PAGESZ, 3)
    ensures Shaped(m2) && BootMapped(m, m2, d, n + 1)
  {
    hide Entry, Separated;
    DivModUnique(n, 0, PAGESZ, n * PAGESZ);
    assert BootPage(v, n);
  }

  lemma NoBootPage(m: Phys, d: nat)
    requires Shaped(m) && d < PAGE_COUNT
    ensures BootMapped(m, m, d, 0)
  {
  }

  lemma SameDirectories(m: Phys, m1: Phys, m2: Phys, dirs: set<nat>, d: nat)
    requires Shaped(m) && Shaped(m1) && Shaped(m2) && forall e :: e in dirs ==> e < PAGE_COUNT
    requires OnlyEntries(m, m1, dirs, d, 0, 0) && OnlyEntries(m1, m2, dirs, d, 0, 0)
    ensures OnlyEntries(m, m2, dirs, d, 0, 0)
  {
    forall e, k: nat | e in dirs && k < WORDS
      ensures m2[e][k] == m[e][k]
    {
      assert m2[e][k] == m1[e][k] && m1[e][k] == m[e][k];
    }
  }

  lemma SharedTable(m: Phys, dirs: set<nat>, d: nat, i: nat)
    requires Shaped(m) && d in dirs && (forall e :: e in dirs ==> e < PAGE_COUNT) && KernelShared(m, dirs, d) && KERNEL_DIRS <= i < TMP_DIR
    ensures Present(m[d][i])
  {
  }

  lemma SameSpacesSelf(m: Phys, dirs: set<nat>)
    requires Shaped(m) && Separated(m, dirs)
    ensures SameSpaces(m, m, dirs) && KeepsTables(m, m, dirs)
  {
  }

  lemma NewInRange(s: State, end: nat)
    requires Inv(s) && NewFrame(s, end).Got?
    ensures NewFrame(s, end).frame / PAGESZ < PAGE_COUNT
    ensures NewFrame(s, end).frame < 0x1_0000_0000
    ensures Inv(NewFrame(s, end).after) && Managed(NewFrame(s, end).after) == Managed(s)
  {
    StepKeeps(s, end, New);
  }

  lemma PutPreserves(m: Phys, dirs: set<nat>, d: nat, p: nat, v: Word, s: State, end: nat)
    requires Shaped(m) && Separated(m, dirs) && AllTaken(m, dirs, s, end)
    requires d in dirs && p < TMP_PAGE && Present(m[d][p / WORDS])
    ensures var m' := Put(m, d, p, v);
      && Shaped(m') && Directories(m', dirs) && Separated(m', dirs) && AllTaken(m', dirs, s, end)
      && Preserves(m, s, m', s, dirs, end) && OnlyEntries(m, m', dirs, d, 0, 0)
      && SetsPage(m, m', dirs, d, p, v)
  {
    hide Taken;
    PutKeeps(m, dirs, d, p, v);
    assert Names(m, d, p / WORDS, FrameOf(m[d][p / WORDS]));
  }

  lemma TouchThenSets(m: Phys, m1: Phys, m2: Phys, dirs: set<nat>, d: nat, p: nat, v: Word, f: nat)
    requires Shaped(m) && Separated(m, dirs) && d in dirs && p < TMP_PAGE && f < PAGE_COUNT
    requires !Present(m[d][p / WORDS]) && !Structural(m, dirs, f) && m1 == Touch(m, d, p / WORDS, f)
    requires Shaped(m1) && Directories(m1, dirs) && SetsPage(m1, m2, dirs, d, p, v)
    ensures SetsPage(m, m2, dirs, d, p, v)
  {
    TouchKeeps(m, dirs, d, p / WORDS, f);
    forall e | e in dirs && e != d
      ensures Entry(m2, e, p) == Entry(m, e, p)
    {
      assert m1[e] == m[e];
      assert !Names(m, e, p / WORDS, f);
    }
  }

  /** The pages `lo` up to `hi` of the space of `d` that had no frame have been given one
      each: fresh, distinct and with the given flags; nothing else has changed. */
  ghost predicate MapsRange(m: Phys, s: State, m': Phys, s': State, dirs: set<nat>, end: nat, d: nat, lo: nat, hi: nat, flags: Word)
    requires Shaped(m) && Shaped(m') && Directories(m, dirs) && Directories(m', dirs) && d in dirs && hi <= TMP_PAGE
  {
    && (forall p: nat :: lo <= p < hi ==> Present(Entry(m', d, p)))
    && (forall p: nat :: lo <= p < hi && Present(Entry(m, d, p)) ==> Entry(m', d, p) == Entry(m, d, p))
    && (forall p: nat :: lo <= p < hi && !Present(Entry(m, d, p)) ==> IsNew(m', dirs, s, s', end, Entry(m', d, p), flags))
    && (forall p: nat, q: nat :: lo <= p < q < hi && !Present(Entry(m, d, p)) && !Present(Entry(m, d, q)) ==>
          FrameOf(Entry(m', d, p)) != FrameOf(Entry(m', d, q)))
    && (forall e, p: nat :: e in dirs && p < TMP_PAGE && !(lo <= p < hi) ==> Entry(m', e, p) == Entry(m, e, p))
  }

  /** Entry `e` has the given flags and names a frame taken since `s`, which is no table. */
  ghost predicate IsNew(m': Phys, dirs: set<nat>, s: State, s': State, end: nat, e: Word, flags: Word)
    requires Shaped(m') && Directories(m', dirs)
  {
    && AsksFlags(e, flags)
    && !Taken(s, end, FrameOf(e)) && Taken(s', end, FrameOf(e))
    && !Structural(m', dirs, FrameOf(e))
  }

  lemma NewDataFrame(m: Phys, dirs: set<nat>, s: State, end: nat, g: nat, s': State)
    requires Shaped(m) && Directories(m, dirs) && AllTaken(m, dirs, s, end)
    requires Inv(s) && end < BOOT_SIZE && NewFrame(s, end) == Got(g * PAGESZ, s')
    ensures g < PAGE_COUNT && Inv(s') && g * PAGESZ < 0x1_0000_0000
    ensures !Taken(s, end, g) && Taken(s', end, g) && !Structural(m, dirs, g)
    ensures AllTaken(m, dirs, s', end) && Preserves(m, s, m, s', dirs, end)
  {
    hide Structural;
    NewIsFresh(s, end);
    NewInRange(s, end);
    assert g * PAGESZ / PAGESZ == g;
  }

  /** One round of the mapping loop. */
  lemma MapOneMore(m0: Phys, s0: State, m1: Phys, s1: State, t: State, m2: Phys, s2: State,
                   dirs: set<nat>, end: nat, d: nat, lo: nat, p: nat, flags: Word, g: nat, v: Word)
    requires Shaped(m0) && Shaped(m1) && Shaped(m2)
    requires Directories(m0, dirs) && Directories(m1, dirs) && Directories(m2, dirs) && d in dirs
    requires lo <= p < TMP_PAGE
    requires MapsRange(m0, s0, m1, s1, dirs, end, d, lo, p, flags) && Preserves(m0, s0, m1, s1, dirs, end)
    requires AllTaken(m1, dirs, s1, end) && !Present(Entry(m1, d, p))
    requires !Taken(s1, end, g) && Taken(t, end, g) && !Structural(m1, dirs, g)
    requires Preserves(m1, s1, m1, t, dirs, end) && Preserves(m1, t, m2, s2, dirs, end)
    requires SetsPage(m1, m2, dirs, d, p, v) && FrameOf(v) == g && Present(v) && AsksFlags(v, flags)
    ensures MapsRange(m0, s0, m2, s2, dirs, end, d, lo, p + 1, flags)
    ensures Preserves(m0, s0, m2, s2, dirs, end)
  {
    hide Taken, Structural, Recursive, Separated, Entry, AsksFlags;
    PreservesTransitive(m0, s0, m1, s1, m1, t, dirs, end);
    PreservesTransitive(m0, s0, m1, t, m2, s2, dirs, end);
    assert Entry(m0, d, p) == Entry(m1, d, p);
    forall q: nat | lo <= q < p
      ensures Entry(m2, d, q) == Entry(m1, d, q)
      ensures !Present(Entry(m0, d, q)) ==> IsNew(m2, dirs, s0, s2, end, Entry(m2, d, q), flags)
      ensures !Present(Entry(m0, d, q)) ==> FrameOf(Entry(m2, d, q)) != g
    {
      if !Present(Entry(m0, d, q)) {
        assert IsNew(m1, dirs, s0, s1, end, Entry(m1, d, q), flags);
      }
    }
  }

  // ---------------------------------------------------------------------------
  // The current address space
  // ---------------------------------------------------------------------------

  class AddressSpace {
    var phys: Phys
    var cr3: nat
    const frames: FrameAllocator
    /** The directories of all address spaces. */
    ghost var dirs: set<nat>

    ghost function Repr(): set<object>
      reads this, frames
    {
      {this} + frames.Repr()
    }

    ghost predicate Valid()
      reads this, frames, frames.frameHash, frames.nodes
    {
      && frames.Valid() && Inv(frames.state) && frames.end < BOOT_SIZE
      && Mapped()
      && AllTaken(phys, dirs, frames.state, frames.end)
    }

    /** The allocator has no frame left to hand out. */
    ghost predicate Starved()
      reads frames`state
    {
      Exhausted(frames.state, frames.end)
    }

    ghost predicate Mapped()
      reads this`phys, this`cr3, this`dirs
    {
      Shaped(phys) && cr3 in dirs && Directories(phys, dirs) && Separated(phys, dirs)
    }

    /** The space the boot code leaves: one directory, its tables in the kernel image. */
    constructor (frames: FrameAllocator, phys: Phys, cr3: nat)
      requires frames.Valid() && frames.end < BOOT_SIZE
      requires Shaped(phys) && Separated(phys, {cr3}) && AllTaken(phys, {cr3}, frames.state, frames.end)
      ensures Valid() && this.frames == frames && this.phys == phys && this.cr3 == cr3 && dirs == {cr3}
    {
      this.frames := frames;
      this.phys := phys;
      this.cr3 := cr3;
      dirs := {cr3};
    }

    method Load(va: Word) returns (w: Word)
      requires Shaped(phys) && cr3 < PAGE_COUNT
      requires Walk(phys, cr3, va).Some? && Walk(phys, cr3, va).value.0 < PAGE_COUNT
      ensures var (f, i) := Walk(phys, cr3, va).value; i < WORDS && w == phys[f][i]
    {
      var (f, i) := Walk(phys, cr3, va).value;
      w := phys[f][i];
    }

    method Store(va: Word, w: Word)
      requires Shaped(phys) && cr3 < PAGE_COUNT
      requires Walk(phys, cr3, va).Some? && Walk(phys, cr3, va).value.0 < PAGE_COUNT
      modifies this`phys
      ensures var (f, i) := Walk(old(phys), cr3, va).value; i < WORDS && phys == Poke(old(phys), f, i, w)
    {
      var (f, i) := Walk(phys, cr3, va).value;
      phys := Poke(phys, f, i, w);
    }

    /** The entry of a page in the current space, zero when it has no table. */
    method PageGet(page: Word) returns (e: Word)
      requires Mapped()
      ensures e == Entry(phys, cr3, page / PAGESZ)
    {
      CmapIsDirectory(phys, cr3, page / 0x40_0000);
      var pde := Load(CMAP + 4 * (page / 0x40_0000));
      assert page / PAGESZ / WORDS == page / 0x40_0000;
      if !Present(pde) {
        return 0;
      }
      CtblIsTable(phys, cr3, page / PAGESZ);
      e := Load(CTBL + 4 * (page / PAGESZ));
    }

    /** Clears the table at directory index `i` through the table window. */
    method ClearTable(i: nat, ghost t: nat)
      requires Shaped(phys) && cr3 < PAGE_COUNT && Recursive(phys, cr3) && i < PGE_DIR
      requires Names(phys, cr3, i, t) && t != cr3
      modifies this`phys
      ensures phys == old(phys)[t := Blank()]
    {
      var j := 0;
      ghost var m := phys;
      while j < WORDS
        invariant 0 <= j <= WORDS
        invariant Shaped(phys) && phys.Keys == m.Keys
        invariant forall g :: g in m && g != t ==> phys[g] == m[g]
        invariant forall k :: 0 <= k < j ==> phys[t][k] == 0
      {
        CtblIsTable(phys, cr3, i * WORDS + j);
        Store(CTBL + 4 * (i * WORDS + j), 0);
        j := j + 1;
      }
      assert phys[t] == Blank();
    }

    /** Makes sure the table of a page exists; `f` is the frame of a new table. */
    method PageTouch(page: Word) returns (ok: bool, ghost f: nat)
      requires Valid()
      modifies Repr()
      ensures cr3 == old(cr3) && dirs == old(dirs) && frames.Repr() == old(frames.Repr())
      ensures Shaped(old(phys)) && Directories(old(phys), dirs)
      ensures ok ==> Valid() && Present(phys[cr3][page / 0x40_0000]) && KeepsTables(old(phys), phys, dirs)
      ensures ok ==> SameReads(old(phys), phys, dirs) && Managed(frames.state) == old(Managed(frames.state))
      ensures ok ==> OnlyEntries(old(phys), phys, dirs, cr3, page / 0x40_0000, page / 0x40_0000 + 1)
      ensures ok && Present(old(phys)[cr3][page / 0x40_0000]) ==> phys == old(phys) && frames.state == old(frames.state)
      ensures ok && !Present(old(phys)[cr3][page / 0x40_0000]) ==>
                f < PAGE_COUNT && phys == Touch(old(phys), cr3, page / 0x40_0000, f)
                && NewFrame(old(frames.state), frames.end) == Got(f * PAGESZ, frames.state)
      ensures ok && page < TMP_MAP ==> Preserves(old(phys), old(frames.state), phys, frames.state, dirs, frames.end)
      ensures ok && page >= TMP_MAP ==> SameSpaces(old(phys), phys, dirs)
      ensures !ok ==> Starved() && Exhausted(old(frames.state), frames.end) && !Present(old(phys)[cr3][page / 0x40_0000])
    {
      hide Separated, AllTaken, Preserves, Taken, Structural, FrameAllocator.Valid, NewFrame, Inv, Exhausted, SameSpaces, KeepsTables, Touch, SameReads, OnlyEntries, Managed;
      var i := page / 0x40_0000;
      f := 0;
      CmapIsDirectory(phys, cr3, i);
      var pde := Load(CMAP + 4 * i);
      if Present(pde) {
        PreservesSelf(phys, frames.state, dirs, frames.end);
        SameSpacesSelf(phys, dirs);
        NothingTouched(phys, dirs, cr3, i);
        return true, f;
      }
      ghost var s := frames.state;
      var frame: nat;
      ok, frame := frames.FrameNew();
      if !ok {
        return;
      }
      NewIsFresh(s, frames.end);
      f := frame / PAGESZ;
      TouchedSoundly(phys, dirs, cr3, i, s, frames.end, f, frames.state);
      CmapIsDirectory(phys, cr3, i);
      Store(CMAP + 4 * i, TableEntry(frame / PAGESZ));
      ClearTable(i, f);
    }

    /** A loop of `init` that touches every segment of a range: its tables are there
        afterwards, and neither another directory entry nor any mapping has changed. */
    method TouchLayer(base: Word, size: nat) returns (ok: bool)
      requires Valid() && base % SEGMENT == 0 && size % SEGMENT == 0 && base + size <= 0x1_0000_0000
      modifies Repr()
      ensures cr3 == old(cr3) && dirs == old(dirs) && frames.Repr() == old(frames.Repr())
      ensures Shaped(old(phys)) && Directories(old(phys), dirs)
      ensures ok ==> Valid() && SameReads(old(phys), phys, dirs) && Managed(frames.state) == old(Managed(frames.state))
      ensures ok ==> OnlyEntries(old(phys), phys, dirs, cr3, base / SEGMENT, (base + size) / SEGMENT)
      ensures ok ==> HasTables(phys, cr3, base / SEGMENT, (base + size) / SEGMENT)
      ensures !ok ==> Starved() && !HasTables(old(phys), cr3, base / SEGMENT, (base + size) / SEGMENT)
    {
      hide Separated, AllTaken, Preserves, Taken, Structural, FrameAllocator.Valid, NewFrame, Inv, Exhausted, SameSpaces, Touch;
      hide Managed, SameReads, OnlyEntries, HasTables, KeepsTables;
      ghost var m, lo := phys, base / SEGMENT;
      var i := 0;
      ok := true;
      NothingTouched(phys, dirs, cr3, lo);
      while i < size
        invariant 0 <= i <= size && i % SEGMENT == 0
        invariant Valid() && cr3 == old(cr3) && dirs == old(dirs) && frames.Repr() == old(frames.Repr())
        invariant SameReads(m, phys, dirs) && Managed(frames.state) == old(Managed(frames.state))
        invariant OnlyEntries(m, phys, dirs, cr3, lo, lo + i / SEGMENT) && HasTables(phys, cr3, lo, lo + i / SEGMENT)
      {
        ghost var m1 := phys;
        ghost var f: nat;
        ok, f := PageTouch(base + i);
        SegmentOf(base, i);
        if !ok {
          NoTableYet(m, m1, dirs, cr3, lo, (base + size) / SEGMENT, lo + i / SEGMENT);
          return;
        }
        OneMoreTouched(m, m1, phys, dirs, cr3, lo, lo + i / SEGMENT);
        i := i + SEGMENT;
      }
    }

    /** The loop of `init` over the kernel's part of the address space: all its tables are
        there afterwards, so that every later clone shares them. No mapping changes. */
    method TouchKernel() returns (ok: bool)
      requires Valid() && dirs == {cr3}
      modifies Repr()
      ensures cr3 == old(cr3) && dirs == old(dirs) && frames.Repr() == old(frames.Repr())
      ensures Shaped(old(phys)) && Directories(old(phys), dirs)
      ensures ok ==> Valid() && KernelShared(phys, dirs, cr3)
      ensures ok ==> SameReads(old(phys), phys, dirs) && Managed(frames.state) == old(Managed(frames.state))
      ensures ok ==> OnlyEntries(old(phys), phys, dirs, cr3, KERNEL_DIRS, WORDS)
      ensures !ok ==> Starved()
    {
      hide Separated, AllTaken, Taken, FrameAllocator.Valid, Inv, Managed, SameReads, OnlyEntries;
      ok := TouchLayer(KERNEL_ADDR_BASE, KERNEL_ADDR_SIZE);
    }

    /** The loop of `init` meant for the system layer, as it is written: it starts at the
        size of the layer and not at its base, and leaves the layer without tables. */
    method TouchSystem() returns (ok: bool)
      requires Valid()
      modifies Repr()
      ensures cr3 == old(cr3) && dirs == old(dirs) && frames.Repr() == old(frames.Repr())
      ensures Shaped(old(phys)) && Directories(old(phys), dirs)
      ensures ok ==> Valid() && HasTables(phys, cr3, 192, 384)
      ensures ok ==> forall i: nat :: USER_DIRS <= i < WORDS ==> phys[cr3][i] == old(phys)[cr3][i]
      ensures ok ==> SameReads(old(phys), phys, dirs) && Managed(frames.state) == old(Managed(frames.state))
      ensures ok && old(KernelShared(phys, dirs, cr3)) ==> KernelShared(phys, dirs, cr3)
      ensures !ok ==> Starved()
    {
      hide Separated, AllTaken, Taken, FrameAllocator.Valid, Inv, Managed, SameReads;
      ok := TouchLayer(SYSTEM_ADDR_SIZE, SYSTEM_ADDR_SIZE);
    }

    /** The loop of `init` that maps the boot memory at the base of kernel space. */
    method MapBoot() returns (ok: bool)
      requires Valid() && KernelShared(phys, dirs, cr3)
      modifies Repr()
      ensures cr3 == old(cr3) && dirs == old(dirs) && frames.Repr() == old(frames.Repr())
      ensures Shaped(old(phys)) && Directories(old(phys), dirs)
      ensures ok ==> Valid() && KernelShared(phys, dirs, cr3) && frames.state == old(frames.state)
      ensures ok ==> BootMapped(old(phys), phys, cr3, BOOT_PAGES)
      ensures ok ==> OnlyEntries(old(phys), phys, dirs, cr3, 0, 0)
      ensures ok
    {
      hide Separated, AllTaken, Preserves, Taken, Structural, SetsPage, FrameAllocator.Valid, NewFrame, Inv, Exhausted, Entry, KernelShared, Recursive;
      hide OnlyEntries, BootMapped, PageFmt;
      ghost var m := phys;
      var i := KERNEL_ADDR_BASE;
      ok := true;
      NothingTouched(phys, dirs, cr3, 0);
      NoBootPage(phys, cr3);
      while i < KERNEL_ADDR_BASE + BOOT_SIZE
        invariant KERNEL_ADDR_BASE <= i <= KERNEL_ADDR_BASE + BOOT_SIZE && i % PAGESZ == 0
        invariant Valid() && cr3 == old(cr3) && dirs == old(dirs) && frames.Repr() == old(frames.Repr())
        invariant KernelShared(phys, dirs, cr3) && frames.state == old(frames.state)
        invariant BootMapped(m, phys, cr3, i / PAGESZ - KERNEL_ADDR_BASE / PAGESZ)
        invariant OnlyEntries(m, phys, dirs, cr3, 0, 0) && ok
      {
        ghost var m1 := phys;
        SharedTable(phys, dirs, cr3, i / SEGMENT);
        ok := PageSet(i, PageFmt(i - KERNEL_ADDR_BASE, 3));
        SameDirectories(m, m1, phys, dirs, cr3);
        PreservesKernel(m1, frames.state, phys, frames.state, dirs, frames.end, cr3);
        BootMapsOne(m, m1, phys, dirs, cr3, i / PAGESZ - KERNEL_ADDR_BASE / PAGESZ, PageFmt(i - KERNEL_ADDR_BASE, 3));
        i := i + PAGESZ;
      }
    }

    /** Sets the entry of a page below the temporary window, giving it a table if need be. */
    method PageSet(page: Word, value: Word) returns (ok: bool)
      requires Valid() && page < TMP_MAP
      modifies Repr()
      ensures cr3 == old(cr3) && dirs == old(dirs) && frames.Repr() == old(frames.Repr())
      ensures ok ==> Valid()
      ensures ok ==> SetsPage(old(phys), phys, dirs, cr3, page / PAGESZ, value)
      ensures ok ==> Preserves(old(phys), old(frames.state), phys, frames.state, dirs, frames.end)
      ensures ok && Present(old(phys)[cr3][page / 0x40_0000]) ==>
                frames.state == old(frames.state) && OnlyEntries(old(phys), phys, dirs, cr3, 0, 0)
      ensures ok && !Present(old(phys)[cr3][page / 0x40_0000]) ==>
                NewFrame(old(frames.state), frames.end).Got? && NewFrame(old(frames.state), frames.end).after == frames.state
      ensures !ok ==> Starved() && Exhausted(old(frames.state), frames.end) && !Present(old(phys)[cr3][page / 0x40_0000])
    {
      hide Separated, AllTaken, Preserves, Taken, Structural, SetsPage, FrameAllocator.Valid, NewFrame, Inv, Exhausted, Touch;
      var i, p := page / 0x40_0000, page / PAGESZ;
      assert p / WORDS == i;
      ghost var m, s := phys, frames.state;
      CmapIsDirectory(phys, cr3, i);
      var pde := Load(CMAP + 4 * i);
      if Present(pde) {
        WriteEntry(p, value);
        return true;
      }
      ghost var f: nat;
      ok, f := PageTouch(page);
      if !ok {
        return;
      }
      ghost var m1 := phys;
      WriteEntry(p, value);
      PreservesTransitive(m, s, m1, frames.state, phys, frames.state, dirs, frames.end);
      TouchPreserves(m, dirs, cr3, i, s, frames.end, f, frames.state);
      TouchThenSets(m, m1, phys, dirs, cr3, p, value, f);
    }

    /** The write to `ctbl` at the end of `page_set`. */
    method WriteEntry(p: nat, value: Word)
      requires Valid() && p < TMP_PAGE && Present(phys[cr3][p / WORDS])
      modifies this`phys
      ensures Valid()
      ensures SetsPage(old(phys), phys, dirs, cr3, p, value)
      ensures Preserves(old(phys), frames.state, phys, frames.state, dirs, frames.end)
      ensures OnlyEntries(old(phys), phys, dirs, cr3, 0, 0)
    {
      hide Separated, AllTaken, Preserves, Taken, Structural, SetsPage, FrameAllocator.Valid, NewFrame, Inv, Exhausted;
      PutPreserves(phys, dirs, cr3, p, value, frames.state, frames.end);
      CtblIsTable(phys, cr3, p);
      Store(CTBL + 4 * p, value);
    }

    /** Maps every page that meets the range, keeping those already there. */
    method MemAlloc(base: Word, size: Word, flags: Word) returns (ok: bool)
      requires Valid() && base + size <= TMP_MAP
      modifies Repr()
      ensures cr3 == old(cr3) && dirs == old(dirs) && frames.Repr() == old(frames.Repr())
      ensures ok ==> Valid()
      ensures ok ==> MapsRange(old(phys), old(frames.state), phys, frames.state, dirs, frames.end, cr3,
                               base / PAGESZ, (base + size + PAGESZ - 1) / PAGESZ, flags)
      ensures ok ==> Preserves(old(phys), old(frames.state), phys, frames.state, dirs, frames.end)
      ensures Shaped(old(phys)) && cr3 < PAGE_COUNT
      ensures !ok ==> Starved() && !AllPresent(old(phys), cr3, base / PAGESZ, (base + size + PAGESZ - 1) / PAGESZ)
    {
      hide Separated, AllTaken, Preserves, Taken, Structural, SetsPage, FrameAllocator.Valid, NewFrame, Inv, Exhausted, Entry, MapsRange;
      ghost var m, s := phys, frames.state;
      MapsNothing(phys, frames.state, dirs, frames.end, cr3, base / PAGESZ, flags);
      PreservesSelf(phys, frames.state, dirs, frames.end);
      var i := base / PAGESZ * PAGESZ;
      ok := true;
      while i < base + size
        invariant Valid() && cr3 == old(cr3) && dirs == old(dirs) && frames.Repr() == old(frames.Repr())
        invariant i % PAGESZ == 0 && base / PAGESZ <= i / PAGESZ <= (base + size + PAGESZ - 1) / PAGESZ
        invariant MapsRange(m, s, phys, frames.state, dirs, frames.end, cr3, base / PAGESZ, i / PAGESZ, flags)
        invariant Preserves(m, s, phys, frames.state, dirs, frames.end)
      {
        ghost var m1, s1 := phys, frames.state;
        ok := MapPage(i, flags, m, s, base / PAGESZ);
        if !ok {
          NotPresentYet(m, s, m1, s1, dirs, frames.end, cr3, base / PAGESZ, i / PAGESZ,
                        (base + size + PAGESZ - 1) / PAGESZ, flags);
          return;
        }
        i := i + PAGESZ;
      }
    }

    /** One round of `MemAlloc`. */
    method MapPage(i: Word, flags: Word, ghost m: Phys, ghost s: State, ghost lo: nat) returns (ok: bool)
      requires Valid() && i < TMP_MAP && i % PAGESZ == 0 && lo <= i / PAGESZ
      requires Shaped(m) && Directories(m, dirs)
      requires MapsRange(m, s, phys, frames.state, dirs, frames.end, cr3, lo, i / PAGESZ, flags)
      requires Preserves(m, s, phys, frames.state, dirs, frames.end)
      modifies Repr()
      ensures cr3 == old(cr3) && dirs == old(dirs) && frames.Repr() == old(frames.Repr())
      ensures ok ==> Valid()
      ensures ok ==> MapsRange(m, s, phys, frames.state, dirs, frames.end, cr3, lo, i / PAGESZ + 1, flags)
      ensures ok ==> Preserves(m, s, phys, frames.state, dirs, frames.end)
      ensures !ok ==> Starved() && !Present(Entry(old(phys), cr3, i / PAGESZ))
    {
      hide Separated, AllTaken, Preserves, Taken, Structural, SetsPage, FrameAllocator.Valid, NewFrame, Inv, Exhausted, Entry, MapsRange;
      var e := PageGet(i);
      if Present(e) {
        MapsPresent(m, s, phys, frames.state, dirs, frames.end, cr3, lo, i / PAGESZ, flags);
        return true;
      }
      ghost var m1, s1 := phys, frames.state;
      var frame: nat;
      ok, frame := frames.FrameNew();
      if !ok {
        return;
      }
      ghost var t, g := frames.state, frame / PAGESZ;
      AlignedFrame(s1, frames.end);
      NewDataFrame(phys, dirs, s1, frames.end, g, t);
      var v := PageFmt(frame, WithPresent(flags));
      PageFmtFields(frame, WithPresent(flags));
      NewEntryFlags(frame, flags);
      ok := PageSet(i, v);
      if !ok {
        return;
      }
      MapOneMore(m, s, m1, s1, t, phys, frames.state, dirs, frames.end, cr3, lo, i / PAGESZ, flags, g, v);
    }
  }

  /** `(flags & PF_MASK) | PF_PRES`, before masking. */
  function WithPresent(flags: Word): Word {
    if Present(flags) then flags else flags + 1
  }

  lemma AlignedFrame(s: State, end: nat)
    requires Inv(s) && NewFrame(s, end).Got? && end < BOOT_SIZE
    ensures NewFrame(s, end).frame == NewFrame(s, end).frame / PAGESZ * PAGESZ
  {
    NewIsFresh(s, end);
  }

  /** All pages from `lo` up to `hi` are mapped. */
  ghost predicate AllPresent(m: Phys, d: nat, lo: nat, hi: nat)
    requires Shaped(m) && d < PAGE_COUNT && hi <= PAGE_COUNT
  {
    forall p: nat :: lo <= p < hi ==> Present(Entry(m, d, p))
  }

  lemma NotPresentYet(m: Phys, s: State, m1: Phys, s1: State, dirs: set<nat>, end: nat, d: nat, lo: nat, p: nat, hi: nat, flags: Word)
    requires Shaped(m) && Shaped(m1) && Directories(m, dirs) && Directories(m1, dirs) && d in dirs && lo <= p < hi <= TMP_PAGE
    requires MapsRange(m, s, m1, s1, dirs, end, d, lo, p, flags) && !Present(Entry(m1, d, p))
    ensures !AllPresent(m, d, lo, hi)
  {
    hide IsNew, Entry;
    assert Entry(m1, d, p) == Entry(m, d, p);
  }

  lemma MapsNothing(m: Phys, s: State, dirs: set<nat>, end: nat, d: nat, lo: nat, flags: Word)
    requires Shaped(m) && Directories(m, dirs) && d in dirs && lo <= TMP_PAGE
    ensures MapsRange(m, s, m, s, dirs, end, d, lo, lo, flags)
  {
  }

  lemma MapsPresent(m: Phys, s: State, m': Phys, s': State, dirs: set<nat>, end: nat, d: nat, lo: nat, p: nat, flags: Word)
    requires Shaped(m) && Shaped(m') && Directories(m, dirs) && Directories(m', dirs) && d in dirs && lo <= p < TMP_PAGE
    requires MapsRange(m, s, m', s', dirs, end, d, lo, p, flags) && Present(Entry(m', d, p))
    ensures MapsRange(m, s, m', s', dirs, end, d, lo, p + 1, flags)
  {
    hide IsNew, Entry;
    assert Entry(m', d, p) == Entry(m, d, p);
  }
}
