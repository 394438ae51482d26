/** Paging contexts: cloning and tearing down whole address spaces through the second
    recursive window at TMP_MAP. */
module Contexts {
  import opened Arith
  import opened Base
  import opened Frames
  import opened Paging

  const TMP_SRC := 0xFF01_0000
  const EXMAP := 0xFFBF_F000      // TMP_MAP + 0x3FF000
  const PCTX_COUNT := 1024
  const USER_PAGES := 768 * 1024  // SYSTEM_ADDR_BASE >> 12

  // ---------------------------------------------------------------------------
  // The windows
  // ---------------------------------------------------------------------------

  /** Directory `d` shows directory `x` in its temporary window. */
  ghost predicate Shows(m: Phys, d: nat, x: nat)
    requires Shaped(m) && d < PAGE_COUNT
  {
    Present(m[d][TMP_DIR]) && !Large(m[d][TMP_DIR]) && FrameOf(m[d][TMP_DIR]) == x
  }

  /** The external directory window. */
  lemma ExmapIsDirectory(m: Phys, d: nat, x: nat, i: nat)
    requires Shaped(m) && d < PAGE_COUNT && x < PAGE_COUNT && Shows(m, d, x) && Recursive(m, x) && i < WORDS
    ensures Walk(m, d, EXMAP + 4 * i) == Some((x, i))
  {
    assert (EXMAP + 4 * i) / 0x40_0000 == TMP_DIR && (EXMAP + 4 * i) / PAGESZ % WORDS == PGE_DIR;
  }

  /** The external table window. */
  lemma ExtblIsTable(m: Phys, d: nat, x: nat, i: nat, j: nat)
    requires Shaped(m) && d < PAGE_COUNT && x < PAGE_COUNT && Shows(m, d, x) && i < PGE_DIR && j < WORDS
    requires Present(m[x][i])
    ensures Walk(m, d, TMP_MAP + 4 * (i * WORDS + j)) == Some((FrameOf(m[x][i]), j))
  {
    var va := TMP_MAP + 4 * (i * WORDS + j);
    assert va / 0x40_0000 == TMP_DIR && va / PAGESZ % WORDS == i && va % PAGESZ / 4 == j;
  }

  // ---------------------------------------------------------------------------
  // Independence of user space
  // ---------------------------------------------------------------------------

  datatype Write = Write(dir: nat, page: nat, value: Word)

  /** `ms` is the memory before and after each of a series of `page_set` calls, made in
      any of the spaces, on user pages. */
  ghost predicate UserWrites(ms: seq<Phys>, dirs: set<nat>, ws: seq<Write>) {
    && |ms| == |ws| + 1
    && Shaped(ms[0]) && Separated(ms[0], dirs)
    && forall k {:trigger ws[k]} :: 0 <= k < |ws| ==> UserWrite(ms[k], ms[k + 1], dirs, ws[k])
  }

  ghost predicate UserWrite(m: Phys, m': Phys, dirs: set<nat>, w: Write) {
    && w.dir in dirs && w.page < USER_PAGES
    && Shaped(m) && Directories(m, dirs)
    && SetsPage(m, m', dirs, w.dir, w.page, w.value)
  }

  /** What page `p` of space `d` holds after the writes, looking at the writes made in
      that space only. */
  function Replay(ws: seq<Write>, d: nat, p: nat, initial: Word): Word {
    if ws == [] then initial
    else
      var w := ws[|ws| - 1];
      if w.dir == d && w.page == p then w.value else Replay(ws[..|ws| - 1], d, p, initial)
  }

  /** Every space behaves as a flat map of its own: user pages hold what was last written
      in the same space, whatever was written in the others, and no page above user space
      changes. */
  lemma {:induction false} UserSpacesIndependent(ms: seq<Phys>, dirs: set<nat>, ws: seq<Write>, n: nat, d: nat, p: nat)
    requires UserWrites(ms, dirs, ws) && n <= |ws| && d in dirs && p < TMP_PAGE
    ensures Shaped(ms[n]) && Separated(ms[n], dirs)
    ensures Entry(ms[n], d, p) == Replay(ws[..n], d, p, Entry(ms[0], d, p))
  {
    if n > 0 {
      hide UserWrite, Entry, Separated;
      UserSpacesIndependent(ms, dirs, ws, n - 1, d, p);
      assert UserWrite(ms[n - 1], ms[n], dirs, ws[n - 1]);
      OneUserWrite(ms[n - 1], ms[n], dirs, ws[n - 1], d, p);
      assert ws[..n][..n - 1] == ws[..n - 1];
    }
  }

  lemma OneUserWrite(m: Phys, m': Phys, dirs: set<nat>, w: Write, d: nat, p: nat)
    requires Shaped(m) && Separated(m, dirs) && d in dirs && p < TMP_PAGE
    requires UserWrite(m, m', dirs, w)
    ensures Shaped(m') && Separated(m', dirs)
    ensures Entry(m', d, p) == if w.dir == d && w.page == p then w.value else Entry(m, d, p)
  {
    var i := w.page / WORDS;
    if d != w.dir && Present(m[w.dir][i]) {
      assert Names(m, w.dir, i, FrameOf(m[w.dir][i]));
    }
  }

  // ---------------------------------------------------------------------------
  // Cloning
  // ---------------------------------------------------------------------------

  /** Directory `x` has no user table and the tables of `d` above user space. */
  ghost predicate Clones(m: Phys, d: nat, x: nat)
    requires Shaped(m) && d < PAGE_COUNT && x < PAGE_COUNT
  {
    && Recursive(m, x)
    && (forall i: nat :: i < USER_DIRS ==> m[x][i] == 0)
    && (forall i: nat :: USER_DIRS <= i < TMP_DIR ==> m[x][i] == m[d][i])
  }

  /** A clone joins the spaces without aliasing a user table. */
  lemma CloneJoins(m: Phys, dirs: set<nat>, d: nat, x: nat)
    requires Shaped(m) && Separated(m, dirs) && d in dirs && x < PAGE_COUNT
    requires !Structural(m, dirs, x) && Clones(m, d, x)
    ensures Directories(m, dirs + {x}) && Separated(m, dirs + {x})
    ensures forall p: nat :: USER_PAGES <= p < TMP_PAGE ==> Entry(m, x, p) == Entry(m, d, p)
    ensures forall p: nat :: p < USER_PAGES ==> Entry(m, x, p) == 0
    ensures forall g: nat :: Structural(m, dirs + {x}, g) <==> Structural(m, dirs, g) || g == x
  {
    forall j: nat, t | j < TMP_DIR
      ensures Names(m, x, j, t) <==> j >= USER_DIRS && Names(m, d, j, t)
    {
      assert m[x][j] == if j < USER_DIRS then 0 else m[d][j];
    }
    forall e, i: nat | e in dirs && i < TMP_DIR && Present(m[e][i])
      ensures FrameOf(m[e][i]) != x
    {
      assert Names(m, e, i, FrameOf(m[e][i]));
    }
  }

  /** A page above user space that is set in `d` after the clone `x` was made is seen in `x`
      exactly if its table was there to be shared, or the value is zero. */
  lemma CloneSeesIff(m: Phys, m': Phys, dirs: set<nat>, d: nat, x: nat, p: nat, v: Word)
    requires Shaped(m) && Directories(m, dirs) && d in dirs && x in dirs && d != x && USER_PAGES <= p < TMP_PAGE
    requires Clones(m, d, x) && SetsPage(m, m', dirs, d, p, v)
    ensures Entry(m', x, p) == v <==> Present(m[d][p / WORDS]) || v == 0
  {
    assert m[x][p / WORDS] == m[d][p / WORDS];
  }

  /** What building a directory in frame `x` leaves: the spaces read as before except at
      the page used as a window on `x`, and no memory but tables and `x` is written. */
  ghost predicate Builds(m: Phys, s: State, m': Phys, s': State, dirs: set<nat>, end: nat, x: nat)
    requires Shaped(m) && Directories(m, dirs)
  {
    && Shaped(m') && Directories(m', dirs) && Separated(m', dirs)
    && (forall e, p: nat :: e in dirs && p < TMP_PAGE && p != TMP_SRC / PAGESZ ==> Entry(m', e, p) == Entry(m, e, p))
    && x < PAGE_COUNT && !Taken(s, end, x) && Taken(s', end, x) && !Structural(m', dirs, x)
    && AllTaken(m', dirs, s', end)
    && (forall f: nat :: Taken(s, end, f) ==> Taken(s', end, f))
    && (forall f: nat :: Structural(m', dirs, f) ==> Structural(m, dirs, f) || !Taken(s, end, f))
    && (forall f: nat :: f < PAGE_COUNT && f != x && !Structural(m', dirs, f) ==> m'[f] == m[f])
    && KeepsTables(m, m', dirs)
  }

  lemma BuildsFrom(m: Phys, s: State, t: State, m1: Phys, s1: State, dirs: set<nat>, end: nat, d: nat, x: nat, v: Word)
    requires Shaped(m) && Separated(m, dirs) && AllTaken(m, dirs, s, end) && d in dirs
    requires Shaped(m1) && Directories(m1, dirs)
    requires x < PAGE_COUNT && !Taken(s, end, x) && Taken(t, end, x) && !Structural(m, dirs, x)
    requires Preserves(m, s, m, t, dirs, end) && Preserves(m, t, m1, s1, dirs, end)
    requires AllTaken(m1, dirs, s1, end)
    requires SetsPage(m, m1, dirs, d, TMP_SRC / PAGESZ, v)
    ensures Builds(m, s, m1, s1, dirs, end, x)
  {
    hide Taken, Structural, Entry, Recursive;
    PreservesTransitive(m, s, m, t, m1, s1, dirs, end);
  }

  lemma BuildsOn(m: Phys, s: State, m1: Phys, s1: State, m2: Phys, dirs: set<nat>, end: nat, x: nat)
    requires Shaped(m) && Directories(m, dirs) && Builds(m, s, m1, s1, dirs, end, x)
    requires SameSpaces(m1, m2, dirs)
    requires forall f: nat :: f < PAGE_COUNT && f != x && !Structural(m2, dirs, f) ==> m2[f] == m1[f]
    ensures Builds(m, s, m2, s1, dirs, end, x)
  {
    hide Taken, Structural, Entry, Recursive;
  }

  /** Spaces have been added, and what was there before has been left alone: the pages of
      the old spaces, all memory in use that holds no table, and the sharing of the kernel's
      tables. */
  ghost predicate Grows(m: Phys, s: State, dirs: set<nat>, m': Phys, s': State, dirs': set<nat>, end: nat, d: nat)
    requires Shaped(m) && Directories(m, dirs) && d in dirs
  {
    && Shaped(m') && Directories(m', dirs') && dirs <= dirs'
    && (forall e, p: nat :: e in dirs && p < TMP_PAGE && p != TMP_SRC / PAGESZ ==> Entry(m', e, p) == Entry(m, e, p))
    && (forall f: nat :: Taken(s, end, f) ==> Taken(s', end, f))
    && (forall f: nat :: Structural(m', dirs', f) ==> Structural(m, dirs, f) || !Taken(s, end, f))
    && (forall f: nat :: f < PAGE_COUNT && Taken(s, end, f) && !Structural(m, dirs, f) ==> m'[f] == m[f])
    && (KernelShared(m, dirs, d) ==> KernelShared(m', dirs', d))
  }

  lemma GrowsSelf(m: Phys, s: State, dirs: set<nat>, end: nat, d: nat)
    requires Shaped(m) && Directories(m, dirs) && d in dirs
    ensures Grows(m, s, dirs, m, s, dirs, end, d)
  {
  }

  lemma GrowsTransitive(m: Phys, s: State, dirs: set<nat>, m1: Phys, s1: State, dirs1: set<nat>,
                        m2: Phys, s2: State, dirs2: set<nat>, end: nat, d: nat)
    requires Shaped(m) && Directories(m, dirs) && Shaped(m1) && Directories(m1, dirs1) && d in dirs && d in dirs1
    requires Grows(m, s, dirs, m1, s1, dirs1, end, d) && Grows(m1, s1, dirs1, m2, s2, dirs2, end, d)
    ensures Grows(m, s, dirs, m2, s2, dirs2, end, d)
  {
    hide Taken, Structural, Entry, Directories, KernelShared;
  }

  /** A clone shares the kernel's tables. */
  lemma CloneShares(m: Phys, m': Phys, dirs: set<nat>, d: nat, x: nat)
    requires Shaped(m) && Shaped(m') && d in dirs && x < PAGE_COUNT && forall e :: e in dirs ==> e < PAGE_COUNT
    requires KernelShared(m, dirs, d) && KeepsTables(m, m', dirs) && Clones(m', d, x)
    ensures KernelShared(m', dirs + {x}, d)
  {
    KernelStays(m, m', dirs, d);
  }

  lemma CloneGrows(m: Phys, s: State, m': Phys, s': State, dirs: set<nat>, end: nat, d: nat, x: nat)
    requires Shaped(m) && Directories(m, dirs) && d in dirs
    requires Builds(m, s, m', s', dirs, end, x) && Clones(m', d, x)
    ensures Grows(m, s, dirs, m', s', dirs + {x}, end, d)
  {
    hide Taken, Structural, Entry, Clones;
    CloneJoins(m', dirs, d, x);
    if KernelShared(m, dirs, d) {
      CloneShares(m, m', dirs, d, x);
    }
  }

  // ---------------------------------------------------------------------------
  // Tearing down
  // ---------------------------------------------------------------------------

  /** The frames the inner loop of `space_free` frees for the first `j` words of a table. */
  function RowFrees(row: seq<Word>, j: nat): seq<nat>
    requires j <= |row|
  {
    if j == 0 then []
    else if Present(row[j - 1]) then RowFrees(row, j - 1) + [PageUfmt(row[j - 1])]
    else RowFrees(row, j - 1)
  }

  /** The frames the outer loop frees for the first `i` entries of directory `x`. */
  function DirFrees(m: Phys, x: nat, i: nat): seq<nat>
    requires Shaped(m) && x < PAGE_COUNT && i <= WORDS
  {
    if i == 0 then []
    else if Present(m[x][i - 1]) then
      DirFrees(m, x, i - 1) + RowFrees(m[FrameOf(m[x][i - 1])], WORDS) + [PageUfmt(m[x][i - 1])]
    else DirFrees(m, x, i - 1)
  }

  /** How many of the first `j` words of a table are present and name frame `g`. */
  function NamedInRow(row: seq<Word>, g: nat, j: nat): nat
    requires j <= |row|
  {
    if j == 0 then 0 else NamedInRow(row, g, j - 1) + if Present(row[j - 1]) && FrameOf(row[j - 1]) == g then 1 else 0
  }

  /** How many user pages and user tables of space `x` are frame `g`, up to entry `i`. */
  function NamedInSpace(m: Phys, x: nat, g: nat, i: nat): nat
    requires Shaped(m) && x < PAGE_COUNT && i <= WORDS
  {
    if i == 0 then 0
    else if Present(m[x][i - 1]) then
      NamedInSpace(m, x, g, i - 1) + NamedInRow(m[FrameOf(m[x][i - 1])], g, WORDS)
      + (if FrameOf(m[x][i - 1]) == g then 1 else 0)
    else NamedInSpace(m, x, g, i - 1)
  }

  lemma {:induction false} TimesConcat(a: seq<nat>, b: seq<nat>, g: nat)
    ensures Times(a + b, g) == Times(a, g) + Times(b, g)
  {
    if b == [] {
      assert a + b == a;
    } else {
      TimesConcat(a, b[..|b| - 1], g);
      assert (a + b)[..|a + b| - 1] == a + b[..|b| - 1];
    }
  }

  lemma UfmtFrame(e: Word)
    ensures PageUfmt(e) / PAGESZ == FrameOf(e)
  {
    DivModUnique(e / PAGESZ, 0, PAGESZ, e / PAGESZ * PAGESZ);
  }

  lemma {:induction false} RowFreesNamed(row: seq<Word>, g: nat, j: nat)
    requires j <= |row|
    ensures Times(RowFrees(row, j), g) == NamedInRow(row, g, j)
  {
    if j > 0 {
      RowFreesNamed(row, g, j - 1);
      if Present(row[j - 1]) {
        UfmtFrame(row[j - 1]);
        TimesConcat(RowFrees(row, j - 1), [PageUfmt(row[j - 1])], g);
        TimesOne(PageUfmt(row[j - 1]), g);
      }
    }
  }

  lemma TimesOne(f: nat, g: nat)
    ensures Times([f], g) == if f / PAGESZ == g then 1 else 0
  {
    assert [f][..0] == [];
  }

  lemma {:induction false} DirFreesNamed(m: Phys, x: nat, g: nat, i: nat)
    requires Shaped(m) && x < PAGE_COUNT && i <= WORDS
    ensures Times(DirFrees(m, x, i), g) == NamedInSpace(m, x, g, i)
  {
    if i > 0 {
      DirFreesNamed(m, x, g, i - 1);
      var e := m[x][i - 1];
      if Present(e) {
        var row := m[FrameOf(e)];
        UfmtFrame(e);
        RowFreesNamed(row, g, WORDS);
        TimesOne(PageUfmt(e), g);
        TimesConcat(DirFrees(m, x, i - 1), RowFrees(row, WORDS), g);
        TimesConcat(DirFrees(m, x, i - 1) + RowFrees(row, WORDS), [PageUfmt(e)], g);
      }
    }
  }

  /** All frames `space_free` frees, in order. */
  function Doomed(m: Phys, x: nat): seq<nat>
    requires Shaped(m) && x < PAGE_COUNT
  {
    DirFrees(m, x, USER_DIRS) + [x * PAGESZ]
  }

  /** Tearing a space down lowers the count of every frame by the number of its present
      user pages, user tables and directory that are this frame, floored at zero, and
      leaves the allocator's frames what they were. Frames it does not know stay at zero. */
  lemma TeardownCounts(m: Phys, x: nat, s: State, g: nat)
    requires Shaped(m) && x < PAGE_COUNT && Inv(s)
    ensures Inv(FreeAll(s, Doomed(m, x))) && Managed(FreeAll(s, Doomed(m, x))) == Managed(s)
    ensures var left := RefCount(s, g) - NamedInSpace(m, x, g, USER_DIRS) - if g == x then 1 else 0;
      RefCount(FreeAll(s, Doomed(m, x)), g) == if left > 0 then left else 0
  {
    DirFreesNamed(m, x, g, USER_DIRS);
    TimesConcat(DirFrees(m, x, USER_DIRS), [x * PAGESZ], g);
    TimesOne(x * PAGESZ, g);
    assert x * PAGESZ / PAGESZ == x;
    FreeAllCounts(s, Doomed(m, x), g);
  }

  /** The state of memory when the first `i` user entries of `x` have been torn down. */
  ghost predicate TornDown(m: Phys, m': Phys, x: nat, i: nat)
    requires Shaped(m) && x < PAGE_COUNT && i <= USER_DIRS
  {
    && Shaped(m')
    && (forall k: nat :: i <= k < WORDS ==> m'[x][k] == m[x][k])
    && (forall k: nat :: k < i ==> !Present(m'[x][k]))
    && (forall g: nat :: g < PAGE_COUNT && g != x && !TableBelow(m, x, i, g) ==> m'[g] == m[g])
  }

  ghost predicate TableBelow(m: Phys, x: nat, i: nat, g: nat)
    requires Shaped(m) && x < PAGE_COUNT && i <= WORDS
  {
    exists k: nat :: k < i && Names(m, x, k, g)
  }

  lemma NextTableIntact(m: Phys, m': Phys, dirs: set<nat>, x: nat, i: nat)
    requires Shaped(m) && Separated(m, dirs) && x in dirs && i < USER_DIRS && TornDown(m, m', x, i)
    ensures m'[x][i] == m[x][i]
    ensures Present(m[x][i]) ==> FrameOf(m[x][i]) !in dirs && m'[FrameOf(m[x][i])] == m[FrameOf(m[x][i])]
  {
    if Present(m[x][i]) {
      assert Names(m, x, i, FrameOf(m[x][i]));
    }
  }

  lemma TearsOneMore(m: Phys, m1: Phys, m2: Phys, m3: Phys, x: nat, i: nat)
    requires Shaped(m) && x < PAGE_COUNT && i < USER_DIRS && TornDown(m, m1, x, i) && Present(m[x][i])
    requires SameBut(m1, m2, FrameOf(m[x][i])) && FrameOf(m[x][i]) != x && m3 == Poke(m2, x, i, 0)
    ensures TornDown(m, m3, x, i + 1)
  {
    var t := FrameOf(m[x][i]);
    assert m2[x] == m1[x];
    assert Names(m, x, i, t);
    forall g: nat | g < PAGE_COUNT && g != x && !TableBelow(m, x, i + 1, g)
      ensures m3[g] == m[g]
    {
      assert g != t;
      assert !TableBelow(m, x, i, g);
    }
  }

  lemma SkipsOne(m: Phys, m': Phys, x: nat, i: nat)
    requires Shaped(m) && x < PAGE_COUNT && i < USER_DIRS && TornDown(m, m', x, i) && !Present(m[x][i])
    ensures TornDown(m, m', x, i + 1)
  {
    forall g: nat | g < PAGE_COUNT && g != x && !TableBelow(m, x, i + 1, g)
      ensures m'[g] == m[g]
    {
      assert !TableBelow(m, x, i, g);
    }
  }

  /** The other spaces read as before a teardown and share no table with its user part. */
  lemma OthersIntact(m: Phys, m': Phys, dirs: set<nat>, x: nat)
    requires Shaped(m) && Separated(m, dirs) && x in dirs && TornDown(m, m', x, USER_DIRS)
    ensures Shaped(m') && Directories(m', dirs - {x}) && Separated(m', dirs - {x})
    ensures forall e, p: nat :: e in dirs && e != x && p < TMP_PAGE ==> Entry(m', e, p) == Entry(m, e, p)
    ensures Directories(m, dirs - {x})
    ensures forall g: nat :: Structural(m', dirs - {x}, g) <==> Structural(m, dirs - {x}, g)
    ensures forall g: nat :: Structural(m, dirs - {x}, g) ==> g != x && !TableBelow(m, x, USER_DIRS, g)
  {
    var ds := dirs - {x};
    forall g: nat, e, i: nat | e in ds && i < TMP_DIR && Names(m, e, i, g)
      ensures g != x && !TableBelow(m, x, USER_DIRS, g)
    {
      assert FrameOf(m[e][i]) !in dirs;
    }
    forall e | e in ds
      ensures !TableBelow(m, x, USER_DIRS, e) && m'[e] == m[e]
    {
      forall k: nat | k < USER_DIRS
        ensures !Names(m, x, k, e)
      {
        assert Present(m[x][k]) ==> FrameOf(m[x][k]) !in dirs;
      }
    }
    forall e, i: nat, g | e in ds && i < TMP_DIR
      ensures Names(m', e, i, g) <==> Names(m, e, i, g)
    {
    }
    forall e, p: nat | e in ds && p < TMP_PAGE
      ensures Entry(m', e, p) == Entry(m, e, p)
    {
      if Present(m[e][p / WORDS]) {
        assert Names(m, e, p / WORDS, FrameOf(m[e][p / WORDS]));
      }
    }
  }

  /** Space `x` is gone, and the others, their tables and all memory that held no table of
      any space have been left alone. */
  ghost predicate Drops(m: Phys, dirs: set<nat>, m': Phys, x: nat)
    requires Shaped(m) && Directories(m, dirs)
  {
    && Shaped(m') && Directories(m', dirs - {x})
    && (forall e, p: nat :: e in dirs && e != x && p < TMP_PAGE ==> Entry(m', e, p) == Entry(m, e, p))
    && (forall f: nat :: Structural(m', dirs - {x}, f) ==> Structural(m, dirs, f))
    && (forall f: nat :: f < PAGE_COUNT && !Structural(m, dirs, f) ==> m'[f] == m[f])
    && KeepsTables(m, m', dirs - {x})
  }

  lemma TeardownDrops(m0: Phys, m: Phys, m': Phys, dirs: set<nat>, d: nat, x: nat, v: Word)
    requires Shaped(m0) && Separated(m0, dirs) && d in dirs && x in dirs
    requires m == Poke(m0, d, TMP_DIR, v) && TornDown(m, m', x, USER_DIRS)
    ensures Drops(m0, dirs, m', x)
  {
    hide Entry, Separated, Structural;
    WindowWrite(m0, dirs, d, v);
    OthersIntact(m, m', dirs, x);
    FewerStructural(m, dirs, x);
    forall f: nat | f < PAGE_COUNT && !Structural(m0, dirs, f)
      ensures m'[f] == m[f] == m0[f]
    {
      NoTable(m, dirs, x, f);
    }
    forall e | e in dirs && e != x
      ensures m'[e] == m[e]
    {
      DirectoryKept(m, m', dirs, x, e);
    }
  }

  lemma FewerStructural(m: Phys, dirs: set<nat>, x: nat)
    requires Shaped(m) && Directories(m, dirs)
    ensures Directories(m, dirs - {x}) && forall f: nat :: Structural(m, dirs - {x}, f) ==> Structural(m, dirs, f)
  {
  }

  lemma NoTable(m: Phys, dirs: set<nat>, x: nat, f: nat)
    requires Shaped(m) && Directories(m, dirs) && x in dirs && !Structural(m, dirs, f)
    ensures f !in dirs && !TableBelow(m, x, USER_DIRS, f)
  {
  }

  lemma DirectoryKept(m: Phys, m': Phys, dirs: set<nat>, x: nat, e: nat)
    requires Shaped(m) && Separated(m, dirs) && x in dirs && e in dirs && e != x && TornDown(m, m', x, USER_DIRS)
    ensures m'[e] == m[e]
  {
    forall k: nat | k < USER_DIRS
      ensures !Names(m, x, k, e)
    {
      assert Present(m[x][k]) ==> FrameOf(m[x][k]) !in dirs;
    }
  }

  lemma {:induction false} FreeAllConcat(s: State, a: seq<nat>, b: seq<nat>)
    ensures FreeAll(s, a + b) == FreeAll(FreeAll(s, a), b)
  {
    if b == [] {
      assert a + b == a;
    } else {
      FreeAllConcat(s, a, b[..|b| - 1]);
      assert (a + b)[..|a + b| - 1] == a + b[..|b| - 1];
    }
  }

  lemma TornNothing(m: Phys, x: nat, s: State)
    requires Shaped(m) && x < PAGE_COUNT
    ensures TornDown(m, m, x, 0) && FreeAll(s, DirFrees(m, x, 0)) == s
  {
  }

  /** The directories stay reachable through the windows during a teardown. */
  lemma WindowIntact(m: Phys, m': Phys, dirs: set<nat>, d: nat, x: nat, i: nat)
    requires Shaped(m) && Separated(m, dirs) && d in dirs && x in dirs && i <= USER_DIRS
    requires Shows(m, d, x) && TornDown(m, m', x, i)
    ensures Shaped(m') && Shows(m', d, x) && Recursive(m', x)
  {
    assert m'[x][PGE_DIR] == m[x][PGE_DIR];
    if d == x {
      assert m'[d][TMP_DIR] == m[d][TMP_DIR];
    } else {
      assert !TableBelow(m, x, i, d) by {
        forall k: nat | k < i
          ensures !Names(m, x, k, d)
        {
          assert Present(m[x][k]) ==> FrameOf(m[x][k]) !in dirs;
        }
      }
    }
  }

  lemma {:induction false} DirFreesFrame(m: Phys, m': Phys, x: nat, i: nat)
    requires Shaped(m) && Shaped(m') && x < PAGE_COUNT && i <= USER_DIRS
    requires forall k: nat :: k < USER_DIRS ==> m'[x][k] == m[x][k]
    requires forall k: nat :: k < USER_DIRS && Present(m[x][k]) ==> m'[FrameOf(m[x][k])] == m[FrameOf(m[x][k])]
    ensures DirFrees(m', x, i) == DirFrees(m, x, i)
  {
    if i > 0 {
      DirFreesFrame(m, m', x, i - 1);
      assert m'[x][i - 1] == m[x][i - 1];
    }
  }

  /** Showing a space changes nothing that is about to be freed. */
  lemma ExmapDoomed(m: Phys, dirs: set<nat>, d: nat, x: nat, v: Word)
    requires Shaped(m) && Separated(m, dirs) && d in dirs && x in dirs
    ensures DirFrees(Poke(m, d, TMP_DIR, v), x, USER_DIRS) == DirFrees(m, x, USER_DIRS)
    ensures forall e, p: nat :: e in dirs && p < TMP_PAGE ==> Entry(Poke(m, d, TMP_DIR, v), e, p) == Entry(m, e, p)
  {
    WindowWrite(m, dirs, d, v);
    var m' := Poke(m, d, TMP_DIR, v);
    forall k: nat | k < USER_DIRS && Present(m[x][k])
      ensures m'[FrameOf(m[x][k])] == m[FrameOf(m[x][k])]
    {
      assert FrameOf(m[x][k]) !in dirs;
    }
    DirFreesFrame(m, m', x, USER_DIRS);
  }

  /** No user page of space `x` is a directory or table of another space. */
  ghost predicate OwnsPages(m: Phys, dirs: set<nat>, x: nat)
    requires Shaped(m) && Directories(m, dirs) && x in dirs
  {
    forall p: nat :: p < USER_PAGES && Present(Entry(m, x, p)) ==> !Structural(m, dirs - {x}, FrameOf(Entry(m, x, p)))
  }

  lemma {:induction false} RowNamesNone(row: seq<Word>, g: nat, j: nat)
    requires j <= |row| && forall k: nat :: k < j ==> !(Present(row[k]) && FrameOf(row[k]) == g)
    ensures NamedInRow(row, g, j) == 0
  {
    if j > 0 {
      RowNamesNone(row, g, j - 1);
    }
  }

  lemma {:induction false} SpaceNamesNone(m: Phys, x: nat, g: nat, i: nat)
    requires Shaped(m) && x < PAGE_COUNT && i <= USER_DIRS
    requires !TableBelow(m, x, USER_DIRS, g)
    requires forall p: nat :: p < USER_PAGES && Present(Entry(m, x, p)) ==> FrameOf(Entry(m, x, p)) != g
    ensures NamedInSpace(m, x, g, i) == 0
  {
    if i > 0 {
      SpaceNamesNone(m, x, g, i - 1);
      if Present(m[x][i - 1]) {
        var t := FrameOf(m[x][i - 1]);
        assert !Names(m, x, i - 1, g);
        forall k: nat | k < WORDS
          ensures !(Present(m[t][k]) && FrameOf(m[t][k]) == g)
        {
          PageOfRow(i - 1, k);
          assert Entry(m, x, (i - 1) * WORDS + k) == m[t][k];
        }
        RowNamesNone(m[t], g, WORDS);
      }
    }
  }

  lemma PageOfRow(i: nat, k: nat)
    requires k < WORDS
    ensures (i * WORDS + k) / WORDS == i && (i * WORDS + k) % WORDS == k
  {
    DivModUnique(i, k, WORDS, i * WORDS + k);
  }

  lemma {:induction false} FreeAllPool(s: State, frames: seq<nat>)
    ensures FreeAll(s, frames).pool == s.pool
  {
    if frames != [] {
      FreeAllPool(s, frames[..|frames| - 1]);
    }
  }

  /** Frame `g` has references left when the user part of space `x` has given up its own. */
  ghost predicate Outlives(m: Phys, x: nat, s: State, g: nat)
    requires Shaped(m) && x < PAGE_COUNT
  {
    g in s.count ==> s.count[g] > NamedInSpace(m, x, g, USER_DIRS)
  }

  /** A frame in use, other than the directory, is still in use after the teardown exactly
      if it has references left. */
  lemma TeardownSparesIff(m: Phys, x: nat, s: State, end: nat, g: nat)
    requires Shaped(m) && x < PAGE_COUNT && Inv(s) && g != x && Taken(s, end, g) && end < BOOT_SIZE
    ensures Taken(FreeAll(s, Doomed(m, x)), end, g) <==> Outlives(m, x, s, g)
  {
    hide Doomed, NamedInSpace, FreeAll;
    TeardownCounts(m, x, s, g);
    FreeAllPool(s, Doomed(m, x));
    InUseIffCounted(FreeAll(s, Doomed(m, x)), end, g);
    InUseIffCounted(s, end, g);
  }

  lemma InUseIffCounted(s: State, end: nat, g: nat)
    requires Inv(s) && end < BOOT_SIZE
    ensures RefCount(s, g) > 0 <==> g in s.count
    ensures g in s.count ==> g >= BOOT_PAGES
  {
  }

  /** The tables and directories of the other spaces all outlive space `x`. */
  ghost predicate Survives(m: Phys, dirs: set<nat>, x: nat, s: State)
    requires Shaped(m) && Directories(m, dirs) && x < PAGE_COUNT
  {
    forall g: nat :: Structural(m, dirs - {x}, g) ==> Outlives(m, x, s, g)
  }

  /** Enough for that: no user page of the space is a table of another. */
  lemma OwnedSurvives(m: Phys, dirs: set<nat>, x: nat, s: State)
    requires Shaped(m) && Separated(m, dirs) && x in dirs && Inv(s) && OwnsPages(m, dirs, x)
    ensures Survives(m, dirs, x, s)
  {
    hide Entry;
    forall g: nat | Structural(m, dirs - {x}, g)
      ensures Outlives(m, x, s, g)
    {
      forall k: nat | k < USER_DIRS
        ensures !Names(m, x, k, g)
      {
        assert Present(m[x][k]) ==> FrameOf(m[x][k]) !in dirs;
      }
      SpaceNamesNone(m, x, g, USER_DIRS);
    }
  }

  /** The exact condition for the other spaces to keep their tables through a teardown. */
  lemma TeardownKeepsTakenIff(m0: Phys, m: Phys, m': Phys, dirs: set<nat>, d: nat, x: nat, s: State, end: nat, v: Word)
    requires Shaped(m0) && Separated(m0, dirs) && d in dirs && x in dirs && d != x
    requires AllTaken(m0, dirs, s, end) && Inv(s) && end < BOOT_SIZE
    requires m == Poke(m0, d, TMP_DIR, v) && TornDown(m, m', x, USER_DIRS) && Separated(m, dirs)
    ensures Shaped(m') && Directories(m', dirs - {x})
    ensures AllTaken(m', dirs - {x}, FreeAll(s, Doomed(m0, x)), end) <==> Survives(m0, dirs, x, s)
  {
    hide Taken, Entry, Outlives, Doomed, Inv;
    var ds := dirs - {x};
    OthersIntact(m, m', dirs, x);
    assert Separated(m0, ds);
    WindowWrite(m0, ds, d, v);
    forall g: nat | Structural(m', ds, g)
      ensures Structural(m0, ds, g) && (Taken(FreeAll(s, Doomed(m0, x)), end, g) <==> Outlives(m0, x, s, g))
    {
      assert Structural(m0, ds, g) && g != x;
      assert Structural(m0, dirs, g);
      TeardownSparesIff(m0, x, s, end, g);
    }
  }

  lemma FreeAllSnoc(s: State, a: seq<nat>, f: nat)
    ensures FreeAll(s, a + [f]) == FreeFrame(FreeAll(s, a), f)
  {
    assert (a + [f])[..|a|] == a;
  }

  class ContextTable {
    const space: AddressSpace
    /** The directory of each context, zero if there is none. */
    const table: array<Word>

    constructor (space: AddressSpace)
      requires space.Valid()
      ensures this.space == space && Valid() && forall i :: 0 <= i < PCTX_COUNT ==> table[i] == 0
      ensures fresh(table)
    {
      this.space := space;
      table := new Word[PCTX_COUNT](_ => 0);
    }

    /** Contexts are address spaces, and no two are the same. */
    ghost predicate Valid()
      reads this, table, space, space.frames, space.frames.frameHash, space.frames.nodes
    {
      && space.Valid() && table !in space.Repr() && table.Length == PCTX_COUNT
      && TableOk(table[..], space.dirs)
    }

    /** Puts a clone of the current space in an empty entry. */
    method FillEntry(i: nat) returns (ok: bool)
      requires Valid() && i < PCTX_COUNT && table[i] == 0
      modifies space.Repr(), table
      ensures space.cr3 == old(space.cr3) && space.frames.Repr() == old(space.frames.Repr())
      ensures ok ==> Valid() && table[i] != 0 && table[..] == old(table[..])[i := table[i]]
      ensures ok ==> table[i] / PAGESZ !in old(space.dirs) && space.dirs == old(space.dirs) + {table[i] / PAGESZ}
      ensures ok ==> IsClone(space.phys, space.cr3, table[i] / PAGESZ)
      ensures Shaped(old(space.phys)) && Directories(old(space.phys), old(space.dirs)) && space.cr3 in old(space.dirs)
      ensures ok ==> Grows(old(space.phys), old(space.frames.state), old(space.dirs),
                           space.phys, space.frames.state, space.dirs, space.frames.end, space.cr3)
      ensures !ok ==> space.Starved()
    {
      hide AddressSpace.Valid, Entry, TableOk, Builds, Clones, Grows, Directories;
      ghost var m, s, ds, old_table := space.phys, space.frames.state, space.dirs, table[..];
      CurrentSpace(ds);
      var dest: Word;
      ok, dest := SpaceClone();
      if !ok {
        return;
      }
      CurrentSpace(space.dirs);
      BuildsApart(m, s, space.phys, space.frames.state, ds, space.frames.end, dest / PAGESZ);
      CloneGrows(m, s, space.phys, space.frames.state, ds, space.frames.end, space.cr3, dest / PAGESZ);
      assert table[..] == old_table;
      TableGains(table[..], ds, i, dest);
      table[i] := dest;
    }

    lemma SpaceFacts()
      requires space.Valid()
      ensures space.frames.Valid() && Shaped(space.phys) && Directories(space.phys, space.dirs) && Separated(space.phys, space.dirs)
    {
    }

    lemma CurrentSpace(ds: set<nat>)
      requires space.Valid() && ds == space.dirs
      ensures Shaped(space.phys) && space.cr3 in ds && Directories(space.phys, ds) && space.cr3 < PAGE_COUNT
    {
    }

    /** A new context: a clone of the current space in the first free entry. The first call
        also makes context zero. The result is -1 when the table is full; `ok` is false when
        the kernel panics for want of memory. */
    method PctxNew() returns (ok: bool, id: int)
      requires Valid()
      modifies space.Repr(), table
      ensures space.cr3 == old(space.cr3) && space.frames.Repr() == old(space.frames.Repr())
      ensures ok ==> Valid() && table[0] != 0 && old(space.dirs) <= space.dirs
      ensures Shaped(old(space.phys)) && Directories(old(space.phys), old(space.dirs)) && space.cr3 in old(space.dirs)
      ensures ok ==> Grows(old(space.phys), old(space.frames.state), old(space.dirs),
                           space.phys, space.frames.state, space.dirs, space.frames.end, space.cr3)
      ensures ok ==> forall j :: 0 < j < PCTX_COUNT && j != id ==> table[j] == old(table[j])
      ensures ok ==> if id == -1 then forall j :: 0 <= j < PCTX_COUNT ==> table[j] != 0
                     else 0 < id < PCTX_COUNT && (forall j :: 0 <= j < id ==> table[j] != 0)
                          && old(table[id]) == 0 && table[id] / PAGESZ !in old(space.dirs) && table[id] / PAGESZ in space.dirs
                          && IsClone(space.phys, space.cr3, table[id] / PAGESZ)
      ensures !ok ==> space.Starved()
    {
      hide AddressSpace.Valid, Entry, TableOk, IsClone, Grows, Directories;
      id := -1;
      CurrentSpace(space.dirs);
      ghost var m, s, ds := space.phys, space.frames.state, space.dirs;
      GrowsSelf(m, s, ds, space.frames.end, space.cr3);
      if table[0] == 0 {
        ok := FillEntry(0);
        if !ok {
          return;
        }
        CurrentSpace(space.dirs);
      }
      var i := 0;
      while i < PCTX_COUNT && table[i] != 0
        invariant 0 <= i <= PCTX_COUNT && forall j :: 0 <= j < i ==> table[j] != 0
      {
        i := i + 1;
      }
      if i == PCTX_COUNT {
        return true, -1;
      }
      ghost var m1, s1, ds1 := space.phys, space.frames.state, space.dirs;
      ok := FillEntry(i);
      id := i;
      if ok {
        GrowsTransitive(m, s, ds, m1, s1, ds1, space.phys, space.frames.state, space.dirs, space.frames.end, space.cr3);
      }
    }

    /** Context `id` is not the current one, and the tables of the others outlive it. */
    ghost predicate Disposable(id: int)
      reads table, space, space.frames
    {
      0 <= id < table.Length &&
      var x := table[id] / PAGESZ;
      && x in space.dirs && x != space.cr3 && Shaped(space.phys) && Directories(space.phys, space.dirs)
      && Survives(space.phys, space.dirs, x, space.frames.state)
    }

    /** Frees a context other than zero, if it exists. */
    method PctxFree(id: int) returns (r: int)
      requires Valid()
      modifies space.Repr(), table
      ensures space.frames.Valid() && space.cr3 == old(space.cr3) && TableOk(table[..], space.dirs)
      ensures Valid() <==> r != 0 || old(Disposable(id))
      ensures r == 0 <==> 0 < id < PCTX_COUNT && old(table[id]) != 0
      ensures r != 0 ==> table[..] == old(table[..]) && space.phys == old(space.phys) && space.dirs == old(space.dirs)
                         && space.frames.state == old(space.frames.state)
      ensures r == 0 ==> table[..] == old(table[..])[id := 0]
      ensures r == 0 ==> space.dirs == old(space.dirs) - {old(table[id]) / PAGESZ}
      ensures Shaped(space.phys) && Directories(space.phys, space.dirs) && Separated(space.phys, space.dirs)
      ensures Shaped(old(space.phys)) && Directories(old(space.phys), old(space.dirs))
      ensures r == 0 ==> Drops(old(space.phys), old(space.dirs), space.phys, old(table[id]) / PAGESZ)
      ensures r == 0 ==> space.frames.state == FreeAll(old(space.frames.state), Doomed(old(space.phys), old(table[id]) / PAGESZ))
    {
      hide AddressSpace.Valid, Entry, TableOk, Survives, FrameAllocator.Valid, Separated, Drops;
      SpaceFacts();
      if id <= 0 || id >= PCTX_COUNT {
        return 1;
      }
      if table[id] == 0 {
        return 1;
      }
      CurrentSpace(space.dirs);
      TableLoses(table[..], space.dirs, id);
      SpaceFree(table[id]);
      table[id] := 0;
      return 0;
    }

    /** A blank directory that maps itself. */
    method SpaceAlloc() returns (ok: bool, dest: Word)
      requires space.Valid()
      modifies space.Repr()
      ensures space.cr3 == old(space.cr3) && space.dirs == old(space.dirs) && space.frames.Repr() == old(space.frames.Repr())
      ensures ok ==> space.Valid() && dest % PAGESZ == 0
      ensures ok ==> Builds(old(space.phys), old(space.frames.state), space.phys, space.frames.state,
                            space.dirs, space.frames.end, dest / PAGESZ)
      ensures ok ==> Recursive(space.phys, dest / PAGESZ) && forall i: nat :: i < PGE_DIR ==> space.phys[dest / PAGESZ][i] == 0
      ensures ok ==> space.phys[dest / PAGESZ][PGE_DIR] == dest + 3
      ensures !ok ==> space.Starved()
    {
      hide Separated, AllTaken, Preserves, Taken, Structural, SetsPage, FrameAllocator.Valid, NewFrame, Inv, Builds, Entry, Walk, SameSpaces;
      ghost var m, s := space.phys, space.frames.state;
      var frame: nat;
      ok, frame := space.frames.FrameNew();
      if !ok {
        return false, 0;
      }
      ghost var t, x := space.frames.state, frame / PAGESZ;
      AlignedFrame(s, space.frames.end);
      NewDataFrame(space.phys, space.dirs, s, space.frames.end, x, t);
      dest := frame;
      var v := PageFmt(dest, 3);
      PageFmtFields(dest, 3);
      ok := space.PageSet(TMP_SRC, v);
      if !ok {
        return;
      }
      SetsReads(m, space.phys, space.dirs, space.cr3, TMP_SRC / PAGESZ, v);
      BuildsFrom(m, s, t, space.phys, space.frames.state, space.dirs, space.frames.end, space.cr3, x, v);
      ghost var m1 := space.phys;
      BuildsApart(m, s, m1, space.frames.state, space.dirs, space.frames.end, x);
      BlankDirectory(x, v);
      BuildsOn(m, s, m1, space.frames.state, space.phys, space.dirs, space.frames.end, x);
    }

    /** Shows a space in the temporary window of the current one. */
    method SpaceExmap(dest: Word)
      requires space.Valid()
      modifies space`phys
      ensures space.Valid() && SameSpaces(old(space.phys), space.phys, space.dirs)
      ensures space.phys == Poke(old(space.phys), space.cr3, TMP_DIR, PageFmt(dest, 3))
      ensures Shows(space.phys, space.cr3, dest / PAGESZ)
    {
      hide Separated, AllTaken, Taken, Structural, FrameAllocator.Valid, Inv, Entry, Walk, SameSpaces, PageFmt;
      ghost var m := space.phys;
      PageFmtFields(dest, 3);
      CmapIsDirectory(space.phys, space.cr3, TMP_DIR);
      WindowWrite(m, space.dirs, space.cr3, PageFmt(dest, 3));
      space.Store(CMAP + 4 * TMP_DIR, PageFmt(dest, 3));
      SameSpacesTaken(m, space.phys, space.dirs, space.frames.state, space.frames.end);
    }

    /** Copies the part of the current space above user space into a new one. */
    method SpaceClone() returns (ok: bool, dest: Word)
      requires space.Valid()
      modifies space.Repr()
      ensures space.cr3 == old(space.cr3) && space.frames.Repr() == old(space.frames.Repr())
      ensures ok ==> dest > 0 && dest % PAGESZ == 0 && space.Valid() && space.dirs == old(space.dirs) + {dest / PAGESZ}
      ensures ok ==> Builds(old(space.phys), old(space.frames.state), space.phys, space.frames.state,
                            old(space.dirs), space.frames.end, dest / PAGESZ)
      ensures ok ==> forall p: nat :: USER_PAGES <= p < TMP_PAGE ==>
                Entry(space.phys, dest / PAGESZ, p) == Entry(space.phys, space.cr3, p)
      ensures ok ==> forall p: nat :: p < USER_PAGES ==> Entry(space.phys, dest / PAGESZ, p) == 0
      ensures ok ==> Clones(space.phys, space.cr3, dest / PAGESZ)
      ensures !ok ==> space.Starved()
    {
      hide Separated, AllTaken, Taken, Structural, FrameAllocator.Valid, Inv, Entry, Walk, SameSpaces, Builds, NewFrame;
      ghost var m0, s0, ds := space.phys, space.frames.state, space.dirs;
      ok, dest := SpaceAlloc();
      if !ok {
        return;
      }
      ghost var x, m1, s1 := dest / PAGESZ, space.phys, space.frames.state;
      BuildsApart(m0, s0, m1, s1, ds, space.frames.end, x);
      SpaceExmap(dest);
      ghost var m2 := space.phys;
      ExmapBuilds(m0, s0, m1, s1, m2, ds, space.frames.end, space.cr3, x, PageFmt(dest, 3));
      CopyUpper(x);
      DataWrite(m2, space.phys, ds, x);
      BuildsOn(m0, s0, m2, s1, space.phys, ds, space.frames.end, x);
      BuildsApart(m0, s0, space.phys, s1, ds, space.frames.end, x);
      CloneJoins(space.phys, ds, space.cr3, x);
      space.dirs := space.dirs + {x};
      JoinTaken(m0, s0, space.phys, ds, s1, space.frames.end, x);
    }

    /** The copying loop of `SpaceClone`. */
    method CopyUpper(ghost x: nat)
      requires space.Valid() && x < PAGE_COUNT && x !in space.dirs && !Structural(space.phys, space.dirs, x)
      requires Shows(space.phys, space.cr3, x) && Recursive(space.phys, x)
      requires forall i: nat :: i < PGE_DIR ==> space.phys[x][i] == 0
      modifies space`phys
      ensures SameBut(old(space.phys), space.phys, x) && Clones(space.phys, space.cr3, x)
    {
      hide Separated, AllTaken, Taken, Structural, FrameAllocator.Valid, Inv, Entry, Walk;
      ghost var m, d := space.phys, space.cr3;
      var i := USER_DIRS;
      while i < PGE_DIR
        invariant USER_DIRS <= i <= PGE_DIR
        invariant SameBut(m, space.phys, x) && Recursive(space.phys, x)
        invariant forall k: nat :: k < USER_DIRS ==> space.phys[x][k] == 0
        invariant forall k: nat :: USER_DIRS <= k < i ==> space.phys[x][k] == m[d][k]
      {
        assert space.phys[d] == m[d];
        CmapIsDirectory(space.phys, d, i);
        var e := space.Load(CMAP + 4 * i);
        ExmapIsDirectory(space.phys, d, x, i);
        space.Store(EXMAP + 4 * i, e);
        i := i + 1;
      }
    }

    /** Frees what the table at entry `i` of the shown space maps, clearing it. */
    method FreeTable(i: nat, ghost x: nat, ghost t: nat)
      requires space.frames.Valid() && Shaped(space.phys) && space.cr3 < PAGE_COUNT && x < PAGE_COUNT
      requires Shows(space.phys, space.cr3, x) && i < USER_DIRS
      requires Names(space.phys, x, i, t) && t != x && t != space.cr3
      modifies space`phys, space.frames.Repr()
      ensures space.frames.Valid() && space.frames.nodes == old(space.frames.nodes)
      ensures SameBut(old(space.phys), space.phys, t)
      ensures space.frames.state == FreeAll(old(space.frames.state), RowFrees(old(space.phys)[t], WORDS))
    {
      hide FrameAllocator.Valid, FreeFrame, Walk;
      ghost var m, s := space.phys, space.frames.state;
      var j := 0;
      while j < WORDS
        invariant 0 <= j <= WORDS
        invariant space.frames.Valid() && space.frames.nodes == old(space.frames.nodes)
        invariant SameBut(m, space.phys, t)
        invariant forall k: nat :: j <= k < WORDS ==> space.phys[t][k] == m[t][k]
        invariant space.frames.state == FreeAll(s, RowFrees(m[t], j))
      {
        assert space.phys[x] == m[x] && space.phys[space.cr3] == m[space.cr3];
        ExtblIsTable(space.phys, space.cr3, x, i, j);
        var e := space.Load(TMP_MAP + 4 * (i * WORDS + j));
        assert e == m[t][j];
        if Present(e) {
          FreeAllSnoc(s, RowFrees(m[t], j), PageUfmt(e));
          space.frames.FrameFree(PageUfmt(e));
        }
        space.Store(TMP_MAP + 4 * (i * WORDS + j), 0);
        j := j + 1;
      }
    }

    /** Frees everything the user part of a space holds, and its directory. */
    method SpaceFree(dest: Word)
      requires space.Valid() && dest % PAGESZ == 0 && dest / PAGESZ in space.dirs
      modifies space.Repr()
      ensures space.frames.Valid() && space.frames.nodes == old(space.frames.nodes)
      ensures space.cr3 == old(space.cr3) && space.dirs == old(space.dirs) - {dest / PAGESZ}
      ensures space.frames.state == FreeAll(old(space.frames.state), Doomed(old(space.phys), dest / PAGESZ))
      ensures Shaped(space.phys) && Directories(space.phys, space.dirs) && Separated(space.phys, space.dirs)
      ensures Directories(old(space.phys), old(space.dirs)) && Drops(old(space.phys), old(space.dirs), space.phys, dest / PAGESZ)
      ensures space.Valid() <==> dest / PAGESZ != space.cr3 && Survives(old(space.phys), old(space.dirs), dest / PAGESZ, old(space.frames.state))
    {
      hide FrameAllocator.Valid, FreeFrame, Walk, Separated, Entry, Structural, AllTaken, Taken, TornDown, SameSpaces, Inv, Survives, PageFmt, DirFrees, FreeAll, Recursive, Present, Drops;
      ghost var m0, s, ds, x := space.phys, space.frames.state, space.dirs, dest / PAGESZ;
      ExmapDoomed(m0, ds, space.cr3, x, PageFmt(dest, 3));
      SpaceExmap(dest);
      ghost var m := space.phys;
      var i := 0;
      TornNothing(m, x, s);
      while i < USER_DIRS
        invariant 0 <= i <= USER_DIRS
        invariant space.frames.Valid() && space.frames.nodes == old(space.frames.nodes)
        invariant space.cr3 == old(space.cr3) && space.dirs == ds
        invariant TornDown(m, space.phys, x, i)
        invariant space.frames.state == FreeAll(s, DirFrees(m, x, i))
      {
        FreeEntry(i, x, m, s);
        i := i + 1;
      }
      FreeAllSnoc(s, DirFrees(m, x, USER_DIRS), x * PAGESZ);
      space.frames.FrameFree(dest);
      space.dirs := space.dirs - {x};
      OthersIntact(m, space.phys, ds, x);
      TeardownDrops(m0, m, space.phys, ds, space.cr3, x, PageFmt(dest, 3));
      TeardownCounts(m0, x, s, 0);
      if x != space.cr3 {
        TeardownKeepsTakenIff(m0, m, space.phys, ds, space.cr3, x, s, space.frames.end, PageFmt(dest, 3));
      }
    }

    /** One round of the outer loop of `SpaceFree`. */
    method FreeEntry(i: nat, ghost x: nat, ghost m: Phys, ghost s: State)
      requires space.frames.Valid() && i < USER_DIRS && space.cr3 in space.dirs && x in space.dirs
      requires Shaped(m) && Directories(m, space.dirs) && Separated(m, space.dirs) && Shows(m, space.cr3, x)
      requires TornDown(m, space.phys, x, i) && space.frames.state == FreeAll(s, DirFrees(m, x, i))
      modifies space`phys, space.frames.Repr()
      ensures space.frames.Valid() && space.frames.nodes == old(space.frames.nodes)
      ensures TornDown(m, space.phys, x, i + 1) && space.frames.state == FreeAll(s, DirFrees(m, x, i + 1))
    {
      hide FrameAllocator.Valid, FreeFrame, Walk, Separated, TornDown;
      WindowIntact(m, space.phys, space.dirs, space.cr3, x, i);
      NextTableIntact(m, space.phys, space.dirs, x, i);
      ExmapIsDirectory(space.phys, space.cr3, x, i);
      var e := space.Load(EXMAP + 4 * i);
      if !Present(e) {
        SkipsOne(m, space.phys, x, i);
        return;
      }
      ghost var t, m1, a := FrameOf(e), space.phys, DirFrees(m, x, i);
      FreeTable(i, x, t);
      ghost var m2 := space.phys;
      FreeAllConcat(s, a, RowFrees(m[t], WORDS));
      FreeAllSnoc(s, a + RowFrees(m[t], WORDS), PageUfmt(e));
      assert m2[x] == m1[x] && m2[space.cr3] == m1[space.cr3];
      ExmapIsDirectory(space.phys, space.cr3, x, i);
      space.frames.FrameFree(PageUfmt(e));
      space.Store(EXMAP + 4 * i, 0);
      TearsOneMore(m, m1, m2, space.phys, x, i);
    }

    /** Writes a directory through its window: zeros, and the entry that maps itself. */
    method BlankDirectory(ghost x: nat, v: Word)
      requires space.Valid()
      requires Entry(space.phys, space.cr3, TMP_SRC / PAGESZ) == v && Present(v) && FrameOf(v) == x
      requires !Structural(space.phys, space.dirs, x)
      modifies space`phys
      ensures space.Valid()
      ensures SameBut(old(space.phys), space.phys, x) && SameSpaces(old(space.phys), space.phys, space.dirs)
      ensures forall i: nat :: i < PGE_DIR ==> space.phys[x][i] == 0
      ensures space.phys[x][PGE_DIR] == v
    {
      hide Separated, AllTaken, Taken, Structural, FrameAllocator.Valid, NewFrame, Inv, Entry, Walk, SameSpaces;
      ghost var m := space.phys;
      var j := 0;
      while j < WORDS
        invariant 0 <= j <= WORDS
        invariant SameBut(m, space.phys, x)
        invariant forall k: nat :: k < j ==> space.phys[x][k] == 0
      {
        WindowWord(m, space.phys, space.dirs, space.cr3, x, v, j);
        space.Store(TMP_SRC + 4 * j, 0);
        j := j + 1;
      }
      WindowWord(m, space.phys, space.dirs, space.cr3, x, v, PGE_DIR);
      space.Store(TMP_SRC + 4 * PGE_DIR, v);
      DataWrite(m, space.phys, space.dirs, x);
      SameSpacesTaken(m, space.phys, space.dirs, space.frames.state, space.frames.end);
    }
  }

  /** The entries of the context table are distinct page directories. */
  ghost predicate TableOk(table: seq<Word>, dirs: set<nat>) {
    && (forall i :: 0 <= i < |table| && table[i] != 0 ==> table[i] % PAGESZ == 0 && table[i] / PAGESZ in dirs)
    && (forall i, j :: 0 <= i < j < |table| && table[i] != 0 ==> table[i] != table[j])
  }

  /** Space `x` maps nothing in user space and agrees with `d` above it. */
  ghost predicate IsClone(m: Phys, d: nat, x: nat) {
    && Shaped(m) && d < PAGE_COUNT && x < PAGE_COUNT
    && (forall p: nat :: USER_PAGES <= p < TMP_PAGE ==> Entry(m, x, p) == Entry(m, d, p))
    && (forall p: nat :: p < USER_PAGES ==> Entry(m, x, p) == 0)
  }

  lemma TableGains(table: seq<Word>, dirs: set<nat>, i: nat, dest: Word)
    requires TableOk(table, dirs) && i < |table| && table[i] == 0
    requires dest != 0 && dest % PAGESZ == 0 && dest / PAGESZ !in dirs
    ensures TableOk(table[i := dest], dirs + {dest / PAGESZ})
  {
  }

  lemma TableLoses(table: seq<Word>, dirs: set<nat>, i: nat)
    requires TableOk(table, dirs) && i < |table| && table[i] != 0
    ensures TableOk(table[i := 0], dirs - {table[i] / PAGESZ})
    ensures table[i] % PAGESZ == 0 && table[i] / PAGESZ in dirs
  {
    forall j | 0 <= j < |table| && j != i && table[j] != 0
      ensures table[j] / PAGESZ != table[i] / PAGESZ
    {
      assert table[j] == table[j] / PAGESZ * PAGESZ && table[i] == table[i] / PAGESZ * PAGESZ;
    }
  }

  lemma ExmapBuilds(m: Phys, s: State, m1: Phys, s1: State, m2: Phys, dirs: set<nat>, end: nat, d: nat, x: nat, v: Word)
    requires Shaped(m) && Directories(m, dirs) && Builds(m, s, m1, s1, dirs, end, x)
    requires Shaped(m1) && d in dirs && Directories(m1, dirs)
    requires m2 == Poke(m1, d, TMP_DIR, v) && SameSpaces(m1, m2, dirs)
    ensures Builds(m, s, m2, s1, dirs, end, x)
    ensures Shaped(m2) && Directories(m2, dirs) && x !in dirs && x > 0 && !Structural(m2, dirs, x)
  {
    BuildsOn(m, s, m1, s1, m2, dirs, end, x);
  }

  lemma JoinTaken(m0: Phys, s0: State, m: Phys, dirs: set<nat>, s: State, end: nat, x: nat)
    requires Shaped(m0) && Directories(m0, dirs) && Builds(m0, s0, m, s, dirs, end, x)
    requires Directories(m, dirs + {x})
    requires forall g: nat :: Structural(m, dirs + {x}, g) <==> Structural(m, dirs, g) || g == x
    ensures AllTaken(m, dirs + {x}, s, end)
  {
    hide Taken, Structural;
  }

  lemma SetsReads(m: Phys, m': Phys, dirs: set<nat>, d: nat, p: nat, v: Word)
    requires Shaped(m) && Directories(m, dirs) && d in dirs && p < TMP_PAGE && SetsPage(m, m', dirs, d, p, v)
    ensures Shaped(m') && d < PAGE_COUNT && Entry(m', d, p) == v
  {
  }

  lemma BuildsApart(m: Phys, s: State, m': Phys, s': State, dirs: set<nat>, end: nat, x: nat)
    requires Shaped(m) && Directories(m, dirs) && Builds(m, s, m', s', dirs, end, x)
    ensures Shaped(m') && Directories(m', dirs) && !Structural(m', dirs, x) && x < PAGE_COUNT && x !in dirs
  {
  }

  lemma WindowWord(m: Phys, m': Phys, dirs: set<nat>, d: nat, x: nat, v: Word, j: nat)
    requires Shaped(m) && Separated(m, dirs) && d in dirs && !Structural(m, dirs, x) && SameBut(m, m', x)
    requires Entry(m, d, TMP_SRC / PAGESZ) == v && Present(v) && FrameOf(v) == x && j < WORDS
    ensures Walk(m', d, TMP_SRC + 4 * j) == Some((x, j))
  {
    hide Entry, Structural, Walk;
    DataWrite(m, m', dirs, x);
    WalkIsEntry(m', dirs, d, TMP_SRC + 4 * j);
    assert (TMP_SRC + 4 * j) / PAGESZ == TMP_SRC / PAGESZ && (TMP_SRC + 4 * j) % PAGESZ / 4 == j;
  }
}
