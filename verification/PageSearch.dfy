/** Finding virtual pages to map (page.c). Pages are numbered: page `k` starts at the address 4096k. */
module PageSearch {
  import opened Options
  import opened PageWalk
  import opened PageFlags
  import opened Division
  import opened PageAddress
  import opened PageTables
  import FrameBitmap

  const CBASE: nat := 0x80_0000_0000
  const MBASE: nat := CBASE + 0x2_0000

  const MBASE_PAGE: nat := 0x800_0020      // MBASE / 4096
  const PAGES: nat := 0x10_0000_0000       // 2^36 pages in 48 bits
  const FIRST: nat := 0x800_0000           // the first page below entry 1 of the root table

  /** The search begins at `MBASE`, which lies below entry 1 of the root table. */
  lemma SearchBegins()
    ensures 4096 * MBASE_PAGE == MBASE && IndexPath(MBASE) == PagePath(MBASE_PAGE) == [1, 0, 0, 32]
    ensures PagePath(FIRST) == [1, 0, 0, 0] && PagePath(PAGES - 1) == [511, 511, 511, 511]
  {
    PathOfAddress(MBASE, MBASE_PAGE);
    PagePathIs(MBASE_PAGE);
    PagePathIs(FIRST);
    PagePathIs(PAGES - 1);
  }

  /** The last `n` digits of a page number in base 512. */
  function Digits(k: nat, n: nat): (p: Path)
    ensures |p| == n && forall i | 0 <= i < n :: p[i] < 512
  {
    if n == 0 then [] else Digits(k / 512, n - 1) + [k % 512]
  }

  function PagePath(k: nat): (p: Path)
    ensures |p| == 4 && forall i | 0 <= i < 4 :: p[i] < 512
  {
    Digits(k, 4)
  }

  lemma OneDigitMore(k: nat, n: nat, q: nat, d: nat)
    requires k == 512 * q + d && d < 512
    ensures Digits(k, n + 1) == Digits(q, n) + [d]
  {
    DivisionIs(k, 512, q, d);
  }

  lemma PagePathIs(k: nat)
    ensures PagePath(k) == [k / 0x800_0000 % 512, k / 0x4_0000 % 512, k / 512 % 512, k % 512]
  {
    var k1 := k / 512;
    var k2 := k1 / 512;
    var k3 := k2 / 512;
    assert k2 == k / 0x4_0000 && k3 == k / 0x800_0000;
    assert Digits(k3, 1) == Digits(k3 / 512, 0) + [k3 % 512] == [k3 % 512];
    assert Digits(k2, 2) == [k3 % 512, k2 % 512];
    assert Digits(k1, 3) == [k3 % 512, k2 % 512, k1 % 512];
  }

  function PageNo(a: nat, b: nat, c: nat, d: nat): nat {
    0x800_0000 * a + 0x4_0000 * b + 512 * c + d
  }

  lemma PathOfAddress(v: nat, k: nat)
    requires k == v / 4096
    ensures IndexPath(v) == PagePath(k)
  {
    Indices(v);
    PagePathIs(k);
    var r := v % 4096;
    DivisionIs(v, 0x20_0000, k / 512, k % 512 * 0x1000 + r);
    DivisionIs(v, 0x4000_0000, k / 0x4_0000, k % 0x4_0000 * 0x1000 + r);
    DivisionIs(v, 0x80_0000_0000, k / 0x800_0000, k % 0x800_0000 * 0x1000 + r);
  }

  lemma PathOfPageNo(a: nat, b: nat, c: nat, d: nat)
    requires a < 512 && b < 512 && c < 512 && d < 512
    ensures PagePath(PageNo(a, b, c, d)) == [a, b, c, d]
    ensures 4096 * PageNo(a, b, c, d) == ConstructVirtualAddress(a, b, c, d)
  {
    var q1 := 512 * a + b;
    var q2 := 512 * q1 + c;
    OneDigitMore(a, 0, 0, a);
    OneDigitMore(q1, 1, a, b);
    OneDigitMore(q2, 2, q1, c);
    OneDigitMore(PageNo(a, b, c, d), 3, q2, d);
  }

  lemma PageOfPath(k: nat)
    requires k < PAGES
    ensures var p := PagePath(k); PageNo(p[0], p[1], p[2], p[3]) == k
  {
    PagePathIs(k);
    DivisionIs(k / 512, 512, k / 0x4_0000, k / 512 % 512);
    DivisionIs(k / 0x4_0000, 512, k / 0x800_0000, k / 0x4_0000 % 512);
  }

  lemma PagesDiffer(j: nat, k: nat)
    requires j < PAGES && k < PAGES && j != k
    ensures PagePath(j) != PagePath(k)
  {
    PageOfPath(j);
    PageOfPath(k);
  }

  ghost predicate Mapped(pg: Pager, k: nat)
    reads pg
  {
    pg.At(PagePath(k)).Some?
  }

  /** All tables down to the last level exist for page `k`, and it is not mapped. */
  ghost predicate UsableIn(t: Tables, root: nat, k: nat) {
    Walk(t, root, PagePath(k)[..3]).Some? && Walk(t, root, PagePath(k)).None?
  }

  ghost predicate AllUsable(t: Tables, root: nat, lo: nat, hi: int) {
    forall k: nat | lo <= k < hi :: UsableIn(t, root, k)
  }

  ghost predicate Usable(pg: Pager, k: nat)
    reads pg
  {
    UsableIn(pg.tables, pg.root, k)
  }

  ghost predicate UsableRun(pg: Pager, k: nat, n: nat)
    reads pg
  {
    AllUsable(pg.tables, pg.root, k, k + n)
  }

  /** No run of `n` usable pages begins at a page from `MBASE` up to `k`. */
  ghost predicate NoRunBelow(pg: Pager, k: nat, n: nat)
    reads pg
  {
    forall j: nat | MBASE_PAGE <= j < k :: !UsableRun(pg, j, n)
  }

  /** A run that fails at one page cannot begin anywhere up to that page. */
  lemma SkipFailing(pg: Pager, ini: nat, n: nat, bad: nat)
    requires NoRunBelow(pg, ini, n) && ini <= bad < ini + n && !Usable(pg, bad)
    ensures NoRunBelow(pg, bad + 1, n)
  {
    forall j: nat | ini <= j < bad + 1
      ensures !UsableRun(pg, j, n)
    {
      assert j <= bad < j + n;
    }
  }

  lemma RunBounded(pg: Pager, w: nat, n: nat, ini: nat, bad: nat)
    requires UsableRun(pg, w, n) && ini <= w && ini <= bad < ini + n && !Usable(pg, bad)
    ensures bad + 1 <= w
  {
  }

  lemma RunGrows(pg: Pager, k: nat, n: nat, next: nat)
    requires UsableRun(pg, k, n) && next == k + n && Usable(pg, next)
    ensures UsableRun(pg, k, n + 1)
  {
  }

  /** The first loop of `KP_ALLOC4`: the lowest run of usable pages from `MBASE` on. */
  method FindRun(pg: Pager, n: nat) returns (ini: nat)
    requires pg.Valid() && n > 0 && exists w: nat :: MBASE_PAGE <= w && UsableRun(pg, w, n)
    ensures MBASE_PAGE <= ini && UsableRun(pg, ini, n) && NoRunBelow(pg, ini, n)
  {
    ghost var w: nat :| MBASE_PAGE <= w && UsableRun(pg, w, n);
    var s := 0;
    ini := MBASE_PAGE;
    while s != n
      invariant MBASE_PAGE <= ini <= w && s <= n
      invariant UsableRun(pg, ini, s) && NoRunBelow(pg, ini, n)
      decreases w - ini, n - s
    {
      var page := ini + s;
      var v := 4096 * page;
      PathOfAddress(v, page);
      var usable := pg.DoesPDEEExist(v);
      if usable {
        RunGrows(pg, ini, s, page);
        s := s + 1;
      } else {
        SkipFailing(pg, ini, n, page);
        RunBounded(pg, w, n, ini, page);
        ini := page + 1;
        s := 0;
      }
    }
  }

  /**
   * `KP_ALLOC4`: the lowest run of usable pages from `MBASE` on, each page mapped to a frame that was free; nothing
   * else is mapped or unmapped. One page alone is a page of the stock.
   */
  method KP_ALLOC4(pg: Pager, n: nat) returns (r: Outcome, v: nat)
    requires pg.Valid()
    requires n >= 2 ==> exists w: nat :: MBASE_PAGE <= w <= PAGES - n && UsableRun(pg, w, n)
    modifies pg`tables, pg`pool, pg.frames
    ensures pg.Valid()
    ensures r == Fault(AL_NOP) <==> n == 0
    ensures n == 1 ==> r == if old(pg.pool) == [] then Fault(KPALLOC_NOFREE) else Done
    ensures n == 1 && r == Done ==> v == old(pg.pool)[0] && pg.pool == old(pg.pool)[1..]
    ensures n <= 1 ==> forall q: Path | |q| <= 4 :: pg.At(q) == old(pg.At(q))
    ensures n >= 2 ==> r == Done && pg.pool == old(pg.pool)
    ensures n >= 2 ==> v == 4096 * (v / 4096) && v / 4096 + n <= PAGES && MBASE_PAGE <= v / 4096
    ensures n >= 2 ==> old(UsableRun(pg, v / 4096, n)) && old(NoRunBelow(pg, v / 4096, n))
    ensures n >= 2 ==> SameOutside(pg.tables, old(pg.tables), pg.root, v / 4096, v / 4096 + n)
    ensures n >= 2 ==> NewlyMapped(pg.tables, pg.root, v / 4096, v / 4096 + n, old(pg.frames.mem), old(pg.frames.chain))
    ensures n >= 2 ==> FramesTaken(pg.frames.mem, pg.frames.chain, old(pg.frames.mem), old(pg.frames.chain),
                                   pg.tables, pg.root, v / 4096, v / 4096 + n)
    ensures Kept(pg.tables, old(pg.tables), pg.root)
  {
    if n == 0 {
      return Fault(AL_NOP), 0;
    }
    if n == 1 {
      r, v := pg.KPALLOC();
      return;
    }
    var ini := FindRun(pg, n);
    ghost var w: nat :| MBASE_PAGE <= w <= PAGES - n && UsableRun(pg, w, n);
    assert ini <= w;
    v := 4096 * ini;
    assert v / 4096 == ini;
    MapRun(pg, ini, n);
    r := Done;
  }

  /** `q` leads to one of the pages from `lo` to `hi`. */
  ghost predicate Among(q: Path, lo: nat, hi: int) {
    exists k: nat :: lo <= k < hi && q == PagePath(k)
  }

  /** Apart from those pages the two mappings of pages agree. */
  ghost predicate SameOutside(t': Tables, t: Tables, root: nat, lo: nat, hi: int) {
    forall q: Path | |q| == 4 && !Among(q, lo, hi) :: Walk(t', root, q) == Walk(t, root, q)
  }

  /**
   * Page `k` is mapped, with flags 1, to the least frame that the given bitmap shows as free and that no page from `lo`
   * up to `k` is mapped to.
   */
  ghost predicate OnLeastFrame(t: Tables, root: nat, lo: nat, k: nat, mem: FrameBitmap.Memory, chain: seq<nat>) {
    var f := Walk(t, root, PagePath(k));
    && f.Some? && !FrameBitmap.Used(mem, chain, f.value) && Flags(t, root, PagePath(k)) == 1
    && !FrameOfSome(t, root, lo, k, f.value)
    && forall j: nat | j < f.value :: FrameBitmap.Used(mem, chain, j) || FrameOfSome(t, root, lo, k, j)
  }

  ghost predicate NewlyMapped(t: Tables, root: nat, lo: nat, hi: int, mem: FrameBitmap.Memory, chain: seq<nat>) {
    forall k: nat | lo <= k < hi :: OnLeastFrame(t, root, lo, k, mem, chain)
  }

  /** The frames in use are those that were, and the frames of the pages from `lo` to `hi`. */
  ghost predicate FramesTaken(mem: FrameBitmap.Memory, chain: seq<nat>, mem0: FrameBitmap.Memory, chain0: seq<nat>,
                              t: Tables, root: nat, lo: nat, hi: int)
  {
    forall j: nat ::
      FrameBitmap.Used(mem, chain, j) <==> FrameBitmap.Used(mem0, chain0, j) || FrameOfSome(t, root, lo, hi, j)
  }

  ghost predicate LeastFree(mem: FrameBitmap.Memory, chain: seq<nat>, f: nat) {
    !FrameBitmap.Used(mem, chain, f) && forall j: nat | j < f :: FrameBitmap.Used(mem, chain, j)
  }

  ghost predicate OneTaken(mem: FrameBitmap.Memory, chain: seq<nat>, mem0: FrameBitmap.Memory, chain0: seq<nat>, f: nat)
  {
    forall j: nat :: FrameBitmap.Used(mem, chain, j) <==> FrameBitmap.Used(mem0, chain0, j) || j == f
  }

  ghost predicate StillUsed(mem0: FrameBitmap.Memory, chain0: seq<nat>, mem: FrameBitmap.Memory, chain: seq<nat>) {
    forall j: nat | FrameBitmap.Used(mem0, chain0, j) :: FrameBitmap.Used(mem, chain, j)
  }

  /** The frames of the pages before `k` do not depend on page `k`. */
  lemma SameFrames(t2: Tables, t1: Tables, root: nat, lo: nat, k: nat, m: nat)
    requires SamePagesBut(t2, t1, root, k) && m <= k < PAGES
    ensures forall j: nat :: FrameOfSome(t2, root, lo, m, j) <==> FrameOfSome(t1, root, lo, m, j)
  {
    forall i: nat | lo <= i < m
      ensures Walk(t2, root, PagePath(i)) == Walk(t1, root, PagePath(i))
    {
      PagesDiffer(i, k);
    }
  }

  lemma TakenStep(t2: Tables, t1: Tables, root: nat, lo: nat, k: nat, next: nat, f: nat,
                  mem2: FrameBitmap.Memory, chain2: seq<nat>, mem1: FrameBitmap.Memory, chain1: seq<nat>,
                  mem0: FrameBitmap.Memory, chain0: seq<nat>)
    requires lo <= k && next == k + 1 && k < PAGES && SamePagesBut(t2, t1, root, k)
    requires Walk(t2, root, PagePath(k)) == Some(f)
    requires FramesTaken(mem1, chain1, mem0, chain0, t1, root, lo, k) && OneTaken(mem2, chain2, mem1, chain1, f)
    ensures FramesTaken(mem2, chain2, mem0, chain0, t2, root, lo, next)
  {
    SameFrames(t2, t1, root, lo, k, k);
    forall j: nat
      ensures FrameOfSome(t2, root, lo, next, j) <==> FrameOfSome(t2, root, lo, k, j) || j == f
    {
      if j == f {
        assert Walk(t2, root, PagePath(k)) == Some(j);
      }
    }
  }

  lemma NewlyMappedStep(t2: Tables, t1: Tables, root: nat, lo: nat, k: nat, next: nat, f: nat,
                        mem1: FrameBitmap.Memory, chain1: seq<nat>, mem0: FrameBitmap.Memory, chain0: seq<nat>)
    requires lo <= k && next == k + 1 && k < PAGES && NewlyMapped(t1, root, lo, k, mem0, chain0)
    requires SamePagesBut(t2, t1, root, k) && Kept(t2, t1, root) && LeastFree(mem1, chain1, f)
    requires FramesTaken(mem1, chain1, mem0, chain0, t1, root, lo, k)
    requires Walk(t2, root, PagePath(k)) == Some(f) && Flags(t2, root, PagePath(k)) == 1
    ensures NewlyMapped(t2, root, lo, next, mem0, chain0)
  {
    forall i: nat | lo <= i < next
      ensures OnLeastFrame(t2, root, lo, i, mem0, chain0)
    {
      SameFrames(t2, t1, root, lo, k, i);
      if i < k {
        assert OnLeastFrame(t1, root, lo, i, mem0, chain0);
        assert Flags(t2, root, PagePath(i)) == Flags(t1, root, PagePath(i));
      }
    }
  }

  /** The tables that existed are where they were. */
  ghost predicate TablesKept(t': Tables, t: Tables, root: nat) {
    forall q: Path | |q| <= 3 && Walk(t, root, q).Some? :: Walk(t', root, q) == Walk(t, root, q)
  }

  /** The second loop of `KP_ALLOC4`: each page in turn gets the least free frame. */
  method MapRun(pg: Pager, ini: nat, n: nat)
    requires pg.Valid() && UsableRun(pg, ini, n) && ini + n <= PAGES
    modifies pg`tables, pg`pool, pg.frames
    ensures pg.Valid() && pg.pool == old(pg.pool) && Kept(pg.tables, old(pg.tables), pg.root)
    ensures SameOutside(pg.tables, old(pg.tables), pg.root, ini, ini + n)
    ensures NewlyMapped(pg.tables, pg.root, ini, ini + n, old(pg.frames.mem), old(pg.frames.chain))
    ensures FramesTaken(pg.frames.mem, pg.frames.chain, old(pg.frames.mem), old(pg.frames.chain),
                        pg.tables, pg.root, ini, ini + n)
  {
    var page, hi := ini, ini + n;
    for s := 0 to n
      invariant page == ini + s && pg.Valid() && pg.pool == old(pg.pool)
      invariant AllUsable(pg.tables, pg.root, page, hi) && Kept(pg.tables, old(pg.tables), pg.root)
      invariant SameOutside(pg.tables, old(pg.tables), pg.root, ini, page)
      invariant NewlyMapped(pg.tables, pg.root, ini, page, old(pg.frames.mem), old(pg.frames.chain))
      invariant FramesTaken(pg.frames.mem, pg.frames.chain, old(pg.frames.mem), old(pg.frames.chain),
                            pg.tables, pg.root, ini, page)
    {
      ghost var t1, mem1, chain1 := pg.tables, pg.frames.mem, pg.frames.chain;
      assert UsableIn(t1, pg.root, page);
      ghost var f := MapUsable(pg, page);
      StillUsable(pg.tables, t1, pg.root, page, page + 1, hi);
      MappedStep(pg.tables, t1, old(pg.tables), pg.root, ini, page, page + 1, f, pg.frames.mem, pg.frames.chain,
                 mem1, chain1, old(pg.frames.mem), old(pg.frames.chain));
      page := page + 1;
    }
  }

  lemma MappedStep(t2: Tables, t1: Tables, t0: Tables, root: nat, lo: nat, k: nat, next: nat, f: nat,
                   mem2: FrameBitmap.Memory, chain2: seq<nat>, mem1: FrameBitmap.Memory, chain1: seq<nat>,
                   mem0: FrameBitmap.Memory, chain0: seq<nat>)
    requires lo <= k && next == k + 1 && k < PAGES && SamePagesBut(t2, t1, root, k)
    requires Kept(t2, t1, root) && Kept(t1, t0, root) && SameOutside(t1, t0, root, lo, k)
    requires Walk(t2, root, PagePath(k)) == Some(f) && Flags(t2, root, PagePath(k)) == 1
    requires LeastFree(mem1, chain1, f) && OneTaken(mem2, chain2, mem1, chain1, f)
    requires NewlyMapped(t1, root, lo, k, mem0, chain0) && FramesTaken(mem1, chain1, mem0, chain0, t1, root, lo, k)
    ensures Kept(t2, t0, root) && SameOutside(t2, t0, root, lo, next) && NewlyMapped(t2, root, lo, next, mem0, chain0)
    ensures FramesTaken(mem2, chain2, mem0, chain0, t2, root, lo, next)
  {
    KeptTwice(t2, t1, t0, root);
    OutsideStep(t2, t1, t0, root, lo, k, next);
    NewlyMappedStep(t2, t1, root, lo, k, next, f, mem1, chain1, mem0, chain0);
    TakenStep(t2, t1, root, lo, k, next, f, mem2, chain2, mem1, chain1, mem0, chain0);
  }

  /** The same pages are mapped to the same frames, but for page `k`. */
  ghost predicate SamePagesBut(t': Tables, t: Tables, root: nat, k: nat) {
    forall q: Path | |q| == 4 && q != PagePath(k) :: Walk(t', root, q) == Walk(t, root, q)
  }

  lemma StillUsable(t': Tables, t: Tables, root: nat, k: nat, next: nat, hi: nat)
    requires k < hi <= PAGES && next == k + 1 && AllUsable(t, root, k, hi)
    requires SamePagesBut(t', t, root, k) && TablesKept(t', t, root)
    ensures AllUsable(t', root, next, hi)
  {
    forall j: nat | next <= j < hi
      ensures UsableIn(t', root, j)
    {
      assert UsableIn(t, root, j);
      PagesDiffer(j, k);
    }
  }

  lemma OutsideStep(t2: Tables, t1: Tables, t0: Tables, root: nat, lo: nat, k: nat, next: nat)
    requires lo <= k && next == k + 1 && SameOutside(t1, t0, root, lo, k)
    requires SamePagesBut(t2, t1, root, k)
    ensures SameOutside(t2, t0, root, lo, next)
  {
    forall q: Path | |q| == 4 && !Among(q, lo, next)
      ensures Walk(t2, root, q) == Walk(t0, root, q)
    {
      assert q != PagePath(k);
      assert Among(q, lo, k) ==> Among(q, lo, next);
    }
  }

  method MapUsable(pg: Pager, k: nat) returns (ghost f: nat)
    requires pg.Valid() && Usable(pg, k) && k < PAGES
    modifies pg`tables, pg`pool, pg.frames
    ensures pg.Valid() && pg.pool == old(pg.pool)
    ensures LeastFree(old(pg.frames.mem), old(pg.frames.chain), f)
    ensures OneTaken(pg.frames.mem, pg.frames.chain, old(pg.frames.mem), old(pg.frames.chain), f)
    ensures pg.At(PagePath(k)) == Some(f) && Flags(pg.tables, pg.root, PagePath(k)) == 1
    ensures SamePagesBut(pg.tables, old(pg.tables), pg.root, k) && TablesKept(pg.tables, old(pg.tables), pg.root)
    ensures Kept(pg.tables, old(pg.tables), pg.root)
  {
    var v := 4096 * k;
    PathOfAddress(v, k);
    var r;
    r, f := pg.ALSP(v, 0, 1, 1);
    forall j: nat
      ensures FrameBitmap.Used(pg.frames.mem, pg.frames.chain, j) <==>
              FrameBitmap.Used(old(pg.frames.mem), old(pg.frames.chain), j) || j == f
    {
      assert pg.frames.InUse(j) <==> old(pg.frames.InUse(j)) || j == f;
    }
    forall j: nat | j <= f
      ensures FrameBitmap.Used(old(pg.frames.mem), old(pg.frames.chain), j) <==> j < f
    {
      assert old(pg.frames.InUse(j)) <==> j < f;
    }
  }

  /** Page `k` is mapped, to a frame that holds no table, where `V2P` finds it, and it is not in the stock. */
  ghost predicate Freeable(t: Tables, root: nat, pool: Pool, k: nat) {
    && Walk(t, root, PagePath(k)).Some? && Bit30(4096 * k) == 0 && !InStock(pool, PagePath(k))
    && !IsTable(t, root, Walk(t, root, PagePath(k)).value)
  }

  ghost predicate AllFreeable(t: Tables, root: nat, pool: Pool, lo: nat, hi: int) {
    forall k: nat | lo <= k < hi :: Freeable(t, root, pool, k)
  }

  ghost predicate NoneMapped(t: Tables, root: nat, lo: nat, hi: int) {
    forall k: nat | lo <= k < hi :: Walk(t, root, PagePath(k)).None?
  }

  /** `P_FREES`: the pages are unmapped and their frames free again; nothing else changes. */
  method P_FREES(pg: Pager, v: nat, l: int) returns (r: Outcome)
    requires pg.Valid() && v / 4096 + l <= PAGES
    requires AllFreeable(pg.tables, pg.root, pg.pool, v / 4096, v / 4096 + l)
    modifies pg`tables, pg.frames
    ensures pg.Valid()
    ensures r == if l < 1 then Fault(AL_NOP_FREE) else Done
    ensures NoneMapped(pg.tables, pg.root, v / 4096, v / 4096 + l)
    ensures SameOutside(pg.tables, old(pg.tables), pg.root, v / 4096, v / 4096 + l)
    ensures FramesFreed(pg.frames.mem, pg.frames.chain, old(pg.frames.mem), old(pg.frames.chain),
                        old(pg.tables), pg.root, v / 4096, v / 4096 + l)
  {
    if l < 1 {
      return Fault(AL_NOP_FREE);
    }
    UnmapRange(pg, v, v / 4096, v / 4096 + l);
    return Done;
  }

  /** The loop of `P_FREES`, over the pages `lo` to `hi`. */
  method UnmapRange(pg: Pager, v: nat, lo: nat, hi: nat)
    requires pg.Valid() && v / 4096 == lo <= hi <= PAGES && AllFreeable(pg.tables, pg.root, pg.pool, lo, hi)
    modifies pg`tables, pg.frames
    ensures pg.Valid() && NoneMapped(pg.tables, pg.root, lo, hi)
    ensures SameOutside(pg.tables, old(pg.tables), pg.root, lo, hi)
    ensures FramesFreed(pg.frames.mem, pg.frames.chain, old(pg.frames.mem), old(pg.frames.chain),
                        old(pg.tables), pg.root, lo, hi)
  {
    var page, u := lo, v;
    while page < hi
      invariant lo <= page <= hi && u / 4096 == page && pg.Valid()
      invariant NoneMapped(pg.tables, pg.root, lo, page) && AllFreeable(pg.tables, pg.root, pg.pool, page, hi)
      invariant SameOutside(pg.tables, old(pg.tables), pg.root, lo, page)
      invariant FramesFreed(pg.frames.mem, pg.frames.chain, old(pg.frames.mem), old(pg.frames.chain),
                            old(pg.tables), pg.root, lo, page)
    {
      ghost var t1, mem1, chain1 := pg.tables, pg.frames.mem, pg.frames.chain;
      assert Freeable(t1, pg.root, pg.pool, page);
      UnmapPage(pg, u, page);
      StillFreeable(pg.tables, t1, pg.root, pg.pool, lo, page, page + 1, hi);
      UnmappedStep(pg.tables, t1, old(pg.tables), pg.root, lo, page, page + 1, pg.frames.mem, pg.frames.chain,
                   mem1, chain1, old(pg.frames.mem), old(pg.frames.chain));
      page, u := page + 1, u + 0x1000;
    }
  }

  /** The frames in use are those that were, but for the frames of the pages from `lo` to `hi`. */
  ghost predicate FramesFreed(mem: FrameBitmap.Memory, chain: seq<nat>, mem0: FrameBitmap.Memory, chain0: seq<nat>,
                              t: Tables, root: nat, lo: nat, hi: int)
  {
    forall j: nat ::
      FrameBitmap.Used(mem, chain, j) <==> FrameBitmap.Used(mem0, chain0, j) && !FrameOfSome(t, root, lo, hi, j)
  }

  /** The same for one page. */
  ghost predicate FrameFreed(mem: FrameBitmap.Memory, chain: seq<nat>, mem0: FrameBitmap.Memory, chain0: seq<nat>,
                             t: Tables, root: nat, k: nat)
  {
    forall j: nat ::
      FrameBitmap.Used(mem, chain, j) <==> FrameBitmap.Used(mem0, chain0, j) && Walk(t, root, PagePath(k)) != Some(j)
  }

  lemma FreedStep(mem2: FrameBitmap.Memory, chain2: seq<nat>, mem1: FrameBitmap.Memory, chain1: seq<nat>,
                  mem0: FrameBitmap.Memory, chain0: seq<nat>, t: Tables, root: nat, lo: nat, k: nat, next: nat)
    requires lo <= k && next == k + 1
    requires FramesFreed(mem1, chain1, mem0, chain0, t, root, lo, k)
    requires FrameFreed(mem2, chain2, mem1, chain1, t, root, k)
    ensures FramesFreed(mem2, chain2, mem0, chain0, t, root, lo, next)
  {
    forall j: nat
      ensures FrameOfSome(t, root, lo, next, j) <==>
              FrameOfSome(t, root, lo, k, j) || Walk(t, root, PagePath(k)) == Some(j)
    {
    }
  }

  /** Frame `j` is the frame of one of the pages from `lo` to `hi`. */
  ghost predicate FrameOfSome(t: Tables, root: nat, lo: nat, hi: int, j: nat) {
    exists k: nat :: lo <= k < hi && Walk(t, root, PagePath(k)) == Some(j)
  }

  lemma Bit30OfPage(u: nat, k: nat)
    requires u / 4096 == k
    ensures Bit30(u) == Bit30(4096 * k)
  {
    var q := k / 0x4_0000;
    DivisionIs(u, 0x4000_0000, q, k % 0x4_0000 * 4096 + u % 4096);
    DivisionIs(4096 * k, 0x4000_0000, q, k % 0x4_0000 * 4096);
  }

  lemma SameTables(t': Tables, t: Tables, root: nat, p: Path)
    requires |p| == 4 && forall q: Path | |q| <= 4 && q != p :: Walk(t', root, q) == Walk(t, root, q)
    ensures forall f: nat :: IsTable(t', root, f) <==> IsTable(t, root, f)
  {
    forall f: nat
      ensures IsTable(t', root, f) <==> IsTable(t, root, f)
    {
      forall q: Path | |q| <= 3
        ensures Walk(t', root, q) == Walk(t, root, q)
      {
      }
    }
  }

  lemma NotAmong(lo: nat, k: nat)
    requires k < PAGES
    ensures !Among(PagePath(k), lo, k)
  {
    if j: nat :| lo <= j < k && PagePath(k) == PagePath(j) {
      PagesDiffer(j, k);
    }
  }

  /** Everywhere but at page `k` the two walk alike. */
  ghost predicate SameBut(t': Tables, t: Tables, root: nat, k: nat) {
    forall q: Path | |q| <= 4 && q != PagePath(k) :: Walk(t', root, q) == Walk(t, root, q)
  }

  lemma UnmappedStep(t2: Tables, t1: Tables, t0: Tables, root: nat, lo: nat, k: nat, next: nat,
                     mem2: FrameBitmap.Memory, chain2: seq<nat>, mem1: FrameBitmap.Memory, chain1: seq<nat>,
                     mem0: FrameBitmap.Memory, chain0: seq<nat>)
    requires lo <= k < PAGES && next == k + 1 && SameOutside(t1, t0, root, lo, k) && SameBut(t2, t1, root, k)
    requires FramesFreed(mem1, chain1, mem0, chain0, t0, root, lo, k)
    requires FrameFreed(mem2, chain2, mem1, chain1, t1, root, k)
    ensures SameOutside(t2, t0, root, lo, next) && FramesFreed(mem2, chain2, mem0, chain0, t0, root, lo, next)
  {
    NotAmong(lo, k);
    assert Walk(t1, root, PagePath(k)) == Walk(t0, root, PagePath(k));
    FreedStep(mem2, chain2, mem1, chain1, mem0, chain0, t0, root, lo, k, next);
    OutsideStep(t2, t1, t0, root, lo, k, next);
  }

  lemma StillFreeable(t': Tables, t: Tables, root: nat, pool: Pool, lo: nat, k: nat, next: nat, hi: nat)
    requires lo <= k < hi <= PAGES && next == k + 1 && SameBut(t', t, root, k) && Walk(t', root, PagePath(k)).None?
    requires NoneMapped(t, root, lo, k) && AllFreeable(t, root, pool, k, hi)
    ensures NoneMapped(t', root, lo, next) && AllFreeable(t', root, pool, next, hi)
  {
    SameTables(t', t, root, PagePath(k));
    forall j: nat | lo <= j < hi && j != k
      ensures Walk(t', root, PagePath(j)) == Walk(t, root, PagePath(j))
    {
      PagesDiffer(j, k);
    }
    forall j: nat | next <= j < hi
      ensures Freeable(t', root, pool, j)
    {
      assert Freeable(t, root, pool, j);
    }
  }

  /** `P_FREE` for a page that it frees soundly. */
  method UnmapPage(pg: Pager, u: nat, k: nat)
    requires pg.Valid() && u / 4096 == k < PAGES && Freeable(pg.tables, pg.root, pg.pool, k)
    modifies pg`tables, pg.frames
    ensures pg.Valid() && !Mapped(pg, k) && SameBut(pg.tables, old(pg.tables), pg.root, k)
    ensures FrameFreed(pg.frames.mem, pg.frames.chain, old(pg.frames.mem), old(pg.frames.chain),
                       old(pg.tables), pg.root, k)
  {
    PathOfAddress(u, k);
    Bit30OfPage(u, k);
    OwnFrame(pg.tables, pg.root, u, pg.At(IndexPath(u)).value);
    MappedHasTables(pg.tables, pg.root, IndexPath(u));
    pg.P_FREE(u);
    forall j: nat
      ensures FrameBitmap.Used(pg.frames.mem, pg.frames.chain, j) <==>
              FrameBitmap.Used(old(pg.frames.mem), old(pg.frames.chain), j) && old(pg.At(PagePath(k))) != Some(j)
    {
      assert pg.frames.InUse(j) <==> old(pg.frames.InUse(j)) && old(pg.At(PagePath(k))) != Some(j);
    }
  }
}
