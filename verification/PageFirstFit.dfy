/** `KP_ALLOC3` (page.c): mapping the lowest page that is not mapped, from entry 1 of the root table on. */
module PageFirstFit {
  import opened Options
  import opened PageWalk
  import opened PageFlags
  import opened PageTables
  import opened PageSearch
  import opened PageLowest

  /** `ad` is marked as used, but nothing leads to it. */
  ghost predicate Spare(pg: Pager, ad: nat)
    reads pg, pg.frames
  {
    pg.frames.InUse(ad) && !Reached(pg.tables, pg.root, ad)
  }

  /** Map the page `[a, b, c, d]`, the lowest one not mapped. */
  method MapFound(pg: Pager, a: nat, b: nat, c: nat, d: nat, ghost k: nat, f3: nat, ad: nat, ghost flag: nat)
    returns (r: Search)
    requires pg.Valid() && Spare(pg, ad) && 1 <= a < 512 && b < 512 && c < 512 && d < 512 && k == PageNo(a, b, c, d)
    requires pg.At([a, b, c]) == Some(f3) && pg.At([a, b, c, d]).None?
    requires FullBelow(pg.tables, pg.root, k)
    modifies pg`tables
    ensures pg.Valid() && r.Found?
    ensures Reports(r, pg.tables, old(pg.tables), pg.root, ad, pg.pool, pg.pool)
    ensures Entries(true, pg.tables, old(pg.tables), pg.root, pg.pool, flag)
  {
    ghost var t0 := pg.tables;
    ghost var p := [a, b, c, d];
    assert p[..3] == [a, b, c] && p == p[..3] + [d];
    PathOfPageNo(a, b, c, d);
    NeedIs(pg.tables, pg.root, k);
    pg.StoreLeaf(p, f3, d, ad, 1, 0);
    LeafEntries(pg.tables, t0, pg.root, k, pg.pool, flag);
    r := Found(PageNo(a, b, c, d));
  }

  /** Put the missing table on the way to page `k`; no page is mapped or unmapped, and `ad` stays spare. */
  method NewTable(pg: Pager, ghost p: Path, f: nat, i: nat, ghost q: Path, ghost k: nat, ad: nat)
    returns (m: Option<nat>)
    requires pg.Valid() && Spare(pg, ad) && |p| <= 2 && pg.At(p) == Some(f) && i < 512 && q == p + [i]
    requires FirstMissing(pg.tables, pg.root, q, k)
    modifies pg`tables, pg`pool
    ensures pg.Valid() && Spare(pg, ad) && SamePages(pg.tables, old(pg.tables), pg.root)
    ensures m.Some? ==> pg.At(q) == m && Taken(old(pg.pool), 1, pg.pool)
    ensures m.Some? ==> MadeFrom(pg.tables, old(pg.tables), pg.root, q, old(pg.pool)[0], 0x23)
    ensures Kept(pg.tables, old(pg.tables), pg.root)
    ensures m.Some? ==> old(Need(pg.tables, pg.root)) == Need(pg.tables, pg.root) + 1
    ensures m.Some? ==> pg.At(q + [0]).None?
    ensures m.None? ==> old(pg.pool) == []
    ensures FullBelow(pg.tables, pg.root, k)
  {
    ghost var t0 := pg.tables;
    assert Slot(pg.tables, pg.root, p, i, f) && pg.At(p + [i]).None?;
    m := pg.LinkTable(p, f, i, 0x23);
    SameFull(pg.tables, old(pg.tables), pg.root, k);
    if m.Some? {
      FewerMissing(pg.tables, t0, pg.root, k, PagePath(k), p, q);
    }
  }

  /** The same at the head of a loop, where the table may exist already. */
  method Table(pg: Pager, ghost p: Path, f: nat, i: nat, ghost q: Path, ghost k: nat, ad: nat)
    returns (m: Option<nat>)
    requires pg.Valid() && Spare(pg, ad) && |p| <= 2 && pg.At(p) == Some(f) && i < 512 && q == p + [i]
    requires FullBelow(pg.tables, pg.root, k) && (pg.At(q).None? ==> AtHead(pg.tables, pg.root, k, p, q))
    modifies pg`tables, pg`pool
    ensures pg.Valid() && Spare(pg, ad) && SamePages(pg.tables, old(pg.tables), pg.root)
    ensures m.Some? ==> pg.At(q) == m && pg.At(p) == Some(f)
    ensures m.Some? && old(pg.At(q)).None? ==> Taken(old(pg.pool), 1, pg.pool)
    ensures m.Some? && old(pg.At(q)).None? ==>
              HeadMade(pg.tables, old(pg.tables), pg.root, k, p, q, old(pg.pool), pg.pool)
    ensures Kept(pg.tables, old(pg.tables), pg.root)
    ensures m.Some? && old(pg.At(q)).None? ==> old(Need(pg.tables, pg.root)) == Need(pg.tables, pg.root) + 1
    ensures m.Some? && old(pg.At(q)).None? ==> pg.At(q + [0]).None?
    ensures m.None? ==> old(pg.pool) == [] && old(pg.At(q)).None?
    ensures old(pg.At(q)).Some? ==> pg.tables == old(pg.tables) && pg.pool == old(pg.pool)
    ensures FullBelow(pg.tables, pg.root, k)
  {
    ghost var t0 := pg.tables;
    m := pg.EnsureLevel(p, f, i, 0x1);
    SameFull(pg.tables, old(pg.tables), pg.root, k);
    if m.Some? && old(pg.At(q)).None? {
      FewerMissing(pg.tables, t0, pg.root, k, PagePath(k), p, q);
    }
  }

  /** A next table of the last level that does not exist yet: create it and map its first page. */
  method IntoNewPt(pg: Pager, a: nat, b: nat, c: nat, f2: nat, ad: nat) returns (r: Search)
    requires pg.Valid() && Spare(pg, ad) && 1 <= a < 512 && b < 512 && c < 512
    requires pg.At([a, b]) == Some(f2) && pg.At([a, b, c]).None?
    requires FullBelow(pg.tables, pg.root, PageNo(a, b, c, 0))
    modifies pg`tables, pg`pool
    ensures pg.Valid() && !r.Full?
    ensures Reports(r, pg.tables, old(pg.tables), pg.root, ad, old(pg.pool), pg.pool)
    ensures Entries(r.Found?, pg.tables, old(pg.tables), pg.root, old(pg.pool), 0x23)
  {
    ghost var t0, p, q, k := pg.tables, [a, b], [a, b, c], PageNo(a, b, c, 0);
    MissingPt(t0, pg.root, a, b, c, k);
    var m := NewTable(pg, p, f2, c, q, k, ad);
    if m.None? {
      return Failed(KPALLOC_NOFREE);
    }
    r := FirstOfNewPt(pg, a, b, c, k, m.value, ad, t0, old(pg.pool), p, q);
  }

  /** Its first page, for the state `t0` and the stock before it was created. */
  method FirstOfNewPt(pg: Pager, a: nat, b: nat, c: nat, ghost k: nat, f3: nat, ad: nat, ghost t0: Tables,
                      ghost pool: Pool, ghost p: Path, ghost q: Path)
    returns (r: Search)
    requires pg.Valid() && Spare(pg, ad) && 1 <= a < 512 && b < 512 && c < 512 && k == PageNo(a, b, c, 0)
    requires pg.At([a, b, c]) == Some(f3) && pg.At([a, b, c, 0]).None? && FullBelow(pg.tables, pg.root, k)
    requires SamePages(pg.tables, t0, pg.root) && Need(t0, pg.root) == Need(pg.tables, pg.root) + 1
    requires Taken(pool, 1, pg.pool)
    requires FirstMissing(t0, pg.root, q, k) && |q| == |p| + 1 && p <= q && Walk(t0, pg.root, p).Some?
    requires MadeFrom(pg.tables, t0, pg.root, q, pool[0], 0x23) && Kept(pg.tables, t0, pg.root)
    modifies pg`tables
    ensures pg.Valid() && r.Found?
    ensures Reports(r, pg.tables, t0, pg.root, ad, pool, pg.pool)
    ensures Entries(true, pg.tables, t0, pg.root, pool, 0x23)
  {
    ghost var t1 := pg.tables;
    r := MapFound(pg, a, b, c, 0, k, f3, ad, 0x23);
    LinkedEntries(true, pg.tables, t1, t0, pg.root, k, p, q, pg.pool, pool, 0x23);
    LinkedReports(r, pg.tables, t1, t0, pg.root, ad, pg.pool, pool, pg.pool);
  }

  method IntoNewPde(pg: Pager, a: nat, b: nat, f1: nat, ad: nat) returns (r: Search)
    requires pg.Valid() && Spare(pg, ad) && 1 <= a < 512 && b < 512
    requires pg.At([a]) == Some(f1) && pg.At([a, b]).None?
    requires FullBelow(pg.tables, pg.root, PageNo(a, b, 0, 0))
    modifies pg`tables, pg`pool
    ensures pg.Valid() && !r.Full?
    ensures Reports(r, pg.tables, old(pg.tables), pg.root, ad, old(pg.pool), pg.pool)
    ensures Entries(r.Found?, pg.tables, old(pg.tables), pg.root, old(pg.pool), 0x23)
  {
    ghost var t0, p, q, k := pg.tables, [a], [a, b], PageNo(a, b, 0, 0);
    MissingPde(t0, pg.root, a, b, k);
    var m := NewTable(pg, p, f1, b, q, k, ad);
    if m.None? {
      return Failed(KPALLOC_NOFREE);
    }
    ghost var t1, pool1 := pg.tables, pg.pool;
    r := IntoNewPt(pg, a, b, 0, m.value, ad);
    LinkedEntries(r.Found?, pg.tables, t1, t0, pg.root, k, p, q, pool1, old(pg.pool), 0x23);
    LinkedReports(r, pg.tables, t1, t0, pg.root, ad, pool1, old(pg.pool), pg.pool);
  }

  method IntoNewPdpt(pg: Pager, a: nat, ad: nat) returns (r: Search)
    requires pg.Valid() && Spare(pg, ad) && 1 <= a < 512
    requires pg.At([a]).None?
    requires FullBelow(pg.tables, pg.root, PageNo(a, 0, 0, 0))
    modifies pg`tables, pg`pool
    ensures pg.Valid() && !r.Full?
    ensures Reports(r, pg.tables, old(pg.tables), pg.root, ad, old(pg.pool), pg.pool)
    ensures Entries(r.Found?, pg.tables, old(pg.tables), pg.root, old(pg.pool), 0x23)
  {
    ghost var t0, p, q, k := pg.tables, [], [a], PageNo(a, 0, 0, 0);
    MissingPdpt(t0, pg.root, a, k);
    var m := NewTable(pg, p, pg.root, a, q, k, ad);
    if m.None? {
      return Failed(KPALLOC_NOFREE);
    }
    ghost var t1, pool1 := pg.tables, pg.pool;
    r := IntoNewPde(pg, a, 0, m.value, ad);
    LinkedEntries(r.Found?, pg.tables, t1, t0, pg.root, k, p, q, pool1, old(pg.pool), 0x23);
    LinkedReports(r, pg.tables, t1, t0, pg.root, ad, pool1, old(pg.pool), pg.pool);
  }

  /** The innermost loop: the first entry of a last-level table that is not present, 512 if there is none. */
  method FirstAbsent(pg: Pager, a: nat, b: nat, c: nat, f3: nat) returns (d: nat)
    requires Tree(pg.tables, pg.root) && 1 <= a < 512 && b < 512 && c < 512 && pg.At([a, b, c]) == Some(f3)
    requires FullBelow(pg.tables, pg.root, PageNo(a, b, c, 0))
    ensures d <= 512 && FullBelow(pg.tables, pg.root, PageNo(a, b, c, d))
    ensures d < 512 ==> pg.At([a, b, c, d]).None?
    ensures d == 512 ==> pg.At([a, b, c, 0]).Some?
  {
    assert HasTable(pg.tables, f3);
    d := 0;
    while d < 512 && Present(pg.tables[(f3, d)])
      invariant d <= 512 && FullBelow(pg.tables, pg.root, PageNo(a, b, c, d))
      invariant d > 0 ==> pg.At([a, b, c, 0]).Some?
    {
      WalkStep(pg.tables, pg.root, [a, b, c], d);
      assert [a, b, c] + [d] == [a, b, c, d];
      PathOfPageNo(a, b, c, d);
      OneMore(pg.tables, pg.root, PageNo(a, b, c, d), PageNo(a, b, c, d + 1));
      d := d + 1;
    }
    if d < 512 {
      WalkStep(pg.tables, pg.root, [a, b, c], d);
      assert [a, b, c] + [d] == [a, b, c, d];
    }
  }

  /**
   * The body of the loop over the third level: first the table itself, then, once it turned out to be full, the next
   * table, wherever that begins.
   */
  method ScanPt(pg: Pager, a: nat, b: nat, c: nat, f1: nat, f2: nat, ad: nat) returns (r: Search)
    requires pg.Valid() && Spare(pg, ad) && 1 <= a < 512 && b < 512 && c < 512
    requires pg.At([a]) == Some(f1) && pg.At([a, b]) == Some(f2)
    requires c > 0 ==> pg.At([a, b, c]).Some?
    requires FullBelow(pg.tables, pg.root, PageNo(a, b, c, 0))
    modifies pg`tables, pg`pool
    ensures pg.Valid()
    ensures Reports(r, pg.tables, old(pg.tables), pg.root, ad, old(pg.pool), pg.pool)
    ensures Entries(r.Found?, pg.tables, old(pg.tables), pg.root, old(pg.pool), old(LowestFlag(pg.tables, pg.root)))
    ensures r.Full? ==> pg.pool == old(pg.pool) && !(a == b == c == 511) && pg.At([a, b, c]).Some?
    ensures r.Full? ==> NextThere(pg, a, b, c)
    ensures r.Full? ==> FullBelow(pg.tables, pg.root, PageNo(a, b, c + 1, 0))
  {
    r := ScanThisPt(pg, a, b, c, f2, ad);
    if r.Full? {
      r := NextTable(pg, a, b, c, f1, f2, ad);
    }
  }

  /** Its first part: the table itself, created if it was missing. */
  method ScanThisPt(pg: Pager, a: nat, b: nat, c: nat, f2: nat, ad: nat) returns (r: Search)
    requires pg.Valid() && Spare(pg, ad) && 1 <= a < 512 && b < 512 && c < 512 && pg.At([a, b]) == Some(f2)
    requires c > 0 ==> pg.At([a, b, c]).Some?
    requires FullBelow(pg.tables, pg.root, PageNo(a, b, c, 0))
    modifies pg`tables, pg`pool
    ensures pg.Valid()
    ensures Reports(r, pg.tables, old(pg.tables), pg.root, ad, old(pg.pool), pg.pool)
    ensures Entries(r.Found?, pg.tables, old(pg.tables), pg.root, old(pg.pool), old(LowestFlag(pg.tables, pg.root)))
    ensures r.Full? ==> pg.pool == old(pg.pool) && pg.At([a, b, c]).Some?
    ensures r.Full? ==> FullBelow(pg.tables, pg.root, PageNo(a, b, c + 1, 0))
  {
    ghost var t0, p, q, k := pg.tables, [a, b], [a, b, c], PageNo(a, b, c, 0);
    MissingPt(t0, pg.root, a, b, c, k);
    var f3 := Table(pg, p, f2, c, q, k, ad);
    if f3.None? {
      return Failed(KPALLOC_NOFREE);
    }
    r := ScanTableThere(pg, a, b, c, k, f3.value, ad, t0, old(pg.pool), p, q, Walk(t0, pg.root, q).Some?);
  }

  /** The loop over its entries, for the state `t0` and the stock before the table was created, if it was. */
  method ScanTableThere(pg: Pager, a: nat, b: nat, c: nat, ghost k: nat, f3: nat, ad: nat, ghost t0: Tables,
                        ghost pool: Pool, ghost p: Path, ghost q: Path, ghost there: bool)
    returns (r: Search)
    requires pg.Valid() && Spare(pg, ad) && 1 <= a < 512 && b < 512 && c < 512 && k == PageNo(a, b, c, 0)
    requires pg.At([a, b, c]) == Some(f3) && FullBelow(pg.tables, pg.root, k)
    requires there ==> pg.tables == t0 && pg.pool == pool
    requires !there ==> SamePages(pg.tables, t0, pg.root) && Need(t0, pg.root) == Need(pg.tables, pg.root) + 1
    requires !there ==> Taken(pool, 1, pg.pool) && pg.At([a, b, c, 0]).None?
    requires !there ==> HeadMade(pg.tables, t0, pg.root, k, p, q, pool, pg.pool)
    modifies pg`tables
    ensures pg.Valid() && Reports(r, pg.tables, t0, pg.root, ad, pool, pg.pool) && !r.Failed?
    ensures Entries(r.Found?, pg.tables, t0, pg.root, pool, LowestFlag(t0, pg.root))
    ensures r.Full? ==> there && FullBelow(pg.tables, pg.root, PageNo(a, b, c + 1, 0))
  {
    ghost var t1 := pg.tables;
    r := ScanTable(pg, a, b, c, f3, ad, LowestFlag(t1, pg.root));
    TableEntries(r.Found?, pg.tables, t1, t0, pg.root, k, p, q, pg.pool, pool, there);
    TableReports(r, pg.tables, t1, t0, pg.root, ad, pg.pool, pool, pg.pool, there);
  }

  method ScanTable(pg: Pager, a: nat, b: nat, c: nat, f3: nat, ad: nat, ghost flag: nat) returns (r: Search)
    requires pg.Valid() && Spare(pg, ad) && 1 <= a < 512 && b < 512 && c < 512 && pg.At([a, b, c]) == Some(f3)
    requires FullBelow(pg.tables, pg.root, PageNo(a, b, c, 0))
    modifies pg`tables
    ensures pg.Valid() && !r.Failed?
    ensures Reports(r, pg.tables, old(pg.tables), pg.root, ad, pg.pool, pg.pool)
    ensures Entries(r.Found?, pg.tables, old(pg.tables), pg.root, pg.pool, flag)
    ensures r.Full? ==> pg.At([a, b, c, 0]).Some? && FullBelow(pg.tables, pg.root, PageNo(a, b, c + 1, 0))
  {
    var d := FirstAbsent(pg, a, b, c, f3);
    if d < 512 {
      r := MapFound(pg, a, b, c, d, PageNo(a, b, c, d), f3, ad, flag);
      return;
    }
    assert PageNo(a, b, c, d) == PageNo(a, b, c + 1, 0);
    return Full;
  }

  /** The table after `[a, b, c]`, or the next one above it, exists. */
  ghost predicate NextThere(pg: Pager, a: nat, b: nat, c: nat)
    reads pg
  {
    && (c < 511 ==> pg.At([a, b, c + 1]).Some?)
    && (c == 511 && b < 511 ==> pg.At([a, b + 1]).Some?)
    && (c == b == 511 ==> pg.At([a + 1]).Some?)
  }

  /** The last part of that body: the table is full, so look whether the one after it exists. */
  method NextTable(pg: Pager, a: nat, b: nat, c: nat, f1: nat, f2: nat, ad: nat) returns (r: Search)
    requires pg.Valid() && Spare(pg, ad) && 1 <= a < 512 && b < 512 && c < 512
    requires pg.At([a]) == Some(f1) && pg.At([a, b]) == Some(f2)
    requires FullBelow(pg.tables, pg.root, PageNo(a, b, c + 1, 0))
    modifies pg`tables, pg`pool
    ensures pg.Valid()
    ensures Reports(r, pg.tables, old(pg.tables), pg.root, ad, old(pg.pool), pg.pool)
    ensures Entries(r.Found?, pg.tables, old(pg.tables), pg.root, old(pg.pool), old(LowestFlag(pg.tables, pg.root)))
    ensures r.Full? ==> NextThere(pg, a, b, c)
    ensures r.Full? ==> pg.pool == old(pg.pool) && !(a == b == c == 511)
  {
    if c < 511 {
      r := NextPt(pg, a, b, c + 1, f2, ad);
    } else if b < 511 {
      assert PageNo(a, b, c + 1, 0) == PageNo(a, b + 1, 0, 0);
      r := NextPde(pg, a, b + 1, f1, ad);
    } else if a < 511 {
      assert PageNo(a, b, c + 1, 0) == PageNo(a + 1, 0, 0, 0);
      r := NextPdpt(pg, a + 1, ad);
    } else {
      assert PageNo(a, b, c + 1, 0) == PAGES;
      r := Failed(PAGE_NOFREESPACE);
    }
  }

  method NextPt(pg: Pager, a: nat, b: nat, c: nat, f2: nat, ad: nat) returns (r: Search)
    requires pg.Valid() && Spare(pg, ad) && 1 <= a < 512 && b < 512 && c < 512 && pg.At([a, b]) == Some(f2)
    requires c > 0
    requires FullBelow(pg.tables, pg.root, PageNo(a, b, c, 0))
    modifies pg`tables, pg`pool
    ensures pg.Valid()
    ensures Reports(r, pg.tables, old(pg.tables), pg.root, ad, old(pg.pool), pg.pool)
    ensures Entries(r.Found?, pg.tables, old(pg.tables), pg.root, old(pg.pool), old(LowestFlag(pg.tables, pg.root)))
    ensures r.Full? ==> pg.pool == old(pg.pool) && pg.At([a, b, c]).Some?
  {
    ghost var p, q, k := [a, b], [a, b, c], PageNo(a, b, c, 0);
    var there := EntryPresent(pg, p, f2, c, q);
    if there {
      return Full;
    }
    ghost var t0 := pg.tables;
    MissingPt(t0, pg.root, a, b, c, k);
    FirstFlag(t0, pg.root, k, p, q);
    r := IntoNewPt(pg, a, b, c, f2, ad);
  }

  method NextPde(pg: Pager, a: nat, b: nat, f1: nat, ad: nat) returns (r: Search)
    requires pg.Valid() && Spare(pg, ad) && 1 <= a < 512 && b < 512 && pg.At([a]) == Some(f1)
    requires b > 0
    requires FullBelow(pg.tables, pg.root, PageNo(a, b, 0, 0))
    modifies pg`tables, pg`pool
    ensures pg.Valid()
    ensures Reports(r, pg.tables, old(pg.tables), pg.root, ad, old(pg.pool), pg.pool)
    ensures Entries(r.Found?, pg.tables, old(pg.tables), pg.root, old(pg.pool), old(LowestFlag(pg.tables, pg.root)))
    ensures r.Full? ==> pg.pool == old(pg.pool) && pg.At([a, b]).Some?
  {
    ghost var p, q, k := [a], [a, b], PageNo(a, b, 0, 0);
    var there := EntryPresent(pg, p, f1, b, q);
    if there {
      return Full;
    }
    ghost var t0 := pg.tables;
    MissingPde(t0, pg.root, a, b, k);
    FirstFlag(t0, pg.root, k, p, q);
    r := IntoNewPde(pg, a, b, f1, ad);
  }

  method NextPdpt(pg: Pager, a: nat, ad: nat) returns (r: Search)
    requires pg.Valid() && Spare(pg, ad) && 1 <= a < 512
    requires a > 1
    requires FullBelow(pg.tables, pg.root, PageNo(a, 0, 0, 0))
    modifies pg`tables, pg`pool
    ensures pg.Valid()
    ensures Reports(r, pg.tables, old(pg.tables), pg.root, ad, old(pg.pool), pg.pool)
    ensures Entries(r.Found?, pg.tables, old(pg.tables), pg.root, old(pg.pool), old(LowestFlag(pg.tables, pg.root)))
    ensures r.Full? ==> pg.pool == old(pg.pool) && pg.At([a]).Some?
  {
    ghost var p, q, k := [], [a], PageNo(a, 0, 0, 0);
    var there := EntryPresent(pg, p, pg.root, a, q);
    if there {
      return Full;
    }
    ghost var t0 := pg.tables;
    MissingPdpt(t0, pg.root, a, k);
    FirstFlag(t0, pg.root, k, p, q);
    r := IntoNewPdpt(pg, a, ad);
  }

  method EntryPresent(pg: Pager, ghost p: Path, f: nat, i: nat, ghost q: Path) returns (there: bool)
    requires Tree(pg.tables, pg.root) && Slot(pg.tables, pg.root, p, i, f) && q == p + [i]
    ensures there <==> pg.At(q).Some?
  {
    assert HasTable(pg.tables, f);
    WalkStep(pg.tables, pg.root, p, i);
    there := Present(pg.tables[(f, i)]);
  }

  /** The loop over the third level. */
  method ScanPde(pg: Pager, a: nat, b: nat, f1: nat, f2: nat, ad: nat) returns (r: Search)
    requires pg.Valid() && Spare(pg, ad) && 1 <= a < 512 && b < 512
    requires pg.At([a]) == Some(f1) && pg.At([a, b]) == Some(f2)
    requires b > 0 ==> pg.At([a, b]).Some?
    requires FullBelow(pg.tables, pg.root, PageNo(a, b, 0, 0))
    modifies pg`tables, pg`pool
    ensures pg.Valid()
    ensures Reports(r, pg.tables, old(pg.tables), pg.root, ad, old(pg.pool), pg.pool)
    ensures Entries(r.Found?, pg.tables, old(pg.tables), pg.root, old(pg.pool), old(LowestFlag(pg.tables, pg.root)))
    ensures r.Full? ==> pg.pool == old(pg.pool) && !(a == b == 511) && pg.At([a, b, 0]).Some?
    ensures r.Full? ==> NextThere(pg, a, b, 511)
    ensures r.Full? ==> FullBelow(pg.tables, pg.root, PageNo(a, b + 1, 0, 0))
  {
    r := Full;
    var c := 0;
    while r.Full? && c < 512
      invariant c <= 512 && pg.Valid()
      invariant r.Full? ==> pg.tables == old(pg.tables) && pg.pool == old(pg.pool)
      invariant r.Full? ==> FullBelow(pg.tables, pg.root, PageNo(a, b, c, 0))
      invariant r.Full? && 0 < c < 512 ==> pg.At([a, b, c]).Some?
      invariant r.Full? && c == 512 ==> NextThere(pg, a, b, 511)
      invariant !r.Full? ==>
                  Entries(r.Found?, pg.tables, old(pg.tables), pg.root, old(pg.pool),
                          old(LowestFlag(pg.tables, pg.root)))
      invariant !r.Full? ==> Reports(r, pg.tables, old(pg.tables), pg.root, ad, old(pg.pool), pg.pool)
      invariant r.Full? && c > 0 ==> pg.At([a, b, 0]).Some? && !(a == b == c - 1 == 511)
      decreases r.Full?, 512 - c
    {
      r := ScanPt(pg, a, b, c, f1, f2, ad);
      c := c + 1;
    }
    assert PageNo(a, b, 512, 0) == PageNo(a, b + 1, 0, 0);
  }

  /** The body of the loop over the second level. */
  method ScanPdptEntry(pg: Pager, a: nat, b: nat, f1: nat, ad: nat) returns (r: Search)
    requires pg.Valid() && Spare(pg, ad) && 1 <= a < 512 && b < 512
    requires pg.At([a]) == Some(f1)
    requires b > 0 ==> pg.At([a, b]).Some?
    requires FullBelow(pg.tables, pg.root, PageNo(a, b, 0, 0))
    modifies pg`tables, pg`pool
    ensures pg.Valid()
    ensures Reports(r, pg.tables, old(pg.tables), pg.root, ad, old(pg.pool), pg.pool)
    ensures Entries(r.Found?, pg.tables, old(pg.tables), pg.root, old(pg.pool), old(LowestFlag(pg.tables, pg.root)))
    ensures r.Full? ==> pg.pool == old(pg.pool) && !(a == b == 511) && pg.At([a, b]).Some?
    ensures r.Full? ==> NextThere(pg, a, b, 511)
    ensures r.Full? ==> FullBelow(pg.tables, pg.root, PageNo(a, b + 1, 0, 0))
  {
    ghost var t0, p, q, k := pg.tables, [a], [a, b], PageNo(a, b, 0, 0);
    MissingPde(t0, pg.root, a, b, k);
    var f2 := Table(pg, p, f1, b, q, k, ad);
    if f2.None? {
      return Failed(KPALLOC_NOFREE);
    }
    ghost var t1, pool1 := pg.tables, pg.pool;
    r := ScanPde(pg, a, b, f1, f2.value, ad);
    TableEntries(r.Found?, pg.tables, t1, t0, pg.root, k, p, q, pool1, old(pg.pool), Walk(t0, pg.root, q).Some?);
    TableReports(r, pg.tables, t1, t0, pg.root, ad, pool1, old(pg.pool), pg.pool, Walk(t0, pg.root, q).Some?);
  }

  /** The loop over the second level. */
  method ScanPdpt(pg: Pager, a: nat, f1: nat, ad: nat) returns (r: Search)
    requires pg.Valid() && Spare(pg, ad) && 1 <= a < 512 && pg.At([a]) == Some(f1)
    requires FullBelow(pg.tables, pg.root, PageNo(a, 0, 0, 0))
    modifies pg`tables, pg`pool
    ensures pg.Valid()
    ensures Reports(r, pg.tables, old(pg.tables), pg.root, ad, old(pg.pool), pg.pool)
    ensures Entries(r.Found?, pg.tables, old(pg.tables), pg.root, old(pg.pool), old(LowestFlag(pg.tables, pg.root)))
    ensures r.Full? ==> pg.pool == old(pg.pool) && a != 511 && pg.At([a, 0]).Some?
    ensures r.Full? ==> NextThere(pg, a, 511, 511)
    ensures r.Full? ==> FullBelow(pg.tables, pg.root, PageNo(a + 1, 0, 0, 0))
  {
    r := Full;
    var b := 0;
    while r.Full? && b < 512
      invariant b <= 512 && pg.Valid()
      invariant r.Full? ==> pg.tables == old(pg.tables) && pg.pool == old(pg.pool)
      invariant r.Full? ==> FullBelow(pg.tables, pg.root, PageNo(a, b, 0, 0))
      invariant r.Full? && 0 < b < 512 ==> pg.At([a, b]).Some?
      invariant r.Full? && b == 512 ==> NextThere(pg, a, 511, 511)
      invariant !r.Full? ==>
                  Entries(r.Found?, pg.tables, old(pg.tables), pg.root, old(pg.pool),
                          old(LowestFlag(pg.tables, pg.root)))
      invariant !r.Full? ==> Reports(r, pg.tables, old(pg.tables), pg.root, ad, old(pg.pool), pg.pool)
      invariant r.Full? && b > 0 ==> pg.At([a, 0]).Some? && !(a == b - 1 == 511)
      decreases r.Full?, 512 - b
    {
      r := ScanPdptEntry(pg, a, b, f1, ad);
      b := b + 1;
    }
    assert PageNo(a, 512, 0, 0) == PageNo(a + 1, 0, 0, 0);
  }

  /** The body of the outermost loop. */
  method ScanPml4Entry(pg: Pager, a: nat, ad: nat) returns (r: Search)
    requires pg.Valid() && Spare(pg, ad) && 1 <= a < 512
    requires a > 1 ==> pg.At([a]).Some?
    requires FullBelow(pg.tables, pg.root, PageNo(a, 0, 0, 0))
    modifies pg`tables, pg`pool
    ensures pg.Valid()
    ensures Reports(r, pg.tables, old(pg.tables), pg.root, ad, old(pg.pool), pg.pool)
    ensures Entries(r.Found?, pg.tables, old(pg.tables), pg.root, old(pg.pool), old(LowestFlag(pg.tables, pg.root)))
    ensures r.Full? ==> pg.pool == old(pg.pool) && a != 511
    ensures r.Full? ==> pg.At([a + 1]).Some?
    ensures r.Full? ==> FullBelow(pg.tables, pg.root, PageNo(a + 1, 0, 0, 0))
  {
    ghost var t0, p, q, k := pg.tables, [], [a], PageNo(a, 0, 0, 0);
    MissingPdpt(t0, pg.root, a, k);
    var f1 := Table(pg, p, pg.root, a, q, k, ad);
    if f1.None? {
      return Failed(KPALLOC_NOFREE);
    }
    ghost var t1, pool1 := pg.tables, pg.pool;
    r := ScanPdpt(pg, a, f1.value, ad);
    TableEntries(r.Found?, pg.tables, t1, t0, pg.root, k, p, q, pool1, old(pg.pool), Walk(t0, pg.root, q).Some?);
    TableReports(r, pg.tables, t1, t0, pg.root, ad, pool1, old(pg.pool), pg.pool, Walk(t0, pg.root, q).Some?);
  }

  /**
   * `KP_ALLOC3`: the lowest page from entry 1 of the root table on that is not mapped is mapped to the first free
   * frame, through whichever of the branches for missing tables; nothing else is mapped or unmapped. It reports that
   * there is no space exactly when every page is mapped, and runs out of stock exactly when that holds fewer pages
   * than tables are missing on the way to the page.
   */
  method KP_ALLOC3(pg: Pager) returns (r: Outcome, v: nat, ghost k: nat, ghost f: nat)
    requires pg.Valid()
    modifies pg`tables, pg`pool, pg.frames
    ensures pg.Valid()
    ensures !old(pg.frames.InUse(f)) && forall j: nat | j < f :: old(pg.frames.InUse(j))
    ensures forall j: nat :: pg.frames.InUse(j) <==> old(pg.frames.InUse(j)) || j == f
    ensures r == Done ==> v == 4096 * k && FirstMapped(pg.tables, old(pg.tables), pg.root, k, f)
    ensures r != Done ==> SamePages(pg.tables, old(pg.tables), pg.root)
    ensures r == Done ==> Taken(old(pg.pool), old(Need(pg.tables, pg.root)), pg.pool) && !IsTable(pg.tables, pg.root, f)
    ensures r == Done ==> Flags(pg.tables, pg.root, PagePath(k)) == 1
    ensures r == Done ==> TablesMade(pg.tables, old(pg.tables), pg.root, PagePath(k), old(pg.pool),
                                     old(TableFlag(pg.tables, pg.root, PagePath(k))))
    ensures Kept(pg.tables, old(pg.tables), pg.root)
    ensures r == Done || r == Fault(PAGE_NOFREESPACE) || r == Fault(KPALLOC_NOFREE)
    ensures r == Fault(KPALLOC_NOFREE) <==> |old(pg.pool)| < old(Need(pg.tables, pg.root))
    ensures r == Fault(PAGE_NOFREESPACE) <==> old(FullBelow(pg.tables, pg.root, PAGES))
  {
    var ad := pg.TakeFrame();
    f := ad;
    var s := SearchFrom1(pg, ad);
    match s
    case Found(page) =>
      r, v, k := Done, 4096 * page, page;
      FoundIsNotFull(pg.tables, old(pg.tables), pg.root, k, ad);
      FlagIs(old(pg.tables), pg.root, k);
      assert LeafMarked(pg.tables, old(pg.tables), pg.root);
      assert Marked(pg.tables, old(pg.tables), pg.root, old(pg.pool), LowestFlag(old(pg.tables), pg.root));
    case Failed(e) =>
      r, v, k := Fault(e), 0, 0;
      assert Needs(old(pg.tables), pg.root, Need(old(pg.tables), pg.root));
  }

  /** The outermost loop; it never runs out, so that the error behind it is never reached. */
  method SearchFrom1(pg: Pager, ad: nat) returns (r: Search)
    requires pg.Valid() && Spare(pg, ad)
    modifies pg`tables, pg`pool
    ensures pg.Valid() && !r.Full?
    ensures Reports(r, pg.tables, old(pg.tables), pg.root, ad, old(pg.pool), pg.pool)
    ensures Entries(r.Found?, pg.tables, old(pg.tables), pg.root, old(pg.pool), old(LowestFlag(pg.tables, pg.root)))
  {
    r := Full;
    var a := 1;
    while r.Full? && a < 512
      invariant 1 <= a && (r.Full? ==> a < 512) && pg.Valid()
      invariant r.Full? ==> pg.tables == old(pg.tables) && pg.pool == old(pg.pool)
      invariant r.Full? ==> FullBelow(pg.tables, pg.root, PageNo(a, 0, 0, 0))
      invariant r.Full? && a > 1 ==> pg.At([a]).Some?
      invariant !r.Full? ==>
                  Entries(r.Found?, pg.tables, old(pg.tables), pg.root, old(pg.pool),
                          old(LowestFlag(pg.tables, pg.root)))
      invariant !r.Full? ==> Reports(r, pg.tables, old(pg.tables), pg.root, ad, old(pg.pool), pg.pool)
      decreases r.Full?, 512 - a
    {
      r := ScanPml4Entry(pg, a, ad);
      a := a + 1;
    }
  }
}
