/** Mapping and freeing pages (page.c). */
module PageTables {
  import opened Options
  import opened Bits
  import opened PageWalk
  import opened PageFlags
  import opened Division
  import opened PageAddress
  import FrameBitmap

  datatype Error = PT_EXISTS_ALREADY | KPALLOC_NOFREE | AL_NOP | AL_NOP_FREE | PAGE_NOFREESPACE

  datatype Outcome = Done | Fault(error: Error)

  function IndexPath(v: nat): (p: Path)
    ensures |p| == 4
  {
    [Pml4Of(v), PdptOf(v), PdeOf(v), PtOf(v)]
  }

  /** The path that `V2P` follows. */
  function V2PPath(v: nat): (p: Path)
    ensures |p| == 4
  {
    [Pml4Of(v), V2PPdptOf(v), PdeOf(v), PtOf(v)]
  }

  function Bit30(v: nat): nat {
    v / 0x4000_0000 % 2
  }

  /** `V2P` finds the frame of a page exactly when bit 30 of its address is clear. */
  lemma V2PExact(t: Tables, root: nat, v: nat)
    requires Tree(t, root) && Walk(t, root, IndexPath(v)).Some? && Walk(t, root, V2PPath(v)).Some?
    ensures Walk(t, root, V2PPath(v)) == Walk(t, root, IndexPath(v)) <==> Bit30(v) == 0
    ensures V2PPath(v) == IndexPath(v) <==> Bit30(v) == 0
  {
    V2PIndex(v);
    assert Apart(t, root, V2PPath(v), IndexPath(v));
    if V2PPath(v) == IndexPath(v) {
      assert V2PPath(v)[1] == IndexPath(v)[1];
    }
  }

  lemma PathPieces(p: Path)
    requires |p| == 4
    ensures p[..1] == [] + [p[0]] && p[..2] == p[..1] + [p[1]] && p[..3] == p[..2] + [p[2]] && p == p[..3] + [p[3]]
    ensures p[..1] <= p[..3] && p[..2] <= p[..3]
  {
  }

  lemma IndicesSmall(v: nat)
    ensures forall i | 0 <= i < 4 :: IndexPath(v)[i] < 512
  {
    Indices(v);
  }

  lemma {:induction false} OrDisjoint(a: nat, n: nat, b: nat)
    requires b < Pow2(n)
    ensures Or(Shl(a, n), b) == Shl(a, n) + b
  {
    if n == 0 {
      OrZero(a);
    } else {
      OrDisjoint(a, n - 1, b / 2);
      assert Shl(a, n) / 2 == Shl(a, n - 1);
    }
  }

  lemma {:induction false} OrZero(a: nat)
    ensures Or(a, 0) == a
  {
    if a > 0 { OrZero(a / 2); }
  }

  /** `frame | flags` for flags in the low twelve bits. */
  function Entry(frame: nat, flags: nat): nat {
    Or(0x1000 * frame, flags)
  }

  lemma EntryParts(frame: nat, flags: nat)
    requires flags < 0x1000
    ensures Entry(frame, flags) == 0x1000 * frame + flags && Entry(frame, flags) / 4096 == frame
    ensures Entry(frame, flags) % 4096 == flags && (Present(Entry(frame, flags)) <==> flags % 2 == 1)
  {
    var p := Pow2(12);
    assert p == 0x1000 by { Powers(); }
    ShlIs(frame, 12);
    assert Shl(frame, 12) == 0x1000 * frame;
    OrDisjoint(frame, 12, flags);
  }

  /** The kernel's stock of pages: their addresses, in the order in which they are handed out. */
  type Pool = seq<nat>

  /** A page of the stock is mapped, to a frame that holds no table, where `V2P` finds it. */
  ghost predicate StockOk(t: Tables, root: nat, v: nat) {
    Walk(t, root, IndexPath(v)).Some? && !IsTable(t, root, Walk(t, root, IndexPath(v)).value) && Bit30(v) == 0
  }

  predicate DifferentPages(pool: Pool, j: nat, k: nat)
    requires j < |pool| && k < |pool|
  {
    IndexPath(pool[j]) != IndexPath(pool[k])
  }

  ghost predicate PoolOk(t: Tables, root: nat, pool: Pool) {
    && (forall k {:trigger StockOk(t, root, pool[k])} | 0 <= k < |pool| :: StockOk(t, root, pool[k]))
    && (forall j, k {:trigger DifferentPages(pool, j, k)} | 0 <= j < k < |pool| :: DifferentPages(pool, j, k))
  }

  /** The first `n` pages of the stock were taken. */
  predicate Taken(pool: Pool, n: nat, left: Pool) {
    n <= |pool| && left == pool[n..]
  }

  ghost predicate InStock(pool: Pool, p: Path) {
    exists k :: 0 <= k < |pool| && IndexPath(pool[k]) == p
  }

  /** Nothing is reached that was not reached before. */
  ghost predicate NoMore(t: Tables, t': Tables, root: nat) {
    forall g: nat | Reached(t', root, g) :: Reached(t, root, g)
  }

  /** Some other path leads to the frame. */
  ghost predicate Elsewhere(t: Tables, root: nat, p: Path, f: nat) {
    exists q: Path :: |q| <= 4 && q != p && Walk(t, root, q) == Some(f)
  }

  /** How many tables are missing on the way to a page. */
  function Missing(t: Tables, root: nat, p: Path): nat
    requires |p| == 4
  {
    Lacking(Walk(t, root, p[..3]), Walk(t, root, p[..2]), Walk(t, root, p[..1]))
  }

  /** The same for the three tables themselves, from the last level upwards. */
  function Lacking(pt: Option<nat>, pde: Option<nat>, pdpt: Option<nat>): nat {
    if pt.Some? then 0 else if pde.Some? then 1 else if pdpt.Some? then 2 else 3
  }

  /** The table at `q` is the cleared stock page at `v`, and its entry has the flags. */
  ghost predicate MadeFrom(t': Tables, t: Tables, root: nat, q: Path, v: nat, flags: nat) {
    Walk(t, root, IndexPath(v)).Some? && Walk(t', root, q) == Walk(t, root, IndexPath(v)) && Flags(t', root, q) == flags
  }

  /** The tables that were missing on the way `p` are pages of the stock, one after the other. */
  ghost predicate TablesMade(t': Tables, t: Tables, root: nat, p: Path, pool: Pool, flags: nat)
    requires |p| == 4
  {
    var m := Missing(t, root, p);
    && m <= |pool|
    && (m >= 1 ==> MadeFrom(t', t, root, p[..3], pool[m - 1], flags))
    && (m >= 2 ==> MadeFrom(t', t, root, p[..2], pool[m - 2], flags))
    && (m >= 3 ==> MadeFrom(t', t, root, p[..1], pool[0], flags))
  }

  class Pager {
    var tables: Tables
    const root: nat
    const frames: FrameBitmap.FrameMap
    var pool: Pool

    ghost predicate Valid()
      reads this, frames
    {
      && frames.Valid() && Tree(tables, root) && PoolOk(tables, root, pool)
      && (forall f: nat | Reached(tables, root, f) :: frames.InUse(f))
    }

    ghost function At(q: Path): Option<nat>
      reads this
    {
      Walk(tables, root, q)
    }

    /** The frame in the last entry that `V2P` reads, whether that entry is present or not. */
    ghost function V2PFrame(v: nat): nat
      reads this
      requires Tree(tables, root) && At(V2PPath(v)[..3]).Some? && PtOf(v) < 512
    {
      assert HasTable(tables, At(V2PPath(v)[..3]).value);
      tables[(At(V2PPath(v)[..3]).value, PtOf(v))] / 4096
    }

    /** Tables and a stock as they are found. */
    constructor (root: nat, frames: FrameBitmap.FrameMap, tables: Tables, pool: Pool)
      requires frames.Valid() && Tree(tables, root) && PoolOk(tables, root, pool)
      requires forall f: nat | Reached(tables, root, f) :: frames.InUse(f)
      ensures Valid() && this.root == root && this.frames == frames && this.tables == tables && this.pool == pool
    {
      this.root := root;
      this.frames := frames;
      this.tables := tables;
      this.pool := pool;
    }

    /**
     * Make sure that the table below entry `i` of table `f` exists: a missing one comes zeroed from the stock.
     * Only the walk to that table changes; no page is mapped or unmapped.
     */
    method EnsureLevel(ghost p: Path, f: nat, i: nat, magic: nat) returns (next: Option<nat>)
      requires Valid() && Slot(tables, root, p, i, f) && |p| <= 2 && magic < 0x1000 && magic % 2 == 1
      modifies this`tables, this`pool
      ensures Valid()
      ensures next.Some? ==> At(p + [i]) == next
      ensures next.None? <==> old(pool) == [] && old(At(p + [i])).None?
      ensures forall q: Path | |q| <= 4 && q != p + [i] :: At(q) == old(At(q))
      ensures old(At(p + [i])).Some? ==> tables == old(tables) && pool == old(pool)
      ensures old(At(p + [i])).None? && next.Some? ==> old(pool) != [] && pool == old(pool)[1..]
      ensures old(At(p + [i])).None? && next.Some? ==>
                MadeFrom(tables, old(tables), root, p + [i], old(pool)[0], magic)
      ensures Kept(tables, old(tables), root)
      ensures NoMore(old(tables), tables, root)
    {
      assert HasTable(tables, f);
      WalkStep(tables, root, p, i);
      if Present(tables[(f, i)]) {
        return Some(tables[(f, i)] / 4096);
      }
      next := LinkTable(p, f, i, magic);
    }

    /** Put the first page of the stock, as an empty table, behind entry `i` of table `f`. */
    method LinkTable(ghost p: Path, f: nat, i: nat, magic: nat) returns (next: Option<nat>)
      requires Valid() && Slot(tables, root, p, i, f) && |p| <= 2 && At(p + [i]).None?
      requires magic < 0x1000 && magic % 2 == 1
      modifies this`tables, this`pool
      ensures Valid()
      ensures next.Some? ==> old(pool) != [] && At(p + [i]) == next && pool == old(pool)[1..]
      ensures next.Some? ==> MadeFrom(tables, old(tables), root, p + [i], old(pool)[0], magic)
      ensures Kept(tables, old(tables), root)
      ensures next.None? ==> old(pool) == [] && tables == old(tables) && pool == old(pool)
      ensures forall q: Path | |q| <= 4 && q != p + [i] :: At(q) == old(At(q))
      ensures NoMore(old(tables), tables, root)
    {
      var r, v := KPALLOC();
      if r != Done {
        return None;
      }
      var a := V2P(v);
      ghost var m := At(IndexPath(v)).value;
      DivisionIs(a, 4096, m, v % 4096);
      EntryParts(a / 4096, magic);
      InstallStock(tables, root, p, i, f, Entry(a / 4096, magic), v, pool);
      InstalledFlags(tables, root, p, i, f, Entry(a / 4096, magic));
      KeptTwice(tables[(f, i) := Entry(a / 4096, magic)], tables, old(tables), root);
      tables := tables[(f, i) := Entry(a / 4096, magic)];
      return Some(a / 4096);
    }

    /** `KPALLOC`: the first page of the stock, with its memory cleared. It stays mapped where it was. */
    method KPALLOC() returns (r: Outcome, v: nat)
      requires Valid()
      modifies this`pool, this`tables
      ensures Valid()
      ensures r == if old(pool) == [] then Fault(KPALLOC_NOFREE) else Done
      ensures r == Done ==> old(pool) == [v] + pool && StockOk(tables, root, v) && !InStock(pool, IndexPath(v))
      ensures r == Done ==> At(V2PPath(v)) == At(IndexPath(v)) && Zeroed(tables, At(IndexPath(v)).value)
      ensures forall q: Path | |q| <= 4 :: At(q) == old(At(q))
      ensures r != Done ==> pool == old(pool) && tables == old(tables)
      ensures Kept(tables, old(tables), root)
    {
      if pool == [] {
        return Fault(KPALLOC_NOFREE), 0;
      }
      r, v := Done, pool[0];
      ghost var m := HeadFrame(tables, root, pool, v);
      var a := V2P(v);
      DivisionIs(a, 4096, m, v % 4096);
      HeadCleared(tables, root, m, pool, v, pool[1..]);
      ClearedFlags(tables, root, m);
      tables := Cleared(tables, a / 4096);
      pool := pool[1..];
    }

    /**
     * `ALSP`: map the page of an address to the first free frame. The abstract page map grows by exactly that pair,
     * whatever tables had to be created on the way. The stock runs out exactly when it has fewer pages than tables
     * are missing.
     */
    method ALSP(v: nat, flags: nat, magic1: nat, magic2: nat) returns (r: Outcome, ghost f: nat)
      requires Valid() && flags < 256 && magic1 < 256 && magic2 < 256 && magic1 % 2 == 1 && magic2 % 2 == 1
      modifies this`tables, this`pool, frames
      ensures Valid()
      ensures !old(frames.InUse(f)) && forall j: nat | j < f :: old(frames.InUse(j))
      ensures forall j: nat :: frames.InUse(j) <==> old(frames.InUse(j)) || j == f
      ensures r == Done ==> old(At(IndexPath(v))).None? && At(IndexPath(v)) == Some(f) && !IsTable(tables, root, f)
      ensures forall q: Path | |q| == 4 && (q != IndexPath(v) || r != Done) :: At(q) == old(At(q))
      ensures r == Fault(PT_EXISTS_ALREADY) <==> old(At(IndexPath(v))).Some?
      ensures r == Fault(KPALLOC_NOFREE) <==> |old(pool)| < old(Missing(tables, root, IndexPath(v)))
      ensures r == Done || r == Fault(PT_EXISTS_ALREADY) || r == Fault(KPALLOC_NOFREE)
      ensures old(At(IndexPath(v)[..3])).Some? ==> pool == old(pool)
      ensures r == Done ==> Taken(old(pool), old(Missing(tables, root, IndexPath(v))), pool)
      ensures r == Done ==> TablesMade(tables, old(tables), root, IndexPath(v), old(pool), magic1)
      ensures r == Done ==> Flags(tables, root, IndexPath(v)) == Or(magic2, flags)
      ensures r == Done ==> FlagsAre(Flags(tables, root, IndexPath(v)), magic2, flags)
      ensures Kept(tables, old(tables), root)
      ensures forall q: Path | |q| <= 3 && old(At(q)).Some? :: At(q) == old(At(q))
    {
      var ad := TakeFrame();
      f := ad;
      IndicesSmall(v);
      PathPieces(IndexPath(v));
      MappedHasTables(tables, root, IndexPath(v));
      var pt := EnsureTables(v, magic1);
      if pt.None? {
        return Fault(KPALLOC_NOFREE), f;
      }
      ghost var t1 := tables;
      r := MapLeaf(IndexPath(v), pt.value, PtOf(v), ad, magic2, flags);
      KeptTwice(tables, t1, old(tables), root);
      MadeKept(tables, t1, old(tables), root, IndexPath(v), old(pool), magic1);
    }

    /** The last entry that the C code reads through its window, one level after the other. */
    method LastEntry(pml4: nat, pdpt: nat, pde: nat, pt: nat) returns (f: nat, e: nat)
      requires Tree(tables, root) && At([pml4, pdpt, pde, pt][..3]).Some? && pt < 512
      ensures At([pml4, pdpt, pde, pt][..3]) == Some(f) && (f, pt) in tables && e == tables[(f, pt)]
      ensures At([pml4, pdpt, pde, pt]) == if Present(e) then Some(e / 4096) else None
    {
      ghost var p := [pml4, pdpt, pde, pt];
      PathPieces(p);
      AllOrNothing(tables, root, p);
      assert At([]) == Some(root);
      var f1 := tables[(root, pml4)] / 4096;
      assert At(p[..1]) == Some(f1);
      var f2 := tables[(f1, pdpt)] / 4096;
      assert At(p[..2]) == Some(f2);
      f := tables[(f2, pde)] / 4096;
      assert HasTable(tables, f);
      e := tables[(f, pt)];
      WalkStep(tables, root, p[..3], pt);
    }

    /** `V2P`: it follows the address with bit 30 taken as zero, and does not look whether the page is present. */
    method V2P(v: nat) returns (r: nat)
      requires Tree(tables, root) && At(V2PPath(v)[..3]).Some?
      ensures PtOf(v) < 512 && r == 4096 * V2PFrame(v) + v % 4096
      ensures At(V2PPath(v)).Some? ==> V2PFrame(v) == At(V2PPath(v)).value
    {
      IndicesSmall(v);
      assert IndexPath(v)[3] == PtOf(v);
      ghost var p := V2PPath(v);
      assert p == [Pml4Of(v), V2PPdptOf(v), PdeOf(v), PtOf(v)];
      var f, e := LastEntry(Pml4Of(v), V2PPdptOf(v), PdeOf(v), PtOf(v));
      r := e / 4096 * 4096 + v % 4096;
    }

    /**
     * `P_FREE`: exactly the page of `v` is unmapped, and the frame that `V2P` finds is free again. The state stays
     * sound exactly when nothing else lies on that frame and the page is not in the stock.
     */
    method P_FREE(v: nat)
      requires Valid() && At(IndexPath(v)[..3]).Some? && At(V2PPath(v)[..3]).Some?
      modifies this`tables, frames
      ensures At(IndexPath(v)) == None && PtOf(v) < 512
      ensures forall q: Path | |q| <= 4 && q != IndexPath(v) :: At(q) == old(At(q))
      ensures KeptBut(tables, old(tables), root, IndexPath(v))
      ensures forall j: nat :: frames.InUse(j) <==> old(frames.InUse(j)) && j != old(V2PFrame(v))
      ensures Valid() <==> !old(Elsewhere(tables, root, IndexPath(v), V2PFrame(v))) && !InStock(pool, IndexPath(v))
    {
      var a := V2P(v);
      ghost var t0, f := tables, V2PFrame(v);
      DivisionIs(a, 4096, f, v % 4096);
      frames.SetFrame(a / 4096, false);
      ClearPage(v);
      FreedIff(t0, root, IndexPath(v), tables, f);
      FreedStock(t0, root, IndexPath(v), tables, pool);
    }

    method ClearPage(v: nat)
      requires Tree(tables, root) && At(IndexPath(v)[..3]).Some?
      modifies this`tables
      ensures Tree(tables, root) && At(IndexPath(v)) == None && KeptBut(tables, old(tables), root, IndexPath(v))
      ensures forall q: Path | |q| <= 4 && q != IndexPath(v) :: At(q) == old(At(q))
    {
      IndicesSmall(v);
      ghost var p := IndexPath(v);
      assert p == [Pml4Of(v), PdptOf(v), PdeOf(v), PtOf(v)] && p[3] < 512;
      var f, e := LastEntry(Pml4Of(v), PdptOf(v), PdeOf(v), PtOf(v));
      PathPieces(IndexPath(v));
      ClearedTree(tables, root, IndexPath(v)[..3], PtOf(v), f);
      RemovedFlags(tables, root, IndexPath(v)[..3], PtOf(v), f);
      tables := tables[(f, PtOf(v)) := 0];
    }

    /** `doesPDEEExist`: the tables down to the last level exist, and the page is not mapped. */
    method DoesPDEEExist(v: nat) returns (usable: bool)
      requires Tree(tables, root)
      ensures usable <==> At(IndexPath(v)[..3]).Some? && At(IndexPath(v)).None?
    {
      var p := IndexPath(v);
      IndicesSmall(v);
      PathPieces(p);
      AllOrNothing(tables, root, p);
      assert At([]) == Some(root) && HasTable(tables, root);
      if !Present(tables[(root, p[0])]) { return false; }
      var f1 := tables[(root, p[0])] / 4096;
      assert At(p[..1]) == Some(f1) && HasTable(tables, f1);
      if !Present(tables[(f1, p[1])]) { return false; }
      var f2 := tables[(f1, p[1])] / 4096;
      assert At(p[..2]) == Some(f2) && HasTable(tables, f2);
      if !Present(tables[(f2, p[2])]) { return false; }
      var f3 := tables[(f2, p[2])] / 4096;
      assert At(p[..3]) == Some(f3) && HasTable(tables, f3);
      return !Present(tables[(f3, p[3])]);
    }

    /** The first free frame, now marked as used. */
    method TakeFrame() returns (ad: nat)
      requires Valid()
      modifies frames
      ensures Valid()
      ensures !old(frames.InUse(ad)) && forall j: nat | j < ad :: old(frames.InUse(j))
      ensures forall j: nat :: frames.InUse(j) <==> old(frames.InUse(j)) || j == ad
      ensures !Reached(tables, root, ad)
    {
      ad := frames.FirstFree();
      frames.SetFrame(ad, true);
    }

    /** The last entry of a mapping. */
    method MapLeaf(ghost p: Path, pt: nat, i: nat, ad: nat, magic2: nat, flags: nat) returns (r: Outcome)
      requires Valid() && |p| == 4 && Slot(tables, root, p[..3], i, pt) && p == p[..3] + [i]
      requires !Reached(tables, root, ad) && frames.InUse(ad)
      requires flags < 256 && magic2 < 256 && magic2 % 2 == 1
      modifies this`tables
      ensures Valid()
      ensures r == if old(At(p)).Some? then Fault(PT_EXISTS_ALREADY) else Done
      ensures r == Done ==> At(p) == Some(ad) && !IsTable(tables, root, ad)
      ensures r == Done ==> Flags(tables, root, p) == Or(magic2, flags)
      ensures r == Done ==> FlagsAre(Flags(tables, root, p), magic2, flags)
      ensures Kept(tables, old(tables), root)
      ensures forall q: Path | |q| <= 4 && (q != p || r != Done) :: At(q) == old(At(q))
    {
      assert HasTable(tables, pt);
      WalkStep(tables, root, p[..3], i);
      if Present(tables[(pt, i)]) {
        return Fault(PT_EXISTS_ALREADY);
      }
      StoreLeaf(p, pt, i, ad, magic2, flags);
      return Done;
    }

    method StoreLeaf(ghost p: Path, pt: nat, i: nat, ad: nat, magic2: nat, flags: nat)
      requires Valid() && |p| == 4 && Slot(tables, root, p[..3], i, pt) && p == p[..3] + [i] && At(p).None?
      requires !Reached(tables, root, ad) && frames.InUse(ad)
      requires flags < 256 && magic2 < 256 && magic2 % 2 == 1
      modifies this`tables
      ensures Valid() && At(p) == Some(ad) && !IsTable(tables, root, ad)
      ensures Flags(tables, root, p) == Or(magic2, flags) && FlagsAre(Flags(tables, root, p), magic2, flags)
      ensures Kept(tables, old(tables), root)
      ensures forall q: Path | |q| <= 4 && q != p :: At(q) == old(At(q))
    {
      var e := Or(Or(0x1000 * ad, magic2), flags);
      LeafEntry(ad, magic2, flags);
      InstalledTree(tables, root, p[..3], i, pt, e);
      LeafStock(tables, root, p[..3], i, pt, e, pool);
      InstalledFlags(tables, root, p[..3], i, pt, e);
      tables := tables[(pt, i) := e];
    }

    /** Walk down to the last-level table of an address, creating what is missing. */
    method EnsureTables(v: nat, magic: nat) returns (pt: Option<nat>)
      requires Valid() && magic < 0x1000 && magic % 2 == 1
      modifies this`tables, this`pool
      ensures Valid()
      ensures pt.Some? ==> At(IndexPath(v)[..3]) == pt
      ensures pt.None? <==> |old(pool)| < old(Missing(tables, root, IndexPath(v)))
      ensures pt.Some? ==> Taken(old(pool), old(Missing(tables, root, IndexPath(v))), pool)
      ensures pt.Some? ==> TablesMade(tables, old(tables), root, IndexPath(v), old(pool), magic)
      ensures Kept(tables, old(tables), root)
      ensures forall q: Path | |q| == 4 :: At(q) == old(At(q))
      ensures forall q: Path | |q| <= 3 && old(At(q)).Some? :: At(q) == old(At(q))
      ensures old(At(IndexPath(v)[..3])).Some? ==> tables == old(tables) && pool == old(pool)
      ensures NoMore(old(tables), tables, root)
    {
      IndicesSmall(v);
      PathPieces(IndexPath(v));
      AllOrNothing(tables, root, IndexPath(v));
      pt := EnsureThree(Pml4Of(v), PdptOf(v), PdeOf(v), magic, IndexPath(v)[..1], IndexPath(v)[..2], IndexPath(v)[..3]);
    }

    /** The three levels, for the indices `a`, `b` and `c` from the root table downwards. */
    method EnsureThree(a: nat, b: nat, c: nat, magic: nat, ghost p: Path, ghost q: Path, ghost s: Path)
      returns (pt: Option<nat>)
      requires Valid() && magic < 0x1000 && magic % 2 == 1 && a < 512 && b < 512 && c < 512
      requires p == [] + [a] && q == p + [b] && s == q + [c]
      requires (At(q).Some? ==> At(p).Some?) && (At(s).Some? ==> At(q).Some?)
      modifies this`tables, this`pool
      ensures Valid()
      ensures pt.Some? ==> At(s) == pt
      ensures pt.None? <==> |old(pool)| < Lacking(old(At(s)), old(At(q)), old(At(p)))
      ensures pt.Some? ==> Taken(old(pool), Lacking(old(At(s)), old(At(q)), old(At(p))), pool)
      ensures pt.Some? ==>
                var m := Lacking(old(At(s)), old(At(q)), old(At(p)));
                && (m >= 1 ==> MadeFrom(tables, old(tables), root, s, old(pool)[m - 1], magic))
                && (m >= 2 ==> MadeFrom(tables, old(tables), root, q, old(pool)[m - 2], magic))
                && (m >= 3 ==> MadeFrom(tables, old(tables), root, p, old(pool)[0], magic))
      ensures Kept(tables, old(tables), root)
      ensures forall r: Path | |r| == 4 :: At(r) == old(At(r))
      ensures forall r: Path | |r| <= 3 && old(At(r)).Some? :: At(r) == old(At(r))
      ensures old(At(s)).Some? ==> tables == old(tables) && pool == old(pool)
      ensures NoMore(old(tables), tables, root)
    {
      pt := EnsureUpper(a, b, magic, p, q);
      if pt.Some? {
        ghost var t1 := tables;
        pt := EnsureLevel(q, pt.value, c, magic);
        KeptTwice(tables, t1, old(tables), root);
      }
    }

    /** The first two levels. */
    method EnsureUpper(a: nat, b: nat, magic: nat, ghost p: Path, ghost q: Path) returns (pd: Option<nat>)
      requires Valid() && magic < 0x1000 && magic % 2 == 1 && a < 512 && b < 512 && p == [] + [a] && q == p + [b]
      requires At(q).Some? ==> At(p).Some?
      modifies this`tables, this`pool
      ensures Valid()
      ensures pd.Some? ==> At(q) == pd
      ensures pd.None? <==> |old(pool)| < if old(At(q)).Some? then 0 else if old(At(p)).Some? then 1 else 2
      ensures pd.Some? ==>
                Taken(old(pool), if old(At(q)).Some? then 0 else if old(At(p)).Some? then 1 else 2, pool)
      ensures pd.Some? && old(At(q)).None? ==>
                MadeFrom(tables, old(tables), root, q, old(pool)[if old(At(p)).Some? then 0 else 1], magic)
      ensures pd.Some? && old(At(p)).None? ==> MadeFrom(tables, old(tables), root, p, old(pool)[0], magic)
      ensures Kept(tables, old(tables), root)
      ensures forall r: Path | |r| <= 4 && r != p && r != q :: At(r) == old(At(r))
      ensures forall r: Path | |r| <= 3 && old(At(r)).Some? :: At(r) == old(At(r))
      ensures old(At(q)).Some? ==> tables == old(tables) && pool == old(pool)
      ensures NoMore(old(tables), tables, root)
    {
      pd := EnsureLevel([], root, a, magic);
      if pd.Some? {
        ghost var t1 := tables;
        pd := EnsureLevel(p, pd.value, b, magic);
        KeptTwice(tables, t1, old(tables), root);
      }
    }
  }

  lemma MadeKept(t2: Tables, t1: Tables, t: Tables, root: nat, p: Path, pool: Pool, flags: nat)
    requires |p| == 4 && TablesMade(t1, t, root, p, pool, flags) && Kept(t2, t1, root)
    ensures TablesMade(t2, t, root, p, pool, flags)
  {
    assert forall q: Path | q == p[..1] || q == p[..2] || q == p[..3] ::
        Walk(t1, root, q).Some? ==> Flags(t2, root, q) == Flags(t1, root, q);
  }

  lemma AllOrNothing(t: Tables, root: nat, p: Path)
    requires |p| == 4
    ensures Walk(t, root, p[..3]).Some? ==> Walk(t, root, p[..1]).Some? && Walk(t, root, p[..2]).Some?
    ensures Walk(t, root, p[..2]).Some? ==> Walk(t, root, p[..1]).Some?
  {
    if Walk(t, root, p[..2]).Some? {
      WalkPrefix(t, root, p[..2], 1);
      assert p[..2][..1] == p[..1];
    }
    if Walk(t, root, p[..3]).Some? {
      WalkPrefix(t, root, p[..3], 1);
      WalkPrefix(t, root, p[..3], 2);
      assert p[..3][..1] == p[..1] && p[..3][..2] == p[..2];
    }
  }

  lemma MappedHasTables(t: Tables, root: nat, p: Path)
    requires |p| == 4
    ensures Walk(t, root, p).Some? ==> Walk(t, root, p[..3]).Some?
  {
    if Walk(t, root, p).Some? {
      WalkPrefix(t, root, p, 3);
    }
  }

  lemma {:induction false} OrAssociative(a: nat, b: nat, c: nat)
    ensures Or(Or(a, b), c) == Or(a, Or(b, c))
  {
    if a != 0 || b != 0 || c != 0 {
      OrAssociative(a / 2, b / 2, c / 2);
      assert Or(a, b) / 2 == Or(a / 2, b / 2) && Or(b, c) / 2 == Or(b / 2, c / 2);
    }
  }

  lemma LeafEntry(ad: nat, magic2: nat, flags: nat)
    requires flags < 256 && magic2 < 256 && magic2 % 2 == 1
    ensures var e := Or(Or(0x1000 * ad, magic2), flags);
            Present(e) && e / 4096 == ad && e % 4096 == Or(magic2, flags)
    ensures FlagsAre(Or(magic2, flags), magic2, flags)
  {
    forall k: nat
      ensures Bit(Or(magic2, flags), k) <==> Bit(magic2, k) || Bit(flags, k)
    {
      BitOfOr(magic2, flags, k);
    }
    OrAssociative(0x1000 * ad, magic2, flags);
    assert Pow2(8) == 256;
    OrBound(magic2, flags, 8);
    EntryParts(ad, Or(magic2, flags));
  }

  /** Mapping a page leaves the stock as it is. */
  lemma LeafStock(t: Tables, root: nat, p: Path, i: nat, f: nat, e: nat, pool: Pool)
    requires Installable(t, root, p, i, f, e) && PoolOk(t, root, pool) && |p| == 3
    ensures PoolOk(t[(f, i) := e], root, pool)
    ensures forall g: nat | Reached(t[(f, i) := e], root, g) :: Reached(t, root, g) || g == e / 4096
    ensures !IsTable(t[(f, i) := e], root, e / 4096)
  {
    var t' := t[(f, i) := e];
    InstalledTree(t, root, p, i, f, e);
    forall g: nat | Reached(t', root, g)
      ensures Reached(t, root, g) || g == e / 4096
    {
      var q: Path :| |q| <= 4 && Walk(t', root, q) == Some(g);
    }
    forall k | 0 <= k < |pool|
      ensures StockOk(t', root, pool[k])
    {
      assert StockOk(t, root, pool[k]);
      assert IndexPath(pool[k]) != p + [i];
    }
  }

  /** Clearing the memory of a page of the stock leaves the stock as it is. */
  lemma ClearedPool(t: Tables, root: nat, m: nat, pool: Pool)
    requires Tree(t, root) && !IsTable(t, root, m) && PoolOk(t, root, pool)
    ensures PoolOk(Cleared(t, m), root, pool)
    ensures forall g: nat :: Reached(Cleared(t, m), root, g) <==> Reached(t, root, g)
  {
    ClearedFrame(t, root, m);
    forall k | 0 <= k < |pool|
      ensures StockOk(Cleared(t, m), root, pool[k])
    {
      assert StockOk(t, root, pool[k]);
    }
  }

  /** The frame of the first page of the stock, which is where `V2P` finds it. */
  lemma HeadFrame(t: Tables, root: nat, pool: Pool, v: nat) returns (m: nat)
    requires PoolOk(t, root, pool) && pool != [] && v == pool[0]
    ensures StockOk(t, root, v) && !IsTable(t, root, m)
    ensures Walk(t, root, IndexPath(v)) == Some(m) && V2PPath(v) == IndexPath(v)
    ensures Walk(t, root, V2PPath(v)[..3]).Some?
  {
    assert StockOk(t, root, pool[0]);
    V2PIndex(v);
    m := Walk(t, root, IndexPath(v)).value;
    WalkPrefix(t, root, V2PPath(v), 3);
  }

  /** Taking the first page of the stock and clearing its memory. */
  lemma HeadCleared(t: Tables, root: nat, m: nat, pool: Pool, v: nat, rest: Pool)
    requires Tree(t, root) && !IsTable(t, root, m) && PoolOk(t, root, pool) && pool == [v] + rest
    requires Walk(t, root, IndexPath(v)) == Some(m)
    ensures Tree(Cleared(t, m), root) && Zeroed(Cleared(t, m), m)
    ensures forall q: Path | |q| <= 4 :: Walk(Cleared(t, m), root, q) == Walk(t, root, q)
    ensures PoolOk(Cleared(t, m), root, rest) && StockOk(Cleared(t, m), root, v) && !InStock(rest, IndexPath(v))
    ensures forall g: nat :: Reached(Cleared(t, m), root, g) <==> Reached(t, root, g)
  {
    ClearedFrame(t, root, m);
    ClearedPool(t, root, m, pool);
    assert StockOk(Cleared(t, m), root, pool[0]);
    forall k | 0 <= k < |rest|
      ensures rest[k] == pool[k + 1] && StockOk(Cleared(t, m), root, rest[k]) && IndexPath(rest[k]) != IndexPath(v)
    {
      assert StockOk(Cleared(t, m), root, pool[k + 1]) && DifferentPages(pool, 0, k + 1);
    }
    forall j, k | 0 <= j < k < |rest|
      ensures DifferentPages(rest, j, k)
    {
      assert DifferentPages(pool, j + 1, k + 1);
    }
  }

  /** A page that left the stock becomes a table; the rest of the stock stays as it is. */
  lemma InstallStock(t: Tables, root: nat, p: Path, i: nat, f: nat, e: nat, v: nat, pool: Pool)
    requires Tree(t, root) && Slot(t, root, p, i, f) && |p| <= 2 && Walk(t, root, p + [i]).None? && Present(e)
    requires StockOk(t, root, v) && PoolOk(t, root, pool) && !InStock(pool, IndexPath(v))
    requires Walk(t, root, IndexPath(v)) == Some(e / 4096) && Zeroed(t, e / 4096)
    ensures Installable(t, root, p, i, f, e) && Tree(t[(f, i) := e], root)
    ensures forall q: Path | |q| <= 4 ::
              Walk(t[(f, i) := e], root, q) == if q == p + [i] then Some(e / 4096) else Walk(t, root, q)
    ensures PoolOk(t[(f, i) := e], root, pool) && NoMore(t, t[(f, i) := e], root)
  {
    var t' := t[(f, i) := e];
    InstalledTree(t, root, p, i, f, e);
    forall k | 0 <= k < |pool|
      ensures StockOk(t', root, pool[k])
    {
      assert StockOk(t, root, pool[k]) && Apart(t, root, IndexPath(pool[k]), IndexPath(v));
    }
    forall g: nat | Reached(t', root, g)
      ensures Reached(t, root, g)
    {
      var q: Path :| |q| <= 4 && Walk(t', root, q) == Some(g);
      assert q == p + [i] ==> Walk(t, root, IndexPath(v)) == Some(g);
    }
  }

  /** After the entry at `p` was cleared, something still leads to the frame exactly when another path did. */
  lemma FreedIff(t: Tables, root: nat, p: Path, t': Tables, f: nat)
    requires |p| == 4
    requires Walk(t', root, p) == None && forall q: Path | |q| <= 4 && q != p :: Walk(t', root, q) == Walk(t, root, q)
    ensures forall g: nat | Reached(t', root, g) :: Reached(t, root, g)
    ensures Reached(t', root, f) <==> Elsewhere(t, root, p, f)
  {
    forall g: nat | Reached(t', root, g)
      ensures Reached(t, root, g)
    {
      var q: Path :| |q| <= 4 && Walk(t', root, q) == Some(g);
      assert Walk(t, root, q) == Some(g);
    }
    if Elsewhere(t, root, p, f) {
      var q: Path :| |q| <= 4 && q != p && Walk(t, root, q) == Some(f);
      assert Walk(t', root, q) == Some(f);
    }
    if Reached(t', root, f) {
      var q: Path :| |q| <= 4 && Walk(t', root, q) == Some(f);
      assert q != p;
    }
  }

  /** The stock is as it was unless the page was in it. */
  lemma FreedStock(t: Tables, root: nat, p: Path, t': Tables, pool: Pool)
    requires |p| == 4 && PoolOk(t, root, pool)
    requires Walk(t', root, p) == None && forall q: Path | |q| <= 4 && q != p :: Walk(t', root, q) == Walk(t, root, q)
    ensures PoolOk(t', root, pool) <==> !InStock(pool, p)
  {
    forall k | 0 <= k < |pool|
      ensures StockOk(t', root, pool[k]) <==> IndexPath(pool[k]) != p
    {
      assert StockOk(t, root, pool[k]);
    }
  }

  /** For a mapped page with bit 30 clear, other than those that lie on tables, nothing else lies on its frame. */
  lemma OwnFrame(t: Tables, root: nat, v: nat, f: nat)
    requires Tree(t, root) && Walk(t, root, IndexPath(v)) == Some(f)
    ensures Bit30(v) == 0 ==> (Elsewhere(t, root, IndexPath(v), f) <==> IsTable(t, root, f))
    ensures Bit30(v) == 0 ==> V2PPath(v) == IndexPath(v)
  {
    V2PIndex(v);
    if IsTable(t, root, f) {
      var q: Path :| |q| <= 3 && Walk(t, root, q) == Some(f);
    }
    if Elsewhere(t, root, IndexPath(v), f) {
      var q: Path :| |q| <= 4 && q != IndexPath(v) && Walk(t, root, q) == Some(f);
      assert Apart(t, root, q, IndexPath(v));
    }
  }

  /** With bit 30 set, the frame that `V2P` finds belongs to the page whose address has it clear, if that is mapped. */
  lemma WrongFrame(t: Tables, root: nat, v: nat, f: nat)
    requires Bit30(v) == 1 && Walk(t, root, V2PPath(v)) == Some(f)
    ensures Elsewhere(t, root, IndexPath(v), f)
  {
    V2PIndex(v);
    assert V2PPath(v)[1] != IndexPath(v)[1];
  }
}
