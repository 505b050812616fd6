/** The stock of pages: its refill, its setup at boot, and runs from there (page.c, protk.S). */
module PageSetup {
  import opened Options
  import opened PageWalk
  import opened Division
  import opened PageAddress
  import opened PageTables
  import opened PageSearch
  import opened PageLowest
  import opened PageFirstFit
  import FrameBitmap

  function Addresses(ks: seq<nat>): (vs: Pool)
    ensures |vs| == |ks| && forall i | 0 <= i < |ks| :: vs[i] == 4096 * ks[i]
  {
    seq(|ks|, i requires 0 <= i < |ks| => 4096 * ks[i])
  }

  /** The stock with one more page behind its first `at` pages. */
  function PutBehind(pool: Pool, at: nat, v: nat): Pool
    requires at <= |pool|
  {
    pool[..at] + [v] + pool[at..]
  }

  lemma PutAt(left: Pool, at: nat, v: nat, pool: Pool)
    requires at <= |left| && pool == PutBehind(left, at, v)
    ensures |pool| == |left| + 1 && pool[at] == v
    ensures forall k | 0 <= k < at :: pool[k] == left[k]
    ensures forall k | at < k < |pool| :: pool[k] == left[k - 1]
  {
  }

  /** One more page leaves the stock sound exactly when `V2P` finds its frame. */
  lemma StockedIff(t: Tables, root: nat, left: Pool, at: nat, v: nat, pool: Pool)
    requires at <= |left| && PoolOk(t, root, left) && !InStock(left, IndexPath(v)) && pool == PutBehind(left, at, v)
    requires Walk(t, root, IndexPath(v)).Some? && !IsTable(t, root, Walk(t, root, IndexPath(v)).value)
    ensures PoolOk(t, root, pool) <==> Bit30(v) == 0
  {
    PutAt(left, at, v, pool);
    assert PoolOk(t, root, pool) ==> StockOk(t, root, pool[at]);
    if Bit30(v) == 0 {
      StockedOk(t, root, left, at, v, pool);
    }
  }

  lemma StockedOk(t: Tables, root: nat, left: Pool, at: nat, v: nat, pool: Pool)
    requires PoolOk(t, root, left) && !InStock(left, IndexPath(v)) && StockOk(t, root, v)
    requires at <= |left| && |pool| == |left| + 1 && pool[at] == v
    requires forall k | 0 <= k < at :: pool[k] == left[k]
    requires forall k | at < k < |pool| :: pool[k] == left[k - 1]
    ensures PoolOk(t, root, pool)
  {
    forall k | 0 <= k < |pool|
      ensures StockOk(t, root, pool[k])
    {
      if k != at {
        assert StockOk(t, root, left[if k < at then k else k - 1]);
      }
    }
    forall j, k | 0 <= j < k < |pool|
      ensures DifferentPages(pool, j, k)
    {
      var j', k' := if j < at then j else j - 1, if k < at then k else k - 1;
      assert j != at ==> pool[j] == left[j'];
      assert k != at ==> pool[k] == left[k'];
      assert j != at && k != at ==> DifferentPages(left, j', k');
    }
  }

  lemma NotStocked(t: Tables, root: nat, pool: Pool, n: nat, left: Pool, p: Path)
    requires PoolOk(t, root, pool) && Taken(pool, n, left) && Walk(t, root, p).None?
    ensures !InStock(left, p)
  {
    forall k | 0 <= k < |left|
      ensures IndexPath(left[k]) != p
    {
      assert StockOk(t, root, pool[n + k]);
    }
  }

  /** The number of pages in front after `taken` pages were taken and one was put behind the `at` pages in front. */
  function NextAt(at: nat, taken: nat): nat {
    (if at <= taken then 0 else at - taken) + 1
  }

  lemma RestockedIff(t': Tables, t: Tables, root: nat, pool: Pool, n: nat, left: Pool, at: nat, k: nat, v: nat, f: nat)
    requires PoolOk(t, root, pool) && Taken(pool, n, left) && PoolOk(t', root, left) && at <= |left|
    requires v == 4096 * k && FirstMapped(t', t, root, k, f) && !IsTable(t', root, f)
    ensures PoolOk(t', root, PutBehind(left, at, v)) <==> Bit30(v) == 0
  {
    PathOfAddress(v, k);
    NotStocked(t, root, pool, n, left, PagePath(k));
    StockedIff(t', root, left, at, v, PutBehind(left, at, v));
  }

  /**
   * One round of the refill in `KPALLOC`: a page from `KP_ALLOC3` goes into the stock, behind the `at` pages that
   * were put in front before. The state stays sound exactly when bit 30 of its address is clear.
   */
  method Restock(pg: Pager,
                 at: nat) returns (r: Outcome, v: nat, next: nat, ghost k: nat, ghost f: nat, ghost left: Pool)
    requires pg.Valid() && at <= |pg.pool|
    modifies pg`tables, pg`pool, pg.frames
    ensures r == Done ==> (pg.Valid() <==> Bit30(v) == 0)
    ensures r == Done ==> v == 4096 * k && FirstMapped(pg.tables, old(pg.tables), pg.root, k, f)
    ensures r == Done ==> Taken(old(pg.pool), old(Need(pg.tables, pg.root)), left)
    ensures r == Done ==> next == NextAt(at, old(Need(pg.tables, pg.root)))
    ensures r == Done ==> next - 1 <= |left| && pg.pool == PutBehind(left, next - 1, v)
    ensures r != Done ==> pg.Valid() && SamePages(pg.tables, old(pg.tables), pg.root)
    ensures r == Done || r == Fault(PAGE_NOFREESPACE) || r == Fault(KPALLOC_NOFREE)
    ensures r == Fault(KPALLOC_NOFREE) <==> |old(pg.pool)| < old(Need(pg.tables, pg.root))
    ensures r == Fault(PAGE_NOFREESPACE) <==> old(FullBelow(pg.tables, pg.root, PAGES))
    ensures !old(pg.frames.InUse(f))
    ensures forall j: nat :: pg.frames.InUse(j) <==> old(pg.frames.InUse(j)) || j == f
  {
    var before := |pg.pool|;
    r, v, k, f := KP_ALLOC3(pg);
    next, left := 0, pg.pool;
    if r == Done {
      var taken := before - |pg.pool|;
      next := NextAt(at, taken);
      StoreInStock(pg, next - 1, v, old(pg.tables), old(pg.pool), taken, k, f);
    }
  }

  /** The second half of that round, for the tables `t` and the stock `pool` before it. */
  method StoreInStock(pg: Pager, at: nat, v: nat, ghost t: Tables, ghost pool: Pool, ghost n: nat, ghost k: nat,
                      ghost f: nat)
    requires pg.Valid() && at <= |pg.pool| && PoolOk(t, pg.root, pool) && Taken(pool, n, pg.pool)
    requires v == 4096 * k && FirstMapped(pg.tables, t, pg.root, k, f) && !IsTable(pg.tables, pg.root, f)
    modifies pg`pool
    ensures (pg.Valid() <==> Bit30(v) == 0) && pg.pool == PutBehind(old(pg.pool), at, v)
  {
    RestockedIff(pg.tables, t, pg.root, pool, n, pg.pool, at, k, v, f);
    pg.pool := PutBehind(pg.pool, at, v);
  }

  /** The first page that may be the `i`-th of the lowest unmapped ones. */
  function From(ks: seq<nat>, i: nat): nat
    requires i <= |ks|
  {
    if i == 0 then FIRST else ks[i - 1] + 1
  }

  ghost predicate Candidate(t: Tables, root: nat, k: nat) {
    FIRST <= k < PAGES && !MappedIn(t, root, k) && Bit30(4096 * k) == 0
  }

  predicate Before(ks: seq<nat>, i: nat, j: nat)
    requires i < |ks| && j < |ks|
  {
    ks[i] < ks[j]
  }

  ghost predicate AllMapped(t: Tables, root: nat, lo: nat, hi: nat) {
    forall k: nat | lo <= k < hi :: MappedIn(t, root, k)
  }

  /** `ks` are the lowest pages that are not mapped, in order, and bit 30 of their addresses is clear. */
  ghost predicate Lowest(t: Tables, root: nat, ks: seq<nat>) {
    && (forall i {:trigger Candidate(t, root, ks[i])} | 0 <= i < |ks| :: Candidate(t, root, ks[i]))
    && (forall i, j {:trigger Before(ks, i, j)} | 0 <= i < j < |ks| :: Before(ks, i, j))
    && (forall i {:trigger From(ks, i)} | 0 <= i < |ks| :: AllMapped(t, root, From(ks, i), ks[i]))
  }

  /** All the pages are below one table of the last level. */
  ghost predicate OneTable(ks: seq<nat>) {
    forall i, j {:trigger Before(ks, i, j)} | 0 <= i < |ks| && 0 <= j < |ks| ::
      PagePath(ks[i])[..3] == PagePath(ks[j])[..3]
  }

  /** `q` leads to one of the first `n` pages. */
  ghost predicate OneOf(q: Path, ks: seq<nat>, n: nat) {
    exists j :: 0 <= j < n <= |ks| && q == PagePath(ks[j])
  }

  /** The first `n` pages are mapped; no other translation differs. */
  ghost predicate Filled(t': Tables, t: Tables, root: nat, ks: seq<nat>, n: nat) {
    forall q: Path {:trigger Walk(t', root, q)} | |q| == 4 ::
      if OneOf(q, ks, n) then Walk(t', root, q).Some? else Walk(t', root, q) == Walk(t, root, q)
  }

  /** A page below `ks[i]` is mapped or one of the pages before. */
  lemma {:induction false} Covered(t: Tables, root: nat, ks: seq<nat>, i: nat, k: nat)
    requires Lowest(t, root, ks) && i < |ks| && FIRST <= k < ks[i]
    ensures MappedIn(t, root, k) || OneOf(PagePath(k), ks, i)
  {
    assert AllMapped(t, root, From(ks, i), ks[i]);
    if k < From(ks, i) && k != ks[i - 1] {
      Covered(t, root, ks, i - 1, k);
    }
  }

  lemma NextLowest(t': Tables, t: Tables, root: nat, ks: seq<nat>, i: nat)
    requires Lowest(t, root, ks) && i < |ks| && Filled(t', t, root, ks, i)
    ensures FirstUnmapped(t', root, ks[i])
  {
    forall k: nat | FIRST <= k < ks[i]
      ensures MappedIn(t', root, k)
    {
      Covered(t, root, ks, i, k);
    }
    assert Candidate(t, root, ks[i]);
    forall j | 0 <= j < i
      ensures PagePath(ks[i]) != PagePath(ks[j])
    {
      assert Before(ks, j, i) && Candidate(t, root, ks[j]);
      PagesDiffer(ks[i], ks[j]);
    }
  }

  lemma FilledStep(t2: Tables, t1: Tables, t: Tables, root: nat, ks: seq<nat>, i: nat, f: nat)
    requires i < |ks| && Filled(t1, t, root, ks, i) && FirstMapped(t2, t1, root, ks[i], f)
    ensures Filled(t2, t, root, ks, i + 1)
  {
    forall q: Path | |q| == 4
      ensures OneOf(q, ks, i + 1) <==> OneOf(q, ks, i) || q == PagePath(ks[i])
    {
    }
  }

  /** The stock after `i` rounds, if all the pages are below one table: only the first round may take pages. */
  predicate Restocked(ks: seq<nat>, i: nat, at: nat, pool: Pool, pool0: Pool, need0: nat) {
    && i <= |ks| && need0 <= |pool0| && at == i
    && pool == if i == 0 then pool0 else Addresses(ks[..i]) + pool0[need0..]
  }

  lemma NeedNow(t: Tables, t0: Tables, root: nat, ks: seq<nat>, i: nat)
    requires OneTable(ks) && 0 < i < |ks| && FirstUnmapped(t, root, ks[i]) && Filled(t, t0, root, ks, i)
    ensures Need(t, root) == 0
  {
    NeedIs(t, root, ks[i]);
    assert OneOf(PagePath(ks[i - 1]), ks, i);
    MappedHasTables(t, root, PagePath(ks[i - 1]));
    assert Before(ks, i - 1, i) || !Before(ks, i - 1, i);
  }

  lemma AddressesGrow(ks: seq<nat>, i: nat)
    requires i < |ks|
    ensures Addresses(ks[..i + 1]) == Addresses(ks[..i]) + [4096 * ks[i]]
  {
  }

  lemma RestockedStep(ks: seq<nat>, i: nat, at: nat, next: nat, pool2: Pool, left: Pool, pool1: Pool, pool0: Pool,
                      need: nat, need0: nat)
    requires i < |ks| && Restocked(ks, i, at, pool1, pool0, need0) && need == if i == 0 then need0 else 0
    requires Taken(pool1, need, left) && next == NextAt(at, need) <= |left| + 1
    requires pool2 == PutBehind(left, next - 1, 4096 * ks[i])
    ensures Restocked(ks, i + 1, next, pool2, pool0, need0)
  {
    AddressesGrow(ks, i);
    if i == 0 {
      assert ks[..0] == [] && Addresses(ks[..0]) == [];
    } else {
      assert left == pool1 && |Addresses(ks[..i])| == i;
      assert left[..i] == Addresses(ks[..i]) && left[i..] == pool0[need0..];
    }
  }

  /**
   * The refill in `KPALLOC`: `n` pages from `KP_ALLOC3` go in front of the stock, for the `n` lowest pages that are not
   * mapped. The state stays sound; if the pages are below one table, the stock is exactly the new pages, in order,
   * before those that were left when the tables for the first page were built.
   */
  method Refill(pg: Pager, n: nat, ghost ks: seq<nat>) returns (r: Outcome)
    requires pg.Valid() && |ks| == n && Lowest(pg.tables, pg.root, ks)
    modifies pg`tables, pg`pool, pg.frames
    ensures pg.Valid()
    ensures r == Done || r == Fault(KPALLOC_NOFREE)
    ensures r == Done ==> Filled(pg.tables, old(pg.tables), pg.root, ks, n)
    ensures StillUsed(old(pg.frames.mem), old(pg.frames.chain), pg.frames.mem, pg.frames.chain)
    ensures old(Enough(pg.tables, pg.root, pg.pool, ks)) && n > 0 ==>
              r == Done && pg.pool == Addresses(ks) + old(pg.pool)[old(Need(pg.tables, pg.root))..]
  {
    var at: nat := 0;
    for i := 0 to n
      invariant pg.Valid() && at <= |pg.pool|
      invariant StillUsed(old(pg.frames.mem), old(pg.frames.chain), pg.frames.mem, pg.frames.chain)
      invariant Rounds(pg.tables, pg.pool, at, old(pg.tables), old(pg.pool), pg.root, ks, i)
    {
      r, at := RefillRound(pg, at, i, ks, old(pg.tables), old(pg.pool), old(pg.frames.mem), old(pg.frames.chain));
      if r != Done {
        return;
      }
    }
    Finished(pg.tables, pg.pool, at, old(pg.tables), old(pg.pool), pg.root, ks);
    r := Done;
  }

  ghost predicate Enough(t: Tables, root: nat, pool: Pool, ks: seq<nat>) {
    OneTable(ks) && Need(t, root) <= |pool|
  }

  /** What holds after `i` rounds. */
  ghost predicate Rounds(t: Tables, pool: Pool, at: nat, t0: Tables, pool0: Pool, root: nat, ks: seq<nat>, i: nat) {
    && Filled(t, t0, root, ks, i) && (i == 0 ==> t == t0)
    && (Enough(t0, root, pool0, ks) ==> Restocked(ks, i, at, pool, pool0, Need(t0, root)))
  }

  lemma Finished(t: Tables, pool: Pool, at: nat, t0: Tables, pool0: Pool, root: nat, ks: seq<nat>)
    requires Rounds(t, pool, at, t0, pool0, root, ks, |ks|)
    ensures Enough(t0, root, pool0, ks) && ks != [] ==> pool == Addresses(ks) + pool0[Need(t0, root)..]
  {
    assert ks[..|ks|] == ks;
  }

  /** `Restock` for a page that is known to be the lowest one. */
  method RestockPage(pg: Pager, at: nat, ghost k: nat) returns (r: Outcome, next: nat, ghost f: nat, ghost left: Pool)
    requires pg.Valid() && at <= |pg.pool| && FirstUnmapped(pg.tables, pg.root, k) && Bit30(4096 * k) == 0
    modifies pg`tables, pg`pool, pg.frames
    ensures pg.Valid()
    ensures r == if |old(pg.pool)| < old(Need(pg.tables, pg.root)) then Fault(KPALLOC_NOFREE) else Done
    ensures r == Done ==> FirstMapped(pg.tables, old(pg.tables), pg.root, k, f)
    ensures r == Done ==> Taken(old(pg.pool), old(Need(pg.tables, pg.root)), left)
    ensures r == Done ==> next == NextAt(at, old(Need(pg.tables, pg.root)))
    ensures r == Done ==> next - 1 <= |left| && pg.pool == PutBehind(left, next - 1, 4096 * k)
    ensures !FrameBitmap.Used(old(pg.frames.mem), old(pg.frames.chain), f)
    ensures StillUsed(old(pg.frames.mem), old(pg.frames.chain), pg.frames.mem, pg.frames.chain)
  {
    var v;
    ghost var j;
    r, v, next, j, f, left := Restock(pg, at);
    if r == Done {
      FirstUnique(old(pg.tables), pg.root, j, k);
    }
    forall n: nat | FrameBitmap.Used(old(pg.frames.mem), old(pg.frames.chain), n)
      ensures FrameBitmap.Used(pg.frames.mem, pg.frames.chain, n)
    {
      assert pg.frames.InUse(n);
    }
    assert !old(pg.frames.InUse(f));
  }

  /** One round of it. */
  method RefillRound(pg: Pager, at: nat, ghost i: nat, ghost ks: seq<nat>, ghost t0: Tables, ghost pool0: Pool,
                     ghost mem0: FrameBitmap.Memory, ghost chain0: seq<nat>)
    returns (r: Outcome, next: nat)
    requires pg.Valid() && at <= |pg.pool| && i < |ks| && Lowest(t0, pg.root, ks)
    requires Rounds(pg.tables, pg.pool, at, t0, pool0, pg.root, ks, i)
    requires StillUsed(mem0, chain0, pg.frames.mem, pg.frames.chain)
    modifies pg`tables, pg`pool, pg.frames
    ensures pg.Valid() && (r == Done || r == Fault(KPALLOC_NOFREE))
    ensures StillUsed(mem0, chain0, pg.frames.mem, pg.frames.chain)
    ensures Enough(t0, pg.root, pool0, ks) ==> r == Done
    ensures r == Done ==> next <= |pg.pool| && Rounds(pg.tables, pg.pool, next, t0, pool0, pg.root, ks, i + 1)
  {
    ghost var t1, pool1 := pg.tables, pg.pool;
    ghost var f, left;
    NextLowest(t1, t0, pg.root, ks, i);
    NextNeed(t1, pool1, at, t0, pool0, pg.root, ks, i);
    assert Candidate(t0, pg.root, ks[i]);
    r, next, f, left := RestockPage(pg, at, ks[i]);
    if r == Done {
      RoundsStep(pg.tables, pg.pool, next, t1, pool1, at, t0, pool0, pg.root, ks, i, f, left);
    }
  }

  lemma NextNeed(t: Tables, pool: Pool, at: nat, t0: Tables, pool0: Pool, root: nat, ks: seq<nat>, i: nat)
    requires Rounds(t, pool, at, t0, pool0, root, ks, i)
    requires i < |ks| && FirstUnmapped(t, root, ks[i])
    ensures Enough(t0, root, pool0, ks) ==> Need(t, root) == (if i == 0 then Need(t0, root) else 0) <= |pool|
  {
    if Enough(t0, root, pool0, ks) && i > 0 {
      NeedNow(t, t0, root, ks, i);
    }
  }

  lemma RoundsStep(t2: Tables, pool2: Pool, next: nat, t1: Tables, pool1: Pool, at: nat, t0: Tables, pool0: Pool,
                   root: nat, ks: seq<nat>, i: nat, f: nat, left: Pool)
    requires i < |ks| && FirstMapped(t2, t1, root, ks[i], f) && Rounds(t1, pool1, at, t0, pool0, root, ks, i)
    requires Taken(pool1, Need(t1, root), left) && next <= |left| + 1
    requires next == NextAt(at, Need(t1, root))
    requires pool2 == PutBehind(left, next - 1, 4096 * ks[i])
    ensures Rounds(t2, pool2, next, t0, pool0, root, ks, i + 1)
  {
    FilledStep(t2, t1, t0, root, ks, i, f);
    NextNeed(t1, pool1, at, t0, pool0, root, ks, i);
    if Enough(t0, root, pool0, ks) {
      RestockedStep(ks, i, at, next, pool2, left, pool1, pool0, Need(t1, root), Need(t0, root));
    }
  }

  // The boot.

  /** The tables that the boot code builds, in the frames `a` to `d`: page `i` from `CBASE` on lies on frame `i`. */
  function BootTables(a: nat, b: nat, c: nat, d: nat): Tables {
    OneEntry(a, 1, 4096 * b + 3) + OneEntry(b, 0, 4096 * c + 3) + OneEntry(c, 0, 4096 * d + 3) + FirstFrames(d)
  }

  function OneEntry(f: nat, at: nat, e: nat): Tables {
    map i: nat | i < 512 :: (f, i) := if i == at then e else 0
  }

  function FirstFrames(f: nat): Tables {
    map i: nat | i < 512 :: (f, i) := 4096 * i + 3
  }

  predicate FourFrames(a: nat, b: nat, c: nat, d: nat) {
    a != b && a != c && a != d && b != c && b != d && c != d
  }

  /** Where its paths lead. */
  function BootWalk(q: Path, a: nat, b: nat, c: nat, d: nat): Option<nat> {
    if |q| == 0 then Some(a)
    else if q[0] != 1 then None
    else if |q| == 1 then Some(b)
    else if q[1] != 0 then None
    else if |q| == 2 then Some(c)
    else if q[2] != 0 then None
    else if |q| == 3 then Some(d)
    else if |q| == 4 && q[3] < 512 then Some(q[3])
    else None
  }

  /** Where entry `i` of table `f` leads. */
  function Goes(t: Tables, f: nat, i: nat): Option<nat> {
    if (f, i) in t && Present(t[(f, i)]) then Some(t[(f, i)] / 4096) else None
  }

  /** The entries at position `i`. */
  predicate BootEntries(t: Tables, i: nat, a: nat, b: nat, c: nat, d: nat) {
    && Goes(t, a, i) == (if i == 1 then Some(b) else None)
    && Goes(t, b, i) == (if i == 0 then Some(c) else None)
    && Goes(t, c, i) == (if i == 0 then Some(d) else None)
    && Goes(t, d, i) == Some(i)
  }

  lemma BootLookups(t: Tables, i: nat, a: nat, b: nat, c: nat, d: nat)
    requires FourFrames(a, b, c, d) && t == BootTables(a, b, c, d) && i < 512
    ensures (a, i) in t && t[(a, i)] == if i == 1 then 4096 * b + 3 else 0
    ensures (b, i) in t && t[(b, i)] == if i == 0 then 4096 * c + 3 else 0
    ensures (c, i) in t && t[(c, i)] == if i == 0 then 4096 * d + 3 else 0
    ensures (d, i) in t && t[(d, i)] == 4096 * i + 3
  {
  }

  lemma GoesTo(t: Tables, f: nat, i: nat, x: nat)
    requires (f, i) in t
    ensures t[(f, i)] == 4096 * x + 3 ==> Goes(t, f, i) == Some(x)
    ensures t[(f, i)] == 0 ==> Goes(t, f, i) == None
  {
  }

  lemma BootEntriesOk(t: Tables, i: nat, a: nat, b: nat, c: nat, d: nat)
    requires FourFrames(a, b, c, d) && t == BootTables(a, b, c, d) && i < 512
    ensures BootEntries(t, i, a, b, c, d) && (a, i) in t && (b, i) in t && (c, i) in t && (d, i) in t
  {
    BootLookups(t, i, a, b, c, d);
    GoesTo(t, a, i, b);
    GoesTo(t, b, i, c);
    GoesTo(t, c, i, d);
    GoesTo(t, d, i, i);
  }

  lemma {:induction false} BootWalks(t: Tables, q: Path, a: nat, b: nat, c: nat, d: nat)
    requires FourFrames(a, b, c, d) && t == BootTables(a, b, c, d) && |q| <= 4
    ensures Walk(t, a, q) == BootWalk(q, a, b, c, d)
    decreases |q|
  {
    if q != [] {
      var q0, i := q[..|q| - 1], q[|q| - 1];
      BootWalks(t, q0, a, b, c, d);
      if i < 512 { BootEntriesOk(t, i, a, b, c, d); }
      assert q == q0 + [i];
      BootStep(t, q0, i, a, b, c, d);
    }
  }

  lemma BootStep(t: Tables, q: Path, i: nat, a: nat, b: nat, c: nat, d: nat)
    requires |q| <= 3 && Walk(t, a, q) == BootWalk(q, a, b, c, d) && (i < 512 ==> BootEntries(t, i, a, b, c, d))
    ensures Walk(t, a, q + [i]) == BootWalk(q + [i], a, b, c, d)
  {
    BootWalkStep(q, i, q + [i], a, b, c, d);
    if Walk(t, a, q).Some? {
      WalkStep(t, a, q, i);
    } else {
      NothingBelow(t, a, q, i);
    }
  }

  function Level(n: nat, a: nat, b: nat, c: nat, d: nat): nat {
    if n == 0 then a else if n == 1 then b else if n == 2 then c else d
  }

  lemma BootWalkStep(q: Path, i: nat, s: Path, a: nat, b: nat, c: nat, d: nat)
    requires |q| <= 3 && s == q + [i]
    ensures BootWalk(q, a, b, c, d).None? ==> BootWalk(s, a, b, c, d).None?
    ensures BootWalk(q, a, b, c, d).Some? ==> BootWalk(q, a, b, c, d).value == Level(|q|, a, b, c, d)
    ensures BootWalk(q, a, b, c, d).Some? && |q| == 0 ==> BootWalk(s, a, b, c, d) == if i == 1 then Some(b) else None
    ensures BootWalk(q, a, b, c, d).Some? && |q| == 1 ==> BootWalk(s, a, b, c, d) == if i == 0 then Some(c) else None
    ensures BootWalk(q, a, b, c, d).Some? && |q| == 2 ==> BootWalk(s, a, b, c, d) == if i == 0 then Some(d) else None
    ensures BootWalk(q, a, b, c, d).Some? && |q| == 3 ==> BootWalk(s, a, b, c, d) == if i < 512 then Some(i) else None
  {
    assert s[|q|] == i && forall j | 0 <= j < |q| :: s[j] == q[j];
  }

  lemma BootHasTables(t: Tables, a: nat, b: nat, c: nat, d: nat)
    requires FourFrames(a, b, c, d) && t == BootTables(a, b, c, d)
    ensures HasTable(t, a) && HasTable(t, b) && HasTable(t, c) && HasTable(t, d)
  {
    forall i | 0 <= i < 512
      ensures (a, i) in t && (b, i) in t && (c, i) in t && (d, i) in t
    {
      BootLookups(t, i, a, b, c, d);
    }
  }

  lemma BootTree(t: Tables, a: nat, b: nat, c: nat, d: nat)
    requires FourFrames(a, b, c, d) && t == BootTables(a, b, c, d)
    ensures Tree(t, a)
    ensures forall q: Path | |q| <= 4 :: Walk(t, a, q) == BootWalk(q, a, b, c, d)
  {
    forall q: Path | |q| <= 4
      ensures Walk(t, a, q) == BootWalk(q, a, b, c, d)
    {
      BootWalks(t, q, a, b, c, d);
    }
    BootHasTables(t, a, b, c, d);
    TreeFromWalks(t, a, b, c, d);
  }

  lemma TreeFromWalks(t: Tables, a: nat, b: nat, c: nat, d: nat)
    requires FourFrames(a, b, c, d) && HasTable(t, a) && HasTable(t, b) && HasTable(t, c) && HasTable(t, d)
    requires forall q: Path | |q| <= 4 :: Walk(t, a, q) == BootWalk(q, a, b, c, d)
    ensures Tree(t, a)
  {
    forall q: Path, s: Path
      ensures Apart(t, a, q, s)
    {
      if Walk(t, a, q).Some? && Walk(t, a, q) == Walk(t, a, s) && ((|q| <= 3 && |s| <= 3) || |q| == |s| == 4) {
        BootApart(q, s, a, b, c, d);
      }
    }
  }

  lemma BootApart(q: Path, s: Path, a: nat, b: nat, c: nat, d: nat)
    requires FourFrames(a, b, c, d) && ((|q| <= 3 && |s| <= 3) || |q| == |s| == 4)
    requires BootWalk(q, a, b, c, d).Some? && BootWalk(q, a, b, c, d) == BootWalk(s, a, b, c, d)
    ensures q == s
  {
    assert |q| == |s|;
  }

  /** The frames of the four boot tables. */
  const PML4: nat := 0x30
  const PDPT: nat := 0x31
  const PD: nat := 0x32
  const PT: nat := 0x33

  /** A walk of the tables as the boot code leaves them. */
  function FromBoot(q: Path): Option<nat> {
    BootWalk(q, PML4, PDPT, PD, PT)
  }

  /** Page `512c + d` from `CBASE` on. */
  lemma KernelPage(c: nat, d: nat, k: nat)
    requires c < 512 && d < 512 && k == FIRST + 512 * c + d
    ensures PagePath(k) == [1, 0, c, d] == IndexPath(4096 * k) && Bit30(4096 * k) == 0 && FIRST <= k < PAGES
  {
    PathOfPageNo(1, 0, c, d);
    PathOfAddress(4096 * k, k);
    DivisionIs(4096 * k, 0x4000_0000, 512, 4096 * (512 * c + d));
  }

  ghost predicate AsBooted(t: Tables) {
    forall q: Path | |q| <= 4 :: Walk(t, PML4, q) == FromBoot(q)
  }

  /** A kernel page may be in the stock if its frame is none of the four. */
  lemma KernelStock(t: Tables, d: nat, v: nat)
    requires AsBooted(t) && v == 4096 * (FIRST + d) && d < 512 && d !in {PML4, PDPT, PD, PT}
    ensures StockOk(t, PML4, v) && IndexPath(v) == [1, 0, 0, d]
  {
    KernelPage(0, d, FIRST + d);
    assert FromBoot(IndexPath(v)) == Some(d);
  }

  /** The 64 pages after the boot pages are the lowest ones not mapped, below one table, which is missing. */
  lemma LowestAfterBoot(t: Tables, ks: seq<nat>)
    requires AsBooted(t) && |ks| == 64 && forall i | 0 <= i < 64 :: ks[i] == FIRST + 512 + i
    ensures Lowest(t, PML4, ks) && OneTable(ks) && FirstUnmapped(t, PML4, FIRST + 512)
  {
    forall i | 0 <= i < 64
      ensures PagePath(ks[i])[..3] == [1, 0, 1] && Candidate(t, PML4, ks[i])
    {
      KernelPage(1, i, ks[i]);
      assert FromBoot([1, 0, 1, i]) == None;
    }
    forall k: nat | FIRST <= k < FIRST + 512
      ensures MappedIn(t, PML4, k)
    {
      KernelPage(0, k - FIRST, k);
      assert FromBoot([1, 0, 0, k - FIRST]) == Some(k - FIRST);
    }
    assert AllMapped(t, PML4, FIRST, ks[0]);
    assert FirstUnmapped(t, PML4, ks[0]) by {
      assert Candidate(t, PML4, ks[0]);
    }
  }

  lemma NeedAfterBoot(t: Tables)
    requires AsBooted(t) && FirstUnmapped(t, PML4, FIRST + 512)
    ensures Need(t, PML4) == 1
  {
    NeedIs(t, PML4, FIRST + 512);
    KernelPage(1, 0, FIRST + 512);
    var p := PagePath(FIRST + 512);
    assert FromBoot(p[..3]) == None && FromBoot(p[..2]) == Some(PD);
  }

  /** The frames of the first two megabytes are in use. */
  method BootFrames() returns (frames: FrameBitmap.FrameMap)
    ensures fresh(frames) && frames.Valid() && forall j: nat :: frames.InUse(j) <==> j < 512
  {
    frames := new FrameBitmap.FrameMap(MBASE_PAGE + 0x15);
    for i := 0 to 512
      invariant fresh(frames) && frames.Valid() && forall j: nat :: frames.InUse(j) <==> j < i
    {
      frames.SetFrame(i, true);
    }
  }

  /** The pages that `P_ALLOC3_SETUP` puts into the stock, in the order of their slots. */
  function BootStock(): Pool {
    [MBASE + 0x1_F000, MBASE + 0x1_9000, MBASE + 0x1_A000, MBASE + 0x1_E000]
  }

  lemma BootStockOk(t: Tables, pool: Pool, ds: seq<nat>)
    requires AsBooted(t) && |pool| == |ds| && forall k | 0 <= k < |ds| :: pool[k] == 4096 * (FIRST + ds[k])
    requires forall k | 0 <= k < |ds| :: ds[k] < 512 && ds[k] !in {PML4, PDPT, PD, PT}
    requires forall j, k | 0 <= j < k < |ds| :: ds[j] != ds[k]
    ensures PoolOk(t, PML4, pool)
  {
    forall k | 0 <= k < |pool|
      ensures StockOk(t, PML4, pool[k]) && IndexPath(pool[k]) == [1, 0, 0, ds[k]]
    {
      KernelStock(t, ds[k], pool[k]);
    }
    forall j, k | 0 <= j < k < |pool|
      ensures DifferentPages(pool, j, k)
    {
      assert [1, 0, 0, ds[j]][3] != [1, 0, 0, ds[k]][3];
    }
  }

  lemma BootStockIs(pool: Pool, ds: seq<nat>)
    requires pool == BootStock() && ds == [0x3F, 0x39, 0x3A, 0x3E]
    ensures |pool| == |ds| && forall k | 0 <= k < |ds| :: pool[k] == 4096 * (FIRST + ds[k])
    ensures forall k | 0 <= k < |ds| :: ds[k] < 512 && ds[k] !in {PML4, PDPT, PD, PT}
    ensures forall j, k | 0 <= j < k < |ds| :: ds[j] != ds[k]
  {
  }

  lemma BootedBelow(t: Tables)
    requires AsBooted(t)
    ensures forall f: nat | Reached(t, PML4, f) :: f < 512
  {
    forall f: nat | Reached(t, PML4, f)
      ensures f < 512
    {
      var q: Path :| |q| <= 4 && Walk(t, PML4, q) == Some(f);
      assert FromBoot(q) == Some(f);
    }
  }

  lemma BootOk(t: Tables, pool: Pool, ds: seq<nat>)
    requires t == BootTables(PML4, PDPT, PD, PT) && pool == BootStock() && ds == [0x3F, 0x39, 0x3A, 0x3E]
    ensures Tree(t, PML4) && PoolOk(t, PML4, pool) && AsBooted(t)
    ensures forall f: nat | Reached(t, PML4, f) :: f < 512
  {
    BootTree(t, PML4, PDPT, PD, PT);
    BootStockIs(pool, ds);
    BootStockOk(t, pool, ds);
    BootedBelow(t);
  }

  /** The state that the boot code and the first lines of `P_ALLOC3_SETUP` leave. */
  method Boot() returns (pg: Pager)
    ensures fresh(pg) && fresh(pg.frames) && pg.Valid() && pg.root == PML4 && pg.pool == BootStock()
    ensures AsBooted(pg.tables) && forall j: nat :: pg.frames.InUse(j) <==> j < 512
  {
    var frames := BootFrames();
    var t, pool := BootTables(PML4, PDPT, PD, PT), BootStock();
    BootOk(t, pool, [0x3F, 0x39, 0x3A, 0x3E]);
    pg := new Pager(PML4, frames, t, pool);
  }

  /** The pages that the first refill maps. */
  function FirstRefill(): (ks: seq<nat>)
    ensures |ks| == 64 && forall i | 0 <= i < 64 :: ks[i] == FIRST + 512 + i
  {
    seq(64, i requires 0 <= i < 64 => FIRST + 512 + i)
  }

  /**
   * `P_ALLOC3_SETUP`: a page is taken from the stock, which refills it with 64 pages, and put back last. All the
   * other pages stay as they are.
   */
  method P_ALLOC3_SETUP() returns (pg: Pager, r: Outcome)
    ensures fresh(pg) && fresh(pg.frames) && pg.Valid() && pg.root == PML4 && r == Done
    ensures pg.pool == Addresses(FirstRefill()) + [MBASE + 0x1_A000, MBASE + 0x1_E000, MBASE + 0x1_F000]
    ensures AfterSetup(pg.tables)
    ensures FirstInUse(pg.frames.mem, pg.frames.chain)
  {
    pg := FirstPage();
    LowestAfterBoot(pg.tables, FirstRefill());
    NeedAfterBoot(pg.tables);
    ghost var t0, mem0, chain0 := pg.tables, pg.frames.mem, pg.frames.chain;
    assert FirstInUse(mem0, chain0);
    r := Refill(pg, 64, FirstRefill());
    AfterRefill(pg.tables, t0);
    StillInUse(mem0, chain0, pg.frames.mem, pg.frames.chain);
  }

  /** The frames below 512 are in use. */
  ghost predicate FirstInUse(mem: FrameBitmap.Memory, chain: seq<nat>) {
    forall j: nat | j < 512 :: FrameBitmap.Used(mem, chain, j)
  }

  lemma StillInUse(mem0: FrameBitmap.Memory, chain0: seq<nat>, mem: FrameBitmap.Memory, chain: seq<nat>)
    requires FirstInUse(mem0, chain0) && StillUsed(mem0, chain0, mem, chain)
    ensures FirstInUse(mem, chain)
  {
  }

  /** The pages of the refill are mapped, the others as the boot code left them. */
  ghost predicate AfterSetup(t: Tables) {
    forall q: Path | |q| == 4 ::
      if OneOf(q, FirstRefill(), 64) then Walk(t, PML4, q).Some? else Walk(t, PML4, q) == FromBoot(q)
  }

  lemma AfterRefill(t: Tables, t0: Tables)
    requires AsBooted(t0) && Filled(t, t0, PML4, FirstRefill(), 64)
    ensures AfterSetup(t)
  {
  }

  /** Its first page, before the refill. */
  method FirstPage() returns (pg: Pager)
    ensures fresh(pg) && fresh(pg.frames) && pg.Valid() && pg.root == PML4 && AsBooted(pg.tables)
    ensures pg.pool == [MBASE + 0x1_9000, MBASE + 0x1_A000, MBASE + 0x1_E000, MBASE + 0x1_F000]
    ensures FirstInUse(pg.frames.mem, pg.frames.chain)
  {
    pg := Boot();
    assert FirstInUse(pg.frames.mem, pg.frames.chain) by {
      forall j: nat | j < 512
        ensures FrameBitmap.Used(pg.frames.mem, pg.frames.chain, j)
      {
        assert pg.frames.InUse(j);
      }
    }
    ghost var stock := pg.pool;
    var r, v := pg.KPALLOC();
    assert v == stock[0] && pg.pool == stock[1..];
    PutBack(pg, v);
  }

  /** A page from `KPALLOC` goes to the end of the stock again. */
  method PutBack(pg: Pager, v: nat)
    requires pg.Valid() && StockOk(pg.tables, pg.root, v) && !InStock(pg.pool, IndexPath(v))
    modifies pg`pool
    ensures pg.Valid() && pg.pool == old(pg.pool) + [v]
  {
    StockedIff(pg.tables, pg.root, pg.pool, |pg.pool|, v, PutBehind(pg.pool, |pg.pool|, v));
    assert pg.pool[..|pg.pool|] + [v] + pg.pool[|pg.pool|..] == pg.pool + [v];
    pg.pool := pg.pool + [v];
  }

  // Runs.

  /**
   * `ALSP` and then `P_FREE` at an address with bit 30 clear: the same pages are mapped to the same frames, and the
   * same frames are in use.
   */
  method MapThenFree(pg: Pager, v: nat, flags: nat, magic1: nat, magic2: nat)
    requires pg.Valid() && flags < 256 && magic1 < 256 && magic2 < 256 && magic1 % 2 == 1 && magic2 % 2 == 1
    requires Bit30(v) == 0 && pg.At(IndexPath(v)).None? && Missing(pg.tables, pg.root, IndexPath(v)) <= |pg.pool|
    modifies pg`tables, pg`pool, pg.frames
    ensures pg.Valid() && SamePages(pg.tables, old(pg.tables), pg.root)
    ensures forall j: nat :: pg.frames.InUse(j) <==> old(pg.frames.InUse(j))
  {
    ghost var t0, pool0 := pg.tables, pg.pool;
    var r, f := pg.ALSP(v, flags, magic1, magic2);
    ghost var n := Missing(t0, pg.root, IndexPath(v));
    NotStocked(t0, pg.root, pool0, n, pg.pool, IndexPath(v));
    OwnFrame(pg.tables, pg.root, v, f);
    MappedHasTables(pg.tables, pg.root, IndexPath(v));
    pg.P_FREE(v);
  }

  lemma NotRefilled(q: Path)
    requires |q| == 4 && q[..3] != [1, 0, 1]
    ensures !OneOf(q, FirstRefill(), 64)
  {
    forall i | 0 <= i < 64
      ensures PagePath(FirstRefill()[i])[..3] == [1, 0, 1]
    {
      KernelPage(1, i, FirstRefill()[i]);
    }
  }

  /** The first page of the `b`-th gigabyte from `CBASE` on. */
  lemma GigabytePage(b: nat, v: nat)
    requires b < 512 && v == CBASE + 0x4000_0000 * b
    ensures IndexPath(v) == [1, b, 0, 0] && Bit30(v) == b % 2
  {
    PathOfPageNo(1, b, 0, 0);
    PathOfAddress(v, PageNo(1, b, 0, 0));
    DivisionIs(v, 0x4000_0000, 512 + b, 0);
  }

  lemma SecondGiBPaths(t: Tables, v: nat, p: Path, q: Path)
    requires AfterSetup(t) && IndexPath(v) == p == [1, 1, 0, 0] && q == [1, 0, 0, 0]
    ensures V2PPath(v) == q && Walk(t, PML4, p) == None && Walk(t, PML4, q) == Some(0)
  {
    V2PIndex(v);
    assert p[1] == PdptOf(v) && p[0] == Pml4Of(v) && p[2] == PdeOf(v) && p[3] == PtOf(v);
    assert p[..3][1] == 1 && q[..3][2] == 0;
    NotRefilled(p);
    NotRefilled(q);
  }

  /**
   * From the state after boot: with bit 30 of the address set, `P_FREE` releases frame 0, on which the first kernel
   * page lies, and keeps the frame of the page that it unmaps.
   */
  method FreeBeyondBit30() returns (pg: Pager, ghost f: nat)
    ensures !pg.Valid() && f >= 512 && pg.frames.InUse(f) && !pg.frames.InUse(0)
    ensures pg.At([1, 0, 0, 0]) == Some(0) && pg.At([1, 1, 0, 0]) == None
  {
    var r;
    pg, r := P_ALLOC3_SETUP();
    var v := CBASE + 0x4000_0000;
    GigabytePage(1, v);
    SecondGiBPaths(pg.tables, v, [1, 1, 0, 0], [1, 0, 0, 0]);
    r, f := pg.ALSP(v, 0, 1, 1);
    MappedHasTables(pg.tables, pg.root, IndexPath(v));
    MappedHasTables(pg.tables, pg.root, V2PPath(v));
    WrongFrame(pg.tables, pg.root, v, 0);
    pg.P_FREE(v);
  }
}
