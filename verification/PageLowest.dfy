/** The lowest page that is not mapped, and the tables that are missing on the way to it. */
module PageLowest {
  import opened Options
  import opened PageWalk
  import opened PageFlags
  import opened PageTables
  import opened PageSearch

  datatype Search = Found(page: nat) | Full | Failed(error: Error)

  predicate MappedIn(t: Tables, root: nat, k: nat) {
    Walk(t, root, PagePath(k)).Some?
  }

  /** Every page from the first one on up to `k` is mapped. */
  ghost predicate FullBelow(t: Tables, root: nat, k: nat) {
    forall j: nat | FIRST <= j < k :: MappedIn(t, root, j)
  }

  ghost predicate SamePages(t': Tables, t: Tables, root: nat) {
    forall q: Path | |q| == 4 :: Walk(t', root, q) == Walk(t, root, q)
  }

  /** Page `k` is the lowest one that is not mapped. */
  ghost predicate FirstUnmapped(t: Tables, root: nat, k: nat) {
    FIRST <= k < PAGES && FullBelow(t, root, k) && !MappedIn(t, root, k)
  }

  /** Page `k`, the lowest one not mapped in `t`, is mapped to `ad` in `t'`; nothing else differs. */
  ghost predicate FirstMapped(t': Tables, t: Tables, root: nat, k: nat, ad: nat) {
    && FirstUnmapped(t, root, k)
    && Walk(t', root, PagePath(k)) == Some(ad)
    && (forall q: Path | |q| == 4 && q != PagePath(k) :: Walk(t', root, q) == Walk(t, root, q))
  }

  ghost predicate Needs(t: Tables, root: nat, need: nat) {
    && (forall k: nat {:trigger Missing(t, root, PagePath(k))} | FirstUnmapped(t, root, k) ::
         Missing(t, root, PagePath(k)) == need)
    && (FullBelow(t, root, PAGES) ==> need == 0)
  }

  lemma SomeNeed(t: Tables, root: nat)
    ensures exists need: nat :: Needs(t, root, need)
  {
    if k: nat :| FirstUnmapped(t, root, k) {
      assert Needs(t, root, Missing(t, root, PagePath(k))) by {
        forall j: nat | FirstUnmapped(t, root, j)
          ensures j == k
        {
          FirstUnique(t, root, j, k);
        }
      }
    } else {
      assert Needs(t, root, 0);
    }
  }

  lemma FirstUnique(t: Tables, root: nat, j: nat, k: nat)
    requires FirstUnmapped(t, root, j) && FirstUnmapped(t, root, k)
    ensures j == k
  {
    assert j < k ==> MappedIn(t, root, j);
    assert k < j ==> MappedIn(t, root, k);
  }

  /** How many tables are missing on the way to the lowest page that is not mapped. */
  ghost function Need(t: Tables, root: nat): nat {
    SomeNeed(t, root);
    var need: nat :| Needs(t, root, need);
    need
  }

  lemma NeedIs(t: Tables, root: nat, k: nat)
    requires FirstUnmapped(t, root, k)
    ensures Need(t, root) == Missing(t, root, PagePath(k))
  {
    assert Needs(t, root, Need(t, root));
  }

  /** What a search reports that begins with the stock `pool` and ends with `left`. */
  ghost predicate Reports(r: Search, t': Tables, t: Tables, root: nat, ad: nat, pool: Pool, left: Pool) {
    match r
    case Found(k) => FirstMapped(t', t, root, k, ad) && !IsTable(t', root, ad) && Taken(pool, Need(t, root), left)
    case Full => t' == t && left == pool
    case Failed(e) =>
      && SamePages(t', t, root)
      && (e == PAGE_NOFREESPACE || (e == KPALLOC_NOFREE && |pool| < Need(t, root)))
      && (e == PAGE_NOFREESPACE <==> FullBelow(t, root, PAGES))
  }

  lemma FewerOnPath(t1: Tables, t: Tables, root: nat, path: Path, n: nat)
    requires |path| == 4 && n < 3
    requires Walk(t, root, path[..n]).Some? && Walk(t, root, path[..n + 1]).None?
    requires Walk(t1, root, path[..n + 1]).Some?
    requires n != 0 ==> Walk(t1, root, path[..1]) == Walk(t, root, path[..1])
    requires n != 1 ==> Walk(t1, root, path[..2]) == Walk(t, root, path[..2])
    requires n != 2 ==> Walk(t1, root, path[..3]) == Walk(t, root, path[..3])
    ensures Missing(t, root, path) == Missing(t1, root, path) + 1
  {
    AllOrNothing(t, root, path);
  }

  lemma FewerBelow(t1: Tables, t: Tables, root: nat, path: Path, p: Path, q: Path, p1: Path, p2: Path, p3: Path)
    requires |path| == 4 && p1 == path[..1] && p2 == path[..2] && p3 == path[..3]
    requires |q| == |p| + 1 <= 3 && p <= q <= path
    requires Walk(t, root, p).Some? && Walk(t, root, q).None? && Walk(t1, root, q).Some?
    requires forall s: Path {:trigger Walk(t1, root, s)} | |s| <= 4 && s != q :: Walk(t1, root, s) == Walk(t, root, s)
    ensures Missing(t, root, path) == Missing(t1, root, path) + 1
  {
    assert |p1| == 1 && |p2| == 2 && |p3| == 3;
    assert p == path[..|p|] && q == path[..|q|];
    assert |q| != 1 ==> Walk(t1, root, p1) == Walk(t, root, p1);
    assert |q| != 2 ==> Walk(t1, root, p2) == Walk(t, root, p2);
    assert |q| != 3 ==> Walk(t1, root, p3) == Walk(t, root, p3);
    FewerOnPath(t1, t, root, path, |p|);
  }

  /** The missing table below `p` was created. */
  lemma FewerMissing(t1: Tables, t: Tables, root: nat, k: nat, path: Path, p: Path, q: Path)
    requires FirstMissing(t, root, q, k) && path == PagePath(k) && |q| == |p| + 1 && p <= q
    requires Walk(t, root, p).Some? && Walk(t1, root, q).Some?
    requires forall s: Path | |s| <= 4 && s != q :: Walk(t1, root, s) == Walk(t, root, s)
    ensures SamePages(t1, t, root) && Need(t, root) == Need(t1, root) + 1 && Walk(t1, root, q + [0]).None?
  {
    NothingBelow(t, root, q, 0);
    assert |q + [0]| == |q| + 1;
    FewerBelow(t1, t, root, path, p, q, path[..1], path[..2], path[..3]);
    SameFull(t1, t, root, k);
    NeedIs(t, root, k);
    NeedIs(t1, root, k);
  }

  /** What a search reports from there on, it reports from the start. */
  lemma LinkedReports(r: Search, t2: Tables, t1: Tables, t: Tables, root: nat, ad: nat, pool1: Pool, pool: Pool,
                      left: Pool)
    requires SamePages(t1, t, root) && Need(t, root) == Need(t1, root) + 1 && Taken(pool, 1, pool1)
    requires Reports(r, t2, t1, root, ad, pool1, left) && !r.Full?
    ensures Reports(r, t2, t, root, ad, pool, left)
  {
    SameFull(t1, t, root, PAGES);
    if r.Found? {
      SameFull(t1, t, root, r.page);
    }
  }

  /** The same where the table may have been there already. */
  lemma TableReports(r: Search, t2: Tables, t1: Tables, t: Tables, root: nat, ad: nat, pool1: Pool, pool: Pool,
                     left: Pool, there: bool)
    requires there ==> t1 == t && pool1 == pool
    requires !there ==> SamePages(t1, t, root) && Need(t, root) == Need(t1, root) + 1 && Taken(pool, 1, pool1)
    requires Reports(r, t2, t1, root, ad, pool1, left) && (r.Full? ==> there)
    ensures Reports(r, t2, t, root, ad, pool, left)
  {
    if !there {
      LinkedReports(r, t2, t1, t, root, ad, pool1, pool, left);
    }
  }

  /** The table at `q` is on the way to page `k`. */
  predicate OnTheWay(q: Path, k: nat) {
    |q| <= 3 && PagePath(k)[..|q|] == q
  }

  /** The page is the first one of the table at `q`. */
  predicate FirstOf(q: Path, k: nat) {
    forall n | |q| <= n < 4 :: PagePath(k)[n] == 0
  }

  /** The page is the lowest one not mapped, because the table at `q` on the way to it is missing. */
  ghost predicate FirstMissing(t: Tables, root: nat, q: Path, k: nat) {
    OnTheWay(q, k) && FirstUnmapped(t, root, k) && Walk(t, root, q).None? && Need(t, root) > 0
  }

  lemma MissingTable(t: Tables, root: nat, q: Path, k: nat)
    requires OnTheWay(q, k) && FIRST <= k < PAGES && FullBelow(t, root, k) && Walk(t, root, q).None?
    ensures FirstMissing(t, root, q, k) && !FullBelow(t, root, PAGES)
    ensures forall p: Path | q <= p <= PagePath(k) :: Walk(t, root, p).None?
  {
    WalkBelowNothing(t, root, q, PagePath(k));
    forall p: Path | q <= p <= PagePath(k)
      ensures Walk(t, root, p).None?
    {
      WalkBelowNothing(t, root, q, p);
    }
    assert q <= PagePath(k)[..3];
    NeedIs(t, root, k);
  }

  lemma MissingPt(t: Tables, root: nat, a: nat, b: nat, c: nat, k: nat)
    requires 1 <= a < 512 && b < 512 && c < 512 && k == PageNo(a, b, c, 0) && FullBelow(t, root, k)
    ensures OnTheWay([a, b, c], k) && FirstOf([a, b, c], k) && [a, b, c] == [a, b] + [c]
    ensures [a, b, c] + [0] == [a, b, c, 0]
    ensures Walk(t, root, [a, b, c]).None? ==>
              FirstMissing(t, root, [a, b, c], k) && !FullBelow(t, root, PAGES) && Walk(t, root, [a, b, c, 0]).None?
  {
    PathOfPageNo(a, b, c, 0);
    if Walk(t, root, [a, b, c]).None? {
      MissingTable(t, root, [a, b, c], k);
    }
  }

  lemma MissingPde(t: Tables, root: nat, a: nat, b: nat, k: nat)
    requires 1 <= a < 512 && b < 512 && k == PageNo(a, b, 0, 0) && FullBelow(t, root, k)
    ensures OnTheWay([a, b], k) && FirstOf([a, b], k) && [a, b] == [a] + [b] && [a, b] + [0] == [a, b, 0]
    ensures Walk(t, root, [a, b]).None? ==>
              FirstMissing(t, root, [a, b], k) && !FullBelow(t, root, PAGES) && Walk(t, root, [a, b, 0]).None?
  {
    PathOfPageNo(a, b, 0, 0);
    if Walk(t, root, [a, b]).None? {
      MissingTable(t, root, [a, b], k);
    }
  }

  lemma MissingPdpt(t: Tables, root: nat, a: nat, k: nat)
    requires 1 <= a < 512 && k == PageNo(a, 0, 0, 0) && FullBelow(t, root, k)
    ensures OnTheWay([a], k) && FirstOf([a], k) && [a] == [] + [a] && [a] + [0] == [a, 0]
    ensures Walk(t, root, [a]).None? ==>
              FirstMissing(t, root, [a], k) && !FullBelow(t, root, PAGES) && Walk(t, root, [a, 0]).None?
  {
    PathOfPageNo(a, 0, 0, 0);
    if Walk(t, root, [a]).None? {
      MissingTable(t, root, [a], k);
    }
  }

  lemma NothingBelow(t: Tables, root: nat, q: Path, i: nat)
    requires Walk(t, root, q).None?
    ensures Walk(t, root, q + [i]).None?
  {
    assert (q + [i])[..|q|] == q;
  }

  lemma OneMore(t: Tables, root: nat, k: nat, next: nat)
    requires next == k + 1 && FullBelow(t, root, k) && MappedIn(t, root, k)
    ensures FullBelow(t, root, next)
  {
  }

  lemma FoundIsNotFull(t': Tables, t: Tables, root: nat, k: nat, ad: nat)
    requires FirstMapped(t', t, root, k, ad)
    ensures !FullBelow(t, root, PAGES)
  {
  }

  lemma SameFull(t': Tables, t: Tables, root: nat, k: nat)
    requires SamePages(t', t, root)
    ensures FullBelow(t', root, k) == FullBelow(t, root, k)
  {
    assert forall j: nat :: MappedIn(t', root, j) == MappedIn(t, root, j);
  }

  // The flags of the entries that a search stores.

  /**
   * The flags of the tables that are made on the way `p`: those at the head of a loop differ from those that are made
   * as the next table of a full one, and the first index of each loop is made at its head.
   */
  function TableFlag(t: Tables, root: nat, p: Path): nat
    requires |p| == 4
  {
    var n := 3 - Missing(t, root, p);
    if n == 3 || p[n] == (if n == 0 then 1 else 0) then 0x1 else 0x23
  }

  ghost predicate HasFlag(t: Tables, root: nat, flag: nat) {
    forall k: nat {:trigger TableFlag(t, root, PagePath(k))} | FirstUnmapped(t, root, k) ::
      TableFlag(t, root, PagePath(k)) == flag
  }

  lemma SomeFlag(t: Tables, root: nat)
    ensures exists flag: nat :: HasFlag(t, root, flag)
  {
    if k: nat :| FirstUnmapped(t, root, k) {
      assert HasFlag(t, root, TableFlag(t, root, PagePath(k))) by {
        forall j: nat | FirstUnmapped(t, root, j)
          ensures j == k
        {
          FirstUnique(t, root, j, k);
        }
      }
    } else {
      assert HasFlag(t, root, 0);
    }
  }

  /** The flags of the tables that are made on the way to the lowest page that is not mapped. */
  ghost function LowestFlag(t: Tables, root: nat): nat {
    SomeFlag(t, root);
    var flag: nat :| HasFlag(t, root, flag);
    flag
  }

  lemma FlagIs(t: Tables, root: nat, k: nat)
    requires FirstUnmapped(t, root, k)
    ensures LowestFlag(t, root) == TableFlag(t, root, PagePath(k))
  {
    assert HasFlag(t, root, LowestFlag(t, root));
  }

  /** The lowest page is mapped with flags 1. */
  ghost predicate LeafMarked(t': Tables, t: Tables, root: nat) {
    forall k: nat {:trigger Flags(t', root, PagePath(k))} | FirstUnmapped(t, root, k) ::
      Flags(t', root, PagePath(k)) == 1
  }

  /** The tables that were missing on the way to it came from the stock and have the given flags. */
  ghost predicate Marked(t': Tables, t: Tables, root: nat, pool: Pool, flag: nat) {
    forall k: nat {:trigger TablesMade(t', t, root, PagePath(k), pool, flag)} | FirstUnmapped(t, root, k) ::
      TablesMade(t', t, root, PagePath(k), pool, flag)
  }

  /** What a search leaves in the entries: those that were there stay, those for the page found are marked. */
  ghost predicate Entries(found: bool, t': Tables, t: Tables, root: nat, pool: Pool, flag: nat) {
    Kept(t', t, root) && (found ==> LeafMarked(t', t, root) && Marked(t', t, root, pool, flag))
  }

  /** With nothing missing the flags of tables do not matter. */
  lemma AnyFlag(found: bool, t': Tables, t: Tables, root: nat, pool: Pool, flag: nat, flag': nat)
    requires Entries(found, t', t, root, pool, flag)
    requires flag != flag' ==> Need(t, root) == 0
    ensures Entries(found, t', t, root, pool, flag')
  {
    if found && flag != flag' {
      forall k: nat | FirstUnmapped(t, root, k)
        ensures TablesMade(t', t, root, PagePath(k), pool, flag')
      {
        NeedIs(t, root, k);
      }
    }
  }

  /** Mapping the lowest page when no table is missing. */
  lemma LeafEntries(t': Tables, t: Tables, root: nat, k: nat, pool: Pool, flag: nat)
    requires FirstUnmapped(t, root, k) && Need(t, root) == 0
    requires Kept(t', t, root) && Flags(t', root, PagePath(k)) == 1
    ensures Entries(true, t', t, root, pool, flag)
  {
    forall j: nat | FirstUnmapped(t, root, j)
      ensures Flags(t', root, PagePath(j)) == 1 && TablesMade(t', t, root, PagePath(j), pool, flag)
    {
      FirstUnique(t, root, j, k);
      NeedIs(t, root, j);
    }
  }

  /** The table at `q`, below `p`, was made first: what the rest of the search leaves, the whole one does. */
  lemma LinkedEntries(found: bool, t2: Tables, t1: Tables, t: Tables, root: nat, k: nat, p: Path, q: Path, pool1: Pool,
                      pool: Pool, flag: nat)
    requires FirstMissing(t, root, q, k) && |q| == |p| + 1 && p <= q && Walk(t, root, p).Some?
    requires Kept(t1, t, root) && SamePages(t1, t, root) && Need(t, root) == Need(t1, root) + 1
    requires Taken(pool, 1, pool1) && MadeFrom(t1, t, root, q, pool[0], flag)
    requires Entries(found, t2, t1, root, pool1, flag)
    ensures Entries(found, t2, t, root, pool, flag)
  {
    KeptTwice(t2, t1, t, root);
    SameFull(t1, t, root, k);
    if found {
      var path := PagePath(k);
      assert Flags(t2, root, path) == 1;
      NeedIs(t, root, k);
      NeedIs(t1, root, k);
      assert TablesMade(t2, t1, root, path, pool1, flag);
      assert Flags(t2, root, q) == Flags(t1, root, q);
      LinkedTables(t2, t1, t, root, path, p, q, pool1, pool, flag);
      forall j: nat | FirstUnmapped(t, root, j)
        ensures j == k
      {
        FirstUnique(t, root, j, k);
      }
    }
  }

  lemma LinkedTables(t2: Tables, t1: Tables, t: Tables, root: nat, path: Path, p: Path, q: Path, pool1: Pool,
                     pool: Pool,
                     flag: nat)
    requires |path| == 4 && |q| == |p| + 1 <= 3 && p <= q <= path && Walk(t, root, p).Some? && Walk(t, root, q).None?
    requires SamePages(t1, t, root) && Missing(t, root, path) == Missing(t1, root, path) + 1
    requires Taken(pool, 1, pool1) && MadeFrom(t2, t, root, q, pool[0], flag)
    requires TablesMade(t2, t1, root, path, pool1, flag)
    ensures TablesMade(t2, t, root, path, pool, flag)
  {
    assert p == path[..|p|] && q == path[..|q|];
    AllOrNothing(t, root, path);
    var m := Missing(t, root, path);
    assert m == 3 - |p|;
    assert forall j | 0 <= j < |pool1| :: pool1[j] == pool[j + 1];
  }

  /** The table at `q`, below `p`, was made at the head of a loop, for the first index of the loop. */
  ghost predicate HeadMade(t1: Tables, t: Tables, root: nat, k: nat, p: Path, q: Path, pool: Pool, pool1: Pool) {
    && AtHead(t, root, k, p, q) && Kept(t1, t, root) && SamePages(t1, t, root)
    && Need(t, root) == Need(t1, root) + 1 && Taken(pool, 1, pool1) && MadeFrom(t1, t, root, q, pool[0], 0x1)
  }

  ghost predicate AtHead(t: Tables, root: nat, k: nat, p: Path, q: Path) {
    && FirstMissing(t, root, q, k) && FirstOf(q, k) && |q| == |p| + 1 && p <= q && Walk(t, root, p).Some?
    && q[|p|] == if p == [] then 1 else 0
  }

  lemma HeadEntries(found: bool, t2: Tables, t1: Tables, t: Tables, root: nat, k: nat, p: Path, q: Path, pool1: Pool,
                    pool: Pool)
    requires HeadMade(t1, t, root, k, p, q, pool, pool1)
    requires Entries(found, t2, t1, root, pool1, LowestFlag(t1, root))
    ensures Entries(found, t2, t, root, pool, LowestFlag(t, root))
  {
    FirstFlag(t, root, k, p, q);
    SameFull(t1, t, root, k);
    NeedIs(t, root, k);
    NeedIs(t1, root, k);
    FlagIs(t1, root, k);
    assert q == PagePath(k)[..|q|];
    assert LowestFlag(t1, root) == 0x1 || Need(t1, root) == 0 by {
      MissingFromPrefix(t, root, PagePath(k), p, q);
    }
    AnyFlag(found, t2, t1, root, pool1, LowestFlag(t1, root), 0x1);
    LinkedEntries(found, t2, t1, t, root, k, p, q, pool1, pool, 0x1);
  }

  /** The same where the table may have been there already. */
  lemma TableEntries(found: bool, t2: Tables, t1: Tables, t: Tables, root: nat, k: nat, p: Path, q: Path, pool1: Pool,
                     pool: Pool, there: bool)
    requires there ==> t1 == t && pool1 == pool
    requires !there ==> HeadMade(t1, t, root, k, p, q, pool, pool1)
    requires Entries(found, t2, t1, root, pool1, LowestFlag(t1, root))
    ensures Entries(found, t2, t, root, pool, LowestFlag(t, root))
  {
    if !there {
      HeadEntries(found, t2, t1, t, root, k, p, q, pool1, pool);
    }
  }

  lemma MissingFromPrefix(t: Tables, root: nat, path: Path, p: Path, q: Path)
    requires |path| == 4 && |q| == |p| + 1 <= 3 && p <= q <= path && Walk(t, root, p).Some? && Walk(t, root, q).None?
    ensures Missing(t, root, path) == 3 - |p| && path[|p|] == q[|p|]
  {
    assert p == path[..|p|] && q == path[..|q|];
    AllOrNothing(t, root, path);
  }

  lemma FirstFlag(t: Tables, root: nat, k: nat, p: Path, q: Path)
    requires FirstMissing(t, root, q, k) && |q| == |p| + 1 && p <= q && Walk(t, root, p).Some?
    ensures LowestFlag(t, root) == if q[|p|] == (if p == [] then 1 else 0) then 0x1 else 0x23
  {
    FlagIs(t, root, k);
    assert q <= PagePath(k);
    MissingFromPrefix(t, root, PagePath(k), p, q);
  }
}
