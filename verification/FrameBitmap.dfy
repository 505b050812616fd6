/** The bitmap of physical frames (page.c): a linked list of tables of 511 words. */
module FrameBitmap {
  import opened Bits

  /** Words by page number and position; word 511 of a table points to the next one. */
  type Memory = map<(nat, nat), nat>

  ghost predicate TableOk(mem: Memory, chain: seq<nat>, k: nat)
    requires k < |chain|
  {
    && (forall o | 0 <= o < 511 :: (chain[k], o) in mem && mem[(chain[k], o)] <= ALL_ONES)
    && (chain[k], 511) in mem
    && mem[(chain[k], 511)] == if k + 1 < |chain| then 4096 * chain[k + 1] else 0
  }

  ghost predicate ChainOk(mem: Memory, chain: seq<nat>) {
    && chain != []
    && (forall k | 0 <= k < |chain| :: TableOk(mem, chain, k) && chain[k] > 0)
    && (forall j, k {:trigger DifferentTables(chain, j, k)} | 0 <= j < k < |chain| :: DifferentTables(chain, j, k))
  }

  predicate DifferentTables(chain: seq<nat>, j: nat, k: nat)
    requires j < |chain| && k < |chain|
  {
    chain[j] != chain[k]
  }

  /** Word `n` of the list as a whole; the list goes on with zeros. */
  function WordOf(mem: Memory, chain: seq<nat>, n: nat): nat {
    if n / 511 < |chain| && (chain[n / 511], n % 511) in mem then mem[(chain[n / 511], n % 511)] else 0
  }

  ghost predicate SameWords(mem: Memory, chain: seq<nat>, mem0: Memory, chain0: seq<nat>) {
    forall n :: WordOf(mem, chain, n) == WordOf(mem0, chain0, n)
  }

  lemma SameTransitive(mem: Memory, chain: seq<nat>, mem1: Memory, chain1: seq<nat>, mem2: Memory, chain2: seq<nat>)
    requires SameWords(mem, chain, mem1, chain1) && SameWords(mem1, chain1, mem2, chain2)
    ensures SameWords(mem, chain, mem2, chain2)
  {
    forall n: nat
      ensures WordOf(mem, chain, n) == WordOf(mem2, chain2, n)
    {
      assert WordOf(mem, chain, n) == WordOf(mem1, chain1, n);
    }
  }

  /** Whether frame `i` is marked as used. */
  function Used(mem: Memory, chain: seq<nat>, i: nat): bool {
    Bit(WordOf(mem, chain, i / 64), i % 64)
  }

  /** Number of trailing zero bits, for a word that is not zero. */
  function Ctz(w: nat): nat
    requires w > 0
  {
    if w % 2 == 1 then 0 else 1 + Ctz(w / 2)
  }

  lemma {:induction false} CtzIs(w: nat, m: nat)
    requires w > 0 && Bit(w, m) && forall k | 0 <= k < m :: !Bit(w, k)
    ensures Ctz(w) == m
  {
    if m > 0 {
      assert !Bit(w, 0);
      forall k | 0 <= k < m - 1
        ensures !Bit(w / 2, k)
      {
        assert !Bit(w, k + 1);
      }
      BitOfZero(m - 1);
      CtzIs(w / 2, m - 1);
    }
  }

  /** A word that is not all ones has a clear bit. */
  lemma ClearBit(w: nat)
    requires w < ALL_ONES
    ensures exists k :: 0 <= k < 64 && !Bit(w, k)
  {
    if forall k | 0 <= k < 64 :: Bit(w, k) {
      Pow2Of64();
      MoreBits(w, ALL_ONES, 64);
    }
  }

  lemma SetBit(w: nat, b: nat, k: nat)
    requires w <= ALL_ONES && b < 64
    ensures Or(w, Shl(1, b)) <= ALL_ONES
    ensures Bit(Or(w, Shl(1, b)), k) <==> Bit(w, k) || k == b
  {
    Pow2Of64();
    assert Shl(1, b) == Run(b, 1);
    RunBound(b, 1, 64);
    OrBound(w, Shl(1, b), 64);
    BitOfOr(w, Shl(1, b), k);
    BitOfRun(b, 1, k);
  }

  lemma ClearOneBit(w: nat, b: nat, k: nat)
    requires w <= ALL_ONES && b < 64
    ensures Shl(1, b) <= ALL_ONES && And(w, Not(Shl(1, b))) <= ALL_ONES
    ensures Bit(And(w, Not(Shl(1, b))), k) <==> Bit(w, k) && k != b
  {
    Pow2Of64();
    assert Shl(1, b) == Run(b, 1);
    RunBound(b, 1, 64);
    AndBound(w, Not(Shl(1, b)), 64);
    BitOfAnd(w, Not(Shl(1, b)), k);
    BitOfRun(b, 1, k);
    if k < 64 {
      BitOfNot(Shl(1, b), k);
    } else {
      BitsBelow(w, 64, k);
    }
  }

  /** The list after a zeroed table was chained behind its last one. */
  function Extended(mem: Memory, last: nat, p: nat): Memory {
    (mem + (map o: nat | o < 512 :: (p, o) := 0))[(last, 511) := 4096 * p]
  }

  lemma ExtendedTables(mem: Memory, chain: seq<nat>, p: nat, mem': Memory, chain': seq<nat>)
    requires ChainOk(mem, chain) && p > 0 && forall o :: (p, o) !in mem
    requires mem' == Extended(mem, chain[|chain| - 1], p) && chain' == chain + [p]
    ensures forall k | 0 <= k < |chain'| :: TableOk(mem', chain', k) && (k < |chain| ==> chain[k] != p)
  {
    forall k | 0 <= k < |chain'|
      ensures TableOk(mem', chain', k) && (k < |chain| ==> chain[k] != p)
    {
      if k < |chain| {
        assert TableOk(mem, chain, k);
        assert k < |chain| - 1 ==> DifferentTables(chain, k, |chain| - 1);
      }
    }
  }

  lemma ExtendedOk(mem: Memory, chain: seq<nat>, p: nat)
    requires ChainOk(mem, chain) && p > 0 && forall o :: (p, o) !in mem
    ensures ChainOk(Extended(mem, chain[|chain| - 1], p), chain + [p])
    ensures forall n :: WordOf(Extended(mem, chain[|chain| - 1], p), chain + [p], n) == WordOf(mem, chain, n)
  {
    var mem', chain' := Extended(mem, chain[|chain| - 1], p), chain + [p];
    ExtendedTables(mem, chain, p, mem', chain');
    forall j, k | 0 <= j < k < |chain'|
      ensures DifferentTables(chain', j, k)
    {
      assert k < |chain| ==> DifferentTables(chain, j, k);
    }
    forall n: nat
      ensures WordOf(mem', chain', n) == WordOf(mem, chain, n)
    {
      if n / 511 < |chain| {
        assert TableOk(mem, chain, n / 511);
      }
    }
  }

  class FrameMap {
    var mem: Memory
    var start: nat            // PL_MAP_START, as a page number
    var nextPage: nat            // pages from here on are unused: KPALLOC yields the next one, zeroed
    ghost var chain: seq<nat>

    ghost predicate Valid()
      reads this
    {
      && ChainOk(mem, chain) && start == chain[0] && nextPage > 0
      && forall p, o | (p, o) in mem :: p < nextPage
    }

    /** Frame `i` is marked as used. */
    ghost predicate InUse(i: nat)
      reads this
    {
      Used(mem, chain, i)
    }

    constructor (start: nat)
      requires start > 0
      ensures Valid() && forall i :: !InUse(i)
    {
      mem := map o: nat | o < 512 :: (start, o) := 0;
      this.start := start;
      nextPage := start + 1;
      chain := [start];
      new;
      forall i: nat
        ensures !InUse(i)
      {
        BitOfZero(i % 64);
      }
    }

    method NextTable(page: nat, ghost k: nat) returns (next: nat)
      requires Valid() && k < |chain| && page == chain[k]
      modifies this
      ensures Valid() && start == old(start) && k + 1 < |chain| && next == chain[k + 1] && old(chain) <= chain
      ensures SameWords(mem, chain, old(mem), old(chain))
      ensures old(k + 1 < |chain|) ==> chain == old(chain) && mem == old(mem)
    {
      assert TableOk(mem, chain, k);
      if mem[(page, 511)] == 0 {
        ExtendedOk(mem, chain, nextPage);
        mem := Extended(mem, page, nextPage);
        chain := chain + [nextPage];
        nextPage := nextPage + 1;
        assert TableOk(mem, chain, k);
      }
      next := mem[(page, 511)] / 4096;
    }

    /**
     * `LL_NV`: the place of the `index`-th word from the table `page` on, growing the list up to it: the word
     * `index % 511` of the table `index / 511` links further on.
     */
    method Locate(index: nat, page: nat, ghost k: nat, ghost table: nat, ghost rest: nat) returns (p: nat, o: nat)
      requires Valid() && k <= table && k < |chain| && page == chain[k]
      requires rest < 511 && index == 511 * (table - k) + rest
      modifies this
      ensures Valid() && start == old(start) && old(chain) <= chain
      ensures table < |chain| && p == chain[table] && o == rest
      ensures SameWords(mem, chain, old(mem), old(chain))
      decreases index
    {
      if index > 510 {
        var next := NextTable(page, k);
        ghost var mem1, chain1 := mem, chain;
        p, o := Locate(index - 511, next, k + 1, table, rest);
        SameTransitive(mem, chain, mem1, chain1, old(mem), old(chain));
      } else {
        assert table == k;
        p, o := page, index;
      }
    }

    /** `PL_SV`: mark frame `index` as used or free; no other frame changes. */
    method SetFrame(index: nat, val: bool)
      requires Valid()
      modifies this
      ensures Valid()
      ensures forall i: nat :: InUse(i) <==> if i == index then val else old(InUse(i))
    {
      var p, o := Locate(index / 64, start, 0, index / 64 / 511, index / 64 % 511);
      ghost var mem0 := mem;
      SameUsed(mem, chain, old(mem), old(chain));
      assert TableOk(mem, chain, index / 64 / 511);
      var w := mem[(p, o)];
      SetBit(w, index % 64, 0);
      ClearOneBit(w, index % 64, 0);
      var w' := if val then Or(w, Shl(1, index % 64)) else And(w, Not(Shl(1, index % 64)));
      mem := mem[(p, o) := w'];
      WordStored(mem0, chain, index / 64, w');
      forall i: nat
        ensures InUse(i) <==> if i == index then val else Used(mem0, chain, i)
      {
        SetBit(w, index % 64, i % 64);
        ClearOneBit(w, index % 64, i % 64);
      }
    }

    /** `PL_FN`: the least frame that is not in use. */
    method FirstFree() returns (r: nat)
      requires Valid()
      modifies this
      ensures Valid() && !InUse(r) && forall i: nat | i < r :: InUse(i)
      ensures forall i: nat :: InUse(i) <==> old(InUse(i))
    {
      var i, pt := 0, start;
      ghost var k := 0;
      while true
        invariant Valid() && k < |chain| && pt == chain[k] && i == 64 * (511 * k)
        invariant SameWords(mem, chain, old(mem), old(chain))
        invariant FullBelow(mem, chain, 511 * k)
        decreases |old(chain)| + 1 - k
      {
        var found;
        found, r, i := ScanTable(pt, i, k, 511 * k);
        if found {
          SameUsed(mem, chain, old(mem), old(chain));
          return;
        }
        BeyondOld(old(mem), old(chain), k);
        ghost var mem1, chain1 := mem, chain;
        pt := NextTable(pt, k);
        SameTransitive(mem, chain, mem1, chain1, old(mem), old(chain));
        k := k + 1;
      }
    }

    /** One table of the scan; `i` is the number of the first frame of the table. */
    method ScanTable(pt: nat, i0: nat, ghost k: nat, ghost base: nat) returns (found: bool, r: nat, i: nat)
      requires Valid() && k < |chain| && pt == chain[k] && base == 511 * k && i0 == 64 * base
      requires FullBelow(mem, chain, base)
      ensures found ==> !InUse(r) && forall j: nat | j < r :: InUse(j)
      ensures !found ==> i == 64 * (base + 511) && FullBelow(mem, chain, base + 511)
    {
      i := i0;
      assert TableOk(mem, chain, k);
      ghost var n := base;
      for j := 0 to 511
        invariant n == base + j && i == 64 * n && FullBelow(mem, chain, n)
      {
        WordInTable(mem, chain, k, j, n);
        var w := mem[(pt, j)];
        if w != ALL_ONES {
          var m := LowestClear(w);
          r := i + m;
          LeastFreeHere(mem, chain, n, m, w, r);
          return true, r, i;
        }
        OneMoreFull(mem, chain, n);
        n := n + 1;
        i := i + 64;
      }
      found, r := false, 0;
    }
  }

  /** The first `n` words are all ones. */
  ghost predicate FullBelow(mem: Memory, chain: seq<nat>, n: nat) {
    forall j: nat | j < n :: WordOf(mem, chain, j) == ALL_ONES
  }

  lemma OneMoreFull(mem: Memory, chain: seq<nat>, n: nat)
    requires FullBelow(mem, chain, n) && WordOf(mem, chain, n) == ALL_ONES
    ensures FullBelow(mem, chain, n + 1)
  {
  }

  lemma WordInTable(mem: Memory, chain: seq<nat>, k: nat, j: nat, n: nat)
    requires ChainOk(mem, chain) && k < |chain| && j < 511 && n == 511 * k + j
    ensures (chain[k], j) in mem && WordOf(mem, chain, n) == mem[(chain[k], j)] <= ALL_ONES
  {
    assert TableOk(mem, chain, k);
    assert n / 511 == k && n % 511 == j;
  }

  lemma SameUsed(mem: Memory, chain: seq<nat>, mem0: Memory, chain0: seq<nat>)
    requires SameWords(mem, chain, mem0, chain0)
    ensures forall i: nat :: Used(mem, chain, i) <==> Used(mem0, chain0, i)
  {
  }

  method LowestClear(w: nat) returns (m: nat)
    requires w < ALL_ONES
    ensures m < 64 && !Bit(w, m) && forall k | 0 <= k < m :: Bit(w, k)
    ensures Not(w) > 0 && m == Ctz(Not(w))
  {
    ClearBit(w);
    ghost var c :| 0 <= c < 64 && !Bit(w, c);
    m := 0;
    while And(w, Shl(1, m)) != 0
      invariant m <= c && forall k | 0 <= k < m :: Bit(w, k)
      decreases c - m
    {
      OneBitTest(w, m);
      m := m + 1;
    }
    OneBitTest(w, m);
    forall k | 0 <= k <= m
      ensures Bit(Not(w), k) == !Bit(w, k)
    {
      BitOfNot(w, k);
    }
    CtzIs(Not(w), m);
  }

  lemma OneBitTest(w: nat, m: nat)
    ensures And(w, Shl(1, m)) != 0 <==> Bit(w, m)
  {
    assert Shl(1, m) == Run(m, 1);
    RunBound(m, 1, m + 1);
    AndZero(w, Shl(1, m), m + 1);
    forall k | 0 <= k < m + 1
      ensures Bit(Shl(1, m), k) <==> k == m
    {
      BitOfRun(m, 1, k);
    }
  }

  lemma WordStored(mem: Memory, chain: seq<nat>, n: nat, w: nat)
    requires ChainOk(mem, chain) && n / 511 < |chain| && w <= ALL_ONES
    ensures var mem' := mem[(chain[n / 511], n % 511) := w];
            ChainOk(mem', chain) && forall m :: WordOf(mem', chain, m) == if m == n then w else WordOf(mem, chain, m)
  {
    var mem' := mem[(chain[n / 511], n % 511) := w];
    forall k | 0 <= k < |chain|
      ensures TableOk(mem', chain, k) && (k != n / 511 ==> chain[k] != chain[n / 511])
    {
      assert TableOk(mem, chain, k);
      assert k < n / 511 ==> DifferentTables(chain, k, n / 511);
      assert k > n / 511 ==> DifferentTables(chain, n / 511, k);
    }
    forall m: nat
      ensures WordOf(mem', chain, m) == if m == n then w else WordOf(mem, chain, m)
    {
      if m != n && m / 511 < |chain| {
        assert m / 511 != n / 511 || m % 511 != n % 511;
      }
    }
  }

  lemma LeastFree(mem: Memory, chain: seq<nat>, n: nat, m: nat)
    requires m < 64 && !Bit(WordOf(mem, chain, n), m) && forall k | 0 <= k < m :: Bit(WordOf(mem, chain, n), k)
    requires FullBelow(mem, chain, n)
    ensures !Used(mem, chain, 64 * n + m) && forall i: nat | i < 64 * n + m :: Used(mem, chain, i)
  {
    Pow2Of64();
    forall i: nat | i < 64 * n + m
      ensures Used(mem, chain, i)
    {
      if i / 64 < n {
        BitOfOnes(64, i % 64);
      }
    }
  }

  lemma LeastFreeHere(mem: Memory, chain: seq<nat>, n: nat, m: nat, w: nat, r: nat)
    requires w == WordOf(mem, chain, n) && r == 64 * n + m && FullBelow(mem, chain, n)
    requires m < 64 && !Bit(w, m) && forall k | 0 <= k < m :: Bit(w, k)
    ensures !Used(mem, chain, r) && forall i: nat | i < r :: Used(mem, chain, i)
  {
    LeastFree(mem, chain, n, m);
  }

  /** Past the end of the list the words are zero, so the scan stops there at the latest. */
  lemma BeyondOld(mem: Memory, chain: seq<nat>, k: nat)
    requires WordOf(mem, chain, 511 * k) == ALL_ONES
    ensures k < |chain|
  {
    assert 511 * k / 511 == k;
  }
}
