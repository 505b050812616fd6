/** The kernel's bitmap allocator (malloc.c). */
module KMalloc {
  import opened Options
  import opened Bits
  import opened KMallocHeap

  datatype Error = SIZE0 | SIZEMAX | SIZEMISMATCH | OVERALLOC | INVALID_PTR | INVALID_PTR2 | DOUBLE_FREE | BADMETADATA

  datatype Result<T> = Ok(value: T) | Fault(error: Error)

  /** Units of a request: the bytes in whole units, and one for the header. */
  function Units(size: nat): nat {
    Rounded(size) / 64 + 1
  }

  function Rounded(size: nat): (r: nat)
    ensures r >= size && r % 64 == 0 && r < size + 64
  {
    if size % 64 != 0 then size + (64 - size % 64) else size
  }

  ghost predicate RunAt(w: nat, s: nat, size: nat) {
    s + size <= 64 && forall u | s <= u < s + size :: Bit(w, u)
  }

  /** The bit scan: the lowest run of `size` set bits, exactly when there is one. */
  method Scan(w: nat, size: nat) returns (start: Option<nat>)
    requires 0 < size <= 64
    ensures start.Some? ==> RunAt(w, start.value, size) && forall s | 0 <= s < start.value :: !RunAt(w, s, size)
    ensures start.None? ==> forall s :: !RunAt(w, s, size)
  {
    var m := 0;
    for j := 0 to 64
      invariant m <= j && m < size
      invariant forall u | j - m <= u < j :: Bit(w, u)
      invariant j - m == 0 || !Bit(w, j - m - 1)
      invariant forall s: nat | s + size <= j :: !RunAt(w, s, size)
    {
      if Bit(w, j) {
        m := m + 1;
        if m == size {
          return Some(j + 1 - size);
        }
        forall s: nat | s + size == j + 1
          ensures !RunAt(w, s, size)
        {
          assert s <= j - m < s + size;
        }
      } else {
        m := 0;
      }
    }
    return None;
  }

  lemma {:induction false} ShiftGrows(a: nat, n: nat)
    ensures Shl(a, n) >= a
  {
    if n > 0 { ShiftGrows(a, n - 1); }
  }

  /** The `>= sizebitmask` test in front of the scan never rejects a word that has a run. */
  lemma PrefilterSound(w: nat, s: nat, size: nat)
    requires RunAt(w, s, size)
    ensures w >= Pow2(size) - 1
  {
    forall k | 0 <= k < 64
      ensures Bit(Run(s, size), k) ==> Bit(w, k)
    {
      BitOfRun(s, size, k);
    }
    RunBound(s, size, 64);
    MoreBits(w, Run(s, size), 64);
    ShiftGrows(Pow2(size) - 1, s);
  }

  /** The pointer of a successful scan, behind its two consistency checks. */
  function Checked(w: nat, page: nat, start: nat, size: nat): Result<nat>
    requires w <= ALL_ONES
  {
    if And(Not(w), Run(start, size)) != 0 then Fault(SIZEMISMATCH)
    else if PtrAt(page, start) + size * 8 - 64 > 4096 * page + 0x1000 then Fault(OVERALLOC)
    else Ok(PtrAt(page, start))
  }

  /** The checks never fire. */
  lemma ChecksPass(w: nat, page: nat, start: nat, size: nat)
    requires w <= ALL_ONES && RunAt(w, start, size)
    ensures Checked(w, page, start, size) == Ok(PtrAt(page, start))
  {
    RunBound(start, size, 64);
    AndZero(Not(w), Run(start, size), 64);
    forall k | 0 <= k < 64
      ensures !(Bit(Not(w), k) && Bit(Run(start, size), k))
    {
      BitOfNot(w, k);
      BitOfRun(start, size, k);
    }
  }

  // What the search visits: all tables but the last of a chain, or the only one.

  function Visited(tables: seq<nat>): (v: seq<nat>)
    requires tables != []
    ensures |v| > 0 && v <= tables
  {
    if |tables| == 1 then tables else tables[..|tables| - 1]
  }

  ghost predicate RunIn(h: Heap, t: nat, i: nat, size: nat)
    requires Pages(h.mem) && HasPage(h.mem, t) && i < 255
  {
    PageWord(h.mem, t, i) != 0 && exists s :: RunAt(Bitmap(h.mem, t, i), s, size)
  }

  ghost predicate Before(k: nat, i: nat, k': nat, i': nat) {
    k < k' || (k == k' && i < i')
  }

  /** No slot before slot `i` of the `k`-th table has a run. */
  ghost predicate NoRunBefore(h: Heap, size: nat, k: nat, i: nat)
    requires Pages(h.mem) && Chain(h)
  {
    forall k', i' | 0 <= k' < |h.tables| && 0 <= i' < 255 && Before(k', i', k, i) :: !RunIn(h, h.tables[k'], i', size)
  }

  /** No slot before slot `i` of the `k`-th table is unused. */
  ghost predicate NoUnusedBefore(h: Heap, k: nat, i: nat)
    requires Pages(h.mem) && Chain(h)
  {
    forall k', i' | 0 <= k' < |h.tables| && 0 <= i' < 255 && Before(k', i', k, i) ::
      PageWord(h.mem, h.tables[k'], i') != 0
  }

  /** `b` is the lowest run in the first visited slot that has one. */
  ghost predicate FirstFit(h: Heap, b: Block)
    requires Pages(h.mem) && Chain(h)
  {
    exists k | 0 <= k < |Visited(h.tables)| ::
      && h.tables[k] == b.table && b.slot < 255 && PageWord(h.mem, b.table, b.slot) == 4096 * b.page != 0
      && RunAt(Bitmap(h.mem, b.table, b.slot), b.start, b.size)
      && (forall s | 0 <= s < b.start :: !RunAt(Bitmap(h.mem, b.table, b.slot), s, b.size))
      && NoRunBefore(h, b.size, k, b.slot)
  }

  /** The first unused slot among the visited ones. */
  ghost predicate FirstUnused(h: Heap, t: nat, i: nat)
    requires Pages(h.mem) && Chain(h)
  {
    exists k | 0 <= k < |Visited(h.tables)| ::
      h.tables[k] == t && i < 255 && PageWord(h.mem, t, i) == 0 && NoUnusedBefore(h, k, i)
  }

  /** The heap after a fresh page went into slot `i` of table `t` and a block of `size` units was taken from it. */
  function TakeFresh(h: Heap, t: nat, i: nat, page: nat, size: nat): Heap {
    var h' := PointSlot(AddPage(h, page), t, i, page);
    assert (t, 2 * i) in h'.mem;
    Take(h', Block(t, i, page, 0, size))
  }

  /** The outcome of the search, over all visited slots. */
  ghost predicate Allocated(h: Heap, h': Heap, b: Block, page: nat, table: nat)
    requires Pages(h.mem) && Chain(h)
  {
    var n := |Visited(h.tables)|;
    if !NoRunBefore(h, b.size, n, 0) then FirstFit(h, b) && h' == Take(h, b)
    else if !NoUnusedBefore(h, n, 0) then
      FirstUnused(h, b.table, b.slot) && b.page == page && b.start == 0
      && h' == TakeFresh(h, b.table, b.slot, page, b.size)
    else
      b.table == table && b.slot == 0 && b.page == page && b.start == 0
      && h' == TakeFresh(LinkTable(AddPage(h, table), table), table, 0, page, b.size)
  }

  lemma NextSlotDone(h: Heap, size: nat, k: nat, i: nat)
    requires Pages(h.mem) && Chain(h) && k < |h.tables| && i < 255
    requires NoRunBefore(h, size, k, i) && !RunIn(h, h.tables[k], i, size)
    ensures NoRunBefore(h, size, k, i + 1)
  {
  }

  lemma NextTableStart(h: Heap, size: nat, k: nat)
    requires Pages(h.mem) && Chain(h) && NoRunBefore(h, size, k, 255)
    ensures NoRunBefore(h, size, k + 1, 0)
  {
  }

  lemma NextUnusedDone(h: Heap, k: nat, i: nat)
    requires Pages(h.mem) && Chain(h) && k < |h.tables| && i < 255
    requires NoUnusedBefore(h, k, i) && PageWord(h.mem, h.tables[k], i) != 0
    ensures NoUnusedBefore(h, k, i + 1)
  {
  }

  lemma NextUnusedTable(h: Heap, k: nat)
    requires Pages(h.mem) && Chain(h) && NoUnusedBefore(h, k, 255)
    ensures NoUnusedBefore(h, k + 1, 0)
  {
  }

  /** What the search has seen of unused slots before slot `i` of table `k`. */
  ghost predicate SeenUnused(h: Heap, na: Option<(nat, nat)>, k: nat, i: nat)
    requires Pages(h.mem) && Chain(h)
  {
    match na
    case None => NoUnusedBefore(h, k, i)
    case Some(slot) => FirstUnused(h, slot.0, slot.1) && !NoUnusedBefore(h, k, i)
  }

  lemma StillUnused(h: Heap, k: nat, i: nat, k': nat, i': nat)
    requires Pages(h.mem) && Chain(h) && !NoUnusedBefore(h, k, i) && ((k == k' && i <= i') || k < k')
    ensures !NoUnusedBefore(h, k', i')
  {
  }

  function Initial(page: nat): Heap {
    Heap(WithPage(map[], page), [page], map[], map[], {})
  }

  lemma InitialValid(page: nat)
    requires 0 < page < MAX_PAGE
    ensures Valid(Initial(page))
  {
    AddPageMemory(map[], page);
  }

  class Allocator {
    var mem: Memory
    var ml1: nat      // address of the first table
    ghost var h: Heap

    ghost predicate Valid()
      reads this
    {
      h.mem == mem && KMallocHeap.Valid(h) && ml1 == 4096 * h.tables[0]
    }

    /** One table: the first slot with a run, or the first unused slot seen so far. */
    method SearchTable(mcp: nat, size: nat, na0: Option<(nat, nat)>, ghost k: nat)
      returns (hit: Option<(nat, nat)>, na: Option<(nat, nat)>)
      requires Valid() && 2 <= size < 64
      requires k < |Visited(h.tables)| && mcp == h.tables[k]
      requires NoRunBefore(h, size, k, 0) && SeenUnused(h, na0, k, 0)
      ensures hit.Some? ==>
                var (i, s) := hit.value;
                i < 255 && PageWord(mem, mcp, i) != 0
                && FirstFit(h, Block(mcp, i, PageWord(mem, mcp, i) / 4096, s, size))
      ensures hit.None? ==> NoRunBefore(h, size, k + 1, 0) && SeenUnused(h, na, k + 1, 0)
    {
      na := na0;
      for i := 0 to 255
        invariant NoRunBefore(h, size, k, i) && SeenUnused(h, na, k, i)
      {
        assert SlotOk(h, mcp, i);
        if mem[(mcp, 2 * i + 1)] == 0 {
          if na.None? {
            na := Some((mcp, i));
            FoundUnused(h, k, i);
          } else {
            StillUnused(h, k, i, k, i + 1);
          }
        } else {
          if na.None? {
            NextUnusedDone(h, k, i);
          } else {
            StillUnused(h, k, i, k, i + 1);
          }
          var bits := mem[(mcp, 2 * i)];
          var start: Option<nat> := None;
          if bits >= Pow2(size) - 1 {
            start := Scan(bits, size);
          } else {
            NoRunInSmall(bits, size);
          }
          if start.Some? {
            assert FirstFit(h, Block(mcp, i, PageWord(mem, mcp, i) / 4096, start.value, size));
            return Some((i, start.value)), na;
          }
        }
        NextSlotDone(h, size, k, i);
      }
      hit := None;
      NextTableStart(h, size, k);
      if na.None? {
        NextUnusedTable(h, k);
      } else {
        StillUnused(h, k, 255, k + 1, 0);
      }
    }

    /** `initMalloc`, with the page that `KPALLOC` yields. */
    constructor (page: nat)
      requires 0 < page < MAX_PAGE
      ensures Valid() && h == Initial(page)
    {
      mem := WithPage(map[], page);
      ml1 := 4096 * page;
      h := Initial(page);
      new;
      InitialValid(page);
    }

    /** The tables the search goes through, up to the first slot with a run. */
    method Search(size: nat) returns (hit: Option<(nat, nat, nat)>, na: Option<(nat, nat)>, mcp: nat)
      requires Valid() && 2 <= size < 64
      ensures hit.Some? ==>
                var (t, i, s) := hit.value;
                (t, 2 * i + 1) in mem && FirstFit(h, Block(t, i, PageWord(mem, t, i) / 4096, s, size))
      ensures hit.None? ==>
                && NoRunBefore(h, size, |Visited(h.tables)|, 0) && SeenUnused(h, na, |Visited(h.tables)|, 0)
                && mcp == h.tables[|h.tables| - 1]
    {
      mcp := ml1 / 4096;
      na := None;
      ghost var k := 0;
      while true
        invariant k < |Visited(h.tables)| && mcp == h.tables[k]
        invariant NoRunBefore(h, size, k, 0) && SeenUnused(h, na, k, 0)
        decreases |h.tables| - k
      {
        var found;
        found, na := SearchTable(mcp, size, na, k);
        if found.Some? {
          return Some((mcp, found.value.0, found.value.1)), na, mcp;
        }
        assert Linked(mem, h.tables, k);
        if mem[(mcp, 511)] != 0 {
          mcp := mem[(mcp, 511)] / 4096;
          k := k + 1;
        }
        assert Linked(mem, h.tables, k);
        if mem[(mcp, 511)] == 0 {
          hit := None;
          return;
        }
      }
    }

    /** Take a block from a slot the search found. */
    method TakeFound(t: nat, i: nat, s: nat, size: nat) returns (r: Result<nat>)
      requires Valid() && 2 <= size < 64
      requires (t, 2 * i + 1) in mem && FirstFit(h, Block(t, i, PageWord(mem, t, i) / 4096, s, size))
      modifies this
      ensures ml1 == old(ml1) && h.mem == mem
      ensures var b := Block(t, i, old(PageWord(mem, t, i)) / 4096, s, size);
              FirstFit(old(h), b) && h == Take(old(h), b) && r == Ok(b.Ptr())
    {
      var bits, page := mem[(t, 2 * i)], mem[(t, 2 * i + 1)] / 4096;
      var b := Block(t, i, page, s, size);
      ChecksPass(bits, page, s, size);
      h := Take(h, b);
      mem := mem[(t, 2 * i) := Xor(bits, Run(s, size))];
      mem := Header(mem, b);
      r := Checked(bits, page, s, size);
    }

    /** Take a block from a fresh page for an unused slot. */
    method TakeFreshPage(t: nat, i: nat, page: nat, size: nat) returns (ptr: nat)
      requires Valid() && t in h.tables && i < 255 && PageWord(mem, t, i) == 0 && Fresh(h, page) && 2 <= size < 64
      modifies this
      ensures ml1 == old(ml1) && h.mem == mem
      ensures h == TakeFresh(old(h), t, i, page, size) && ptr == PtrAt(page, 0)
    {
      FreshMemory(h, t, i, page, size);
      h := TakeFresh(h, t, i, page, size);
      mem := WithPage(mem, page);
      mem := mem[(t, 2 * i) := Xor(ALL_ONES, Pow2(size) - 1)];
      mem := mem[(t, 2 * i + 1) := 4096 * page];
      mem := Header(mem, Block(t, i, page, 0, size));
      return 4096 * page + 64;
    }

    /** Chain a fresh table behind the last one, and take a block from a fresh page for its first slot. */
    method TakeNewTable(mcp: nat, table: nat, page: nat, size: nat) returns (ptr: nat)
      requires Valid() && mcp == h.tables[|h.tables| - 1] && 2 <= size < 64
      requires Fresh(h, table) && Fresh(h, page) && page != table
      modifies this
      ensures ml1 == old(ml1) && h.mem == mem
      ensures h == TakeFresh(LinkTable(AddPage(old(h), table), table), table, 0, page, size) && ptr == PtrAt(page, 0)
    {
      AddPageValid(h, table);
      LinkTableValid(AddPage(h, table), table);
      h := LinkTable(AddPage(h, table), table);
      mem := WithPage(mem, table)[(mcp, 511) := 4096 * table];
      ptr := TakeFreshPage(table, 0, page, size);
    }

    /** Allocate that many units. */
    method Allocate(units: nat, page: nat, table: nat) returns (r: Result<nat>)
      requires Valid() && Fresh(h, page) && Fresh(h, table) && page != table && 2 <= units < 64
      modifies this
      ensures ml1 == old(ml1) && h.mem == mem
      ensures r.Ok? && Outcome(old(h), h, r.value, units, page, table)
    {
      var hit, na, mcp := Search(units);
      ghost var h0 := h;
      if hit.Some? {
        var (t, i, s) := hit.value;
        ghost var b := Block(t, i, PageWord(mem, t, i) / 4096, s, units);
        FirstFitFound(h, b);
        r := TakeFound(t, i, s, units);
        OutcomeOf(h0, h, b, page, table);
      } else if na.Some? {
        var ptr := TakeFreshPage(na.value.0, na.value.1, page, units);
        r := Ok(ptr);
        OutcomeOf(h0, h, Block(na.value.0, na.value.1, page, 0, units), page, table);
      } else {
        var ptr := TakeNewTable(mcp, table, page, units);
        r := Ok(ptr);
        OutcomeOf(h0, h, Block(table, 0, page, 0, units), page, table);
      }
    }

    /**
     * Allocate. `page` and `table` are the fresh pages that `KPALLOC` would yield. The block is the lowest run of
     * the first visited slot that has one; without one, the start of a fresh page for the first unused slot;
     * without that too, the start of a fresh page in a fresh table.
     */
    method Malloc(size: nat, page: nat, table: nat) returns (r: Result<nat>)
      requires Valid() && Fresh(h, page) && Fresh(h, table) && page != table
      modifies this
      ensures Valid()
      ensures size == 0 ==> r == Fault(SIZE0) && h == old(h)
      ensures size > 62 * 64 ==> r == Fault(SIZEMAX) && h == old(h)
      ensures 0 < size <= 62 * 64 ==>
                && r.Ok? && Outcome(old(h), h, r.value, Units(size), page, table)
                && var b := h.live[r.value];
                   64 * (b.size - 2) < size <= 64 * (b.size - 1) && r.value == 4096 * b.page + 64 * (b.start + 1)
    {
      if size == 0 {
        return Fault(SIZE0);
      }
      if Rounded(size) >= 4096 - 64 {
        return Fault(SIZEMAX);
      }
      r := Allocate(Units(size), page, table);
      OutcomeValid(old(h), h, r.value, Units(size), page, table);
    }

    /** `free`, given NULL, a live pointer, or one that was freed and whose header unit has not been reissued. */
    method Free(ptr: nat) returns (r: Result<()>)
      requires Valid()
      requires ptr == 0 || ptr in h.live || exists page, u :: (page, u) in h.freed && ptr == PtrAt(page, u)
      modifies this
      ensures Valid()
      ensures ptr in old(h).live ==> ptr != 0 && r == Ok(()) && h == Release(old(h), old(h).live[ptr])
      ensures ptr !in old(h).live ==> r == Fault(if ptr == 0 then INVALID_PTR else DOUBLE_FREE) && h == old(h)
    {
      assert 0 !in h.live by {
        assert 0 in h.live ==> BlockOk(h, h.live[0]);
      }
      if ptr == 0 {
        return Fault(INVALID_PTR);
      }
      var page, w := ptr / 4096, ptr % 4096 / 8;
      FreeReads(h, ptr, page, w);
      var slotWord, j, size := mem[(page, w - 1)], mem[(page, w - 2)], mem[(page, w - 3)];
      if size == 0 {
        return if slotWord == 8 then Fault(INVALID_PTR2) else Fault(DOUBLE_FREE);
      }
      ghost var b := h.live[ptr];
      SlotWordDecodes(b.table, b.slot, slotWord);
      FreeBits(h, b);
      var t: nat, o: nat := slotWord / 4096, slotWord % 4096 / 8 - 1;
      var start: nat := j + 1 - size;
      var shifted := Shl(Pow2(size) - 1, start);
      assert shifted == Run(b.start, b.size);
      ReleaseValid(h, b);
      r := Unmask(ptr, slotWord, t, o, shifted, page, w, b);
    }

    /** The rest of `free`, once the header has been read. */
    method Unmask(ptr: nat, slotWord: nat, t: nat, o: nat, shifted: nat, page: nat, w: nat, ghost b: Block)
      returns (r: Result<()>)
      requires Valid() && Live(h, b) && ptr == b.Ptr() && slotWord == 4096 * b.table + 8 * (2 * b.slot + 1)
      requires t == b.table && o == 2 * b.slot && shifted == Run(b.start, b.size)
      requires page == b.page && w == 8 * (b.start + 1)
      modifies this
      ensures r == Ok(()) && h == Release(old(h), b) && h.mem == mem && ml1 == old(ml1)
    {
      FreeBits(h, b);
      var bits := mem[(t, o)];
      r := if slotWord == 8 then Fault(INVALID_PTR2)
           else if And(bits, shifted) != 0 then Fault(BADMETADATA) else Ok(());
      if r.Ok? {
        h := Release(h, b);
        mem := mem[(t, o) := Xor(bits, shifted)];
        var w1: nat, w2: nat, w3: nat := w - 1, w - 2, w - 3;
        mem := mem[(page, w3) := 0][(page, w2) := 0][(page, w1) := 0];
      }
    }

    /** A client stores a word in the payload of a live block. */
    method Store(ptr: nat, word: nat, v: nat)
      requires Valid() && ptr in h.live && word < 8 * (h.live[ptr].size - 1) && v <= ALL_ONES
      modifies this
      ensures Valid()
      ensures h == ClientWrite(old(h), old(h).live[ptr], 8 * (old(h).live[ptr].start + 1) + word, v)
    {
      ghost var b := h.live[ptr];
      assert BlockOk(h, b);
      PtrDecodes(b.page, b.start, ptr);
      ClientWriteValid(h, b, 8 * (b.start + 1) + word, v);
      h := ClientWrite(h, b, 8 * (b.start + 1) + word, v);
      mem := mem[(ptr / 4096, ptr % 4096 / 8 + word) := v];
    }
  }

  lemma FreshMemory(h: Heap, t: nat, i: nat, page: nat, size: nat)
    requires Valid(h) && t in h.tables && i < 255 && Fresh(h, page)
    ensures var m := WithPage(h.mem, page)[(t, 2 * i) := Xor(ALL_ONES, Pow2(size) - 1)][(t, 2 * i + 1) := 4096 * page];
            TakeFresh(h, t, i, page, size).mem == Header(m, Block(t, i, page, 0, size))
  {
    var h1 := PointSlot(AddPage(h, page), t, i, page);
    assert Bitmap(h1.mem, t, i) == ALL_ONES && Run(0, size) == Pow2(size) - 1;
    assert h1.mem[(t, 2 * i) := Xor(ALL_ONES, Run(0, size))]
        == WithPage(h.mem, page)[(t, 2 * i) := Xor(ALL_ONES, Pow2(size) - 1)][(t, 2 * i + 1) := 4096 * page];
  }

  lemma PtrDecodes(page: nat, u: nat, ptr: nat)
    requires u < 63 && ptr == PtrAt(page, u)
    ensures ptr / 4096 == page && ptr % 4096 / 8 == 8 * (u + 1)
  {
    assert ptr % 4096 == 64 * (u + 1);
  }

  /** What `free` finds in the header in front of a live pointer, or of one that was freed. */
  lemma FreeReads(h: Heap, ptr: nat, page: nat, w: nat)
    requires Valid(h) && page == ptr / 4096 && w == ptr % 4096 / 8
    requires ptr in h.live || exists page, u :: (page, u) in h.freed && ptr == PtrAt(page, u)
    ensures ptr > 0 && w >= 8 && (page, w - 1) in h.mem && (page, w - 2) in h.mem && (page, w - 3) in h.mem
    ensures ptr in h.live ==>
              var b := h.live[ptr];
              && BlockOk(h, b) && page == b.page && w == 8 * (b.start + 1) && Live(h, b)
              && h.mem[(page, w - 1)] == 4096 * b.table + 8 * (2 * b.slot + 1)
              && h.mem[(page, w - 2)] == b.start + b.size - 1 && h.mem[(page, w - 3)] == b.size
    ensures ptr !in h.live ==> h.mem[(page, w - 3)] == 0 && h.mem[(page, w - 1)] == 0
  {
    if ptr in h.live {
      assert BlockOk(h, h.live[ptr]);
      PtrDecodes(h.live[ptr].page, h.live[ptr].start, ptr);
    } else {
      var p, u :| (p, u) in h.freed && ptr == PtrAt(p, u);
      assert FreedOk(h, p, u);
      PtrDecodes(p, u, ptr);
    }
  }

  lemma SlotWordDecodes(table: nat, slot: nat, w: nat)
    requires slot < 255 && w == 4096 * table + 8 * (2 * slot + 1)
    ensures w / 4096 == table && w % 4096 / 8 - 1 == 2 * slot
  {
    assert w % 4096 == 8 * (2 * slot + 1);
  }

  lemma FreeBits(h: Heap, b: Block)
    requires Valid(h) && Live(h, b)
    ensures (b.table, 2 * b.slot) in h.mem && And(Bitmap(h.mem, b.table, b.slot), Run(b.start, b.size)) == 0
  {
    LiveUnits(h, b);
    RunBound(b.start, b.size, 64);
    AndZero(Bitmap(h.mem, b.table, b.slot), Run(b.start, b.size), 64);
    forall k | 0 <= k < 64
      ensures !(Bit(Bitmap(h.mem, b.table, b.slot), k) && Bit(Run(b.start, b.size), k))
    {
      BitOfRun(b.start, b.size, k);
    }
  }

  // Validity of the three outcomes.

  lemma FirstFitFits(h: Heap, b: Block)
    requires Valid(h) && FirstFit(h, b) && 2 <= b.size
    ensures Fits(h, b)
  {
  }

  lemma TakeFreshValid(h: Heap, t: nat, i: nat, page: nat, size: nat)
    requires Valid(h) && t in h.tables && i < 255 && PageWord(h.mem, t, i) == 0 && Fresh(h, page) && 2 <= size < 64
    ensures var b := Block(t, i, page, 0, size);
            Valid(TakeFresh(h, t, i, page, size)) && b.Ptr() !in h.live
            && TakeFresh(h, t, i, page, size).live == h.live[b.Ptr() := b]
  {
    var h1 := AddPage(h, page);
    AddPageValid(h, page);
    AddPageMemory(h.mem, page);
    assert h1.mem[(t, 2 * i + 1)] == h.mem[(t, 2 * i + 1)];
    PointSlotValid(h1, t, i, page);
    FreshFits(h1, t, i, page, size);
  }

  lemma FreshFits(h: Heap, t: nat, i: nat, page: nat, size: nat)
    requires Valid(h) && t in h.tables && i < 255 && Spare(h, page) && 2 <= size < 64
    requires Valid(PointSlot(h, t, i, page))
    ensures var (h', b) := (PointSlot(h, t, i, page), Block(t, i, page, 0, size));
            Fits(h', b) && Valid(Take(h', b)) && b.Ptr() !in h.live
  {
    var h', b := PointSlot(h, t, i, page), Block(t, i, page, 0, size);
    Pow2Of64();
    forall u | 0 <= u < size
      ensures Bit(Bitmap(h'.mem, t, i), u)
    {
      BitOfOnes(64, u);
    }
    TakeValid(h', b);
    FitsFree(h', b);
  }

  lemma NewTableValid(h: Heap, table: nat, page: nat, size: nat)
    requires Valid(h) && Fresh(h, table) && Fresh(h, page) && page != table && 2 <= size < 64
    ensures var b := Block(table, 0, page, 0, size);
            var h' := TakeFresh(LinkTable(AddPage(h, table), table), table, 0, page, size);
            Valid(h') && b.Ptr() !in h.live && h'.live == h.live[b.Ptr() := b]
  {
    AddPageValid(h, table);
    LinkTableValid(AddPage(h, table), table);
    TakeFreshValid(LinkTable(AddPage(h, table), table), table, 0, page, size);
  }

  lemma AllocatedValid(h: Heap, h': Heap, b: Block, page: nat, table: nat)
    requires Valid(h) && Fresh(h, page) && Fresh(h, table) && page != table && 2 <= b.size < 64
    requires Allocated(h, h', b, page, table)
    ensures Valid(h') && b.Ptr() !in h.live && h'.live == h.live[b.Ptr() := b] && h'.tables[0] == h.tables[0]
  {
    var n := |Visited(h.tables)|;
    if !NoRunBefore(h, b.size, n, 0) {
      FirstFitFits(h, b);
      TakeValid(h, b);
      FitsFree(h, b);
    } else if !NoUnusedBefore(h, n, 0) {
      TakeFreshValid(h, b.table, b.slot, page, b.size);
    } else {
      NewTableValid(h, table, page, b.size);
    }
  }

  ghost predicate Full(h: Heap, t: nat, i: nat, size: nat)
    requires Pages(h.mem) && HasPage(h.mem, t) && i < 255
  {
    PageWord(h.mem, t, i) != 0 && !RunIn(h, t, i, size)
  }

  /** A table is chained exactly when no table has room, the last of several excepted, which is never searched. */
  lemma NewTableIff(h: Heap, h': Heap, b: Block, page: nat, table: nat)
    requires Valid(h) && Fresh(h, table) && Allocated(h, h', b, page, table)
    ensures b.table == table <==>
              forall k, i | 0 <= k < |h.tables| && (k == 0 || k + 1 < |h.tables|) && 0 <= i < 255 ::
                Full(h, h.tables[k], i, b.size)
  {
    var n := |Visited(h.tables)|;
    assert n == if |h.tables| == 1 then 1 else |h.tables| - 1;
    if !NoRunBefore(h, b.size, n, 0) {
      var k, i :| 0 <= k < |h.tables| && 0 <= i < 255 && Before(k, i, n, 0) && RunIn(h, h.tables[k], i, b.size);
      assert !Full(h, h.tables[k], i, b.size);
    } else if !NoUnusedBefore(h, n, 0) {
      var k, i :| 0 <= k < |h.tables| && 0 <= i < 255 && Before(k, i, n, 0) && PageWord(h.mem, h.tables[k], i) == 0;
      assert !Full(h, h.tables[k], i, b.size);
    } else {
      forall k, i | 0 <= k < |h.tables| && (k == 0 || k + 1 < |h.tables|) && 0 <= i < 255
        ensures Full(h, h.tables[k], i, b.size)
      {
        assert Before(k, i, n, 0);
      }
    }
  }

  /** A new live block of the given number of units, where the search put it; all other blocks as before. */
  ghost predicate Outcome(h: Heap, h': Heap, ptr: nat, units: nat, page: nat, table: nat)
    requires Pages(h.mem) && Chain(h)
  {
    && ptr !in h.live && ptr in h'.live
    && var b := h'.live[ptr];
       b.Ptr() == ptr && b.size == units && h'.live == h.live[ptr := b] && Allocated(h, h', b, page, table)
  }

  lemma OutcomeOf(h: Heap, h': Heap, b: Block, page: nat, table: nat)
    requires Valid(h) && Fresh(h, page) && Fresh(h, table) && page != table && 2 <= b.size < 64
    requires Allocated(h, h', b, page, table)
    ensures Outcome(h, h', b.Ptr(), b.size, page, table)
  {
    AllocatedValid(h, h', b, page, table);
  }

  lemma OutcomeValid(h: Heap, h': Heap, ptr: nat, units: nat, page: nat, table: nat)
    requires Valid(h) && Fresh(h, page) && Fresh(h, table) && page != table && 2 <= units < 64
    requires Outcome(h, h', ptr, units, page, table)
    ensures Valid(h') && h'.tables[0] == h.tables[0]
  {
    AllocatedValid(h, h', h'.live[ptr], page, table);
  }

  lemma FirstFitFound(h: Heap, b: Block)
    requires Pages(h.mem) && Chain(h) && FirstFit(h, b)
    ensures !NoRunBefore(h, b.size, |Visited(h.tables)|, 0)
  {
    var k :| 0 <= k < |Visited(h.tables)| && h.tables[k] == b.table;
    assert RunIn(h, h.tables[k], b.slot, b.size) && Before(k, b.slot, |Visited(h.tables)|, 0);
  }

  lemma FoundUnused(h: Heap, k: nat, i: nat)
    requires Pages(h.mem) && Chain(h) && k < |Visited(h.tables)| && i < 255
    requires NoUnusedBefore(h, k, i) && PageWord(h.mem, h.tables[k], i) == 0
    ensures FirstUnused(h, h.tables[k], i) && !NoUnusedBefore(h, k, i + 1)
  {
    assert Before(k, i, k, i + 1);
  }

  lemma NoRunInSmall(w: nat, size: nat)
    requires w < Pow2(size) - 1
    ensures forall s :: !RunAt(w, s, size)
  {
    forall s | RunAt(w, s, size)
      ensures false
    {
      PrefilterSound(w, s, size);
    }
  }
}
