/** The memory of the kernel's bitmap allocator (malloc.c) and what every call keeps true of it. */
module KMallocHeap {
  import opened Bits

  /** Words by page number and position; a pointer is a byte address, `4096 * page + 8 * word`. */
  type Memory = map<(nat, nat), nat>

  const MAX_PAGE := 0x10_0000_0000_0000

  /** Memory consists of whole pages of 512 64-bit words, page 0 excluded. */
  ghost predicate Pages(mem: Memory) {
    && (forall p, o | (p, o) in mem :: HasPage(mem, p) && 0 < p < MAX_PAGE && o < 512 && mem[(p, o)] <= ALL_ONES)
    && (forall p: nat, k: nat | HasPage(mem, p) && k < 512 :: (p, k) in mem)
  }

  predicate HasPage(mem: Memory, p: nat) {
    (p, 0) in mem
  }

  /** A block: `size` units of 64 bytes from unit `start` of a page, the first unit being its header. */
  datatype Block = Block(table: nat, slot: nat, page: nat, start: nat, size: nat)
  {
    /** The pointer handed to the client: just past the header unit. */
    function Ptr(): nat {
      PtrAt(page, start)
    }

    predicate Covers(u: nat) {
      start <= u < start + size
    }
  }

  /** The pointer whose header is unit `u` of a page. */
  function PtrAt(page: nat, u: nat): nat {
    4096 * page + 64 * u + 64
  }

  /**
   * `owner` says which table and slot a page belongs to, `live` which blocks are handed out, `freed` which header
   * units belonged to blocks that were given back.
   */
  datatype Heap = Heap(mem: Memory, tables: seq<nat>, owner: map<nat, (nat, nat)>, live: map<nat, Block>,
                       freed: set<(nat, nat)>)

  // A table page holds 255 (bitmap, page pointer) pairs and, in word 511, the pointer to the next table.

  ghost predicate Linked(mem: Memory, tables: seq<nat>, k: nat)
    requires k < |tables|
  {
    && (tables[k], 511) in mem
    && mem[(tables[k], 511)] == if k + 1 < |tables| then 4096 * tables[k + 1] else 0
  }

  ghost predicate Chain(h: Heap)
    requires Pages(h.mem)
  {
    && h.tables != []
    && (forall k | 0 <= k < |h.tables| :: HasPage(h.mem, h.tables[k]))
    && (forall j, k | 0 <= j < k < |h.tables| :: h.tables[j] != h.tables[k])
    && (forall k | 0 <= k < |h.tables| :: Linked(h.mem, h.tables, k))
  }

  function PageWord(mem: Memory, t: nat, i: nat): nat
    requires (t, 2 * i + 1) in mem
  {
    mem[(t, 2 * i + 1)]
  }

  function Bitmap(mem: Memory, t: nat, i: nat): nat
    requires (t, 2 * i) in mem
  {
    mem[(t, 2 * i)]
  }

  /** A used slot points to a page that is not a table and belongs to no other slot. */
  ghost predicate SlotOk(h: Heap, t: nat, i: nat)
    requires Pages(h.mem) && (t, 2 * i + 1) in h.mem
  {
    PageWord(h.mem, t, i) != 0 ==>
      var p := PageWord(h.mem, t, i) / 4096;
      PageWord(h.mem, t, i) == 4096 * p && HasPage(h.mem, p) && p !in h.tables && p in h.owner && h.owner[p] == (t, i)
  }

  ghost predicate Slots(h: Heap)
    requires Pages(h.mem) && Chain(h)
  {
    forall t, i | t in h.tables && 0 <= i < 255 :: SlotOk(h, t, i)
  }

  /** A block is where its slot says, within the page, and its header names its slot, last unit and size. */
  ghost predicate BlockOk(h: Heap, b: Block)
    requires Pages(h.mem) && Chain(h)
  {
    && b.table in h.tables && b.slot < 255
    && PageWord(h.mem, b.table, b.slot) == 4096 * b.page && HasPage(h.mem, b.page) && b.page !in h.tables
    && 2 <= b.size && b.start + b.size <= 64
    && h.mem[(b.page, 8 * b.start + 7)] == 4096 * b.table + 8 * (2 * b.slot + 1)
    && h.mem[(b.page, 8 * b.start + 6)] == b.start + b.size - 1
    && h.mem[(b.page, 8 * b.start + 5)] == b.size
  }

  ghost predicate Blocks(h: Heap)
    requires Pages(h.mem) && Chain(h)
  {
    forall p | p in h.live :: p == h.live[p].Ptr() && BlockOk(h, h.live[p])
  }

  /** Two live blocks never share a unit. */
  ghost predicate Disjoint(h: Heap) {
    forall p, q, u | p in h.live && q in h.live && p != q && h.live[p].page == h.live[q].page ::
      !(h.live[p].Covers(u) && h.live[q].Covers(u))
  }

  ghost predicate InUse(h: Heap, page: nat, u: nat) {
    exists p :: p in h.live && h.live[p].page == page && h.live[p].Covers(u)
  }

  /** A bit is clear exactly when a live block on the page of its slot covers the unit. */
  ghost predicate BitMatches(h: Heap, t: nat, i: nat, u: nat)
    requires (t, 2 * i) in h.mem && (t, 2 * i + 1) in h.mem
  {
    PageWord(h.mem, t, i) != 0 ==> (Bit(Bitmap(h.mem, t, i), u) <==> !InUse(h, PageWord(h.mem, t, i) / 4096, u))
  }

  ghost predicate BitsMatch(h: Heap)
    requires Pages(h.mem) && Chain(h)
  {
    forall t, i, u | t in h.tables && 0 <= i < 255 && 0 <= u < 64 :: BitMatches(h, t, i, u)
  }

  /**
   * A header unit whose pointer was freed, as long as it is not part of a block again: its size and slot words are
   * zero.
   */
  ghost predicate FreedOk(h: Heap, page: nat, u: nat)
    requires Pages(h.mem)
  {
    && HasPage(h.mem, page) && page !in h.tables && u < 63
    && h.mem[(page, 8 * u + 5)] == 0 && h.mem[(page, 8 * u + 7)] == 0
    && !InUse(h, page, u)
  }

  ghost predicate Freed(h: Heap)
    requires Pages(h.mem)
  {
    forall page, u | (page, u) in h.freed :: FreedOk(h, page, u)
  }

  ghost predicate Valid(h: Heap) {
    Pages(h.mem) && Chain(h) && Slots(h) && Blocks(h) && Disjoint(h) && BitsMatch(h) && Freed(h)
  }

  // The steps.

  function Header(mem: Memory, b: Block): Memory {
    mem[(b.page, 8 * b.start + 7) := 4096 * b.table + 8 * (2 * b.slot + 1)]
       [(b.page, 8 * b.start + 6) := if b.start + b.size == 0 then 0 else b.start + b.size - 1]
       [(b.page, 8 * b.start + 5) := b.size]
  }

  /** Take the units of `b` out of its bitmap and write its header. */
  function Take(h: Heap, b: Block): Heap
    requires (b.table, 2 * b.slot) in h.mem
  {
    var cleared := h.mem[(b.table, 2 * b.slot) := Xor(Bitmap(h.mem, b.table, b.slot), Run(b.start, b.size))];
    Heap(Header(cleared, b), h.tables, h.owner, h.live[b.Ptr() := b],
         set q | q in h.freed && !(q.0 == b.page && b.Covers(q.1)))
  }

  /** Where a new block may go: a used slot whose bitmap has all the units of the block. */
  ghost predicate Fits(h: Heap, b: Block)
    requires Pages(h.mem) && Chain(h)
  {
    && b.table in h.tables && b.slot < 255 && PageWord(h.mem, b.table, b.slot) == 4096 * b.page != 0
    && 2 <= b.size && b.start + b.size <= 64
    && forall u | b.start <= u < b.start + b.size :: Bit(Bitmap(h.mem, b.table, b.slot), u)
  }

  lemma TakeBits(w: nat, b: Block, u: nat)
    requires w <= ALL_ONES && b.start + b.size <= 64 && u < 64
    requires forall v | b.start <= v < b.start + b.size :: Bit(w, v)
    ensures Xor(w, Run(b.start, b.size)) <= ALL_ONES
    ensures Bit(Xor(w, Run(b.start, b.size)), u) <==> Bit(w, u) && !b.Covers(u)
  {
    Pow2Of64();
    RunBound(b.start, b.size, 64);
    XorBound(w, Run(b.start, b.size), 64);
    BitOfXor(w, Run(b.start, b.size), u);
    BitOfRun(b.start, b.size, u);
  }

  lemma FitsFree(h: Heap, b: Block)
    requires Valid(h) && Fits(h, b)
    ensures HasPage(h.mem, b.page) && b.page !in h.tables && b.Ptr() !in h.live
    ensures forall u | b.start <= u < b.start + b.size :: !InUse(h, b.page, u)
  {
    forall u | b.start <= u < b.start + b.size
      ensures !InUse(h, b.page, u)
    {
      assert BitMatches(h, b.table, b.slot, u);
    }
    FreePtr(h, b);
    assert SlotOk(h, b.table, b.slot);
  }

  lemma FreePtr(h: Heap, b: Block)
    requires Pages(h.mem) && Chain(h) && Blocks(h) && b.start < 63 && !InUse(h, b.page, b.start)
    ensures b.Ptr() !in h.live
  {
    LiveInUse(h);
    forall p | p in h.live
      ensures p != b.Ptr()
    {
      assert BlockOk(h, h.live[p]) && h.live[p].Covers(h.live[p].start);
    }
  }

  lemma LiveInUse(h: Heap)
    ensures forall p, u | p in h.live && h.live[p].Covers(u) :: InUse(h, h.live[p].page, u)
  {
  }

  lemma TakeValid(h: Heap, b: Block)
    requires Valid(h) && Fits(h, b)
    ensures HasPage(h.mem, b.page) && Valid(Take(h, b))
  {
    FitsFree(h, b);
    TakePages(h, b);
    TakeSlots(h, b);
    TakeBlocks(h, b);
    TakeDisjoint(h, b);
    TakeBitsMatch(h, b);
    TakeFreed(h, b);
  }

  lemma TakePages(h: Heap, b: Block)
    requires Valid(h) && Fits(h, b) && HasPage(h.mem, b.page) && b.page !in h.tables
    ensures Pages(Take(h, b).mem) && Chain(Take(h, b))
  {
    TakeBits(Bitmap(h.mem, b.table, b.slot), b, 0);
    SameLinks(h, Take(h, b));
  }

  lemma TakeSlots(h: Heap, b: Block)
    requires Valid(h) && Fits(h, b) && HasPage(h.mem, b.page) && b.page !in h.tables && Pages(Take(h, b).mem)
    requires Chain(Take(h, b))
    ensures Slots(Take(h, b))
  {
    forall t, i | t in h.tables && 0 <= i < 255
      ensures SlotOk(Take(h, b), t, i)
    {
      assert SlotOk(h, t, i);
    }
  }

  lemma TakeBlocks(h: Heap, b: Block)
    requires Valid(h) && Fits(h, b) && HasPage(h.mem, b.page) && b.page !in h.tables && b.Ptr() !in h.live
    requires forall u | b.start <= u < b.start + b.size :: !InUse(h, b.page, u)
    requires Pages(Take(h, b).mem) && Chain(Take(h, b))
    ensures Blocks(Take(h, b))
  {
    var h' := Take(h, b);
    LiveInUse(h);
    forall p | p in h'.live
      ensures p == h'.live[p].Ptr() && BlockOk(h', h'.live[p])
    {
      if p == b.Ptr() {
        TakenBlockOk(h, b);
      } else {
        assert h.live[p].Covers(h.live[p].start);
        OtherBlockOk(h, b, h.live[p]);
      }
    }
  }

  lemma TakenBlockOk(h: Heap, b: Block)
    requires Valid(h) && Fits(h, b) && HasPage(h.mem, b.page) && b.page !in h.tables
    requires Pages(Take(h, b).mem) && Chain(Take(h, b))
    ensures BlockOk(Take(h, b), b)
  {
  }

  lemma OtherBlockOk(h: Heap, b: Block, c: Block)
    requires Pages(h.mem) && Chain(h) && Fits(h, b) && HasPage(h.mem, b.page) && b.page !in h.tables
    requires BlockOk(h, c) && (c.page != b.page || c.start != b.start)
    requires Pages(Take(h, b).mem) && Chain(Take(h, b))
    ensures BlockOk(Take(h, b), c)
  {
  }

  lemma TakeDisjoint(h: Heap, b: Block)
    requires Valid(h) && Fits(h, b) && HasPage(h.mem, b.page)
    requires forall u | b.start <= u < b.start + b.size :: !InUse(h, b.page, u)
    ensures Disjoint(Take(h, b))
  {
    LiveInUse(h);
  }

  lemma TakeBitsMatch(h: Heap, b: Block)
    requires Pages(h.mem) && Chain(h) && Slots(h) && BitsMatch(h) && Fits(h, b) && HasPage(h.mem, b.page)
    requires b.page !in h.tables && b.Ptr() !in h.live
    requires Pages(Take(h, b).mem) && Chain(Take(h, b))
    ensures BitsMatch(Take(h, b))
  {
    forall t, i, u | t in h.tables && 0 <= i < 255 && 0 <= u < 64
      ensures BitMatches(Take(h, b), t, i, u)
    {
      TakeBitMatches(h, b, t, i, u);
    }
  }

  lemma TakeBitMatches(h: Heap, b: Block, t: nat, i: nat, u: nat)
    requires Pages(h.mem) && Chain(h) && Slots(h) && BitsMatch(h) && Fits(h, b) && HasPage(h.mem, b.page)
    requires b.page !in h.tables && b.Ptr() !in h.live
    requires t in h.tables && i < 255 && u < 64
    ensures BitMatches(Take(h, b), t, i, u)
  {
    if PageWord(h.mem, t, i) != 0 {
      assert BitMatches(h, t, i, u) && SlotOk(h, t, i) && SlotOk(h, b.table, b.slot);
      TakeInUse(h, b, PageWord(h.mem, t, i) / 4096, u);
      if t == b.table && i == b.slot {
        TakeBits(Bitmap(h.mem, t, i), b, u);
      }
    }
  }

  lemma TakeInUse(h: Heap, b: Block, page: nat, u: nat)
    requires (b.table, 2 * b.slot) in h.mem
    requires b.Ptr() !in h.live
    ensures InUse(Take(h, b), page, u) <==> InUse(h, page, u) || (page == b.page && b.Covers(u))
  {
    var h' := Take(h, b);
    if InUse(h, page, u) {
      var p :| p in h.live && h.live[p].page == page && h.live[p].Covers(u);
      assert h'.live[p] == h.live[p];
    }
    if page == b.page && b.Covers(u) {
      assert h'.live[b.Ptr()] == b;
    }
  }

  lemma TakeFreed(h: Heap, b: Block)
    requires Valid(h) && Fits(h, b) && HasPage(h.mem, b.page) && b.page !in h.tables && b.Ptr() !in h.live
    requires Pages(Take(h, b).mem)
    ensures Freed(Take(h, b))
  {
    forall page, u | (page, u) in Take(h, b).freed
      ensures FreedOk(Take(h, b), page, u)
    {
      assert FreedOk(h, page, u);
      TakeInUse(h, b, page, u);
      SizeWordKept(h, b, page, u);
    }
  }

  lemma SizeWordKept(h: Heap, b: Block, page: nat, u: nat)
    requires (b.table, 2 * b.slot) in h.mem && (page, 8 * u + 5) in h.mem && (page, 8 * u + 7) in h.mem
    requires page != b.table && !(page == b.page && u == b.start)
    ensures (page, 8 * u + 5) in Take(h, b).mem && Take(h, b).mem[(page, 8 * u + 5)] == h.mem[(page, 8 * u + 5)]
    ensures (page, 8 * u + 7) in Take(h, b).mem && Take(h, b).mem[(page, 8 * u + 7)] == h.mem[(page, 8 * u + 7)]
  {
  }

  // Giving a block back.

  /** Set the units of `b` in its bitmap again and wipe its header. */
  function Release(h: Heap, b: Block): Heap
    requires (b.table, 2 * b.slot) in h.mem
  {
    var set_ := h.mem[(b.table, 2 * b.slot) := Xor(Bitmap(h.mem, b.table, b.slot), Run(b.start, b.size))];
    Heap(set_[(b.page, 8 * b.start + 5) := 0][(b.page, 8 * b.start + 6) := 0][(b.page, 8 * b.start + 7) := 0],
         h.tables, h.owner, h.live - {b.Ptr()}, h.freed + {(b.page, b.start)})
  }

  ghost predicate Live(h: Heap, b: Block) {
    b.Ptr() in h.live && h.live[b.Ptr()] == b
  }

  lemma ReleaseBits(w: nat, b: Block, u: nat)
    requires w <= ALL_ONES && b.start + b.size <= 64 && u < 64
    requires forall v | b.start <= v < b.start + b.size :: !Bit(w, v)
    ensures Xor(w, Run(b.start, b.size)) <= ALL_ONES
    ensures Bit(Xor(w, Run(b.start, b.size)), u) <==> Bit(w, u) || b.Covers(u)
  {
    Pow2Of64();
    RunBound(b.start, b.size, 64);
    XorBound(w, Run(b.start, b.size), 64);
    BitOfXor(w, Run(b.start, b.size), u);
    BitOfRun(b.start, b.size, u);
  }

  /** The units of a live block are all taken, in its own bitmap and in no other block. */
  lemma LiveUnits(h: Heap, b: Block)
    requires Valid(h) && Live(h, b)
    ensures BlockOk(h, b)
    ensures forall u | b.start <= u < b.start + b.size :: !Bit(Bitmap(h.mem, b.table, b.slot), u)
  {
    forall u | b.start <= u < b.start + b.size
      ensures !Bit(Bitmap(h.mem, b.table, b.slot), u)
    {
      assert BitMatches(h, b.table, b.slot, u);
      assert b.Covers(u);
    }
  }

  lemma ReleaseInUse(h: Heap, b: Block, page: nat, u: nat)
    requires Live(h, b) && (b.table, 2 * b.slot) in h.mem && Disjoint(h)
    ensures InUse(Release(h, b), page, u) <==> InUse(h, page, u) && !(page == b.page && b.Covers(u))
  {
    var h' := Release(h, b);
    if InUse(h, page, u) && !(page == b.page && b.Covers(u)) {
      var p :| p in h.live && h.live[p].page == page && h.live[p].Covers(u);
      assert p in h'.live && h'.live[p] == h.live[p];
    }
    if InUse(h', page, u) {
      var p :| p in h'.live && h'.live[p].page == page && h'.live[p].Covers(u);
      assert p in h.live && h.live[p] == h'.live[p];
    }
  }

  lemma ReleaseValid(h: Heap, b: Block)
    requires Valid(h) && Live(h, b)
    ensures BlockOk(h, b) && Valid(Release(h, b))
  {
    LiveUnits(h, b);
    ReleasePages(h, b);
    ReleaseBlocks(h, b);
    ReleaseBitsMatch(h, b);
    ReleaseFreed(h, b);
  }

  lemma ReleasePages(h: Heap, b: Block)
    requires Pages(h.mem) && Chain(h) && Slots(h) && BlockOk(h, b)
    requires forall u | b.start <= u < b.start + b.size :: !Bit(Bitmap(h.mem, b.table, b.slot), u)
    ensures Pages(Release(h, b).mem) && Chain(Release(h, b)) && Slots(Release(h, b))
  {
    ReleaseBits(Bitmap(h.mem, b.table, b.slot), b, 0);
    SameLinks(h, Release(h, b));
    forall t, i | t in h.tables && 0 <= i < 255
      ensures SlotOk(Release(h, b), t, i)
    {
      assert SlotOk(h, t, i);
    }
  }

  lemma ReleaseBlocks(h: Heap, b: Block)
    requires Valid(h) && Live(h, b) && BlockOk(h, b)
    requires Pages(Release(h, b).mem) && Chain(Release(h, b))
    ensures Blocks(Release(h, b)) && Disjoint(Release(h, b))
  {
    forall p | p in Release(h, b).live
      ensures BlockOk(Release(h, b), h.live[p])
    {
      assert b.Covers(b.start) && h.live[p].Covers(h.live[p].start);
      OtherBlockReleased(h, b, h.live[p]);
    }
  }

  lemma OtherBlockReleased(h: Heap, b: Block, c: Block)
    requires Pages(h.mem) && Chain(h) && BlockOk(h, b) && BlockOk(h, c) && (c.page != b.page || c.start != b.start)
    requires Pages(Release(h, b).mem) && Chain(Release(h, b))
    ensures BlockOk(Release(h, b), c)
  {
  }

  lemma ReleaseBitsMatch(h: Heap, b: Block)
    requires Pages(h.mem) && Chain(h) && Slots(h) && BitsMatch(h) && Disjoint(h) && Live(h, b) && BlockOk(h, b)
    requires Pages(Release(h, b).mem) && Chain(Release(h, b))
    requires forall u | b.start <= u < b.start + b.size :: !Bit(Bitmap(h.mem, b.table, b.slot), u)
    ensures BitsMatch(Release(h, b))
  {
    forall t, i, u | t in h.tables && 0 <= i < 255 && 0 <= u < 64
      ensures BitMatches(Release(h, b), t, i, u)
    {
      ReleaseBitMatches(h, b, t, i, u);
    }
  }

  lemma ReleaseBitMatches(h: Heap, b: Block, t: nat, i: nat, u: nat)
    requires Pages(h.mem) && Chain(h) && Slots(h) && BitsMatch(h) && Disjoint(h) && Live(h, b) && BlockOk(h, b)
    requires forall v | b.start <= v < b.start + b.size :: !Bit(Bitmap(h.mem, b.table, b.slot), v)
    requires t in h.tables && i < 255 && u < 64
    ensures BitMatches(Release(h, b), t, i, u)
  {
    if PageWord(h.mem, t, i) != 0 {
      assert BitMatches(h, t, i, u) && SlotOk(h, t, i) && SlotOk(h, b.table, b.slot);
      ReleaseInUse(h, b, PageWord(h.mem, t, i) / 4096, u);
      if t == b.table && i == b.slot {
        ReleaseBits(Bitmap(h.mem, t, i), b, u);
      }
    }
  }

  lemma ReleaseFreed(h: Heap, b: Block)
    requires Pages(h.mem) && Chain(h) && Freed(h) && Disjoint(h) && Live(h, b) && BlockOk(h, b)
    requires Pages(Release(h, b).mem)
    ensures Freed(Release(h, b))
  {
    forall page, u | (page, u) in Release(h, b).freed
      ensures FreedOk(Release(h, b), page, u)
    {
      OneFreed(h, b, page, u);
    }
  }

  lemma OneFreed(h: Heap, b: Block, page: nat, u: nat)
    requires Pages(h.mem) && Chain(h) && Freed(h) && Disjoint(h) && Live(h, b) && BlockOk(h, b)
    requires Pages(Release(h, b).mem) && (page, u) in Release(h, b).freed
    ensures FreedOk(Release(h, b), page, u)
  {
    ReleaseInUse(h, b, page, u);
    if (page, u) != (b.page, b.start) {
      assert FreedOk(h, page, u);
      StillZero(h, b, page, u);
    }
  }

  lemma StillZero(h: Heap, b: Block, page: nat, u: nat)
    requires Pages(h.mem) && Chain(h) && BlockOk(h, b) && FreedOk(h, page, u)
    ensures Release(h, b).mem[(page, 8 * u + 5)] == 0 && Release(h, b).mem[(page, 8 * u + 7)] == 0
  {
  }

  // A fresh page, which becomes the page of an unused slot or the next table.

  /** Memory with a zeroed page at `p`: what `KPALLOC` and `memfill` leave. */
  function WithPage(mem: Memory, p: nat): Memory {
    mem + (map o: nat | o < 512 :: (p, o) := 0)
  }

  ghost predicate Fresh(h: Heap, p: nat) {
    0 < p < MAX_PAGE && forall o :: (p, o) !in h.mem
  }

  /** A zeroed page that nothing refers to. */
  ghost predicate Spare(h: Heap, p: nat)
    requires Pages(h.mem) && Chain(h)
  {
    && HasPage(h.mem, p) && p !in h.tables
    && (forall o | 0 <= o < 512 :: h.mem[(p, o)] == 0)
    && (forall t, i | t in h.tables && 0 <= i < 255 :: PageWord(h.mem, t, i) != 4096 * p)
    && (forall u: nat :: !InUse(h, p, u) && (p, u) !in h.freed)
  }

  function AddPage(h: Heap, p: nat): Heap {
    h.(mem := WithPage(h.mem, p))
  }

  lemma AddPageMemory(mem: Memory, p: nat)
    requires Pages(mem) && 0 < p < MAX_PAGE && forall o :: (p, o) !in mem
    ensures Pages(WithPage(mem, p)) && HasPage(WithPage(mem, p), p)
    ensures forall q, o | (q, o) in mem :: (q, o) in WithPage(mem, p) && WithPage(mem, p)[(q, o)] == mem[(q, o)]
    ensures forall o | 0 <= o < 512 :: (p, o) in WithPage(mem, p) && WithPage(mem, p)[(p, o)] == 0
  {
  }

  lemma SameLinks(h: Heap, h': Heap)
    requires Pages(h.mem) && Chain(h) && Pages(h'.mem) && h'.tables == h.tables
    requires forall t | t in h.tables :: (t, 511) in h'.mem && h'.mem[(t, 511)] == h.mem[(t, 511)]
    ensures Chain(h')
  {
    forall k | 0 <= k < |h.tables|
      ensures HasPage(h'.mem, h'.tables[k]) && Linked(h'.mem, h'.tables, k)
    {
      assert h.tables[k] in h.tables && Linked(h.mem, h.tables, k);
    }
  }

  /** Memory that only grows keeps everything that was there. */
  lemma GrownChain(h: Heap, h': Heap)
    requires Pages(h.mem) && Chain(h) && Slots(h) && Blocks(h)
    requires Pages(h'.mem) && h' == h.(mem := h'.mem)
    requires forall q, o | (q, o) in h.mem :: (q, o) in h'.mem && h'.mem[(q, o)] == h.mem[(q, o)]
    ensures Chain(h') && Slots(h') && Blocks(h')
  {
    assert forall t | t in h.tables :: HasPage(h.mem, t);
    SameLinks(h, h');
    forall t, i | t in h.tables && 0 <= i < 255
      ensures SlotOk(h', t, i)
    {
      assert SlotOk(h, t, i);
    }
    forall q | q in h.live
      ensures BlockOk(h', h.live[q])
    {
      assert BlockOk(h, h.live[q]);
    }
  }

  lemma AddPageValid(h: Heap, p: nat)
    requires Valid(h) && Fresh(h, p)
    ensures Valid(AddPage(h, p)) && Spare(AddPage(h, p), p)
  {
    var h' := AddPage(h, p);
    AddPageMemory(h.mem, p);
    GrownChain(h, h');
    AddPageBits(h, h');
    AddPageSpare(h, p);
  }

  lemma AddPageBits(h: Heap, h': Heap)
    requires Pages(h.mem) && Chain(h) && BitsMatch(h) && Freed(h)
    requires Pages(h'.mem) && h' == h.(mem := h'.mem) && Chain(h')
    requires forall q, o | (q, o) in h.mem :: (q, o) in h'.mem && h'.mem[(q, o)] == h.mem[(q, o)]
    ensures BitsMatch(h') && Freed(h')
  {
    forall t, i, u | t in h.tables && 0 <= i < 255 && 0 <= u < 64
      ensures BitMatches(h', t, i, u)
    {
      assert BitMatches(h, t, i, u);
      SameInUse(h, h', PageWord(h.mem, t, i) / 4096, u);
    }
    forall page, u | (page, u) in h.freed
      ensures FreedOk(h', page, u)
    {
      assert FreedOk(h, page, u);
      SameInUse(h, h', page, u);
    }
  }

  lemma AddPageSpare(h: Heap, p: nat)
    requires Valid(h) && Fresh(h, p) && Pages(AddPage(h, p).mem) && Chain(AddPage(h, p))
    ensures Spare(AddPage(h, p), p)
  {
    AddPageMemory(h.mem, p);
    NotATable(h, p);
    NobodyOn(h, p);
    NobodyOnAdded(h, AddPage(h, p), p);
    Unpointed(h, AddPage(h, p), p);
  }

  lemma NotATable(h: Heap, p: nat)
    requires Pages(h.mem) && Chain(h) && !HasPage(h.mem, p)
    ensures p !in h.tables
  {
  }

  lemma NobodyOnAdded(h: Heap, h': Heap, p: nat)
    requires h' == h.(mem := h'.mem) && forall u: nat :: !InUse(h, p, u)
    ensures forall u: nat :: !InUse(h', p, u)
  {
    forall u: nat
      ensures !InUse(h', p, u)
    {
      SameInUse(h, h', p, u);
    }
  }

  lemma Unpointed(h: Heap, h': Heap, p: nat)
    requires Pages(h.mem) && Chain(h) && Slots(h) && p > 0 && !HasPage(h.mem, p)
    requires Pages(h'.mem) && h'.tables == h.tables && Chain(h')
    requires forall q, o | (q, o) in h.mem :: (q, o) in h'.mem && h'.mem[(q, o)] == h.mem[(q, o)]
    ensures forall t, i | t in h'.tables && 0 <= i < 255 :: PageWord(h'.mem, t, i) != 4096 * p
  {
    forall t, i | t in h'.tables && 0 <= i < 255
      ensures PageWord(h'.mem, t, i) != 4096 * p
    {
      assert SlotOk(h, t, i) && PageWord(h'.mem, t, i) == PageWord(h.mem, t, i);
    }
  }

  lemma NobodyOn(h: Heap, p: nat)
    requires Pages(h.mem) && Chain(h) && Blocks(h) && Freed(h) && !HasPage(h.mem, p)
    ensures forall u: nat :: !InUse(h, p, u) && (p, u) !in h.freed
  {
    forall q | q in h.live
      ensures h.live[q].page != p
    {
      assert BlockOk(h, h.live[q]);
    }
    forall u: nat
      ensures (p, u) !in h.freed
    {
      assert (p, u) in h.freed ==> FreedOk(h, p, u);
    }
  }

  lemma SameInUse(h: Heap, h': Heap, page: nat, u: nat)
    requires h'.live == h.live
    ensures InUse(h', page, u) <==> InUse(h, page, u)
  {
  }

  /** The unused slot `i` of table `t` gets the page `p`, all units free. */
  function PointSlot(h: Heap, t: nat, i: nat, p: nat): Heap {
    h.(mem := h.mem[(t, 2 * i + 1) := 4096 * p][(t, 2 * i) := ALL_ONES], owner := h.owner[p := (t, i)])
  }

  lemma PointSlotPages(h: Heap, t: nat, i: nat, p: nat)
    requires Valid(h) && t in h.tables && i < 255 && Spare(h, p)
    ensures Pages(PointSlot(h, t, i, p).mem) && Chain(PointSlot(h, t, i, p)) && Slots(PointSlot(h, t, i, p))
  {
    var h' := PointSlot(h, t, i, p);
    SameLinks(h, h');
    forall t', i' | t' in h.tables && 0 <= i' < 255
      ensures SlotOk(h', t', i')
    {
      assert SlotOk(h, t', i');
    }
  }

  lemma PointSlotValid(h: Heap, t: nat, i: nat, p: nat)
    requires Valid(h) && t in h.tables && i < 255 && PageWord(h.mem, t, i) == 0 && Spare(h, p)
    ensures Valid(PointSlot(h, t, i, p))
  {
    var h' := PointSlot(h, t, i, p);
    PointSlotPages(h, t, i, p);
    forall q | q in h.live
      ensures BlockOk(h', h.live[q])
    {
      PointSlotBlock(h, t, i, p, h.live[q]);
    }
    forall t', i', u | t' in h.tables && 0 <= i' < 255 && 0 <= u < 64
      ensures BitMatches(h', t', i', u)
    {
      PointSlotBit(h, t, i, p, t', i', u);
    }
    forall page, u | (page, u) in h.freed
      ensures FreedOk(h', page, u)
    {
      assert FreedOk(h, page, u);
      SameInUse(h, h', page, u);
    }
  }

  lemma PointSlotBlock(h: Heap, t: nat, i: nat, p: nat, c: Block)
    requires Pages(h.mem) && Chain(h) && t in h.tables && i < 255 && PageWord(h.mem, t, i) == 0 && BlockOk(h, c)
    requires Pages(PointSlot(h, t, i, p).mem) && Chain(PointSlot(h, t, i, p))
    ensures BlockOk(PointSlot(h, t, i, p), c)
  {
  }

  lemma PointSlotBit(h: Heap, t: nat, i: nat, p: nat, t': nat, i': nat, u: nat)
    requires Pages(h.mem) && Chain(h) && Slots(h) && BitsMatch(h) && t in h.tables && i < 255 && Spare(h, p)
    requires t' in h.tables && i' < 255 && u < 64
    ensures BitMatches(PointSlot(h, t, i, p), t', i', u)
  {
    var h' := PointSlot(h, t, i, p);
    if t' == t && i' == i {
      Pow2Of64();
      BitOfOnes(64, u);
      SameInUse(h, h', p, u);
    } else {
      assert BitMatches(h, t', i', u);
      SameInUse(h, h', PageWord(h.mem, t', i') / 4096, u);
    }
  }

  /** The page `p` becomes the last table. */
  function LinkTable(h: Heap, p: nat): Heap
    requires h.tables != []
  {
    Heap(h.mem[(h.tables[|h.tables| - 1], 511) := 4096 * p], h.tables + [p], h.owner, h.live, h.freed)
  }

  lemma LinkTablePages(h: Heap, p: nat)
    requires Valid(h) && Spare(h, p)
    ensures Pages(LinkTable(h, p).mem) && Chain(LinkTable(h, p)) && Slots(LinkTable(h, p))
  {
    var h' := LinkTable(h, p);
    forall k | 0 <= k < |h'.tables|
      ensures HasPage(h'.mem, h'.tables[k]) && Linked(h'.mem, h'.tables, k)
    {
      assert k < |h.tables| ==> Linked(h.mem, h.tables, k);
    }
    forall t, i | t in h'.tables && 0 <= i < 255
      ensures SlotOk(h', t, i)
    {
      assert t in h.tables ==> SlotOk(h, t, i);
    }
  }

  lemma LinkTableValid(h: Heap, p: nat)
    requires Valid(h) && Spare(h, p)
    ensures Valid(LinkTable(h, p))
    ensures forall i | 0 <= i < 255 :: PageWord(LinkTable(h, p).mem, p, i) == 0
  {
    var h' := LinkTable(h, p);
    LinkTablePages(h, p);
    LiveInUse(h);
    forall q | q in h.live
      ensures BlockOk(h', h.live[q])
    {
      assert BlockOk(h, h.live[q]) && h.live[q].Covers(h.live[q].start);
      LinkTableBlock(h, p, h.live[q]);
    }
    forall t, i, u | t in h'.tables && 0 <= i < 255 && 0 <= u < 64
      ensures BitMatches(h', t, i, u)
    {
      if t in h.tables {
        assert BitMatches(h, t, i, u);
        SameInUse(h, h', PageWord(h.mem, t, i) / 4096, u);
      }
    }
    forall page, u | (page, u) in h.freed
      ensures FreedOk(h', page, u)
    {
      assert FreedOk(h, page, u);
      SameInUse(h, h', page, u);
    }
  }

  lemma LinkTableBlock(h: Heap, p: nat, c: Block)
    requires Pages(h.mem) && Chain(h) && BlockOk(h, c) && c.page != p
    requires Pages(LinkTable(h, p).mem) && Chain(LinkTable(h, p))
    ensures BlockOk(LinkTable(h, p), c)
  {
  }

  // A client write, confined to the payload of a live block.

  function ClientWrite(h: Heap, b: Block, w: nat, v: nat): Heap {
    h.(mem := h.mem[(b.page, w) := v])
  }

  lemma ClientWritePages(h: Heap, b: Block, w: nat, v: nat)
    requires Pages(h.mem) && Chain(h) && Slots(h) && BlockOk(h, b)
    requires 8 * (b.start + 1) <= w < 8 * (b.start + b.size) && v <= ALL_ONES
    ensures Pages(ClientWrite(h, b, w, v).mem) && Chain(ClientWrite(h, b, w, v)) && Slots(ClientWrite(h, b, w, v))
  {
    SameLinks(h, ClientWrite(h, b, w, v));
    forall t, i | t in h.tables && 0 <= i < 255
      ensures SlotOk(ClientWrite(h, b, w, v), t, i)
    {
      assert SlotOk(h, t, i);
    }
  }

  /** Writes within the payloads of live blocks reach neither a header nor a bitmap. */
  lemma ClientWriteValid(h: Heap, b: Block, w: nat, v: nat)
    requires Valid(h) && Live(h, b) && 8 * (b.start + 1) <= w < 8 * (b.start + b.size) && v <= ALL_ONES
    ensures Valid(ClientWrite(h, b, w, v))
  {
    var h' := ClientWrite(h, b, w, v);
    assert BlockOk(h, b);
    ClientWritePages(h, b, w, v);
    forall q | q in h.live
      ensures BlockOk(h', h.live[q])
    {
      assert h.live[q].Covers(h.live[q].start) && (q != b.Ptr() ==> BlockOk(h, h.live[q]));
      HeaderKept(h, b, w, v, h.live[q]);
    }
    forall t, i, u | t in h.tables && 0 <= i < 255 && 0 <= u < 64
      ensures BitMatches(h', t, i, u)
    {
      assert BitMatches(h, t, i, u);
      SameInUse(h, h', PageWord(h.mem, t, i) / 4096, u);
    }
    LiveInUse(h);
    forall page, u | (page, u) in h.freed
      ensures FreedOk(h', page, u)
    {
      ClientFreed(h, b, w, v, page, u);
    }
  }

  lemma ClientFreed(h: Heap, b: Block, w: nat, v: nat, page: nat, u: nat)
    requires Valid(h) && Live(h, b) && 8 * (b.start + 1) <= w < 8 * (b.start + b.size) && v <= ALL_ONES
    requires (page, u) in h.freed && Pages(ClientWrite(h, b, w, v).mem)
    ensures FreedOk(ClientWrite(h, b, w, v), page, u)
  {
    assert FreedOk(h, page, u);
    SameInUse(h, ClientWrite(h, b, w, v), page, u);
    if page == b.page && b.Covers(u) {
      LiveInUse(h);
      assert false;
    }
  }

  lemma HeaderKept(h: Heap, b: Block, w: nat, v: nat, c: Block)
    requires Pages(h.mem) && Chain(h) && BlockOk(h, b) && BlockOk(h, c)
    requires 8 * (b.start + 1) <= w < 8 * (b.start + b.size) && v <= ALL_ONES
    requires c == b || c.page != b.page || !b.Covers(c.start)
    requires Pages(ClientWrite(h, b, w, v).mem) && Chain(ClientWrite(h, b, w, v))
    ensures BlockOk(ClientWrite(h, b, w, v), c)
  {
  }
}
