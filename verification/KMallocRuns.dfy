/** What holds over whole runs of the kernel's allocator. */
module KMallocRuns {
  import opened Bits
  import opened KMallocHeap
  import opened KMalloc

  /** `malloc` from a page in use followed by `free` leaves every table and the set of live blocks as they were. */
  lemma FreeUndoesMalloc(h: Heap, b: Block, t: nat, o: nat)
    requires Valid(h) && Fits(h, b) && t in h.tables && o < 512
    ensures (t, o) in h.mem && (b.table, 2 * b.slot) in Take(h, b).mem
    ensures var h' := Release(Take(h, b), b);
            h'.live == h.live && h'.tables == h.tables && (t, o) in h'.mem && h'.mem[(t, o)] == h.mem[(t, o)]
  {
    FitsFree(h, b);
    var w, run := Bitmap(h.mem, b.table, b.slot), Run(b.start, b.size);
    assert HasPage(h.mem, t);
    XorTwice(w, run);
    HeaderElsewhere(h.mem[(b.table, 2 * b.slot) := Xor(w, run)], b, b.table, 2 * b.slot);
    HeaderElsewhere(h.mem[(b.table, 2 * b.slot) := Xor(w, run)], b, t, o);
    LiveRestored(h, b);
  }

  lemma HeaderElsewhere(mem: Memory, b: Block, t: nat, o: nat)
    requires (t, o) in mem && t != b.page
    ensures (t, o) in Header(mem, b) && Header(mem, b)[(t, o)] == mem[(t, o)]
  {
  }

  lemma LiveRestored(h: Heap, b: Block)
    requires b.Ptr() !in h.live
    ensures h.live[b.Ptr() := b] - {b.Ptr()} == h.live
  {
  }

  /** One call, or one client write within a payload. */
  ghost predicate Step(h: Heap, h': Heap)
    requires Valid(h)
  {
    || (exists b: Block, page: nat, table: nat :: Mallocs(h, h', b, page, table))
    || (exists b: Block :: Live(h, b) && Releasable(h, b) && h' == Release(h, b))
    || (exists b: Block, w: nat, v: nat :: Payload(h, b, w) && v <= ALL_ONES && h' == ClientWrite(h, b, w, v))
  }

  ghost predicate Mallocs(h: Heap, h': Heap, b: Block, page: nat, table: nat)
    requires Valid(h)
  {
    && Fresh(h, page) && Fresh(h, table) && page != table && 2 <= b.size < 64
    && Allocated(h, h', b, page, table)
  }

  predicate Releasable(h: Heap, b: Block) {
    (b.table, 2 * b.slot) in h.mem
  }

  ghost predicate Payload(h: Heap, b: Block, w: nat) {
    Live(h, b) && 8 * (b.start + 1) <= w < 8 * (b.start + b.size)
  }

  lemma StepValid(h: Heap, h': Heap)
    requires Valid(h) && Step(h, h')
    ensures Valid(h')
  {
    if b: Block, page: nat, table: nat :| Mallocs(h, h', b, page, table) {
      AllocatedValid(h, h', b, page, table);
    } else if b: Block :| Live(h, b) && Releasable(h, b) && h' == Release(h, b) {
      ReleaseValid(h, b);
    } else {
      var b: Block, w: nat, v: nat :| Payload(h, b, w) && v <= ALL_ONES && h' == ClientWrite(h, b, w, v);
      ClientWriteValid(h, b, w, v);
    }
  }

  /**
   * In every state of every run from `initMalloc` on: live blocks lie within their pages and share no unit, and the
   * clear bits of every bitmap are exactly the units of its live blocks.
   */
  lemma {:induction false} EveryStateValid(hs: seq<Heap>, page: nat, k: nat)
    requires |hs| > 0 && 0 < page < MAX_PAGE && hs[0] == Initial(page) && k < |hs|
    requires forall j | 0 <= j < |hs| - 1 :: Valid(hs[j]) ==> Step(hs[j], hs[j + 1])
    ensures Valid(hs[k])
  {
    if k > 0 {
      EveryStateValid(hs, page, k - 1);
      StepValid(hs[k - 1], hs[k]);
    } else {
      InitialValid(page);
    }
  }

  // Conservation of units.

  /** The units of some live blocks. */
  function UnitsOf(live: map<nat, Block>, ps: seq<nat>): set<nat>
    requires forall p | p in ps :: p in live
  {
    if ps == [] then {} else Range(live[ps[0]].start, live[ps[0]].size) + UnitsOf(live, ps[1..])
  }

  function TotalSize(live: map<nat, Block>, ps: seq<nat>): nat
    requires forall p | p in ps :: p in live
  {
    if ps == [] then 0 else live[ps[0]].size + TotalSize(live, ps[1..])
  }

  function Range(a: nat, n: nat): (s: set<nat>)
    ensures |s| == n && forall u :: u in s <==> a <= u < a + n
  {
    if n == 0 then {} else Range(a, n - 1) + {a + n - 1}
  }

  lemma {:induction false} UnitMember(live: map<nat, Block>, ps: seq<nat>, u: nat)
    requires forall p | p in ps :: p in live
    ensures u in UnitsOf(live, ps) <==> exists p :: p in ps && live[p].Covers(u)
  {
    if ps != [] {
      UnitMember(live, ps[1..], u);
      assert live[ps[0]].Covers(u) <==> u in Range(live[ps[0]].start, live[ps[0]].size);
      if p :| p in ps && live[p].Covers(u) {
        assert p == ps[0] || p in ps[1..];
      }
    }
  }

  lemma {:induction false} UnitsCounted(live: map<nat, Block>, ps: seq<nat>)
    requires forall p | p in ps :: p in live
    requires forall i, j, u | 0 <= i < j < |ps| :: !(live[ps[i]].Covers(u) && live[ps[j]].Covers(u))
    ensures |UnitsOf(live, ps)| == TotalSize(live, ps)
  {
    if ps != [] {
      UnitsCounted(live, ps[1..]);
      var own, rest := Range(live[ps[0]].start, live[ps[0]].size), UnitsOf(live, ps[1..]);
      forall u: nat | u in own
        ensures u !in rest
      {
        UnitMember(live, ps[1..], u);
        assert live[ps[0]].Covers(u);
        forall p | p in ps[1..]
          ensures !live[p].Covers(u)
        {
          var j :| 0 <= j < |ps[1..]| && ps[1..][j] == p;
          assert ps[j + 1] == p;
        }
      }
      assert own !! rest;
    }
  }

  /** `ps` lists the live blocks of a page, each once. */
  ghost predicate Lists(h: Heap, page: nat, ps: seq<nat>) {
    && (forall p :: p in ps <==> p in h.live && h.live[p].page == page)
    && (forall i, j | 0 <= i < j < |ps| :: ps[i] != ps[j])
  }

  lemma UsedUnit(h: Heap, page: nat, ps: seq<nat>, u: nat)
    requires Lists(h, page, ps)
    ensures u in UnitsOf(h.live, ps) <==> InUse(h, page, u)
  {
    UnitMember(h.live, ps, u);
  }

  lemma ListedUnits(h: Heap, page: nat, ps: seq<nat>)
    requires Valid(h) && Lists(h, page, ps)
    ensures |UnitsOf(h.live, ps)| == TotalSize(h.live, ps)
    ensures forall u | u in UnitsOf(h.live, ps) :: u < 64
  {
    UnitsCounted(h.live, ps);
    forall u | u in UnitsOf(h.live, ps)
      ensures u < 64
    {
      UnitMember(h.live, ps, u);
      var p :| p in ps && h.live[p].Covers(u);
      assert BlockOk(h, h.live[p]);
    }
  }

  function SetBits(w: nat): set<nat> {
    set u: nat | u < 64 && Bit(w, u)
  }

  lemma FreeOrUsed(h: Heap, t: nat, i: nat, ps: seq<nat>, u: nat)
    requires Valid(h) && t in h.tables && i < 255 && (t, 2 * i + 1) in h.mem && PageWord(h.mem, t, i) != 0
    requires Lists(h, PageWord(h.mem, t, i) / 4096, ps) && u < 64
    ensures Bit(Bitmap(h.mem, t, i), u) <==> u !in UnitsOf(h.live, ps)
  {
    assert BitMatches(h, t, i, u);
    UsedUnit(h, PageWord(h.mem, t, i) / 4096, ps, u);
  }

  /** Set bits plus units of live blocks make 64, on every page in use. */
  lemma UnitsConserved(h: Heap, t: nat, i: nat, ps: seq<nat>)
    requires Valid(h) && t in h.tables && i < 255 && (t, 2 * i + 1) in h.mem && PageWord(h.mem, t, i) != 0
    requires Lists(h, PageWord(h.mem, t, i) / 4096, ps)
    ensures |SetBits(Bitmap(h.mem, t, i))| + TotalSize(h.live, ps) == 64
  {
    var page := PageWord(h.mem, t, i) / 4096;
    var free := SetBits(Bitmap(h.mem, t, i));
    var used := UnitsOf(h.live, ps);
    ListedUnits(h, page, ps);
    forall u: nat | u < 64
      ensures u in free <==> u !in used
    {
      FreeOrUsed(h, t, i, ps, u);
    }
    SixtyFour(free, used);
  }

  lemma SixtyFour(free: set<nat>, used: set<nat>)
    requires forall u: nat | u < 64 :: u in free <==> u !in used
    requires (forall u | u in free :: u < 64) && (forall u | u in used :: u < 64)
    ensures |free| + |used| == 64
  {
    assert free !! used && free + used == Range(0, 64);
  }
}
