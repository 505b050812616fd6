/** The allocator of the user-level C library (userland/libc.c) on top of `sbrk`. */
module UserHeap {
  import opened Bytes

  /** Addresses; 0 is NULL. */
  type Ptr = nat

  /** A block: its class tag, 0 to 3 for the four buckets and 4 for large ones, and the bytes behind its header. */
  datatype Block = Block(tag: nat, cap: nat)

  function BucketSize(c: nat): nat {
    if c == 0 then 8 else if c == 1 then 64 else if c == 2 then 512 else 4096
  }

  /** The bucket for a request of at most 4096 bytes. */
  function BucketFor(size: nat): nat {
    if size > 64 then (if size > 512 then 3 else 2) else if size > 8 then 1 else 0
  }

  /** The class tag for a request. */
  function TagFor(size: nat): nat {
    if size > 4096 then 4 else BucketFor(size)
  }

  /** The room for a request: the smallest class that fits, or exactly what was asked for. */
  predicate SmallestClass(size: nat, cap: nat) {
    if size > 4096 then cap == size
    else cap in {8, 64, 512, 4096} && size <= cap && (cap == 8 || cap / 8 < size)
  }

  function Room(size: nat): nat {
    if size > 4096 then size else BucketSize(BucketFor(size))
  }

  /** Each bucket has the requests above those of the one before, and its class is the smallest that fits them. */
  lemma BucketMeans(size: nat)
    ensures SmallestClass(size, Room(size))
    ensures size <= 8 ==> BucketFor(size) == 0
    ensures 8 < size <= 64 ==> BucketFor(size) == 1
    ensures 64 < size <= 512 ==> BucketFor(size) == 2
    ensures 512 < size <= 4096 ==> BucketFor(size) == 3
  {
  }

  predicate GoodBlock(b: Block) {
    b.tag <= 4 && (if b.tag < 4 then b.cap == BucketSize(b.tag) else b.cap > 4096)
  }

  // The header of the block at `k`: tag at k - 16, requested size at k - 12, link to the next free block at k - 8.

  ghost predicate BlockOk(mem: seq<byte>, k: Ptr, b: Block) {
    GoodBlock(b) && k >= 16 && k + b.cap <= |mem| && At(mem, k - 16, Le(b.tag, 4))
  }

  ghost predicate Apart(j: Ptr, a: Block, k: Ptr, b: Block) {
    j + a.cap + 16 <= k || k + b.cap + 16 <= j
  }

  /** All blocks ever made are in memory, apart from each other, and have their tags. */
  ghost predicate BlocksOk(mem: seq<byte>, blocks: map<Ptr, Block>) {
    && (forall k {:trigger BlockOk(mem, k, blocks[k])} | k in blocks :: BlockOk(mem, k, blocks[k]))
    && (forall j, k {:trigger Apart(j, blocks[j], k, blocks[k])} | j in blocks && k in blocks && j != k ::
         Apart(j, blocks[j], k, blocks[k]))
  }

  /** A live block: tag and size in its header are those of the request, which fits, and it holds the given bytes. */
  ghost predicate LiveOk(mem: seq<byte>, blocks: map<Ptr, Block>, k: Ptr, d: seq<byte>) {
    && k in blocks && k >= 16 && |d| <= blocks[k].cap && |d| < Pow256(4) && blocks[k].tag == TagFor(|d|)
    && At(mem, k - 12, Le(|d|, 4)) && At(mem, k, d)
  }

  ghost predicate AllLiveOk(mem: seq<byte>, blocks: map<Ptr, Block>, live: map<Ptr, seq<byte>>) {
    forall k {:trigger LiveOk(mem, blocks, k, live[k])} | k in live :: LiveOk(mem, blocks, k, live[k])
  }

  function Nth(q: seq<Ptr>, i: nat): Ptr {
    if i < |q| then q[i] else 0
  }

  /** A free block of class `c`, whose link is `next`. */
  ghost predicate FreeOk(mem: seq<byte>, blocks: map<Ptr, Block>, live: map<Ptr, seq<byte>>, k: Ptr, c: nat,
                         next: Ptr) {
    k in blocks && blocks[k].tag == c && k !in live && k >= 16 && At(mem, k - 8, Le(next, 8))
  }

  ghost predicate FreeAt(mem: seq<byte>, blocks: map<Ptr, Block>, live: map<Ptr, seq<byte>>, q: seq<Ptr>, c: nat,
                         i: nat)
    requires i < |q|
  {
    FreeOk(mem, blocks, live, q[i], c, Nth(q, i + 1))
  }

  /** The bucket list that begins at `head` runs through exactly the blocks in `q` and ends. */
  ghost predicate ListOk(mem: seq<byte>, blocks: map<Ptr, Block>, live: map<Ptr, seq<byte>>, q: seq<Ptr>, head: Ptr,
                         c: nat) {
    && head == Nth(q, 0)
    && (forall i {:trigger FreeAt(mem, blocks, live, q, c, i)} | 0 <= i < |q| :: FreeAt(mem, blocks, live, q, c, i))
    && (forall i, j | 0 <= i < j < |q| :: q[i] != q[j])
  }

  /** A block of a bucket is live or in the list of its own bucket. */
  ghost predicate Accounted(k: Ptr, b: Block, live: map<Ptr, seq<byte>>, free: seq<seq<Ptr>>) {
    b.tag < 4 && b.tag < |free| ==> k in live || k in free[b.tag]
  }

  ghost predicate AllAccounted(blocks: map<Ptr, Block>, live: map<Ptr, seq<byte>>, free: seq<seq<Ptr>>) {
    forall k {:trigger Accounted(k, blocks[k], live, free)} | k in blocks :: Accounted(k, blocks[k], live, free)
  }

  ghost predicate Sound(mem: seq<byte>, buckets: seq<Ptr>, blocks: map<Ptr, Block>, live: map<Ptr, seq<byte>>,
                        free: seq<seq<Ptr>>)
  {
    && |buckets| == 4 && |free| == 4 && |mem| <= Pow256(8)
    && BlocksOk(mem, blocks) && AllLiveOk(mem, blocks, live)
    && (forall c {:trigger ListOk(mem, blocks, live, free[c], buckets[c], c)} | 0 <= c < 4 ::
         ListOk(mem, blocks, live, free[c], buckets[c], c))
    && AllAccounted(blocks, live, free)
  }

  // Writing bytes.

  /** The block `b` at `k`, with its header, is apart from all the others. */
  ghost predicate Clear(blocks: map<Ptr, Block>, k: Ptr, b: Block) {
    forall j {:trigger Apart(j, blocks[j], k, b)} | j in blocks && j != k :: Apart(j, blocks[j], k, b)
  }

  /** A patch inside the block at `k` or its header leaves the block at `j` alone. */
  lemma OtherBlock(mem: seq<byte>, k: Ptr, b: Block, p: nat, d: seq<byte>, j: Ptr, a: Block, q: nat, e: seq<byte>)
    requires Apart(j, a, k, b) && p + |d| <= |mem| && k <= p + 16 && p + |d| <= k + b.cap
    requires j <= q + 16 && q + |e| <= j + a.cap && At(mem, q, e)
    ensures At(Splice(mem, p, d), q, e)
  {
    AtSplice(mem, p, d, q, e);
  }

  lemma BlocksKept(mem: seq<byte>, blocks: map<Ptr, Block>, k: Ptr, b: Block, p: nat, d: seq<byte>)
    requires BlocksOk(mem, blocks) && Clear(blocks, k, b) && p + |d| <= |mem|
    requires k <= p + (if k in blocks then 12 else 16) && p + |d| <= k + b.cap
    ensures BlocksOk(Splice(mem, p, d), blocks)
  {
    forall j | j in blocks
      ensures BlockOk(Splice(mem, p, d), j, blocks[j])
    {
      assert BlockOk(mem, j, blocks[j]);
      if j == k {
        AtSplice(mem, p, d, j - 16, Le(blocks[j].tag, 4));
      } else {
        OtherBlock(mem, k, b, p, d, j, blocks[j], j - 16, Le(blocks[j].tag, 4));
      }
    }
  }

  lemma LiveKept(mem: seq<byte>, blocks: map<Ptr, Block>, k: Ptr, b: Block, p: nat, d: seq<byte>, j: Ptr, e: seq<byte>)
    requires Clear(blocks, k, b) && p + |d| <= |mem| && k <= p + 16 && p + |d| <= k + b.cap
    requires LiveOk(mem, blocks, j, e) && j != k
    ensures LiveOk(Splice(mem, p, d), blocks, j, e)
  {
    assert Apart(j, blocks[j], k, b);
    OtherBlock(mem, k, b, p, d, j, blocks[j], j - 12, Le(|e|, 4));
    OtherBlock(mem, k, b, p, d, j, blocks[j], j, e);
  }

  lemma LivesKept(mem: seq<byte>, blocks: map<Ptr, Block>, live: map<Ptr, seq<byte>>, k: Ptr, b: Block, p: nat,
                  d: seq<byte>)
    requires AllLiveOk(mem, blocks, live) && Clear(blocks, k, b) && p + |d| <= |mem|
    requires k <= p + 16 && p + |d| <= k + b.cap && k !in live
    ensures AllLiveOk(Splice(mem, p, d), blocks, live)
  {
    forall j | j in live
      ensures LiveOk(Splice(mem, p, d), blocks, j, live[j])
    {
      LiveKept(mem, blocks, k, b, p, d, j, live[j]);
    }
  }

  lemma ListKept(mem: seq<byte>, blocks: map<Ptr, Block>, live: map<Ptr, seq<byte>>, q: seq<Ptr>, head: Ptr, c: nat,
                 k: Ptr, b: Block, p: nat, d: seq<byte>)
    requires ListOk(mem, blocks, live, q, head, c) && Clear(blocks, k, b) && p + |d| <= |mem|
    requires k <= p + 16 && p + |d| <= k + b.cap && k !in q
    ensures ListOk(Splice(mem, p, d), blocks, live, q, head, c)
  {
    forall i | 0 <= i < |q|
      ensures FreeOk(Splice(mem, p, d), blocks, live, q[i], c, Nth(q, i + 1))
    {
      assert FreeAt(mem, blocks, live, q, c, i) && Apart(q[i], blocks[q[i]], k, b);
      OtherBlock(mem, k, b, p, d, q[i], blocks[q[i]], q[i] - 8, Le(Nth(q, i + 1), 8));
    }
  }

  /** A patch of a piece of memory that no block has. */
  lemma PatchElsewhere(mem: seq<byte>, buckets: seq<Ptr>, blocks: map<Ptr, Block>, live: map<Ptr, seq<byte>>,
                       free: seq<seq<Ptr>>, k: Ptr, b: Block, p: nat, d: seq<byte>)
    requires Sound(mem, buckets, blocks, live, free) && k !in blocks && Clear(blocks, k, b) && p + |d| <= |mem|
    requires k <= p + 16 && p + |d| <= k + b.cap
    ensures Sound(Splice(mem, p, d), buckets, blocks, live, free)
  {
    BlocksKept(mem, blocks, k, b, p, d);
    assert k in live ==> LiveOk(mem, blocks, k, live[k]);
    LivesKept(mem, blocks, live, k, b, p, d);
    forall c | 0 <= c < 4
      ensures ListOk(Splice(mem, p, d), blocks, live, free[c], buckets[c], c)
    {
      NotListed(mem, blocks, live, free[c], buckets[c], c, k);
      ListKept(mem, blocks, live, free[c], buckets[c], c, k, b, p, d);
    }
  }

  lemma NotListed(mem: seq<byte>, blocks: map<Ptr, Block>, live: map<Ptr, seq<byte>>, q: seq<Ptr>, head: Ptr, c: nat,
                  k: Ptr)
    requires ListOk(mem, blocks, live, q, head, c) && (k !in blocks || k in live || blocks[k].tag != c)
    ensures k !in q
  {
    forall i | 0 <= i < |q|
      ensures q[i] != k
    {
      assert FreeAt(mem, blocks, live, q, c, i);
    }
  }

  /** A piece of memory for a block: no block has it. */
  ghost predicate Spare(mem: seq<byte>, blocks: map<Ptr, Block>, k: Ptr, b: Block) {
    k !in blocks && GoodBlock(b) && 16 <= k && k + b.cap <= |mem| && Clear(blocks, k, b)
  }

  /** `sbrk` makes the memory behind the end available. */
  lemma Grown(mem: seq<byte>, buckets: seq<Ptr>, blocks: map<Ptr, Block>, live: map<Ptr, seq<byte>>,
              free: seq<seq<Ptr>>, more: seq<byte>, b: Block)
    requires Sound(mem, buckets, blocks, live, free) && |mem| + |more| <= Pow256(8) && |more| == b.cap + 16
    requires GoodBlock(b)
    ensures Sound(mem + more, buckets, blocks, live, free) && Spare(mem + more, blocks, |mem| + 16, b)
  {
    BlocksGrown(mem, blocks, more, b);
    LivesGrown(mem, blocks, live, more);
    forall c | 0 <= c < 4
      ensures ListOk(mem + more, blocks, live, free[c], buckets[c], c)
    {
      ListGrown(mem, more, blocks, live, free[c], buckets[c], c);
    }
  }

  lemma BlocksGrown(mem: seq<byte>, blocks: map<Ptr, Block>, more: seq<byte>, b: Block)
    requires BlocksOk(mem, blocks) && |more| == b.cap + 16 && GoodBlock(b)
    ensures BlocksOk(mem + more, blocks) && Spare(mem + more, blocks, |mem| + 16, b)
  {
    forall j | j in blocks
      ensures BlockOk(mem + more, j, blocks[j]) && j + blocks[j].cap <= |mem|
    {
      assert BlockOk(mem, j, blocks[j]);
      AtMore(mem, more, j - 16, Le(blocks[j].tag, 4));
    }
  }

  lemma LivesGrown(mem: seq<byte>, blocks: map<Ptr, Block>, live: map<Ptr, seq<byte>>, more: seq<byte>)
    requires AllLiveOk(mem, blocks, live)
    ensures AllLiveOk(mem + more, blocks, live)
  {
    forall j | j in live
      ensures LiveOk(mem + more, blocks, j, live[j])
    {
      assert LiveOk(mem, blocks, j, live[j]);
      AtMore(mem, more, j - 12, Le(|live[j]|, 4));
      AtMore(mem, more, j, live[j]);
    }
  }

  lemma AtMore(mem: seq<byte>, more: seq<byte>, q: nat, e: seq<byte>)
    requires At(mem, q, e)
    ensures At(mem + more, q, e)
  {
    assert (mem + more)[q..q + |e|] == mem[q..q + |e|];
  }

  lemma ListGrown(mem: seq<byte>, more: seq<byte>, blocks: map<Ptr, Block>, live: map<Ptr, seq<byte>>, q: seq<Ptr>,
                  head: Ptr, c: nat)
    requires ListOk(mem, blocks, live, q, head, c)
    ensures ListOk(mem + more, blocks, live, q, head, c)
  {
    forall i | 0 <= i < |q|
      ensures FreeAt(mem + more, blocks, live, q, c, i)
    {
      assert FreeAt(mem, blocks, live, q, c, i);
      AtMore(mem, more, q[i] - 8, Le(Nth(q, i + 1), 8));
    }
  }

  /** Taking the first block out of a bucket. */
  lemma Unlinked(mem: seq<byte>, buckets: seq<Ptr>, blocks: map<Ptr, Block>, live: map<Ptr, seq<byte>>,
                 free: seq<seq<Ptr>>, c: nat)
    requires Sound(mem, buckets, blocks, live, free) && c < 4 && buckets[c] != 0
    ensures free[c] != [] && buckets[c] == free[c][0] && 16 <= buckets[c] <= |mem|
    ensures var k := buckets[c];
            && k in blocks && k !in live && blocks[k] == Block(c, BucketSize(c))
            && Spare(mem, blocks - {k}, k, blocks[k])
            && Sound(mem, buckets[c := FromLe(mem[k - 8..k])], blocks - {k}, live, free[c := free[c][1..]])
  {
    var k := buckets[c];
    FirstFree(mem, blocks, live, free[c], k, c);
    var blocks', free', buckets' := blocks - {k}, free[c := free[c][1..]], buckets[c := FromLe(mem[k - 8..k])];
    forall e | 0 <= e < 4
      ensures ListOk(mem, blocks', live, free'[e], buckets'[e], e)
    {
      if e == c {
        TailOk(mem, blocks, live, free[c], k, c);
      } else {
        NotListed(mem, blocks, live, free[e], buckets[e], e, k);
        ListWithout(mem, blocks, live, free[e], buckets[e], e, k);
      }
    }
    BlocksWithout(mem, blocks, k);
    LivesWithout(mem, blocks, live, k);
    AccountedWithout(blocks, live, free, c);
  }

  lemma BlocksWithout(mem: seq<byte>, blocks: map<Ptr, Block>, k: Ptr)
    requires BlocksOk(mem, blocks)
    ensures BlocksOk(mem, blocks - {k})
  {
    forall j | j in blocks - {k}
      ensures BlockOk(mem, j, (blocks - {k})[j])
    {
      assert BlockOk(mem, j, blocks[j]);
    }
  }

  lemma FirstFree(mem: seq<byte>, blocks: map<Ptr, Block>, live: map<Ptr, seq<byte>>, q: seq<Ptr>, k: Ptr, c: nat)
    requires BlocksOk(mem, blocks) && ListOk(mem, blocks, live, q, k, c) && k != 0 && c < 4 && |mem| <= Pow256(8)
    ensures q != [] && k == q[0] && 16 <= k <= |mem| && FromLe(mem[k - 8..k]) == Nth(q, 1)
    ensures k in blocks && k !in live && blocks[k] == Block(c, BucketSize(c))
            && Spare(mem, blocks - {k}, k, blocks[k])
  {
    assert FreeAt(mem, blocks, live, q, c, 0);
    assert BlockOk(mem, k, blocks[k]);
    NextFits(mem, blocks, live, q, k, c);
    LeRoundTrip(Nth(q, 1), 8);
  }

  lemma LivesWithout(mem: seq<byte>, blocks: map<Ptr, Block>, live: map<Ptr, seq<byte>>, k: Ptr)
    requires AllLiveOk(mem, blocks, live) && k !in live
    ensures AllLiveOk(mem, blocks - {k}, live)
  {
    forall j | j in live
      ensures LiveOk(mem, blocks - {k}, j, live[j])
    {
      assert LiveOk(mem, blocks, j, live[j]);
    }
  }

  lemma AccountedWithout(blocks: map<Ptr, Block>, live: map<Ptr, seq<byte>>, free: seq<seq<Ptr>>, c: nat)
    requires AllAccounted(blocks, live, free) && c < |free| && free[c] != []
    ensures AllAccounted(blocks - {free[c][0]}, live, free[c := free[c][1..]])
  {
    var q := free[c];
    var free' := free[c := q[1..]];
    forall k | k in blocks - {q[0]}
      ensures Accounted(k, blocks[k], live, free')
    {
      assert Accounted(k, blocks[k], live, free);
      assert q == [q[0]] + q[1..];
    }
  }

  lemma NextFits(mem: seq<byte>, blocks: map<Ptr, Block>, live: map<Ptr, seq<byte>>, q: seq<Ptr>, head: Ptr, c: nat)
    requires ListOk(mem, blocks, live, q, head, c) && BlocksOk(mem, blocks) && |mem| <= Pow256(8)
    ensures Nth(q, 1) < Pow256(8)
  {
    if |q| > 1 {
      assert FreeAt(mem, blocks, live, q, c, 1);
      assert BlockOk(mem, q[1], blocks[q[1]]);
    }
  }

  lemma TailOk(mem: seq<byte>, blocks: map<Ptr, Block>, live: map<Ptr, seq<byte>>, q: seq<Ptr>, head: Ptr, c: nat)
    requires ListOk(mem, blocks, live, q, head, c) && q != []
    ensures ListOk(mem, blocks - {head}, live, q[1..], Nth(q, 1), c)
  {
    var rest := q[1..];
    forall i | 0 <= i < |rest|
      ensures FreeAt(mem, blocks - {head}, live, rest, c, i)
    {
      assert FreeAt(mem, blocks, live, q, c, i + 1);
      assert q[0] != q[i + 1];
    }
  }

  lemma ListWithout(mem: seq<byte>, blocks: map<Ptr, Block>, live: map<Ptr, seq<byte>>, q: seq<Ptr>, head: Ptr,
                    c: nat, k: Ptr)
    requires ListOk(mem, blocks, live, q, head, c) && k !in q
    ensures ListOk(mem, blocks - {k}, live, q, head, c)
  {
    forall i | 0 <= i < |q|
      ensures FreeAt(mem, blocks - {k}, live, q, c, i)
    {
      assert FreeAt(mem, blocks, live, q, c, i);
    }
  }

  /** The header that `malloc` writes: size first, then tag. */
  function WithHeader(mem: seq<byte>, k: Ptr, tag: nat, size: nat): (mem': seq<byte>)
    requires 16 <= k <= |mem|
    ensures |mem'| == |mem|
  {
    Splice(Splice(mem, k - 12, Le(size, 4)), k - 16, Le(tag, 4))
  }

  /** A spare piece of memory becomes a live block. */
  lemma Made(mem: seq<byte>, buckets: seq<Ptr>, blocks: map<Ptr, Block>, live: map<Ptr, seq<byte>>,
             free: seq<seq<Ptr>>, k: Ptr, b: Block, size: nat)
    requires Sound(mem, buckets, blocks, live, free) && Spare(mem, blocks, k, b)
    requires size <= b.cap && size < Pow256(4) && b.tag == TagFor(size)
    ensures var mem' := WithHeader(mem, k, b.tag, size);
            && Sound(mem', buckets, blocks[k := b], live[k := mem'[k..k + size]], free) && k !in live
            && mem'[k..k + size] == mem[k..k + size]
  {
    var mem1 := Splice(mem, k - 12, Le(size, 4));
    var mem' := WithHeader(mem, k, b.tag, size);
    PatchElsewhere(mem, buckets, blocks, live, free, k, b, k - 12, Le(size, 4));
    PatchElsewhere(mem1, buckets, blocks, live, free, k, b, k - 16, Le(b.tag, 4));
    AtSplice(mem1, k - 16, Le(b.tag, 4), k - 12, Le(size, 4));
    SpliceElsewhere(mem, k - 12, Le(size, 4), k, k + size);
    SpliceElsewhere(mem1, k - 16, Le(b.tag, 4), k, k + size);
    Added(mem', buckets, blocks, live, free, k, b, mem'[k..k + size]);
  }

  lemma Added(mem: seq<byte>, buckets: seq<Ptr>, blocks: map<Ptr, Block>, live: map<Ptr, seq<byte>>,
              free: seq<seq<Ptr>>, k: Ptr, b: Block, d: seq<byte>)
    requires Sound(mem, buckets, blocks, live, free) && Spare(mem, blocks, k, b)
    requires At(mem, k - 16, Le(b.tag, 4)) && LiveOk(mem, blocks[k := b], k, d)
    ensures Sound(mem, buckets, blocks[k := b], live[k := d], free) && k !in live
  {
    var blocks', live' := blocks[k := b], live[k := d];
    assert k in live ==> LiveOk(mem, blocks, k, live[k]);
    forall j | j in live'
      ensures LiveOk(mem, blocks', j, live'[j])
    {
      assert j != k ==> LiveOk(mem, blocks, j, live[j]);
    }
    BlocksWith(mem, blocks, k, b);
    forall c | 0 <= c < 4
      ensures ListOk(mem, blocks', live', free[c], buckets[c], c)
    {
      NotListed(mem, blocks, live, free[c], buckets[c], c, k);
      ListWith(mem, blocks, live, free[c], buckets[c], c, k, b, d);
    }
    forall j | j in blocks'
      ensures Accounted(j, blocks'[j], live', free)
    {
      assert j != k ==> Accounted(j, blocks[j], live, free);
    }
  }

  lemma BlocksWith(mem: seq<byte>, blocks: map<Ptr, Block>, k: Ptr, b: Block)
    requires BlocksOk(mem, blocks) && Spare(mem, blocks, k, b) && At(mem, k - 16, Le(b.tag, 4))
    ensures BlocksOk(mem, blocks[k := b])
  {
    var blocks' := blocks[k := b];
    forall j | j in blocks'
      ensures BlockOk(mem, j, blocks'[j])
    {
      assert j != k ==> BlockOk(mem, j, blocks[j]);
    }
    forall j, l | j in blocks' && l in blocks' && j != l
      ensures Apart(j, blocks'[j], l, blocks'[l])
    {
      assert j != k && l != k ==> Apart(j, blocks[j], l, blocks[l]);
      assert j != k ==> Apart(j, blocks[j], k, b);
      assert l != k ==> Apart(l, blocks[l], k, b);
    }
  }

  lemma ListWith(mem: seq<byte>, blocks: map<Ptr, Block>, live: map<Ptr, seq<byte>>, q: seq<Ptr>, head: Ptr, c: nat,
                 k: Ptr, b: Block, d: seq<byte>)
    requires ListOk(mem, blocks, live, q, head, c) && k !in q
    ensures ListOk(mem, blocks[k := b], live[k := d], q, head, c)
  {
    var blocks', live' := blocks[k := b], live[k := d];
    forall i | 0 <= i < |q|
      ensures FreeAt(mem, blocks', live', q, c, i)
    {
      assert FreeAt(mem, blocks, live, q, c, i);
    }
  }

  /** `free` of a block that belongs to a bucket: its link is written, its tag stays. */
  lemma Freed(mem: seq<byte>, buckets: seq<Ptr>, blocks: map<Ptr, Block>, live: map<Ptr, seq<byte>>,
              free: seq<seq<Ptr>>, k: Ptr, c: nat)
    requires Sound(mem, buckets, blocks, live, free) && k in live && k in blocks && blocks[k].tag == c < 4
    requires 16 <= k <= |mem|
    ensures Sound(Splice(mem, k - 8, Le(buckets[c], 8)), buckets[c := k], blocks, live - {k}, free[c := [k] + free[c]])
  {
    var d, mem', live' := Le(buckets[c], 8), Splice(mem, k - 8, Le(buckets[c], 8)), live - {k};
    var b := blocks[k];
    assert BlockOk(mem, k, b) && Clear(blocks, k, b);
    BlocksKept(mem, blocks, k, b, k - 8, d);
    LivesLess(mem, blocks, live, k);
    LivesKept(mem, blocks, live', k, b, k - 8, d);
    var free', buckets' := free[c := [k] + free[c]], buckets[c := k];
    forall e | 0 <= e < 4
      ensures ListOk(mem', blocks, live', free'[e], buckets'[e], e)
    {
      NotListed(mem, blocks, live, free[e], buckets[e], e, k);
      ListKept(mem, blocks, live, free[e], buckets[e], e, k, b, k - 8, d);
      ListLess(mem', blocks, live, free[e], buckets[e], e, k);
      if e == c {
        ListPushed(mem', blocks, live', free[c], buckets[c], c, k);
      }
    }
    AccountedFreed(blocks, live, free, c, k);
  }

  lemma AccountedFreed(blocks: map<Ptr, Block>, live: map<Ptr, seq<byte>>, free: seq<seq<Ptr>>, c: nat, k: Ptr)
    requires AllAccounted(blocks, live, free) && c < |free|
    requires k in blocks && blocks[k].tag == c
    ensures AllAccounted(blocks, live - {k}, free[c := [k] + free[c]])
  {
    var live', free' := live - {k}, free[c := [k] + free[c]];
    forall j | j in blocks
      ensures Accounted(j, blocks[j], live', free')
    {
      assert Accounted(j, blocks[j], live, free);
      assert ([k] + free[c])[0] == k;
    }
  }

  lemma LivesLess(mem: seq<byte>, blocks: map<Ptr, Block>, live: map<Ptr, seq<byte>>, k: Ptr)
    requires AllLiveOk(mem, blocks, live)
    ensures AllLiveOk(mem, blocks, live - {k})
  {
    forall j | j in live - {k}
      ensures LiveOk(mem, blocks, j, (live - {k})[j])
    {
      assert LiveOk(mem, blocks, j, live[j]);
    }
  }

  lemma ListLess(mem: seq<byte>, blocks: map<Ptr, Block>, live: map<Ptr, seq<byte>>, q: seq<Ptr>, head: Ptr, c: nat,
                 k: Ptr)
    requires ListOk(mem, blocks, live, q, head, c)
    ensures ListOk(mem, blocks, live - {k}, q, head, c)
  {
    forall i | 0 <= i < |q|
      ensures FreeAt(mem, blocks, live - {k}, q, c, i)
    {
      assert FreeAt(mem, blocks, live, q, c, i);
    }
  }

  lemma ListPushed(mem: seq<byte>, blocks: map<Ptr, Block>, live: map<Ptr, seq<byte>>, q: seq<Ptr>, head: Ptr, c: nat,
                   k: Ptr)
    requires ListOk(mem, blocks, live, q, head, c) && FreeOk(mem, blocks, live, k, c, head) && k !in q
    ensures ListOk(mem, blocks, live, [k] + q, k, c)
  {
    var q' := [k] + q;
    forall i | 0 <= i < |q'|
      ensures FreeAt(mem, blocks, live, q', c, i)
    {
      assert i > 0 ==> FreeAt(mem, blocks, live, q, c, i - 1);
    }
  }

  /** Freeing a large block only gives it up. */
  lemma FreedLarge(mem: seq<byte>, buckets: seq<Ptr>, blocks: map<Ptr, Block>, live: map<Ptr, seq<byte>>,
                   free: seq<seq<Ptr>>, k: Ptr)
    requires Sound(mem, buckets, blocks, live, free) && k in blocks && blocks[k].tag == 4
    ensures Sound(mem, buckets, blocks, live - {k}, free)
  {
    LivesLess(mem, blocks, live, k);
    forall c | 0 <= c < 4
      ensures ListOk(mem, blocks, live - {k}, free[c], buckets[c], c)
    {
      ListLess(mem, blocks, live, free[c], buckets[c], c, k);
    }
    forall j | j in blocks
      ensures Accounted(j, blocks[j], live - {k}, free)
    {
      assert Accounted(j, blocks[j], live, free);
    }
  }

  /** A store into a live block. */
  lemma StoredSound(mem: seq<byte>, buckets: seq<Ptr>, blocks: map<Ptr, Block>, live: map<Ptr, seq<byte>>,
                    free: seq<seq<Ptr>>, k: Ptr, off: nat, d: seq<byte>)
    requires Sound(mem, buckets, blocks, live, free) && k in live && off + |d| <= |live[k]|
    ensures k in blocks && k + off + |d| <= |mem|
    ensures Sound(Splice(mem, k + off, d), buckets, blocks, live[k := Splice(live[k], off, d)], free)
  {
    assert LiveOk(mem, blocks, k, live[k]);
    var b, p := blocks[k], k + off;
    assert BlockOk(mem, k, b) && Clear(blocks, k, b);
    var mem', live' := Splice(mem, p, d), live[k := Splice(live[k], off, d)];
    BlocksKept(mem, blocks, k, b, p, d);
    forall j | j in live'
      ensures LiveOk(mem', blocks, j, live'[j])
    {
      if j == k {
        StoredHere(mem, blocks, k, live[k], off, d);
      } else {
        LiveKept(mem, blocks, k, b, p, d, j, live[j]);
      }
    }
    forall c | 0 <= c < 4
      ensures ListOk(mem', blocks, live', free[c], buckets[c], c)
    {
      NotListed(mem, blocks, live, free[c], buckets[c], c, k);
      ListKept(mem, blocks, live, free[c], buckets[c], c, k, b, p, d);
      ListWith(mem', blocks, live, free[c], buckets[c], c, k, b, live'[k]);
      assert blocks[k := b] == blocks;
    }
    forall j | j in blocks
      ensures Accounted(j, blocks[j], live', free)
    {
      assert Accounted(j, blocks[j], live, free);
    }
  }

  lemma StoredHere(mem: seq<byte>, blocks: map<Ptr, Block>, k: Ptr, e: seq<byte>, off: nat, d: seq<byte>)
    requires LiveOk(mem, blocks, k, e) && off + |d| <= |e|
    ensures LiveOk(Splice(mem, k + off, d), blocks, k, Splice(e, off, d))
  {
    var p := k + off;
    AtSplice(mem, p, d, k - 12, Le(|e|, 4));
    SpliceInside(mem, p, d, k, k + |e|);
  }

  /** Live blocks with their headers are apart from each other and have room for what was asked. */
  lemma LiveApart(mem: seq<byte>, buckets: seq<Ptr>, blocks: map<Ptr, Block>, live: map<Ptr, seq<byte>>,
                  free: seq<seq<Ptr>>, j: Ptr, k: Ptr)
    requires Sound(mem, buckets, blocks, live, free) && j in live && k in live && j != k
    ensures j in blocks && k in blocks && Apart(j, blocks[j], k, blocks[k])
    ensures |live[j]| <= blocks[j].cap && j + blocks[j].cap <= |mem|
    ensures forall c | 0 <= c < 4 :: j !in free[c]
  {
    assert LiveOk(mem, blocks, j, live[j]) && LiveOk(mem, blocks, k, live[k]);
    assert BlockOk(mem, j, blocks[j]) && Apart(j, blocks[j], k, blocks[k]);
    forall c | 0 <= c < 4
      ensures j !in free[c]
    {
      NotListed(mem, blocks, live, free[c], buckets[c], c, j);
    }
  }

  // What blocks hold that nobody wrote to.

  /** What stands at `p` and behind: memory below the break, `junk` above it. */
  function Found(mem: seq<byte>, junk: nat -> byte, p: Ptr, n: nat): (d: seq<byte>)
    ensures |d| == n
  {
    seq(n, i requires 0 <= i < n => if p + i < |mem| then mem[p + i] else junk(p + i))
  }

  /** No free block and no memory behind the break begins with a zero byte. */
  ghost predicate Stained(mem: seq<byte>, free: seq<seq<Ptr>>, junk: nat -> byte) {
    && (forall c, i {:trigger Spot(mem, free, c, i)} | 0 <= c < |free| && 0 <= i < |free[c]| :: Spot(mem, free, c, i))
    && forall p: nat {:trigger junk(p)} | p >= |mem| :: junk(p) != 0
  }

  ghost predicate Spot(mem: seq<byte>, free: seq<seq<Ptr>>, c: nat, i: nat)
    requires c < |free| && i < |free[c]|
  {
    free[c][i] < |mem| && mem[free[c][i]] != 0
  }

  /** A patch of a block that is not free, or of its header, leaves the free blocks as they are. */
  lemma StainedPatch(mem: seq<byte>, buckets: seq<Ptr>, blocks: map<Ptr, Block>, live: map<Ptr, seq<byte>>,
                     free: seq<seq<Ptr>>, junk: nat -> byte, k: Ptr, b: Block, p: nat, d: seq<byte>)
    requires Sound(mem, buckets, blocks, live, free) && Stained(mem, free, junk) && Clear(blocks, k, b)
    requires p + |d| <= |mem| && k <= p + 16 && p + |d| <= k + b.cap && (k !in blocks || k in live)
    ensures Stained(Splice(mem, p, d), free, junk)
  {
    var mem' := Splice(mem, p, d);
    forall c, i | 0 <= c < |free| && 0 <= i < |free[c]|
      ensures Spot(mem', free, c, i)
    {
      var j := free[c][i];
      assert Spot(mem, free, c, i) && ListOk(mem, blocks, live, free[c], buckets[c], c);
      assert FreeAt(mem, blocks, live, free[c], c, i) && BlockOk(mem, j, blocks[j]);
      assert Apart(j, blocks[j], k, b);
      assert At(mem, j, [mem[j]]);
      OtherBlock(mem, k, b, p, d, j, blocks[j], j, [mem[j]]);
      assert mem'[j] == mem'[j..j + 1][0];
    }
  }

  /** The header of a block that `malloc` makes. */
  lemma StainedHeader(mem: seq<byte>, buckets: seq<Ptr>, blocks: map<Ptr, Block>, live: map<Ptr, seq<byte>>,
                      free: seq<seq<Ptr>>, junk: nat -> byte, k: Ptr, b: Block, size: nat)
    requires Sound(mem, buckets, blocks, live, free) && Stained(mem, free, junk) && Spare(mem, blocks, k, b)
    ensures Stained(WithHeader(mem, k, b.tag, size), free, junk)
  {
    PatchElsewhere(mem, buckets, blocks, live, free, k, b, k - 12, Le(size, 4));
    StainedPatch(mem, buckets, blocks, live, free, junk, k, b, k - 12, Le(size, 4));
    StainedPatch(Splice(mem, k - 12, Le(size, 4)), buckets, blocks, live, free, junk, k, b, k - 16, Le(b.tag, 4));
  }

  /** The first block of a bucket is gone. */
  lemma StainedTail(mem: seq<byte>, free: seq<seq<Ptr>>, junk: nat -> byte, c: nat)
    requires Stained(mem, free, junk) && c < |free| && free[c] != []
    ensures Stained(mem, free[c := free[c][1..]], junk) && Spot(mem, free, c, 0)
  {
    var free' := free[c := free[c][1..]];
    forall e, i | 0 <= e < |free'| && 0 <= i < |free'[e]|
      ensures Spot(mem, free', e, i)
    {
      assert e == c ==> Spot(mem, free, c, i + 1) && free'[c][i] == free[c][i + 1];
      assert e != c ==> Spot(mem, free, e, i);
    }
    assert Spot(mem, free, c, 0);
  }

  lemma StainedPush(mem: seq<byte>, free: seq<seq<Ptr>>, junk: nat -> byte, c: nat, k: Ptr)
    requires Stained(mem, free, junk) && c < |free| && k < |mem| && mem[k] != 0
    ensures Stained(mem, free[c := [k] + free[c]], junk)
  {
    var free' := free[c := [k] + free[c]];
    forall e, i | 0 <= e < |free'| && 0 <= i < |free'[e]|
      ensures Spot(mem, free', e, i)
    {
      assert e == c && i > 0 ==> Spot(mem, free, c, i - 1) && free'[c][i] == free[c][i - 1];
      assert e != c ==> Spot(mem, free, e, i);
    }
  }

  lemma StainedGrown(mem: seq<byte>, free: seq<seq<Ptr>>, junk: nat -> byte, more: seq<byte>)
    requires Stained(mem, free, junk)
    ensures Stained(mem + more, free, junk)
  {
    forall c, i | 0 <= c < |free| && 0 <= i < |free[c]|
      ensures Spot(mem + more, free, c, i)
    {
      assert Spot(mem, free, c, i);
    }
  }

  class Heap {
    var mem: seq<byte>             // up to the break
    var buckets: seq<Ptr>          // malloc_bucket8bytes .. malloc_bucket4096bytes
    const junk: nat -> byte        // what lies behind the break
    ghost var blocks: map<Ptr, Block>
    ghost var live: map<Ptr, seq<byte>>
    ghost var free: seq<seq<Ptr>>

    ghost predicate Valid()
      reads this
    {
      Sound(mem, buckets, blocks, live, free)
    }

    /** A block handed out now would not begin with a zero byte. */
    ghost predicate Dirty()
      reads this
    {
      Stained(mem, free, junk)
    }

    /** The first free block of the smallest class begins with these bytes. */
    ghost predicate NextHolds(e: seq<byte>)
      reads this
    {
      |buckets| == 4 && buckets[0] != 0 && At(mem, buckets[0], e)
    }

    /** `initMalloc`, above the memory the program starts with. */
    constructor (mem: seq<byte>, junk: nat -> byte)
      requires |mem| <= Pow256(8)
      ensures Valid() && live == map[] && this.mem == mem && this.junk == junk && buckets == [0, 0, 0, 0]
      ensures (forall p: nat :: junk(p) != 0) ==> Dirty()
    {
      this.mem := mem;
      this.junk := junk;
      buckets := [0, 0, 0, 0];
      blocks, live, free := map[], map[], [[], [], [], []];
    }

    /** The `sbrk` system call: it returns the new break. */
    method Sbrk(n: nat, ghost b: Block) returns (end: nat)
      requires Valid() && |mem| + n <= Pow256(8) && GoodBlock(b) && n == b.cap + 16
      modifies this`mem
      ensures Valid() && |mem| == old(|mem|) + n && end == |mem| && Spare(mem, blocks, old(|mem|) + 16, b)
      ensures old(mem) <= mem && forall i | old(|mem|) <= i < |mem| :: mem[i] == junk(i)
      ensures old(Dirty()) ==> Dirty()
    {
      var brk := |mem|;
      var more: seq<byte> := seq(n, i requires 0 <= i < n => junk(brk + i));
      Grown(mem, buckets, blocks, live, free, more, b);
      if Stained(mem, free, junk) {
        StainedGrown(mem, free, junk, more);
      }
      mem := mem + more;
      end := |mem|;
    }

    /**
     * `malloc`: a new live block of the requested size, the first free one of its bucket if there is one; the other
     * live blocks keep their contents. The new block holds what was there before.
     */
    method Malloc(size: nat) returns (k: Ptr)
      requires Valid() && size < Pow256(4) && |mem| + 16 + (if size > 4096 then size else 4096) <= Pow256(8)
      modifies this
      ensures Valid() && k !in old(live) && k in live && live == old(live)[k := live[k]] && |live[k]| == size
      ensures |mem| <= old(|mem|) + 16 + if size > 4096 then size else 4096
      ensures if size <= 4096 && old(buckets)[BucketFor(size)] != 0 then k == old(buckets)[BucketFor(size)]
              else k == old(|mem|) + 16
      ensures k in blocks && blocks[k] == Block(TagFor(size), Room(size))
      ensures live[k] == Found(old(mem), junk, k, size)
      ensures k == old(|mem|) + 16 ==> buckets == old(buckets)
      ensures old(Dirty()) ==> Dirty() && (size > 0 ==> live[k][0] != 0)
    {
      var tag;
      if size > 4096 {
        tag := 4;
        var end := Sbrk(size + 16, Block(4, size));
        k := end - size;
      } else {
        tag := BucketFor(size);
        if buckets[tag] != 0 {
          k := Pop(tag);
        } else {
          var end := Sbrk(BucketSize(tag) + 16, Block(tag, BucketSize(tag)));
          k := end - BucketSize(tag);
        }
      }
      WriteHeader(k, tag, size, if tag == 4 then size else BucketSize(tag));
    }

    method Pop(c: nat) returns (k: Ptr)
      requires Valid() && c < 4 && buckets[c] != 0
      modifies this`buckets, this`blocks, this`free
      ensures Valid() && k == old(buckets)[c] && Spare(mem, blocks, k, Block(c, BucketSize(c)))
      ensures old(Dirty()) ==> Dirty() && mem[k] != 0
    {
      Unlinked(mem, buckets, blocks, live, free, c);
      ghost var free0 := free;
      k := buckets[c];
      buckets := buckets[c := FromLe(mem[k - 8..k])];
      blocks, free := blocks - {k}, free[c := free[c][1..]];
      if Stained(mem, free0, junk) {
        StainedTail(mem, free0, junk, c);
      }
    }

    method WriteHeader(k: Ptr, tag: nat, size: nat, ghost cap: nat)
      requires Valid() && Spare(mem, blocks, k, Block(tag, cap)) && size <= cap && size < Pow256(4)
      requires tag == TagFor(size)
      modifies this`mem, this`blocks, this`live
      ensures Valid() && |mem| == old(|mem|) && k !in old(live) && k in live
      ensures blocks == old(blocks)[k := Block(tag, cap)]
      ensures k + size <= |mem| && live == old(live)[k := old(mem[k..k + size])]
      ensures old(Dirty()) ==> Dirty()
    {
      if Stained(mem, free, junk) {
        StainedHeader(mem, buckets, blocks, live, free, junk, k, Block(tag, cap), size);
      }
      Made(mem, buckets, blocks, live, free, k, Block(tag, cap), size);
      mem := Splice(mem, k - 12, Le(size, 4));
      mem := Splice(mem, k - 16, Le(tag, 4));
      blocks, live := blocks[k := Block(tag, cap)], live[k := mem[k..k + size]];
    }

    /** `free`: the class comes from the tag in the header. */
    method Free(a: Ptr)
      requires Valid() && a in live
      modifies this
      ensures Valid() && live == old(live) - {a} && |mem| == old(|mem|)
      ensures buckets == if old(|live[a]|) <= 4096 then old(buckets)[BucketFor(old(|live[a]|)) := a] else old(buckets)
      ensures At(mem, a, old(live[a]))
      ensures old(Dirty()) && old(live[a]) != [] && old(live[a][0]) != 0 ==> Dirty()
    {
      Tag(mem, blocks, live, a);
      var c := FromLe(mem[a - 16..a - 12]);
      if c == 4 {
        FreedLarge(mem, buckets, blocks, live, free, a);
        live := live - {a};
      } else {
        Freed(mem, buckets, blocks, live, free, a, c);
        FreedBytes(mem, buckets, blocks, live, free, junk, a, c);
        mem := Splice(mem, a - 8, Le(buckets[c], 8));
        buckets := buckets[c := a];
        live, free := live - {a}, free[c := [a] + free[c]];
      }
    }

    /** A store by the program. */
    method Store(k: Ptr, off: nat, d: seq<byte>)
      requires Valid() && k in live && off + |d| <= |live[k]|
      modifies this`mem, this`live
      ensures Valid() && live == old(live)[k := Splice(old(live)[k], off, d)] && |mem| == old(|mem|)
      ensures old(Dirty()) ==> Dirty()
      ensures forall e {:trigger NextHolds(e)} | |e| <= 8 && old(NextHolds(e)) :: NextHolds(e)
    {
      forall e | |e| <= 8 && NextHolds(e)
        ensures k + off + |d| <= |mem| && At(Splice(mem, k + off, d), buckets[0], e)
      {
        StoreSparesFree(mem, buckets, blocks, live, free, k, off, d, e);
      }
      StoreDirt(mem, buckets, blocks, live, free, junk, k, off, d);
      StoredSound(mem, buckets, blocks, live, free, k, off, d);
      mem := Splice(mem, k + off, d);
      live := live[k := Splice(live[k], off, d)];
    }

    /** A load by the program. */
    method Load(k: Ptr, off: nat, n: nat) returns (d: seq<byte>)
      requires Valid() && k in live && off + n <= |live[k]|
      ensures d == live[k][off..off + n]
    {
      assert LiveOk(mem, blocks, k, live[k]);
      AtPart(mem, k, live[k], off, live[k][off..off + n], k + off);
      d := mem[k + off..k + off + n];
    }

    /** `realloc`, for a size that is not smaller: the contents move along. */
    method Realloc(a: Ptr, size: nat) returns (k: Ptr)
      requires Valid() && a in live && |live[a]| <= size < Pow256(4)
      requires |mem| + 16 + (if size > 4096 then size else 4096) <= Pow256(8)
      modifies this
      ensures Valid() && k !in old(live) && k in live && |live[k]| == size && live[k][..|old(live)[a]|] == old(live)[a]
      ensures live == (old(live) - {a})[k := live[k]]
      ensures old(|live[a]|) <= 8 ==> buckets[0] == a && NextHolds(old(live[a]))
      ensures old(Dirty()) && old(live[a]) != [] && old(live[a][0]) != 0 ==> Dirty()
      ensures |mem| <= old(|mem|) + 16 + if size > 4096 then size else 4096
    {
      k := Malloc(size);
      CopyTo(a, k);
      assert LiveOk(mem, blocks, a, live[a]);
      Free(a);
    }

    /** The bytes of one block, as many as its header says, to the front of another one. */
    method CopyTo(a: Ptr, k: Ptr)
      requires Valid() && a in live && k in live && a != k && |live[a]| <= |live[k]|
      modifies this`mem, this`live
      ensures Valid() && |mem| == old(|mem|) && k in live && a in live && live == old(live)[k := live[k]]
      ensures |live[k]| == |old(live)[k]| && live[k][..|old(live)[a]|] == old(live)[a]
      ensures old(Dirty()) ==> Dirty()
    {
      var n := RequestedSize(a);
      var d := Load(a, 0, n);
      Store(k, 0, d);
    }

    method RequestedSize(a: Ptr) returns (n: nat)
      requires Valid() && a in live
      ensures n == |live[a]|
    {
      assert LiveOk(mem, blocks, a, live[a]);
      assert BlockOk(mem, a, blocks[a]);
      LeRoundTrip(|live[a]|, 4);
      n := FromLe(mem[a - 12..a - 8]);
    }
  }

  lemma StoreSparesFree(mem: seq<byte>, buckets: seq<Ptr>, blocks: map<Ptr, Block>, live: map<Ptr, seq<byte>>,
                        free: seq<seq<Ptr>>, k: Ptr, off: nat, d: seq<byte>, e: seq<byte>)
    requires Sound(mem, buckets, blocks, live, free) && k in live && off + |d| <= |live[k]|
    requires |e| <= 8 && buckets[0] != 0 && At(mem, buckets[0], e)
    ensures k + off + |d| <= |mem| && At(Splice(mem, k + off, d), buckets[0], e)
  {
    var j := buckets[0];
    assert LiveOk(mem, blocks, k, live[k]) && BlockOk(mem, k, blocks[k]);
    assert ListOk(mem, blocks, live, free[0], buckets[0], 0);
    assert FreeAt(mem, blocks, live, free[0], 0, 0) && BlockOk(mem, j, blocks[j]);
    assert Apart(j, blocks[j], k, blocks[k]);
    OtherBlock(mem, k, blocks[k], k + off, d, j, blocks[j], j, e);
  }

  lemma StoreDirt(mem: seq<byte>, buckets: seq<Ptr>, blocks: map<Ptr, Block>, live: map<Ptr, seq<byte>>,
                  free: seq<seq<Ptr>>, junk: nat -> byte, k: Ptr, off: nat, d: seq<byte>)
    requires Sound(mem, buckets, blocks, live, free) && k in live && off + |d| <= |live[k]|
    ensures k + off + |d| <= |mem|
    ensures Stained(mem, free, junk) ==> Stained(Splice(mem, k + off, d), free, junk)
  {
    assert LiveOk(mem, blocks, k, live[k]);
    assert BlockOk(mem, k, blocks[k]) && Clear(blocks, k, blocks[k]);
    if Stained(mem, free, junk) {
      StainedPatch(mem, buckets, blocks, live, free, junk, k, blocks[k], k + off, d);
    }
  }

  /** What `free` leaves of a block: its contents; and the block begins as it did. */
  lemma FreedBytes(mem: seq<byte>, buckets: seq<Ptr>, blocks: map<Ptr, Block>, live: map<Ptr, seq<byte>>,
                   free: seq<seq<Ptr>>, junk: nat -> byte, a: Ptr, c: nat)
    requires Sound(mem, buckets, blocks, live, free) && a in live && a in blocks && blocks[a].tag == c < 4
    requires 16 <= a <= |mem|
    ensures var mem' := Splice(mem, a - 8, Le(buckets[c], 8));
            && At(mem', a, live[a]) && c == TagFor(|live[a]|)
            && (Stained(mem, free, junk) && live[a] != [] && live[a][0] != 0 ==>
                  Stained(mem', free[c := [a] + free[c]], junk))
  {
    var d, mem' := Le(buckets[c], 8), Splice(mem, a - 8, Le(buckets[c], 8));
    assert LiveOk(mem, blocks, a, live[a]);
    assert BlockOk(mem, a, blocks[a]) && Clear(blocks, a, blocks[a]);
    AtSplice(mem, a - 8, d, a, live[a]);
    if Stained(mem, free, junk) && live[a] != [] && live[a][0] != 0 {
      StainedPatch(mem, buckets, blocks, live, free, junk, a, blocks[a], a - 8, d);
      assert mem'[a] == mem'[a..a + |live[a]|][0];
      StainedPush(mem', free, junk, c, a);
    }
  }

  lemma Tag(mem: seq<byte>, blocks: map<Ptr, Block>, live: map<Ptr, seq<byte>>, a: Ptr)
    requires BlocksOk(mem, blocks) && AllLiveOk(mem, blocks, live) && a in live
    ensures a in blocks && 16 <= a <= |mem| && blocks[a].tag <= 4 && FromLe(mem[a - 16..a - 12]) == blocks[a].tag
    ensures At(mem, a, live[a]) && blocks[a].tag == TagFor(|live[a]|)
  {
    assert LiveOk(mem, blocks, a, live[a]);
    assert BlockOk(mem, a, blocks[a]);
    assert Pow256(4) > 4 by { assert Pow256(3) > 0; }
    LeRoundTrip(blocks[a].tag, 4);
  }
}
