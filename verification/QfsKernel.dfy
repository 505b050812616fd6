/** The kernel's side of the file system (qfs.c): sector transfers, the inode cache and path lookup. */
module QfsKernel {
  import opened Options
  import opened Bytes
  import opened QfsFormat
  import opened QfsTree
  import opened QfsPath
  import opened QfsNodes

  datatype VNode = VNode(a: Inode, id: nat, disk: nat, present: bool)

  const EMPTY_INODE := Inode(0, 0, 0, 0, 0, 0, Zeros(32))
  const EMPTY_VNODE := VNode(EMPTY_INODE, 0, 0, false)

  /** Whole 88-byte `vnode`s in a cache of `pages` pages. */
  function Capacity(pages: nat): nat {
    pages * 4096 / 88
  }

  /** `strcmp` on two C strings held in buffers. */
  function Strcmp(a: seq<byte>, b: seq<byte>): int {
    var x: int := if a == [] then 0 else a[0];
    var y: int := if b == [] then 0 else b[0];
    if x != 0 && y != 0 && x == y then Strcmp(a[1..], b[1..]) else x - y
  }

  lemma {:induction false} StrcmpZero(a: seq<byte>, b: seq<byte>)
    ensures Strcmp(a, b) == 0 <==> CStr(a) == CStr(b)
  {
    if a != [] && b != [] && a[0] != 0 && a[0] == b[0] {
      StrcmpZero(a[1..], b[1..]);
      assert CStr(a)[1..] == CStr(a[1..]) && CStr(b)[1..] == CStr(b[1..]);
    }
  }

  lemma {:induction false} CStrWhole(c: seq<byte>)
    requires 0 !in c
    ensures CStr(c) == c
  {
    if c != [] {
      CStrWhole(c[1..]);
      assert c == [c[0]] + c[1..];
    }
  }

  /** What a read of an inode comes to. */
  datatype Transfer = Data(bytes: seq<byte>) | PastBound | BadSize

  datatype Answer = Panic | Null | Found(inode: Inode)

  ghost predicate Answers(r: Answer, w: Walked) {
    match w
    case Hit(n) => r == Found(n.inode)
    case Miss => r == Null
    case Fault => r == Panic
    case Astray => true
  }

  /** A cached inode is the one on the disk. */
  ghost predicate SlotCoherent(disk: seq<byte>, v: VNode, i: nat) {
    v.present ==> 60 * (i + 1) <= |disk| && v.a == InodeAt(disk, i)
  }

  ghost predicate AllOnDisk(disk: seq<byte>, kids: seq<Node>) {
    forall i {:trigger InodeOnDisk(disk, kids[i])} | 0 <= i < |kids| :: InodeOnDisk(disk, kids[i])
  }

  class Qfs {
    var disk: seq<byte>      // the sectors of the file system, LBA 0 first
    var kINb: array<VNode>   // the inode cache
    var kINb_sz: nat         // its size in pages

    ghost predicate Valid()
      reads this
    {
      kINb.Length == Capacity(kINb_sz)
    }

    /** Every cached inode is the one on the disk. */
    ghost predicate Coherent()
      reads this, kINb
    {
      forall i {:trigger SlotCoherent(disk, kINb[i], i)} | 0 <= i < kINb.Length :: SlotCoherent(disk, kINb[i], i)
    }

    ghost predicate Cached(id: nat)
      reads this, kINb
    {
      id < kINb.Length && kINb[id].present
    }

    constructor (disk: seq<byte>)
      ensures this.disk == disk && Valid() && Coherent() && fresh(kINb)
      ensures forall id :: !Cached(id)
    {
      this.disk := disk;
      kINb := new VNode[0];
      kINb_sz := 0;
    }

    /** The disk transfers whole sectors; its length argument is 16 bits wide. Other lengths are an error. */
    method Read(lba: nat, len: nat) returns (m: Option<seq<byte>>)
      requires 512 * lba + len % 65536 <= |disk|
      ensures m == if len % 512 == 0 then Some(disk[512 * lba..512 * lba + len % 65536]) else None
    {
      if len % 512 != 0 {
        return None;
      }
      m := Some(disk[512 * lba..512 * lba + len % 65536]);
    }

    method Write(lba: nat, len: nat, data: seq<byte>) returns (ok: bool)
      requires len % 65536 <= |data| && 512 * lba + len % 65536 <= |disk|
      modifies this`disk
      ensures ok <==> len % 512 == 0
      ensures disk == if ok then Splice(old(disk), 512 * lba, data[..len % 65536]) else old(disk)
    {
      ok := len % 512 == 0;
      if ok {
        disk := Splice(disk, 512 * lba, data[..len % 65536]);
      }
    }

    method ReadPLUS(offset: nat, size: nat) returns (buffer: seq<byte>)
      requires 512 * ((offset + size) / 512 + 1) <= |disk|
      requires 512 * (1 + (offset + size) / 512 - offset / 512) < 65536
      ensures buffer == disk[offset..offset + size]
    {
      var lba1, lba2 := offset / 512, (offset + size) / 512;
      var len := (1 + (lba2 - lba1)) * 512;
      assert len % 512 == 0;
      var buffer2 := Read(lba1, len);
      buffer := buffer2.value[offset % 512..offset % 512 + size];
    }

    method WritePLUS(offset: nat, size: nat, data: seq<byte>)
      requires |data| == size && 512 * ((offset + size) / 512 + 1) <= |disk|
      requires 512 * (1 + (offset + size) / 512 - offset / 512) < 65536
      modifies this`disk
      ensures disk == Splice(old(disk), offset, data)
    {
      var lba1, lba2 := offset / 512, (offset + size) / 512;
      var len := (1 + (lba2 - lba1)) * 512;
      var buffer2 := Read(lba1, len);
      var patched := Splice(buffer2.value, offset % 512, data);
      PatchSectors(disk, 512 * lba1, 512 * lba1 + len, offset, offset % 512, data, buffer2.value, patched);
      assert patched[..len] == patched;
      var ok := Write(lba1, len, patched);
      var again := Read(lba1, len);
    }

    /** A cached inode, copied out. */
    method CacheGet(id: nat) returns (r: Option<Inode>)
      requires Valid()
      ensures r == if Cached(id) then Some(kINb[id].a) else None
    {
      if id >= Capacity(kINb_sz) {
        return None;
      }
      if kINb[id].present {
        return Some(kINb[id].a);
      }
      return None;
    }

    /** Enter an inode, growing the cache until its slot exists; an entry that is there already stays. */
    method CacheAdd(a: Inode, id: nat)
      requires Valid()
      modifies this`kINb, this`kINb_sz, kINb
      ensures Valid() && (kINb == old(kINb) || fresh(kINb)) && id < kINb.Length
      ensures forall i | 0 <= i < kINb.Length ::
                kINb[i] == if i == id && !old(Cached(i)) then VNode(a, id, 0, true)
                           else if i < old(kINb.Length) then old(kINb[i]) else EMPTY_VNODE
      ensures kINb.Length >= old(kINb.Length)
    {
      while id >= Capacity(kINb_sz)
        invariant Valid() && (kINb == old(kINb) || fresh(kINb)) && kINb.Length >= old(kINb.Length)
        invariant forall i | 0 <= i < kINb.Length ::
                    kINb[i] == if i < old(kINb.Length) then old(kINb[i]) else EMPTY_VNODE
        invariant unchanged(old(kINb))
        decreases id - Capacity(kINb_sz)
      {
        var kINb2 := new VNode[Capacity(2 * kINb_sz + 1)](_ => EMPTY_VNODE);
        forall i | 0 <= i < kINb.Length {
          kINb2[i] := kINb[i];
        }
        kINb := kINb2;
        kINb_sz := 2 * kINb_sz + 1;
      }
      if !kINb[id].present {
        kINb[id] := VNode(a, id, 0, true);
      }
    }

    method Invalidate(id: nat)
      requires Valid()
      modifies kINb
      ensures Valid()
      ensures forall i | 0 <= i < kINb.Length :: kINb[i] == if i == id then EMPTY_VNODE else old(kINb[i])
      ensures old(Coherent()) ==> Coherent()
      ensures forall i: nat :: Cached(i) <==> old(Cached(i)) && i != id
    {
      assert forall i | 0 <= i < kINb.Length && old(Coherent()) :: SlotCoherent(disk, old(kINb[i]), i);
      if id >= Capacity(kINb_sz) {
        return;
      }
      kINb[id] := EMPTY_VNODE;
    }

    /** The inode numbered `id`: the 60 bytes at `60 * id`, whether they come from the cache or the disk. */
    method GrabInode(id: nat) returns (res: Inode)
      requires Valid() && Coherent() && Readable(disk, id)
      modifies this`kINb, this`kINb_sz, kINb
      ensures Valid() && Coherent() && (kINb == old(kINb) || fresh(kINb))
      ensures res == InodeAt(disk, id)
      ensures forall i :: Cached(i) <==> i == id || old(Cached(i))
    {
      var cached := CacheGet(id);
      if cached.Some? {
        assert SlotCoherent(disk, kINb[id], id);
        return cached.value;
      }
      var bytes := ReadPLUS(id * 60, 60);
      res := Decode(bytes);
      CacheAdd(res, id);
    }

    method InodeRead(n: Inode, position: nat, len: nat) returns (r: Transfer)
      requires 512 * (n.chunkaddr1 + n.chunklen) <= |disk|
      ensures r == PastBound <==> position + len > 512 * n.chunklen
      ensures r == BadSize <==> position + len <= 512 * n.chunklen && len % 512 != 0
      ensures r.Data? ==> r.bytes == Region(disk, n)[position - position % 512..position - position % 512 + len % 65536]
    {
      if position + len > 512 * n.chunklen {
        return PastBound;
      }
      var m := Read(n.chunkaddr1 + position / 512, len);
      RegionSlice(disk, n, position - position % 512, len % 65536);
      r := if m.None? then BadSize else Data(m.value);
    }

    /** `getI`: the first inode slot whose chunk length reads zero. */
    method GetI() returns (i: nat)
      requires exists k: nat :: Readable(disk, k) && InodeAt(disk, k).chunklen == 0
      ensures FirstFree(disk, i)
    {
      ghost var k: nat :| Readable(disk, k) && InodeAt(disk, k).chunklen == 0;
      i := 0;
      while true
        invariant i <= k && forall j: nat | j < i :: Readable(disk, j) && InodeAt(disk, j).chunklen != 0
        decreases k - i
      {
        var b := ReadPLUS(i * 60, 60);
        if Decode(b).chunklen == 0 {
          return;
        }
        i := i + 1;
      }
    }

    /** `writeIN`: it does not touch the cache, which stays coherent exactly when it held nothing else in the slot. */
    method WriteIN(a: Inode, no: nat)
      requires Valid() && a.Valid() && Readable(disk, no)
      modifies this`disk
      ensures disk == Splice(old(disk), 60 * no, Encode(a)) && InodeAt(disk, no) == a
      ensures old(Coherent()) ==> (Coherent() <==> (Cached(no) ==> kINb[no].a == a))
    {
      WritePLUS(no * 60, 60, Encode(a));
      DecodeEncode(a);
      forall i | 0 <= i < kINb.Length
        ensures i != no ==> (SlotCoherent(disk, kINb[i], i) <==> SlotCoherent(old(disk), kINb[i], i))
        ensures i == no ==> (SlotCoherent(disk, kINb[i], i) <==> (Cached(no) ==> kINb[no].a == a))
      {
        if i != no && 60 * (i + 1) <= |disk| {
          SpliceElsewhere(old(disk), 60 * no, Encode(a), 60 * i, 60 * (i + 1));
        }
      }
    }

    /** `addtoD`: the number goes into the first zero word of the directory, whose cache entry is dropped. */
    method AddToD(dir: VNode, toadd: nat, ghost ids: seq<nat>)
      requires Valid() && Coherent()
      requires 512 * (dir.a.chunkaddr1 + dir.a.chunklen) <= |disk| && 512 * dir.a.chunklen < 65536
      requires DirRegion(Region(disk, dir.a), ids) && 8 * (|ids| + 1) <= 512 * dir.a.chunklen
      requires forall i: nat | Cached(i) :: 60 * (i + 1) <= 512 * dir.a.chunkaddr1
      modifies this`disk, kINb
      ensures Valid() && Coherent() && kINb == old(kINb)
      ensures 512 * dir.a.chunkaddr1 + 8 * |ids| + 8 <= |old(disk)|
           && disk == Splice(old(disk), 512 * dir.a.chunkaddr1 + 8 * |ids|, Le(toadd, 8))
      ensures forall i: nat :: Cached(i) <==> old(Cached(i)) && i != dir.id
    {
      StoreAboveInodes(dir.a, toadd, ids);
      Invalidate(dir.id);
    }

    /** Directories lie above the inodes, so that the cache stays right. */
    method StoreAboveInodes(dir: Inode, toadd: nat, ghost ids: seq<nat>)
      requires Coherent() && 512 * (dir.chunkaddr1 + dir.chunklen) <= |disk| && 512 * dir.chunklen < 65536
      requires DirRegion(Region(disk, dir), ids) && 8 * (|ids| + 1) <= 512 * dir.chunklen
      requires forall i: nat | Cached(i) :: 60 * (i + 1) <= 512 * dir.chunkaddr1
      modifies this`disk
      ensures Coherent() && 512 * dir.chunkaddr1 + 8 * |ids| + 8 <= |old(disk)|
           && disk == Splice(old(disk), 512 * dir.chunkaddr1 + 8 * |ids|, Le(toadd, 8))
    {
      StoreInFirstZero(dir, toadd, ids);
      ghost var p := 512 * dir.chunkaddr1 + 8 * |ids|;
      assert disk == Splice(old(disk), p, Le(toadd, 8));
      forall i | 0 <= i < kINb.Length && kINb[i].present
        ensures SlotCoherent(disk, kINb[i], i)
      {
        assert old(Cached(i)) && SlotCoherent(old(disk), kINb[i], i);
        InodeBelow(old(disk), p, Le(toadd, 8), i);
      }
    }

    method StoreInFirstZero(dir: Inode, toadd: nat, ghost ids: seq<nat>)
      requires 512 * (dir.chunkaddr1 + dir.chunklen) <= |disk| && 512 * dir.chunklen < 65536
      requires DirRegion(Region(disk, dir), ids) && 8 * (|ids| + 1) <= 512 * dir.chunklen
      modifies this`disk
      ensures 512 * dir.chunkaddr1 + 8 * |ids| + 8 <= |old(disk)|
           && disk == Splice(old(disk), 512 * dir.chunkaddr1 + 8 * |ids|, Le(toadd, 8))
    {
      assert (dir.chunklen * 512) % 65536 == 512 * dir.chunklen;
      var sectors := Read(dir.chunkaddr1, dir.chunklen * 512);
      var b := sectors.value;
      assert b == Region(disk, dir);
      var last := FirstZeroWord(b, ids);
      var patched := Splice(b, 8 * last, Le(toadd, 8));
      WholeRegion(disk, dir, 512 * dir.chunkaddr1, 8 * last, Le(toadd, 8), b, patched);
      var ok := Write(dir.chunkaddr1, dir.chunklen * 512, patched);
    }

    /** Entry `l` of a directory, and whether it has the name that is looked for. */
    method EntryNamed(id: nat, c: Name, ghost kids: seq<Node>, ghost l: nat) returns (entry: Inode, same: bool)
      requires Valid() && Coherent() && 0 !in c && AllOnDisk(disk, kids) && l < |kids| && id == kids[l].id
      modifies this`kINb, this`kINb_sz, kINb
      ensures Valid() && Coherent() && (kINb == old(kINb) || fresh(kINb))
      ensures entry == kids[l].inode && (same <==> CStr(entry.name) == c)
      ensures forall i :: Cached(i) <==> i == id || old(Cached(i))
    {
      assert InodeOnDisk(disk, kids[l]);
      entry := GrabInode(id);
      NameMatches(entry, c);
      same := Strcmp(entry.name, c) == 0;
    }

    /** The scan of one directory for a name, with the entry's inode as the result. */
    method ScanDirectory(curdir: Inode, c: Name, ghost n: Node) returns (r: Answer)
      requires Valid() && Coherent() && 0 !in c
      requires DirOnDisk(disk, n) && curdir == n.inode
      modifies this`kINb, this`kINb_sz, kINb
      ensures Valid() && Coherent() && (kINb == old(kINb) || fresh(kINb))
      ensures forall i :: Cached(i) ==> old(Cached(i)) || i in KidIds(n.kids)
      ensures Answers(r, Step(n, c))
    {
      var page := ReadPage(curdir, KidIds(n.kids));
      if page.None? {
        return Panic;
      }
      r := ScanWords(page.value, c, n.kids, KidIds(n.kids));
    }

    /** The first sector of a directory, in a cleared page. */
    method ReadPage(curdir: Inode, ghost ids: seq<nat>) returns (page: Option<seq<byte>>)
      requires 512 * (curdir.chunkaddr1 + curdir.chunklen) <= |disk|
      requires curdir.chunklen > 0 ==> DirRegion(Region(disk, curdir), ids)
      ensures page.None? <==> curdir.chunklen == 0
      ensures page.Some? ==> PageOk(page.value, ids)
    {
      var first := InodeRead(curdir, 0, 512);
      if !first.Data? {
        return None;
      }
      var m := first.bytes + Zeros(3584);
      PageWords(Region(disk, curdir), ids, m);
      return Some(m);
    }

    method ReadWord(m: seq<byte>, l: nat, ghost ids: seq<nat>) returns (w: nat)
      requires PageOk(m, ids) && l <= Limit(|ids|)
      ensures w == if l < Limit(|ids|) then ids[l] else 0
    {
      assert WordOk(m, ids, l);
      w := WordAt(m, l);
    }

    /** Its loop over the words of the page. */
    method ScanWords(m: seq<byte>, c: Name, ghost kids: seq<Node>, ghost ids: seq<nat>) returns (r: Answer)
      requires Valid() && Coherent() && 0 !in c
      requires ids == KidIds(kids) && PageOk(m, ids) && forall i | 0 <= i < |ids| :: 0 < ids[i]
      requires AllOnDisk(disk, kids)
      modifies this`kINb, this`kINb_sz, kINb
      ensures Valid() && Coherent() && (kINb == old(kINb) || fresh(kINb))
      ensures forall i :: Cached(i) ==> old(Cached(i)) || i in ids
      ensures Answers(r, KidNamed(kids, c))
    {
      var l := 0;
      var id := ReadWord(m, l, ids);
      while id != 0
        invariant Valid() && Coherent() && (kINb == old(kINb) || fresh(kINb))
        invariant forall i :: Cached(i) ==> old(Cached(i)) || i in ids
        invariant l <= Limit(|ids|) && id == (if l < Limit(|ids|) then ids[l] else 0)
        invariant FindKid(kids, c, 0) == FindKid(kids, c, l)
        decreases Limit(|ids|) - l
      {
        assert ids[l] in ids && ids[l] == kids[l].id;
        var entry, same := EntryNamed(id, c, kids, l);
        if same {
          return Found(entry);
        }
        FindKidSkips(kids, c, l);
        l := l + 1;
        id := ReadWord(m, l, ids);
      }
      return Null;
    }

    /** Walk from `basedir` through the directory components and look up the last one. */
    method Descend(basedir: Inode, dirs: seq<Name>, name: Name, ghost root: Node) returns (r: Answer)
      requires Valid() && Coherent() && 0 !in name && forall c | c in dirs :: 0 !in c
      requires OnDisk(disk, root) && basedir == root.inode && Walk(root, dirs + [name]) != Astray
      modifies this`kINb, this`kINb_sz, kINb
      ensures Valid() && Coherent() && (kINb == old(kINb) || fresh(kINb))
      ensures forall i :: Cached(i) ==> old(Cached(i)) || i in AllIds(root)
      ensures Answers(r, Walk(root, dirs + [name]))
    {
      ghost var cs := dirs + [name];
      var curdir := basedir;
      ghost var node := root;
      assert cs[0..] == cs;
      for j := 0 to |dirs|
        invariant Valid() && Coherent() && (kINb == old(kINb) || fresh(kINb))
        invariant forall i :: Cached(i) ==> old(Cached(i)) || i in AllIds(root)
        invariant OnDisk(disk, node) && curdir == node.inode
        invariant Walk(root, cs) == Walk(node, cs[j..]) && AllIds(node) <= AllIds(root)
      {
        var n := ScanBelow(curdir, dirs[j], node, cs[j..]);
        if !n.Found? {
          return n;
        }
        node := Step(node, dirs[j]).node;
        curdir := n.inode;
      }
      r := ScanBelow(curdir, name, node, cs[|dirs|..]);
    }

    /** One component: the scan answers with the next step of the walk. */
    method ScanBelow(curdir: Inode, c: Name, ghost node: Node, ghost cs: seq<Name>) returns (r: Answer)
      requires Valid() && Coherent() && 0 !in c && cs != [] && cs[0] == c
      requires OnDisk(disk, node) && curdir == node.inode && Walk(node, cs) != Astray
      modifies this`kINb, this`kINb_sz, kINb
      ensures Valid() && Coherent() && (kINb == old(kINb) || fresh(kINb))
      ensures forall i :: Cached(i) ==> old(Cached(i)) || i in AllIds(node)
      ensures Answers(r, Step(node, c)) && Step(node, c) != Astray && (|cs| == 1 ==> Walk(node, cs) == Step(node, c))
      ensures Walk(node, cs) == if Step(node, c).Hit? then Walk(Step(node, c).node, cs[1..]) else Step(node, c)
      ensures Step(node, c).Hit? ==> OnDisk(disk, Step(node, c).node) && AllIds(Step(node, c).node) <= AllIds(node)
    {
      WalkStep(node, cs);
      OnDiskDir(disk, node);
      KidsBelow(node);
      r := ScanDirectory(curdir, c, node);
    }

    /**
     * Resolve a path from `basedir`. The answer is the one of the walk over the nodes on the disk, and the
     * inodes that end up in the cache are those of nodes below the start.
     */
    method GetFileFromFilename(basedir: Inode, filename: seq<byte>, ghost root: Node) returns (r: Answer)
      requires Valid() && Coherent() && SLASH in filename && 0 !in filename
      requires OnDisk(disk, root) && basedir == root.inode
      requires Parse(filename).Parsed? ==> Walk(root, Parse(filename).dirs + [Parse(filename).name]) != Astray
      modifies this`kINb, this`kINb_sz, kINb
      ensures Valid() && Coherent() && (kINb == old(kINb) || fresh(kINb))
      ensures forall i :: Cached(i) ==> old(Cached(i)) || i in AllIds(root)
      ensures match Parse(filename)
              case Rejected => r == Panic
              case Missing => r == Null
              case Parsed(dirs, name) => Answers(r, Walk(root, dirs + [name]))
    {
      var slashes, e := CountPass(filename);
      if slashes.None? {
        return Panic;
      }
      var slashcount := if slashes.value > 0 then slashes.value - 1 else 0;
      var directories := SplitPass(filename, slashcount);
      if directories.None? {
        return Null;
      }
      var name, at := NamePass(filename, e);
      ComponentsClean(filename, directories.value, name);
      r := Descend(basedir, directories.value, name, root);
    }
  }

  method FirstZeroWord(b: seq<byte>, ghost ids: seq<nat>) returns (last: nat)
    requires DirRegion(b, ids) && b != []
    ensures last == |ids|
  {
    last := 0;
    RegionWord(b, ids, 0);
    while WordAt(b, last) != 0
      invariant last <= |ids| && (WordAt(b, last) == 0 <==> last == |ids|)
      decreases |ids| - last
    {
      last := last + 1;
      RegionWord(b, ids, last);
    }
  }

  lemma WholeRegion(disk: seq<byte>, n: Inode, from: nat, off: nat, w: seq<byte>, b: seq<byte>, patched: seq<byte>)
    requires 512 * (n.chunkaddr1 + n.chunklen) <= |disk| && off + |w| <= 512 * n.chunklen && from == 512 * n.chunkaddr1
    requires b == Region(disk, n) && patched == Splice(b, off, w)
    ensures patched[..512 * n.chunklen] == patched
    ensures Splice(disk, from, patched) == Splice(disk, from + off, w)
  {
    var to := 512 * (n.chunkaddr1 + n.chunklen);
    PatchSectors(disk, from, to, from + off, off, w, b, patched);
  }

  lemma InodeBelow(disk: seq<byte>, p: nat, d: seq<byte>, i: nat)
    requires p + |d| <= |disk| && 60 * (i + 1) <= p
    ensures InodeAt(Splice(disk, p, d), i) == InodeAt(disk, i)
  {
    SpliceElsewhere(disk, p, d, 60 * i, 60 * (i + 1));
  }

  ghost predicate FirstFree(fs: seq<byte>, i: nat) {
    && Readable(fs, i) && InodeAt(fs, i).chunklen == 0
    && forall j: nat | j < i :: Readable(fs, j) && InodeAt(fs, j).chunklen != 0
  }

  lemma RegionWord(b: seq<byte>, ids: seq<nat>, l: nat)
    requires DirRegion(b, ids) && b != [] && l <= |ids|
    ensures WordAt(b, l) == if l < |ids| then ids[l] else 0
  {
    if l < |ids| {
      WordsAt(ids, b, l);
    } else {
      ZeroWordAt(b, l);
    }
  }

  /** All inode numbers of a subtree. */
  function AllIds(n: Node): (ids: set<nat>)
    ensures n.id in ids
    decreases n
  {
    match n
    case FileNode(id, _, _) => {id}
    case DirNode(id, _, kids) => {id} + (set i, x | 0 <= i < |kids| && x in AllIds(kids[i]) :: x)
  }

  lemma KidsBelow(n: Node)
    requires n.DirNode?
    ensures forall k | k in n.kids :: AllIds(k) <= AllIds(n)
    ensures forall x | x in KidIds(n.kids) :: x in AllIds(n)
  {
    forall x | x in KidIds(n.kids)
      ensures x in AllIds(n)
    {
      var i :| 0 <= i < |n.kids| && KidIds(n.kids)[i] == x;
      assert x in AllIds(n.kids[i]);
    }
  }

  /** One step of a walk that does not go astray. */
  lemma WalkStep(n: Node, cs: seq<Name>)
    requires cs != [] && Walk(n, cs) != Astray
    ensures n.DirNode? && Step(n, cs[0]) != Astray
    ensures Walk(n, cs) == if Step(n, cs[0]).Hit? then Walk(Step(n, cs[0]).node, cs[1..]) else Step(n, cs[0])
    ensures Step(n, cs[0]).Hit? ==> Step(n, cs[0]).node in n.kids
    ensures |cs| == 1 ==> Walk(n, cs) == Step(n, cs[0])
  {
  }

  lemma {:induction false} PiecesClean(s: seq<byte>, i: nat, count: nat)
    requires i <= |s| && 0 !in s && Pieces(s, i, count).Some?
    ensures forall c | c in Pieces(s, i, count).value :: 0 !in c
    decreases count
  {
    if count > 0 {
      var k := NextSlash(s, i);
      PiecesClean(s, k + 1, count - 1);
      assert forall b | b in s[i..k] :: b in s;
    }
  }

  lemma ComponentsClean(s: seq<byte>, dirs: seq<Name>, name: Name)
    requires SLASH in s && 0 !in s && Parse(s) == Parsed(dirs, name)
    ensures 0 !in name && forall c | c in dirs :: 0 !in c
  {
    var count := if Runs(s) > 0 then Runs(s) - 1 else 0;
    if count > 0 {
      PiecesClean(s, 1, count);
    }
    assert s[..|s|] == s;
    assert forall b | b in name :: b in s;
  }

  lemma PatchSectors(disk: seq<byte>, a: nat, b: nat, p: nat, off: nat, d: seq<byte>, was: seq<byte>, inner: seq<byte>)
    requires a <= p && p + |d| <= b <= |disk| && off == p - a
    requires was == disk[a..b] && inner == Splice(was, off, d)
    ensures Splice(disk, a, inner) == Splice(disk, p, d)
  {
    var one, two := Splice(disk, a, inner), Splice(disk, p, d);
    assert |one| == |two|;
    forall i | 0 <= i < |one|
      ensures one[i] == two[i]
    {
    }
  }

  lemma RegionSlice(disk: seq<byte>, n: Inode, position: nat, len: nat)
    requires 512 * (n.chunkaddr1 + n.chunklen) <= |disk| && position + len <= 512 * n.chunklen && position % 512 == 0
    ensures disk[512 * (n.chunkaddr1 + position / 512)..512 * (n.chunkaddr1 + position / 512) + len]
         == Region(disk, n)[position..position + len]
  {
    var region := Region(disk, n);
    var slice := region[position..position + len];
    assert At(disk, 512 * n.chunkaddr1, region) && At(region, position, slice);
    AtPart(disk, 512 * n.chunkaddr1, region, position, slice, 512 * (n.chunkaddr1 + position / 512));
  }

  /** The words the scan sees: the entries, the first 64 at most, then a zero. */
  predicate WordOk(page: seq<byte>, ids: seq<nat>, l: nat)
    requires l <= Limit(|ids|) && |page| == 4096
  {
    WordAt(page, l) == if l < Limit(|ids|) then ids[l] else 0
  }

  /** The words of a page are the first 64 numbers and then a zero. */
  ghost predicate PageOk(page: seq<byte>, ids: seq<nat>) {
    |page| == 4096 && forall l {:trigger WordOk(page, ids, l)} | 0 <= l <= Limit(|ids|) :: WordOk(page, ids, l)
  }

  lemma PageWords(region: seq<byte>, ids: seq<nat>, page: seq<byte>)
    requires DirRegion(region, ids) && |region| >= 512 && page == region[0..512] + Zeros(3584)
    ensures PageOk(page, ids)
  {
    forall l | 0 <= l <= Limit(|ids|)
      ensures WordOk(page, ids, l)
    {
      PageWord(region, ids, page, l);
    }
  }

  lemma PagePrefix(region: seq<byte>, page: seq<byte>, a: nat, b: nat)
    requires |region| >= 512 && page == region[0..512] + Zeros(3584) && a <= b <= 512
    ensures page[a..b] == region[a..b]
  {
    assert forall k | a <= k < b :: page[k] == region[0..512][k] == region[k];
  }

  lemma PageWord(region: seq<byte>, ids: seq<nat>, page: seq<byte>, l: nat)
    requires DirRegion(region, ids) && |region| >= 512
    requires page == region[0..512] + Zeros(3584) && l <= Limit(|ids|)
    ensures WordAt(page, l) == if l < Limit(|ids|) then ids[l] else 0
  {
    if l == 64 {
      ZeroWordAt(page, l);
    } else {
      PagePrefix(region, page, 8 * l, 8 * l + 8);
      if l < |ids| {
        WordsAt(ids, region, l);
      } else {
        ZeroWordAt(region, l);
      }
    }
  }

  lemma NameMatches(n: Inode, c: Name)
    requires 0 !in c
    ensures Strcmp(n.name, c) == 0 <==> CStr(n.name) == c
  {
    StrcmpZero(n.name, c);
    CStrWhole(c);
  }

  lemma FindKidSkips(kids: seq<Node>, c: Name, i: nat)
    requires i < Limit(|kids|) && CStr(kids[i].inode.name) != c
    ensures FindKid(kids, c, i) == FindKid(kids, c, i + 1)
  {
  }

  /** `get_file_from_filename` for the canonical path with the given components. */
  method ResolveJoined(q: Qfs, basedir: Inode, cs: seq<Name>, ghost root: Node) returns (r: Answer)
    requires q.Valid() && q.Coherent() && OnDisk(q.disk, root) && basedir == root.inode
    requires cs != [] && (forall i | 0 <= i < |cs| :: Component(cs[i])) && Walk(root, cs) != Astray
    modifies q`kINb, q`kINb_sz, q.kINb
    ensures q.Valid() && q.Coherent() && (q.kINb == old(q.kINb) || fresh(q.kINb))
    ensures forall i :: q.Cached(i) ==> old(q.Cached(i)) || i in AllIds(root)
    ensures Answers(r, Walk(root, cs))
  {
    ParseOfJoin(cs);
    JoinClean(cs);
    InitAndLast(cs);
    r := q.GetFileFromFilename(basedir, Join(cs), root);
  }
}
