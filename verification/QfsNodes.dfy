/** What the kernel finds on a disk: numbered inodes, the bytes of files and the entries of directories. */
module QfsNodes {
  import opened Bytes
  import opened QfsFormat
  import opened QfsTree

  datatype Node =
    | FileNode(id: nat, inode: Inode, bytes: seq<byte>)
    | DirNode(id: nat, inode: Inode, kids: seq<Node>)

  function KidIds(kids: seq<Node>): (ids: seq<nat>)
    ensures |ids| == |kids|
  {
    seq(|kids|, i requires 0 <= i < |kids| => kids[i].id)
  }

  /** A directory region: the numbers of the entries, then zeros, with room for at least one zero word. */
  ghost predicate DirRegion(b: seq<byte>, ids: seq<nat>) {
    && (forall i | 0 <= i < |ids| :: 0 < ids[i] < Pow256(8))
    && (b == [] ==> ids == [])
    && (b != [] ==> 8 * (|ids| + 1) <= |b| && b == Pad(Words(ids), |b|))
  }

  /** The sectors `readPLUS` transfers for inode `id`: it always takes the one that holds the byte after it. */
  predicate Readable(fs: seq<byte>, id: nat)
    ensures Readable(fs, id) ==> 60 * (id + 1) <= |fs|
  {
    512 * (60 * (id + 1) / 512 + 1) <= |fs|
  }

  ghost predicate InodeOnDisk(fs: seq<byte>, n: Node) {
    && Readable(fs, n.id)
    && InodeAt(fs, n.id) == n.inode
    && 0 in n.inode.name
    && 512 * (n.inode.chunkaddr1 + n.inode.chunklen) <= |fs|
  }

  function Region(fs: seq<byte>, inode: Inode): (b: seq<byte>)
    requires 512 * (inode.chunkaddr1 + inode.chunklen) <= |fs|
    ensures |b| == 512 * inode.chunklen
  {
    fs[512 * inode.chunkaddr1..512 * (inode.chunkaddr1 + inode.chunklen)]
  }

  /** The subtree of `n` is stored in the file system `fs`. */
  ghost predicate OnDisk(fs: seq<byte>, n: Node)
    decreases n
  {
    && InodeOnDisk(fs, n)
    && match n
       case FileNode(_, inode, bytes) => Region(fs, inode) == bytes
       case DirNode(_, inode, kids) =>
         && DirRegion(Region(fs, inode), KidIds(kids))
         && forall i | 0 <= i < |kids| :: OnDisk(fs, kids[i])
  }

  // The walk along a path.

  datatype Walked =
    | Hit(node: Node)
    | Miss       // no such entry
    | Fault      // the region of an empty directory is read: ERR_FILE_PASTBOUND
    | Astray     // a file would be scanned as a directory

  function Limit(n: nat): (m: nat)
    ensures m <= n && m <= 64 && (m < n ==> m == 64)
  {
    if n <= 64 then n else 64
  }

  /** First of the entries from `i` on, among the first 64, that has the name. */
  function FindKid(kids: seq<Node>, c: Name, i: nat): (k: nat)
    requires i <= Limit(|kids|)
    ensures i <= k <= Limit(|kids|)
    ensures k < Limit(|kids|) ==> CStr(kids[k].inode.name) == c
    decreases |kids| - i
  {
    if i == Limit(|kids|) || CStr(kids[i].inode.name) == c then i else FindKid(kids, c, i + 1)
  }

  /** Look one component up in one directory. */
  function Step(n: Node, c: Name): Walked {
    if n.FileNode? then Astray
    else if n.inode.chunklen == 0 then Fault
    else
      KidNamed(n.kids, c)
  }

  /** The first of the entries that a scan sees with the given name. */
  function KidNamed(kids: seq<Node>, c: Name): Walked {
    var k := FindKid(kids, c, 0);
    if k == Limit(|kids|) then Miss else Hit(kids[k])
  }

  function Walk(n: Node, cs: seq<Name>): Walked
    decreases |cs|
  {
    if cs == [] then Hit(n)
    else
      var s := Step(n, cs[0]);
      if s.Hit? then Walk(s.node, cs[1..]) else s
  }

  /** What a scan of one directory relies on. */
  ghost predicate DirOnDisk(fs: seq<byte>, n: Node) {
    && n.DirNode?
    && InodeOnDisk(fs, n)
    && DirRegion(Region(fs, n.inode), KidIds(n.kids))
    && forall i | 0 <= i < |n.kids| :: InodeOnDisk(fs, n.kids[i])
  }

  lemma OnDiskDir(fs: seq<byte>, n: Node)
    requires OnDisk(fs, n) && n.DirNode?
    ensures DirOnDisk(fs, n)
    ensures forall i | 0 <= i < |n.kids| :: OnDisk(fs, n.kids[i])
  {
  }

  // The nodes of the image of a tree.

  function LayoutOf(t: Tree, id: nat, sector: nat): (n: Node)
    ensures n.id == id && n.inode == InodeOf(t, sector)
    decreases t
  {
    match t
    case File(_, _) => FileNode(id, InodeOf(t, sector), Payload(t, id))
    case Dir(_, entries) =>
      DirNode(id, InodeOf(t, sector),
              seq(|entries|, i requires 0 <= i < |entries| =>
                LayoutOf(entries[i], IdOf(entries, id + 1, i), SectorOf(entries, sector + SizeOf(t), i))))
  }

  lemma LayoutKids(t: Tree, id: nat, sector: nat)
    requires t.Dir?
    ensures var n := LayoutOf(t, id, sector);
            && n.DirNode? && |n.kids| == |t.entries|
            && KidIds(n.kids) == Ids(t.entries, id + 1)
            && forall i | 0 <= i < |n.kids| :: n.kids[i]
                 == LayoutOf(t.entries[i], IdOf(t.entries, id + 1, i), SectorOf(t.entries, sector + SizeOf(t), i))
  {
  }

  lemma {:induction false} BlobPrefix(ts: seq<Tree>, id: nat, j: nat)
    requires j <= |ts|
    ensures BlobAll(ts[..j], id) <= BlobAll(ts, id)
  {
    if j == |ts| {
      assert ts[..j] == ts;
    } else {
      var k := |ts| - 1;
      assert ts[..k][..j] == ts[..j];
      BlobPrefix(ts[..k], id, j);
    }
  }

  lemma BlobAt(ts: seq<Tree>, id: nat, i: nat)
    requires i < |ts|
    ensures At(BlobAll(ts, id), |BlobAll(ts[..i], id)|, Blob(ts[i], IdOf(ts, id, i)))
  {
    NextBlob(ts, id, i);
    BlobPrefix(ts, id, i + 1);
    Prefix(BlobAll(ts, id), BlobAll(ts[..i], id), Blob(ts[i], IdOf(ts, id, i)));
  }

  lemma Prefix(s: seq<byte>, a: seq<byte>, b: seq<byte>)
    requires a + b <= s
    ensures At(s, |a|, b)
  {
    assert At(s, 0, a + b);
    AtParts(s, 0, a, b, |a|);
  }

  lemma {:induction false} TablePrefix(ts: seq<Tree>, sector: nat, j: nat)
    requires j <= |ts|
    ensures TableBytesAll(ts[..j], sector) <= TableBytesAll(ts, sector)
  {
    if j == |ts| {
      assert ts[..j] == ts;
    } else {
      var k := |ts| - 1;
      assert ts[..k][..j] == ts[..j];
      TablePrefix(ts[..k], sector, j);
    }
  }

  lemma TableAt(ts: seq<Tree>, sector: nat, i: nat)
    requires i < |ts|
    ensures At(TableBytesAll(ts, sector), |TableBytesAll(ts[..i], sector)|, TableBytes(ts[i], SectorOf(ts, sector, i)))
  {
    NextTableBytes(ts, sector, i);
    TablePrefix(ts, sector, i + 1);
    Prefix(TableBytesAll(ts, sector), TableBytesAll(ts[..i], sector), TableBytes(ts[i], SectorOf(ts, sector, i)));
  }

  /** `fs` holds the table bytes and the regions of `t`, numbered from `id` and laid out from `sector`. */
  ghost predicate Holds(fs: seq<byte>, t: Tree, id: nat, sector: nat) {
    |fs| < Pow256(8) && At(fs, 60 * id, TableBytes(t, sector)) && At(fs, 512 * sector, Blob(t, id))
  }

  lemma HeldRegion(fs: seq<byte>, t: Tree, id: nat, sector: nat)
    requires Holds(fs, t, id, sector)
    ensures At(fs, 512 * sector, Payload(t, id))
    ensures At(fs, 512 * (sector + SizeOf(t)), BlobBelow(t, id))
  {
    AtParts(fs, 512 * sector, Payload(t, id), BlobBelow(t, id), 512 * (sector + SizeOf(t)));
  }

  lemma HeldInode(fs: seq<byte>, t: Tree, id: nat, sector: nat)
    requires Holds(fs, t, id, sector)
    ensures 60 * (id + 1) <= |fs| && InodeAt(fs, id) == InodeOf(t, sector)
    ensures At(fs, 60 * (id + 1), TableBelow(t, sector))
    ensures At(fs, 512 * sector, Payload(t, id))
  {
    var n := InodeOf(t, sector);
    AtParts(fs, 60 * id, Encode(n), TableBelow(t, sector), 60 * (id + 1));
    assert At(fs, 512 * sector, Payload(t, id)) by { HeldRegion(fs, t, id, sector); }
    DecodeEncode(n);
  }

  lemma HeldKid(fs: seq<byte>, t: Tree, id: nat, sector: nat, i: nat)
    requires t.Dir? && i < |t.entries| && Holds(fs, t, id, sector)
    ensures Holds(fs, t.entries[i], IdOf(t.entries, id + 1, i), SectorOf(t.entries, sector + SizeOf(t), i))
  {
    var id1, sec1 := id + 1, sector + SizeOf(t);
    HeldBelow(fs, t, id, sector, id1, sec1);
    HeldKidTable(fs, t, 60 * id1, id1, sec1, i);
    HeldKidBlob(fs, t, 512 * sec1, id1, sec1, i);
  }

  lemma HeldBelow(fs: seq<byte>, t: Tree, id: nat, sector: nat, id1: nat, sec1: nat)
    requires t.Dir? && Holds(fs, t, id, sector) && id1 == id + 1 && sec1 == sector + SizeOf(t)
    ensures At(fs, 60 * id1, TableBytesAll(t.entries, sec1)) && At(fs, 512 * sec1, BlobAll(t.entries, id1))
  {
    HeldInode(fs, t, id, sector);
    HeldRegion(fs, t, id, sector);
  }

  lemma HeldKidTable(fs: seq<byte>, t: Tree, p: nat, id1: nat, sec1: nat, i: nat)
    requires t.Dir? && i < |t.entries| && p == 60 * id1 && At(fs, p, TableBytesAll(t.entries, sec1))
    ensures At(fs, 60 * IdOf(t.entries, id1, i), TableBytes(t.entries[i], SectorOf(t.entries, sec1, i)))
  {
    var ts := t.entries;
    TableAt(ts, sec1, i);
    AtPart(fs, p, TableBytesAll(ts, sec1), |TableBytesAll(ts[..i], sec1)|,
           TableBytes(ts[i], SectorOf(ts, sec1, i)), 60 * IdOf(ts, id1, i));
  }

  lemma HeldKidBlob(fs: seq<byte>, t: Tree, p: nat, id1: nat, sec1: nat, i: nat)
    requires t.Dir? && i < |t.entries| && p == 512 * sec1 && At(fs, p, BlobAll(t.entries, id1))
    ensures At(fs, 512 * SectorOf(t.entries, sec1, i), Blob(t.entries[i], IdOf(t.entries, id1, i)))
  {
    var ts := t.entries;
    BlobAt(ts, id1, i);
    AtPart(fs, p, BlobAll(ts, id1), |BlobAll(ts[..i], id1)|,
           Blob(ts[i], IdOf(ts, id1, i)), 512 * SectorOf(ts, sec1, i));
  }

  /** The builder's image read as nodes: the two programs agree on the layout. */
  lemma {:induction false} LayoutOnDisk(fs: seq<byte>, t: Tree, id: nat, sector: nat)
    requires Holds(fs, t, id, sector) && WellNamed(t)
    requires forall i | id <= i < id + Count(t) :: Readable(fs, i)
    ensures OnDisk(fs, LayoutOf(t, id, sector))
    decreases t
  {
    var n := LayoutOf(t, id, sector);
    assert Readable(fs, id);
    OwnOnDisk(fs, t, id, sector, n);
    if t.Dir? {
      LayoutKids(t, id, sector);
      forall i | 0 <= i < |n.kids|
        ensures OnDisk(fs, n.kids[i])
      {
        HeldKid(fs, t, id, sector, i);
        KidNumbers(t, id, i);
        LayoutOnDisk(fs, t.entries[i], IdOf(t.entries, id + 1, i), SectorOf(t.entries, sector + SizeOf(t), i));
      }
    }
  }

  lemma OwnOnDisk(fs: seq<byte>, t: Tree, id: nat, sector: nat, n: Node)
    requires Holds(fs, t, id, sector) && Readable(fs, id) && 0 !in t.name && |t.name| < 32
    requires n == LayoutOf(t, id, sector)
    ensures InodeOnDisk(fs, n)
    ensures n.FileNode? ==> Region(fs, n.inode) == n.bytes
    ensures n.DirNode? ==> DirRegion(Region(fs, n.inode), KidIds(n.kids))
  {
    HeldInode(fs, t, id, sector);
    assert Region(fs, n.inode) == Payload(t, id);
    if t.Dir? {
      LayoutKids(t, id, sector);
      DirPayload(fs, t, id, sector);
    }
  }

  lemma KidNumbers(t: Tree, id: nat, i: nat)
    requires t.Dir? && i < |t.entries|
    ensures id < IdOf(t.entries, id + 1, i)
    ensures IdOf(t.entries, id + 1, i) + Count(t.entries[i]) <= id + Count(t)
  {
    NextEntry(t.entries, id + 1, i);
    EntriesInOrder(t.entries, id + 1, i + 1, |t.entries|);
    LastEntry(t.entries, id + 1);
  }

  lemma DirPayload(fs: seq<byte>, t: Tree, id: nat, sector: nat)
    requires t.Dir? && Holds(fs, t, id, sector)
    ensures DirRegion(Payload(t, id), Ids(t.entries, id + 1))
  {
    var ids := Ids(t.entries, id + 1);
    forall i | 0 <= i < |ids|
      ensures 0 < ids[i] < Pow256(8)
    {
      HeldKid(fs, t, id, sector, i);
      assert ids[i] == IdOf(t.entries, id + 1, i);
    }
  }

  /** The sector that `readPLUS` takes beyond the last inode is always part of the image. */
  lemma AllReadable(fs: seq<byte>, t: Tree, i: nat)
    requires t.Dir? && |fs| >= 512 * ImageSectors(t) && i < Count(t)
    ensures Readable(fs, i)
  {
    if 60 * Count(t) % 512 == 0 {
      assert t.entries != [];
      assert Sectors(t) >= SizeOf(t) >= 1;
    }
  }

  lemma ImageHolds(fs: seq<byte>, t: Tree)
    requires Image(t) <= fs && |fs| < Pow256(8)
    ensures Holds(fs, t, 0, TableSectors(t))
  {
    var n := TableSectors(t);
    var table := TableBytes(t, n);
    assert At(fs, 0, Image(t));
    AtParts(fs, 0, Pad(table, 512 * n), Blob(t, 0), 512 * n);
    assert At(Pad(table, 512 * n), 0, table);
    AtPart(fs, 0, Pad(table, 512 * n), 0, table, 0);
  }
}
