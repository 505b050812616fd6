/** The in-memory tree the image builder starts from, and the image it stands for. */
module QfsTree {
  import opened Bytes
  import opened QfsFormat

  type Name = seq<byte>

  datatype Tree =
    | File(name: Name, contents: seq<byte>)
    | Dir(name: Name, entries: seq<Tree>)

  const SLASH: byte := 47

  /** A path component: a non-empty string without slash or NUL. */
  predicate Component(c: Name) {
    c != [] && SLASH !in c && 0 !in c
  }

  /** Every name below the root is a component that fits the name field with its NUL. */
  ghost predicate WellNamed(t: Tree)
    decreases t
  {
    && 0 !in t.name && |t.name| < 32
    && (t.Dir? ==> forall i | 0 <= i < |t.entries| :: Component(t.entries[i].name) && WellNamed(t.entries[i]))
  }

  /** No two entries of a directory share a name. */
  ghost predicate DistinctNames(t: Tree)
    decreases t
  {
    t.Dir? ==>
      && (forall i, j | 0 <= i < j < |t.entries| :: t.entries[i].name != t.entries[j].name)
      && (forall i | 0 <= i < |t.entries| :: DistinctNames(t.entries[i]))
  }

  // The functions over lists of trees peel off the last tree, as the loop of the builder adds it last.

  /** Sectors of the region of one file or directory, its descendants excluded. */
  function SizeOf(t: Tree): nat {
    match t
    case File(_, contents) => SectorsFor(|contents|)
    case Dir(_, entries) => SectorsFor(60 * |entries|)
  }

  /** Inodes of a subtree. */
  function Count(t: Tree): (n: nat)
    ensures n >= 1
    decreases t, 1
  {
    match t
    case File(_, _) => 1
    case Dir(_, entries) => 1 + CountAll(entries)
  }

  function CountAll(ts: seq<Tree>): nat
    decreases ts, 0
  {
    if ts == [] then 0 else CountAll(ts[..|ts| - 1]) + Count(ts[|ts| - 1])
  }

  /** Sectors of all regions of a subtree. */
  function Sectors(t: Tree): nat
    decreases t, 1
  {
    match t
    case File(_, _) => SizeOf(t)
    case Dir(_, entries) => SizeOf(t) + SectorsAll(entries)
  }

  function SectorsAll(ts: seq<Tree>): nat
    decreases ts, 0
  {
    if ts == [] then 0 else SectorsAll(ts[..|ts| - 1]) + Sectors(ts[|ts| - 1])
  }

  /** Number and first sector of the `i`-th entry of a directory whose first entry has `id` and `sector`. */
  function IdOf(ts: seq<Tree>, id: nat, i: nat): nat
    requires i <= |ts|
  {
    id + CountAll(ts[..i])
  }

  function SectorOf(ts: seq<Tree>, sector: nat, i: nat): nat
    requires i <= |ts|
  {
    sector + SectorsAll(ts[..i])
  }

  lemma NextEntry(ts: seq<Tree>, id: nat, i: nat)
    requires i < |ts|
    ensures IdOf(ts, id, i + 1) == IdOf(ts, id, i) + Count(ts[i])
    ensures SectorOf(ts, id, i + 1) == SectorOf(ts, id, i) + Sectors(ts[i])
  {
    assert ts[..i + 1][..i] == ts[..i];
  }

  lemma {:induction false} EntriesInOrder(ts: seq<Tree>, id: nat, i: nat, j: nat)
    requires i <= j <= |ts|
    ensures IdOf(ts, id, i) + (j - i) <= IdOf(ts, id, j)
    ensures SectorOf(ts, id, i) <= SectorOf(ts, id, j)
  {
    if i < j {
      EntriesInOrder(ts, id, i, j - 1);
      NextEntry(ts, id, j - 1);
    }
  }

  lemma LastEntry(ts: seq<Tree>, id: nat)
    ensures IdOf(ts, id, |ts|) == id + CountAll(ts)
    ensures SectorOf(ts, id, |ts|) == id + SectorsAll(ts)
  {
    assert ts[..|ts|] == ts;
  }

  /** The numbers of the entries of a directory. */
  function Ids(ts: seq<Tree>, id: nat): (ids: seq<nat>)
    ensures |ids| == |ts|
  {
    seq(|ts|, i requires 0 <= i < |ts| => IdOf(ts, id, i))
  }

  lemma NextId(ts: seq<Tree>, id: nat, i: nat)
    requires i < |ts|
    ensures Ids(ts, id)[..i + 1] == Ids(ts, id)[..i] + [IdOf(ts, id, i)]
  {
    assert Ids(ts, id)[i] == IdOf(ts, id, i);
  }

  /** The region of a tree numbered `id`: the file's bytes, or the numbers of the entries, zero-padded. */
  function Payload(t: Tree, id: nat): (b: seq<byte>)
    ensures |b| == 512 * SizeOf(t)
  {
    match t
    case File(_, contents) => Pad(contents, 512 * SizeOf(t))
    case Dir(_, entries) => Pad(Words(Ids(entries, id + 1)), 512 * SizeOf(t))
  }

  function InodeOf(t: Tree, sector: nat): (n: Inode)
    ensures |n.name| == 32
  {
    ConstructInode(sector, SizeOf(t), if t.File? then PERM_FILE else PERM_DIR, 0, 0, 0, t.name)
  }

  /** All regions of a subtree, one after another in pre-order with no gap. */
  function Blob(t: Tree, id: nat): (b: seq<byte>)
    ensures |b| == 512 * Sectors(t)
    decreases t, 2
  {
    Payload(t, id) + BlobBelow(t, id)
  }

  /** The regions of the proper descendants. */
  function BlobBelow(t: Tree, id: nat): (b: seq<byte>)
    ensures |b| == 512 * (Sectors(t) - SizeOf(t))
    decreases t, 1
  {
    if t.Dir? then BlobAll(t.entries, id + 1) else []
  }

  function BlobAll(ts: seq<Tree>, id: nat): (b: seq<byte>)
    ensures |b| == 512 * SectorsAll(ts)
    decreases ts, 0
  {
    if ts == [] then []
    else
      var k := |ts| - 1;
      BlobAll(ts[..k], id) + Blob(ts[k], IdOf(ts, id, k))
  }

  /** The inode-table bytes of a subtree whose regions start at `sector`, in pre-order. */
  function TableBytes(t: Tree, sector: nat): (b: seq<byte>)
    ensures |b| == 60 * Count(t)
    decreases t, 2
  {
    Encode(InodeOf(t, sector)) + TableBelow(t, sector)
  }

  function TableBelow(t: Tree, sector: nat): (b: seq<byte>)
    ensures |b| == 60 * (Count(t) - 1)
    decreases t, 1
  {
    if t.Dir? then TableBytesAll(t.entries, sector + SizeOf(t)) else []
  }

  function TableBytesAll(ts: seq<Tree>, sector: nat): (b: seq<byte>)
    ensures |b| == 60 * CountAll(ts)
    decreases ts, 0
  {
    if ts == [] then []
    else
      var k := |ts| - 1;
      TableBytesAll(ts[..k], sector) + TableBytes(ts[k], SectorOf(ts, sector, k))
  }

  lemma NextBlob(ts: seq<Tree>, id: nat, i: nat)
    requires i < |ts|
    ensures BlobAll(ts[..i + 1], id) == BlobAll(ts[..i], id) + Blob(ts[i], IdOf(ts, id, i))
  {
    assert ts[..i + 1][..i] == ts[..i];
    assert IdOf(ts[..i + 1], id, i) == IdOf(ts, id, i);
  }

  lemma NextTableBytes(ts: seq<Tree>, sector: nat, i: nat)
    requires i < |ts|
    ensures TableBytesAll(ts[..i + 1], sector)
         == TableBytesAll(ts[..i], sector) + TableBytes(ts[i], SectorOf(ts, sector, i))
  {
    assert ts[..i + 1][..i] == ts[..i];
    assert SectorOf(ts[..i + 1], sector, i) == SectorOf(ts, sector, i);
  }

  /** Sectors of the inode table. */
  function TableSectors(t: Tree): nat {
    SectorsFor(60 * Count(t))
  }

  /** Sectors of the whole file system. */
  function ImageSectors(t: Tree): nat {
    TableSectors(t) + Sectors(t)
  }

  /** The whole file system: the padded inode table, then every region in pre-order. */
  function Image(t: Tree): (b: seq<byte>)
    ensures |b| == 512 * ImageSectors(t)
  {
    Pad(TableBytes(t, TableSectors(t)), 512 * TableSectors(t)) + Blob(t, 0)
  }
}
