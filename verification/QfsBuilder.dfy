/** The image builder (insertFileSystem/main.c), from the in-memory tree on. */
module QfsBuilder {
  import opened Bytes
  import opened QfsFormat
  import opened QfsTree

  // LBA_FS_BASE is 108: the file system starts at that sector of the image.

  /** The image after `fwrite` of `d` at a sector of the file system. */
  function FsWrite(image: seq<byte>, sector: nat, d: seq<byte>): seq<byte> {
    FileWrite(image, 512 * (108 + sector), d)
  }

  lemma FsWriteAdjacent(image: seq<byte>, sector: nat, n: nat, d: seq<byte>, e: seq<byte>)
    requires |d| == 512 * n
    ensures FsWrite(FsWrite(image, sector, d), sector + n, e) == FsWrite(image, sector, d + e)
    ensures FsWrite(FsWrite(image, sector + n, e), sector, d) == FsWrite(image, sector, d + e)
  {
    var p, q := 512 * (108 + sector), 512 * (108 + (sector + n));
    assert q == p + |d|;
    WriteThenNext(image, p, d, e);
    WriteThenPrevious(image, p, d, e);
  }

  lemma FsWriteExtends(before: seq<byte>, image: seq<byte>, next: seq<byte>, sector: nat, n: nat, d: seq<byte>,
                       e: seq<byte>)
    requires |d| == 512 * n && image == FsWrite(before, sector, d) && next == FsWrite(image, sector + n, e)
    ensures next == FsWrite(before, sector, d + e)
  {
    FsWriteAdjacent(before, sector, n, d, e);
  }

  lemma ReadBack(image: seq<byte>, sector: nat, d: seq<byte>, e: seq<byte>)
    ensures FileRead(FsWrite(image, sector, d + e), 512 * (108 + sector), |d|) == d
  {
    var p := 512 * (108 + sector);
    ReadWritten(image, p, d + e);
    assert FileRead(FileWrite(image, p, d + e), p, |d|) == FileRead(FileWrite(image, p, d + e), p, |d + e|)[..|d|];
  }

  /** The inode table after storing packed inodes from number `id` on. */
  function TableWrite(table: seq<byte>, id: nat, d: seq<byte>): (r: seq<byte>)
    requires 60 * id + |d| <= |table|
    ensures |r| == |table|
  {
    Splice(table, 60 * id, d)
  }

  lemma TableWriteAdjacent(table: seq<byte>, id: nat, n: nat, d: seq<byte>, e: seq<byte>)
    requires |d| == 60 * n && 60 * id + |d| + |e| <= |table|
    ensures TableWrite(TableWrite(table, id, d), id + n, e) == TableWrite(table, id, d + e)
    ensures TableWrite(TableWrite(table, id + n, e), id, d) == TableWrite(table, id, d + e)
  {
    SpliceAdjacent(table, 60 * id, d, e);
  }

  class Builder {
    var image: seq<byte>    // the open disk-image file
    const fileLength: nat   // its length when it was opened
    var firstUnused: nat    // FIRST_UNU: the next free sector
    var lastIndex: nat      // the next free inode number
    var table: seq<byte>    // the inode table under construction
    var errors: nat         // errc

    constructor (image: seq<byte>)
      ensures this.image == image && fileLength == |image|
      ensures firstUnused == 0 && lastIndex == 0 && errors == 0
    {
      this.image := image;
      fileLength := |image|;
      firstUnused, lastIndex, table, errors := 0, 0, [], 0;
    }

    /** Write whole sectors to the image; a write that ends past the file is counted as an error. */
    method WriteDiskRegion(lba: nat, len: nat, data: seq<byte>)
      requires |data| == 512 * len
      modifies this`image, this`errors
      ensures image == FsWrite(old(image), lba, data)
      ensures errors == old(errors) + (if 512 * (lba + len) > fileLength then 1 else 0)
    {
      if 512 * lba + 512 * len > fileLength {
        errors := errors + 1;
      }
      image := FileWrite(image, 512 * (108 + lba), data);
    }

    /** Read a region back and count an error when it differs from what was meant to be there. */
    method CompareRegion(lba: nat, data: seq<byte>)
      modifies this`errors
      ensures errors == old(errors) + (if FileRead(image, 512 * (108 + lba), |data|) != data then 1 else 0)
    {
      if FileRead(image, 512 * (108 + lba), |data|) != data {
        errors := errors + 1;
      }
    }

    method GetDiskRegion(size: nat) returns (first: nat)
      modifies this`firstUnused
      ensures first == old(firstUnused) && firstUnused == first + size
    {
      firstUnused := firstUnused + size;
      return firstUnused - size;
    }

    /**
     * Lay out and write one subtree. The regions it writes are one contiguous stretch of the image and the
     * inodes one contiguous stretch of the table, both in pre-order; nothing else changes. The error count
     * stays exactly when the stretch ends within the file.
     */
    method ConstructDirOrFile(a: Tree) returns (ourIndex: nat)
      requires 60 * (lastIndex + Count(a)) <= |table|
      modifies this
      ensures ourIndex == old(lastIndex)
      ensures lastIndex == old(lastIndex) + Count(a)
      ensures firstUnused == old(firstUnused) + Sectors(a)
      ensures image == FsWrite(old(image), old(firstUnused), Blob(a, ourIndex))
      ensures table == TableWrite(old(table), ourIndex, TableBytes(a, old(firstUnused)))
      ensures errors >= old(errors)
      ensures errors == old(errors) <==> 512 * firstUnused <= fileLength
      decreases a, 2
    {
      var b := SizeOf(a);
      var st := GetDiskRegion(b);
      ourIndex := lastIndex;
      lastIndex := lastIndex + 1;
      var m := FillRegion(a, ourIndex, st, Zeros(512 * b));
      WriteAndCompare(st, b, m, old(image), BlobBelow(a, ourIndex));
      StoreInode(a, ourIndex, st, old(table));
    }

    /** Its inode, in front of those below it. */
    method StoreInode(a: Tree, ourIndex: nat, st: nat, ghost table0: seq<byte>)
      requires 60 * (ourIndex + 1) + |TableBelow(a, st)| <= |table0|
      requires table == TableWrite(table0, ourIndex + 1, TableBelow(a, st))
      modifies this`table
      ensures table == TableWrite(table0, ourIndex, TableBytes(a, st))
    {
      var inode := Encode(InodeOf(a, st));
      table := TableWrite(table, ourIndex, inode);
      TableWriteAdjacent(table0, ourIndex, 1, inode, TableBelow(a, st));
    }

    /** Write a region below what is there already, and read it back. */
    method WriteAndCompare(st: nat, b: nat, m: seq<byte>, ghost image0: seq<byte>, ghost below: seq<byte>)
      requires |m| == 512 * b && image == FsWrite(image0, st + b, below)
      modifies this`image, this`errors
      ensures image == FsWrite(image0, st, m + below)
      ensures errors == old(errors) + (if 512 * (st + b) > fileLength then 1 else 0)
    {
      WriteDiskRegion(st, b, m);
      FsWriteAdjacent(image0, st, b, m, below);
      ReadBack(image0, st, m, below);
      CompareRegion(st, m);
    }

    /** Fill the region buffer of `a`: a file's bytes, or the numbers of the entries it lays out meanwhile. */
    method FillRegion(a: Tree, ghost ourIndex: nat, ghost st: nat, zeros: seq<byte>) returns (m: seq<byte>)
      requires lastIndex == ourIndex + 1 && zeros == Zeros(512 * SizeOf(a)) && firstUnused == st + SizeOf(a)
      requires 60 * (ourIndex + Count(a)) <= |table|
      modifies this
      ensures m == Payload(a, ourIndex)
      ensures lastIndex == ourIndex + Count(a)
      ensures firstUnused == st + Sectors(a)
      ensures image == FsWrite(old(image), st + SizeOf(a), BlobBelow(a, ourIndex))
      ensures table == TableWrite(old(table), ourIndex + 1, TableBelow(a, st))
      ensures errors >= old(errors)
      ensures errors == old(errors) || 512 * firstUnused > fileLength
      ensures 512 * firstUnused <= fileLength || 512 * old(firstUnused) > fileLength || errors > old(errors)
      decreases a, 1
    {
      if a.File? {
        m := Splice(zeros, 0, a.contents);
        NoWrite(image, firstUnused);
        NoTableWrite(table, ourIndex + 1);
      } else {
        m := ConstructEntries(a, ourIndex, st, zeros);
      }
    }

    method ConstructEntries(a: Tree, ghost ourIndex: nat, ghost st: nat, zeros: seq<byte>) returns (m: seq<byte>)
      requires a.Dir? && lastIndex == ourIndex + 1 && zeros == Zeros(512 * SizeOf(a)) && firstUnused == st + SizeOf(a)
      requires 60 * (ourIndex + Count(a)) <= |table|
      modifies this
      ensures m == Payload(a, ourIndex)
      ensures lastIndex == ourIndex + Count(a)
      ensures firstUnused == st + Sectors(a)
      ensures image == FsWrite(old(image), st + SizeOf(a), BlobBelow(a, ourIndex))
      ensures table == TableWrite(old(table), ourIndex + 1, TableBelow(a, st))
      ensures errors >= old(errors)
      ensures a.entries != [] ==> (errors == old(errors) <==> 512 * firstUnused <= fileLength)
      ensures a.entries == [] ==> errors == old(errors)
      decreases a, 0
    {
      m := zeros;
      ghost var sector, id1 := firstUnused, lastIndex;
      NothingLaid(image, a, sector, id1);
      NoTableLaid(table, a, sector, id1);
      for i := 0 to |a.entries|
        invariant lastIndex == IdOf(a.entries, id1, i) && firstUnused == SectorOf(a.entries, sector, i)
        invariant NumbersIn(m, a, id1, i)
        invariant |table| == |old(table)|
        invariant Laid(old(image), image, a, sector, id1, i)
        invariant TableLaid(old(table), table, a, sector, id1, i)
        invariant ErrorsExact(old(errors), errors, firstUnused, fileLength, i)
      {
        ChildFits(a, ourIndex, i);
        ghost var image1, table1 := image, table;
        var id := ConstructDirOrFile(a.entries[i]);
        m := AddNumber(m, a, id1, i, id);
        NextLaid(old(image), image1, image, a, sector, id1, i);
        NextTableLaid(old(table), table1, table, a, sector, id1, i);
      }
      AllLaid(old(image), image, old(table), table, a, st, ourIndex, sector, id1);
    }
  }

  /** Build the file system of `root` on the image of a fresh builder. */
  method Build(b: Builder, root: Tree)
    requires b.firstUnused == 0 && b.lastIndex == 0
    modifies b
    ensures b.image == FsWrite(old(b.image), 0, Image(root))
    ensures b.firstUnused == ImageSectors(root) && b.lastIndex == Count(root)
    ensures b.errors == old(b.errors) <==> 512 * ImageSectors(root) <= b.fileLength
    ensures b.fileLength == old(|b.image|) ==>
              (b.errors == old(b.errors) && |b.image| > b.fileLength <==>
               512 * ImageSectors(root) <= b.fileLength < 512 * (108 + ImageSectors(root)))
  {
    BuiltLength(b.image, root);
    var lnb := SectorsFor(60 * Count(root));
    b.errors := b.errors + (if lnb == 0 then 1 else 0);
    b.firstUnused := b.firstUnused + lnb;
    b.table := Zeros(512 * lnb);
    BuildBehindTable(b, root, lnb);
  }

  /** The image is extended exactly when the file ends before the last sector. */
  lemma BuiltLength(image: seq<byte>, root: Tree)
    ensures |FsWrite(image, 0, Image(root))| > |image| <==> |image| < 512 * (108 + ImageSectors(root))
  {
    assert TableSectors(root) >= 1;
  }

  /**
   * The error that is not counted, at the smallest tree: the test against the length of the file leaves out the 108
   * sectors in front of the file system, so that the image can grow beyond the file.
   */
  method BuildTooSmall(image: seq<byte>) returns (b: Builder)
    requires |image| == 512 * 108
    ensures b.errors == 0 && b.fileLength == 512 * 108 && |b.image| == 512 * 109
  {
    b := new Builder(image);
    Build(b, Dir([], []));
    assert ImageSectors(Dir([], [])) == 1;
  }

  /** The part behind the reservation of the table: everything else, then the table. */
  method BuildBehindTable(b: Builder, root: Tree, lnb: nat)
    requires b.firstUnused == lnb == TableSectors(root) && b.lastIndex == 0 && b.table == Zeros(512 * lnb)
    modifies b
    ensures b.image == FsWrite(old(b.image), 0, Image(root))
    ensures b.firstUnused == lnb + Sectors(root) && b.lastIndex == Count(root)
    ensures b.errors == old(b.errors) <==> 512 * (lnb + Sectors(root)) <= b.fileLength
  {
    var index := b.ConstructDirOrFile(root);
    ghost var image1, table := b.image, b.table;
    b.WriteDiskRegion(0, lnb, b.table);
    BuiltImage(old(b.image), root, lnb, table, image1, b.image);
  }

  lemma BuiltImage(image: seq<byte>, root: Tree, lnb: nat, table: seq<byte>, image1: seq<byte>, image2: seq<byte>)
    requires lnb == TableSectors(root) && table == TableWrite(Zeros(512 * lnb), 0, TableBytes(root, lnb))
    requires image1 == FsWrite(image, lnb, Blob(root, 0)) && image2 == FsWrite(image1, 0, table)
    ensures image2 == FsWrite(image, 0, Image(root))
  {
    PaddedTable(root);
    TableThenBlob(image, lnb, table, Blob(root, 0));
  }

  lemma TableThenBlob(image: seq<byte>, lnb: nat, table: seq<byte>, blob: seq<byte>)
    requires |table| == 512 * lnb
    ensures FsWrite(FsWrite(image, lnb, blob), 0, table) == FsWrite(image, 0, table + blob)
  {
    FsWriteAdjacent(image, 0, lnb, table, blob);
    assert 0 + lnb == lnb;
  }

  lemma PaddedTable(root: Tree)
    ensures TableWrite(Zeros(512 * TableSectors(root)), 0, TableBytes(root, TableSectors(root)))
         == Pad(TableBytes(root, TableSectors(root)), 512 * TableSectors(root))
  {
  }

  // The image and the table once the first `i` entries of a directory are laid out.

  ghost predicate Laid(before: seq<byte>, image: seq<byte>, a: Tree, sector: nat, id: nat, i: nat)
    requires a.Dir? && i <= |a.entries|
  {
    image == FsWrite(before, sector, BlobAll(a.entries[..i], id))
  }

  ghost predicate TableLaid(before: seq<byte>, table: seq<byte>, a: Tree, sector: nat, id: nat, i: nat)
    requires a.Dir? && i <= |a.entries|
  {
    && 60 * id + |TableBytesAll(a.entries[..i], sector)| <= |before|
    && table == TableWrite(before, id, TableBytesAll(a.entries[..i], sector))
  }

  lemma NothingLaid(image: seq<byte>, a: Tree, sector: nat, id: nat)
    requires a.Dir?
    ensures Laid(image, image, a, sector, id, 0)
    ensures IdOf(a.entries, id, 0) == id && SectorOf(a.entries, sector, 0) == sector
    ensures Zeros(512 * SizeOf(a)) == Pad(Words(Ids(a.entries, id)[..0]), 512 * SizeOf(a))
  {
    NoWrite(image, sector);
    assert a.entries[..0] == [];
  }

  lemma NoTableLaid(table: seq<byte>, a: Tree, sector: nat, id: nat)
    requires a.Dir? && 60 * id <= |table|
    ensures TableLaid(table, table, a, sector, id, 0)
  {
    NoTableWrite(table, id);
    assert a.entries[..0] == [];
  }

  lemma NextLaid(before: seq<byte>, image: seq<byte>, next: seq<byte>, a: Tree, sector: nat, id: nat, i: nat)
    requires a.Dir? && i < |a.entries| && Laid(before, image, a, sector, id, i)
    requires next == FsWrite(image, SectorOf(a.entries, sector, i), Blob(a.entries[i], IdOf(a.entries, id, i)))
    ensures Laid(before, next, a, sector, id, i + 1)
    ensures SectorOf(a.entries, sector, i + 1) == SectorOf(a.entries, sector, i) + Sectors(a.entries[i])
  {
    var ts := a.entries;
    NextBlob(ts, id, i);
    NextEntry(ts, sector, i);
    var d, e, n := BlobAll(ts[..i], id), Blob(ts[i], IdOf(ts, id, i)), SectorsAll(ts[..i]);
    assert SectorOf(ts, sector, i) == sector + n;
    FsWriteExtends(before, image, next, sector, n, d, e);
  }

  lemma NextTableLaid(before: seq<byte>, table: seq<byte>, next: seq<byte>, a: Tree, sector: nat, id: nat, i: nat)
    requires a.Dir? && i < |a.entries| && TableLaid(before, table, a, sector, id, i)
    requires 60 * IdOf(a.entries, id, i) + |TableBytes(a.entries[i], SectorOf(a.entries, sector, i))| <= |table|
    requires next == TableWrite(table, IdOf(a.entries, id, i), TableBytes(a.entries[i], SectorOf(a.entries, sector, i)))
    ensures TableLaid(before, next, a, sector, id, i + 1)
    ensures IdOf(a.entries, id, i + 1) == IdOf(a.entries, id, i) + Count(a.entries[i])
  {
    var ts := a.entries;
    NextTableBytes(ts, sector, i);
    NextEntry(ts, id, i);
    TableWriteAdjacent(before, id, CountAll(ts[..i]), TableBytesAll(ts[..i], sector),
                       TableBytes(ts[i], SectorOf(ts, sector, i)));
  }

  /** An error was counted exactly when one of the `i` entries so far ends beyond the file. */
  predicate ErrorsExact(before: nat, errors: nat, firstUnused: nat, fileLength: nat, i: nat) {
    errors >= before && (errors == before <==> i == 0 || 512 * firstUnused <= fileLength)
  }

  /** The region of a directory while its first `i` numbers are in it. */
  ghost predicate NumbersIn(m: seq<byte>, a: Tree, id: nat, i: nat)
    requires a.Dir? && i <= |a.entries|
  {
    |m| == 512 * SizeOf(a) && m == Pad(Words(Ids(a.entries, id)[..i]), |m|)
  }

  method AddNumber(m: seq<byte>, ghost a: Tree, ghost id1: nat, i: nat, id: nat) returns (m': seq<byte>)
    requires a.Dir? && i < |a.entries| && NumbersIn(m, a, id1, i) && id == IdOf(a.entries, id1, i)
    requires 8 * (i + 1) <= 512 * SizeOf(a)
    ensures NumbersIn(m', a, id1, i + 1)
  {
    NextNumber(a, m, id1, i);
    m' := Splice(m, 8 * i, Le(id, 8));
  }

  lemma NextNumber(a: Tree, m: seq<byte>, id: nat, i: nat)
    requires a.Dir? && i < |a.entries| && 8 * (i + 1) <= |m|
    requires m == Pad(Words(Ids(a.entries, id)[..i]), |m|)
    ensures 8 * (i + 1) <= |m|
         && Splice(m, 8 * i, Le(IdOf(a.entries, id, i), 8)) == Pad(Words(Ids(a.entries, id)[..i + 1]), |m|)
  {
    NextId(a.entries, id, i);
    StoreNextWord(Ids(a.entries, id)[..i], IdOf(a.entries, id, i), |m|);
  }

  lemma AllLaid(before: seq<byte>, image: seq<byte>, tableBefore: seq<byte>, table: seq<byte>, a: Tree, st: nat,
                id: nat, sector: nat, id1: nat)
    requires a.Dir? && sector == st + SizeOf(a) && id1 == id + 1
    requires Laid(before, image, a, sector, id1, |a.entries|)
    requires TableLaid(tableBefore, table, a, sector, id1, |a.entries|)
    ensures IdOf(a.entries, id1, |a.entries|) == id + Count(a)
    ensures SectorOf(a.entries, sector, |a.entries|) == st + Sectors(a)
    ensures image == FsWrite(before, st + SizeOf(a), BlobBelow(a, id))
    ensures 60 * (id + 1) + |TableBelow(a, st)| <= |tableBefore|
         && table == TableWrite(tableBefore, id + 1, TableBelow(a, st))
    ensures Ids(a.entries, id1)[..|a.entries|] == Ids(a.entries, id1)
  {
    assert a.entries[..|a.entries|] == a.entries;
  }

  lemma NoWrite(image: seq<byte>, sector: nat)
    ensures FsWrite(image, sector, []) == image
  {
  }

  lemma NoTableWrite(table: seq<byte>, id: nat)
    requires 60 * id <= |table|
    ensures TableWrite(table, id, []) == table
  {
  }

  lemma ChildFits(a: Tree, id: nat, i: nat)
    requires a.Dir? && i < |a.entries|
    ensures IdOf(a.entries, id + 1, i) + Count(a.entries[i]) <= id + Count(a)
    ensures 8 * (i + 1) <= 512 * SizeOf(a)
  {
    NextEntry(a.entries, id + 1, i);
    EntriesInOrder(a.entries, id + 1, i + 1, |a.entries|);
    LastEntry(a.entries, id + 1);
  }
}
