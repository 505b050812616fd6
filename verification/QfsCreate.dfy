/** Creating a directory entry on a mounted disk: `getI`, `writeIN` and `addtoD`. */
module QfsCreate {
  import opened Bytes
  import opened QfsFormat
  import opened QfsTree
  import opened QfsNodes
  import opened QfsLayout
  import opened QfsKernel

  /** The tree of nodes with `node` as a last entry of the directory numbered `d`. */
  function Insert(n: Node, d: nat, node: Node): (r: Node)
    ensures r.id == n.id && r.inode == n.inode && r.FileNode? == n.FileNode?
    decreases n
  {
    match n
    case FileNode(_, _, _) => n
    case DirNode(id, inode, kids) =>
      DirNode(id, inode, seq(|kids|, i requires 0 <= i < |kids| => Insert(kids[i], d, node))
                         + (if id == d then [node] else []))
  }

  lemma InsertKids(n: Node, d: nat, node: Node)
    requires n.DirNode?
    ensures var r := Insert(n, d, node);
            && |r.kids| == |n.kids| + (if n.id == d then 1 else 0)
            && (forall i | 0 <= i < |n.kids| :: r.kids[i] == Insert(n.kids[i], d, node))
            && (n.id == d ==> r.kids[|n.kids|] == node)
            && KidIds(r.kids) == KidIds(n.kids) + (if n.id == d then [node.id] else [])
  {
  }

  // The bytes: one packed inode in the table and one word of the directory's region.

  function WithEntry(fs: seq<byte>, dir: Node, id: nat, inode: Inode): (r: seq<byte>)
    requires dir.DirNode? && |inode.name| == 32
    requires 60 * (id + 1) <= |fs|
    requires 512 * dir.inode.chunkaddr1 + 8 * (|dir.kids| + 1) <= |fs|
    ensures |r| == |fs|
  {
    Splice(Splice(fs, 60 * id, Encode(inode)), NextSlot(dir), Le(id, 8))
  }

  /** Where the next number goes that is appended to a directory. */
  function NextSlot(dir: Node): nat
    requires dir.DirNode?
  {
    512 * dir.inode.chunkaddr1 + 8 * |dir.kids|
  }

  /** The new number and the grown directory keep clear of the node `m`. */
  ghost predicate Clear(m: Node, dir: Node, id: nat, tableSectors: nat) {
    && m.id != id && 60 * (m.id + 1) <= 512 * tableSectors <= 512 * m.inode.chunkaddr1
    && (m.id == dir.id ==> m == dir)
    && (m.id != dir.id ==> Apart(m, dir))
  }

  ghost predicate RoomFor(dir: Node, id: nat, tableSectors: nat) {
    && dir.DirNode? && 8 * (|dir.kids| + 2) <= 512 * dir.inode.chunklen
    && 60 * (id + 1) <= 512 * tableSectors <= 512 * dir.inode.chunkaddr1
    && 0 < id < Pow256(8)
  }

  lemma SliceKept(fs: seq<byte>, p: nat, d: seq<byte>, q: nat, e: seq<byte>, a: nat, b: nat)
    requires p + |d| <= |fs| && q + |e| <= |fs| && a <= b <= |fs|
    requires (b <= p || p + |d| <= a) && (b <= q || q + |e| <= a)
    ensures Splice(Splice(fs, p, d), q, e)[a..b] == fs[a..b]
  {
    SpliceElsewhere(fs, p, d, a, b);
    SpliceElsewhere(Splice(fs, p, d), q, e, a, b);
  }

  ghost predicate Growable(fs: seq<byte>, dir: Node, id: nat, inode: Inode, tableSectors: nat) {
    && RoomFor(dir, id, tableSectors) && |inode.name| == 32
    && 512 * (dir.inode.chunkaddr1 + dir.inode.chunklen) <= |fs|
  }

  lemma InodeKept(fs: seq<byte>, dir: Node, id: nat, inode: Inode, m: Node, tableSectors: nat)
    requires Growable(fs, dir, id, inode, tableSectors)
    requires InodeOnDisk(fs, m) && Clear(m, dir, id, tableSectors)
    ensures InodeOnDisk(WithEntry(fs, dir, id, inode), m)
  {
    SliceKept(fs, 60 * id, Encode(inode), NextSlot(dir), Le(id, 8),
              60 * m.id, 60 * (m.id + 1));
    SameInode(fs, WithEntry(fs, dir, id, inode), m);
  }

  lemma SameInode(fs: seq<byte>, fs': seq<byte>, m: Node)
    requires InodeOnDisk(fs, m) && |fs'| == |fs| && fs'[60 * m.id..60 * (m.id + 1)] == fs[60 * m.id..60 * (m.id + 1)]
    ensures InodeOnDisk(fs', m)
  {
  }

  lemma RegionKept(fs: seq<byte>, dir: Node, id: nat, inode: Inode, m: Node, tableSectors: nat)
    requires Growable(fs, dir, id, inode, tableSectors)
    requires InodeOnDisk(fs, m) && Clear(m, dir, id, tableSectors) && m.id != dir.id
    ensures Region(WithEntry(fs, dir, id, inode), m.inode) == Region(fs, m.inode)
  {
    SliceKept(fs, 60 * id, Encode(inode), NextSlot(dir), Le(id, 8),
              512 * m.inode.chunkaddr1, 512 * (m.inode.chunkaddr1 + m.inode.chunklen));
  }

  lemma DirRegionGrown(fs: seq<byte>, dir: Node, id: nat, inode: Inode, tableSectors: nat)
    requires Growable(fs, dir, id, inode, tableSectors) && DirRegion(Region(fs, dir.inode), KidIds(dir.kids))
    ensures DirRegion(Region(WithEntry(fs, dir, id, inode), dir.inode), KidIds(dir.kids) + [id])
  {
    var from, to := 512 * dir.inode.chunkaddr1, 512 * (dir.inode.chunkaddr1 + dir.inode.chunklen);
    var n := |dir.kids|;
    PatchedRegion(fs, 60 * id, Encode(inode), from, to, NextSlot(dir), 8 * n, Le(id, 8));
    WordAppended(Region(fs, dir.inode), KidIds(dir.kids), id);
  }

  /** One patch below a region and one inside it. */
  lemma PatchedRegion(fs: seq<byte>, p: nat, d: seq<byte>, from: nat, to: nat, q: nat, off: nat, w: seq<byte>)
    requires p + |d| <= from <= q && q + |w| <= to <= |fs| && off == q - from
    ensures Splice(Splice(fs, p, d), q, w)[from..to] == Splice(fs[from..to], off, w)
  {
    SpliceElsewhere(fs, p, d, from, to);
    SpliceInside(Splice(fs, p, d), q, w, from, to);
  }

  lemma WordAppended(b: seq<byte>, ids: seq<nat>, id: nat)
    requires DirRegion(b, ids) && 8 * (|ids| + 2) <= |b| && 0 < id < Pow256(8)
    ensures DirRegion(Splice(b, 8 * |ids|, Le(id, 8)), ids + [id])
  {
    StoreNextWord(ids, id, |b|);
  }

  /** The part of `OnDisk` about the node itself. */
  ghost predicate OwnPart(fs: seq<byte>, n: Node) {
    && InodeOnDisk(fs, n)
    && (n.FileNode? ==> Region(fs, n.inode) == n.bytes)
    && (n.DirNode? ==> DirRegion(Region(fs, n.inode), KidIds(n.kids)))
  }

  lemma InsertOwnPart(fs: seq<byte>, n: Node, dir: Node, node: Node, tableSectors: nat)
    requires OwnPart(fs, n) && OwnPart(fs, dir)
    requires Growable(fs, dir, node.id, node.inode, tableSectors) && Clear(n, dir, node.id, tableSectors)
    ensures OwnPart(WithEntry(fs, dir, node.id, node.inode), Insert(n, dir.id, node))
  {
    InodeKept(fs, dir, node.id, node.inode, n, tableSectors);
    if n.DirNode? {
      InsertKids(n, dir.id, node);
    }
    if n.id == dir.id {
      DirRegionGrown(fs, dir, node.id, node.inode, tableSectors);
    } else {
      RegionKept(fs, dir, node.id, node.inode, n, tableSectors);
      assert n.DirNode? ==> KidIds(n.kids) + [] == KidIds(n.kids);
    }
  }

  /** Storing the inode and the word turns the nodes on the disk into the nodes with the new entry. */
  lemma {:induction false} InsertOnDisk(fs: seq<byte>, n: Node, dir: Node, node: Node, tableSectors: nat)
    requires OnDisk(fs, n) && OwnPart(fs, dir)
    requires Growable(fs, dir, node.id, node.inode, tableSectors)
    requires forall m {:trigger Clear(m, dir, node.id, tableSectors)} | m in Nodes(n) ::
               Clear(m, dir, node.id, tableSectors)
    requires OnDisk(WithEntry(fs, dir, node.id, node.inode), node)
    ensures OnDisk(WithEntry(fs, dir, node.id, node.inode), Insert(n, dir.id, node))
    decreases n
  {
    var fs' := WithEntry(fs, dir, node.id, node.inode);
    assert Clear(n, dir, node.id, tableSectors);
    InsertOwnPart(fs, n, dir, node, tableSectors);
    if n.DirNode? {
      forall i | 0 <= i < |n.kids|
        ensures OnDisk(fs', Insert(n.kids[i], dir.id, node))
      {
        KidNodes(n, i);
        InsertOnDisk(fs, n.kids[i], dir, node, tableSectors);
      }
      OnDiskFrom(fs', n, dir.id, node);
    }
  }

  lemma KidNodes(n: Node, i: nat)
    requires n.DirNode? && i < |n.kids|
    ensures forall m | m in Nodes(n.kids[i]) :: m in Nodes(n)
  {
  }

  lemma OnDiskFrom(fs: seq<byte>, n: Node, d: nat, node: Node)
    requires n.DirNode? && OwnPart(fs, Insert(n, d, node)) && OnDisk(fs, node)
    requires forall i | 0 <= i < |n.kids| :: OnDisk(fs, Insert(n.kids[i], d, node))
    ensures OnDisk(fs, Insert(n, d, node))
  {
    InsertKids(n, d, node);
  }

  // Paths.

  lemma {:induction false} FindKidInserted(kids: seq<Node>, more: seq<Node>, c: Name, i: nat)
    requires i <= Limit(|kids|) <= |more| && |kids| <= |more|
    requires forall j | 0 <= j < |kids| :: more[j].inode == kids[j].inode
    ensures FindKid(kids, c, i) < Limit(|kids|) ==> FindKid(more, c, i) == FindKid(kids, c, i)
    ensures FindKid(kids, c, i) == Limit(|kids|) ==> FindKid(more, c, i) >= Limit(|kids|)
    decreases |kids| - i
  {
    if i < Limit(|kids|) && CStr(kids[i].inode.name) != c {
      FindKidInserted(kids, more, c, i + 1);
    }
  }

  /** Every path that resolved before still resolves, to the same inode. */
  lemma {:induction false} OldPathsKept(n: Node, d: nat, node: Node, cs: seq<Name>)
    requires Walk(n, cs).Hit?
    ensures Walk(Insert(n, d, node), cs) == Hit(Insert(Walk(n, cs).node, d, node))
    decreases |cs|
  {
    if cs != [] {
      InsertKids(n, d, node);
      var r := Insert(n, d, node);
      FindKidInserted(n.kids, r.kids, cs[0], 0);
      OldPathsKept(Step(n, cs[0]).node, d, node, cs[1..]);
    }
  }

  /** The path of the directory with a fresh name appended now resolves to the new node. */
  lemma {:induction false} NewPathResolves(n: Node, d: nat, node: Node, cs: seq<Name>, name: Name)
    requires Walk(n, cs).Hit? && Walk(n, cs).node.DirNode? && Walk(n, cs).node.id == d
    requires |Walk(n, cs).node.kids| < 64 && Walk(n, cs).node.inode.chunklen != 0
    requires forall k | k in Walk(n, cs).node.kids :: CStr(k.inode.name) != name
    requires CStr(node.inode.name) == name
    ensures Walk(Insert(n, d, node), cs + [name]) == Hit(node)
    decreases |cs|
  {
    InsertKids(n, d, node);
    var r := Insert(n, d, node);
    if cs == [] {
      assert cs + [name] == [name];
      AllOthersSkipped(r.kids, name, 0, |n.kids|);
    } else {
      FindKidInserted(n.kids, r.kids, cs[0], 0);
      NewPathResolves(Step(n, cs[0]).node, d, node, cs[1..], name);
      assert (cs + [name])[1..] == cs[1..] + [name];
    }
  }

  lemma {:induction false} AllOthersSkipped(kids: seq<Node>, c: Name, i: nat, k: nat)
    requires i <= k < |kids| && k < 64 && CStr(kids[k].inode.name) == c
    requires forall j | 0 <= j < k :: CStr(kids[j].inode.name) != c
    ensures FindKid(kids, c, i) == k
    decreases k - i
  {
    if i < k {
      AllOthersSkipped(kids, c, i + 1, k);
    }
  }

  // A mounted disk over any number of creations.

  /**
   * The nodes from `root` are on the disk and laid out above a table of `tableSectors` sectors; they have the
   * numbers below `n`, and the rest of the table is free.
   */
  ghost predicate Mounted(fs: seq<byte>, root: Node, tableSectors: nat, n: nat) {
    && OnDisk(fs, root) && LaidOut(root, tableSectors)
    && (forall i :: i in AllIds(root) <==> 0 <= i < n)
    && 512 * (tableSectors + 1) <= |fs| < Pow256(8)
    && (forall i: nat | n <= i && 60 * (i + 1) <= 512 * tableSectors :: InodeAt(fs, i).chunklen == 0)
  }

  lemma {:induction false} NodeOfId(n: Node, i: nat)
    ensures i in AllIds(n) <==> exists m :: m in Nodes(n) && m.id == i
    decreases n
  {
    if n.DirNode? {
      forall k | 0 <= k < |n.kids|
        ensures i in AllIds(n.kids[k]) <==> exists m :: m in Nodes(n.kids[k]) && m.id == i
      {
        NodeOfId(n.kids[k], i);
      }
      if i in AllIds(n) && i != n.id {
        var k :| 0 <= k < |n.kids| && i in AllIds(n.kids[k]);
        var m :| m in Nodes(n.kids[k]) && m.id == i;
        assert m in Nodes(n);
      }
      forall m | m in Nodes(n) && m.id == i
        ensures i in AllIds(n)
      {
        if m != n {
          var k :| 0 <= k < |n.kids| && m in Nodes(n.kids[k]);
        }
      }
    }
  }

  lemma {:induction false} NodeOnDisk(fs: seq<byte>, n: Node, m: Node)
    requires OnDisk(fs, n) && m in Nodes(n)
    ensures OnDisk(fs, m)
    decreases n
  {
    if m != n {
      var k :| 0 <= k < |n.kids| && m in Nodes(n.kids[k]);
      NodeOnDisk(fs, n.kids[k], m);
    }
  }

  /**
   * `getI` hands out an unused number exactly when no file or directory on the disk has a region of length
   * zero; otherwise it hands out the number of such a file or directory.
   */
  lemma FreeNumber(fs: seq<byte>, root: Node, tableSectors: nat, n: nat, i: nat)
    requires Mounted(fs, root, tableSectors, n) && 60 * (n + 1) <= 512 * tableSectors && FirstFree(fs, i)
    ensures i !in AllIds(root) <==> forall m | m in Nodes(root) :: m.inode.chunklen != 0
    ensures i !in AllIds(root) ==> i == n
    ensures i in AllIds(root) ==> exists m :: m in Nodes(root) && m.id == i && m.inode.chunklen == 0
  {
    assert Readable(fs, n) && InodeAt(fs, n).chunklen == 0;
    assert i <= n;
    forall m | m in Nodes(root)
      ensures m.id in AllIds(root) && InodeAt(fs, m.id) == m.inode
    {
      NodeOfId(root, m.id);
      NodeOnDisk(fs, root, m);
    }
    NodeOfId(root, i);
  }

  lemma {:induction false} NodesInserted(n: Node, d: nat, node: Node, x: Node)
    requires node.FileNode? && x in Nodes(Insert(n, d, node))
    ensures x == node || exists m :: m in Nodes(n) && x == Insert(m, d, node)
    decreases n
  {
    var r := Insert(n, d, node);
    if x == r {
      assert n in Nodes(n);
    } else {
      InsertKids(n, d, node);
      var k :| 0 <= k < |r.kids| && x in Nodes(r.kids[k]);
      if k < |n.kids| {
        NodesInserted(n.kids[k], d, node, x);
        if x != node {
          var m :| m in Nodes(n.kids[k]) && x == Insert(m, d, node);
          assert m in Nodes(n);
        }
      }
    }
  }

  lemma KidId(n: Node, k: nat, i: nat)
    requires n.DirNode? && k < |n.kids| && i in AllIds(n.kids[k])
    ensures i in AllIds(n)
  {
  }

  lemma {:induction false} IdsInserted(n: Node, d: nat, node: Node, i: nat)
    requires node.FileNode?
    ensures i in AllIds(Insert(n, d, node)) <==> i in AllIds(n) || (IsDir(n, d) && i == node.id)
    decreases n
  {
    if n.DirNode? {
      InsertKids(n, d, node);
      var r := Insert(n, d, node);
      forall k | 0 <= k < |n.kids|
        ensures i in AllIds(r.kids[k]) <==> i in AllIds(n.kids[k]) || (IsDir(n.kids[k], d) && i == node.id)
      {
        IdsInserted(n.kids[k], d, node, i);
      }
      if i in AllIds(r) && i != n.id {
        var k :| 0 <= k < |r.kids| && i in AllIds(r.kids[k]);
        if k < |n.kids| && i in AllIds(n.kids[k]) {
          KidId(n, k, i);
        }
      }
      if i in AllIds(n) && i != n.id {
        var k :| 0 <= k < |n.kids| && i in AllIds(n.kids[k]);
        KidId(r, k, i);
      }
      if IsDir(n, d) && i == node.id {
        var k :| 0 <= k < |r.kids| && (k == |n.kids| || IsDir(n.kids[k], d));
        KidId(r, k, i);
      }
    }
  }

  /** Some directory of the subtree has the number. */
  predicate IsDir(n: Node, d: nat)
    decreases n
  {
    n.DirNode? && (n.id == d || exists k | 0 <= k < |n.kids| :: IsDir(n.kids[k], d))
  }

  /** What creation asks of the directory, the new inode and the size of the disk. */
  ghost predicate HasRoom(root: Node, tableSectors: nat, n: nat, dir: Node, inode: Inode, size: nat) {
    && 60 * (n + 1) <= 512 * tableSectors && 0 < n
    && dir in Nodes(root) && dir.DirNode?
    && 8 * (|dir.kids| + 2) <= 512 * dir.inode.chunklen < 65536
    && inode.Valid() && 0 in inode.name && inode.chunklen != 0
    && tableSectors <= inode.chunkaddr1 && 512 * (inode.chunkaddr1 + inode.chunklen) <= size
    && (forall m | m in Nodes(root) :: Apart(FileNode(n, inode, []), m))
  }

  ghost predicate MayCreate(fs: seq<byte>, root: Node, tableSectors: nat, n: nat, dir: Node, inode: Inode) {
    Mounted(fs, root, tableSectors, n) && HasRoom(root, tableSectors, n, dir, inode, |fs|)
  }

  ghost predicate NoEmptyRegion(root: Node) {
    forall m | m in Nodes(root) :: m.inode.chunklen != 0
  }

  lemma Origin(root: Node, d: nat, node: Node, x: Node) returns (m: Node)
    requires node.FileNode? && x in Nodes(Insert(root, d, node)) && x != node
    ensures m in Nodes(root) && x == Insert(m, d, node) && m.id in AllIds(root)
    ensures x.id == m.id && x.inode == m.inode
  {
    NodesInserted(root, d, node, x);
    m :| m in Nodes(root) && x == Insert(m, d, node);
    NodeOfId(root, m.id);
  }

  lemma ApartAlike(m: Node, n: Node, x: Node, y: Node)
    requires Apart(m, n) && x.inode == m.inode && y.inode == n.inode
    ensures Apart(x, y) && Apart(y, x)
  {
  }

  lemma OldApart(root: Node, tableSectors: nat, d: nat, node: Node, x: Node, y: Node)
    requires LaidOut(root, tableSectors) && node.FileNode?
    requires x in Nodes(Insert(root, d, node)) && y in Nodes(Insert(root, d, node)) && x != y
    requires x != node && y != node
    ensures x.id != y.id && Apart(x, y)
  {
    var m := Origin(root, d, node, x);
    var m' := Origin(root, d, node, y);
    assert Separate(m, m');
    ApartAlike(m, m', x, y);
  }

  lemma NewApart(root: Node, d: nat, node: Node, y: Node)
    requires node.FileNode? && node.id !in AllIds(root) && forall m | m in Nodes(root) :: Apart(node, m)
    requires y in Nodes(Insert(root, d, node)) && y != node
    ensures node.id != y.id && Apart(node, y) && Apart(y, node)
  {
    var m' := Origin(root, d, node, y);
    ApartAlike(node, m', node, y);
  }

  lemma PairApart(root: Node, tableSectors: nat, d: nat, node: Node, x: Node, y: Node)
    requires LaidOut(root, tableSectors) && node.FileNode? && node.id !in AllIds(root)
    requires forall m | m in Nodes(root) :: Apart(node, m)
    requires x in Nodes(Insert(root, d, node)) && y in Nodes(Insert(root, d, node)) && x != y
    ensures x.id != y.id && Apart(x, y)
  {
    if x == node {
      NewApart(root, d, node, y);
    } else if y == node {
      NewApart(root, d, node, x);
    } else {
      OldApart(root, tableSectors, d, node, x, y);
    }
  }

  lemma WithinTable(root: Node, tableSectors: nat, d: nat, node: Node, x: Node)
    requires LaidOut(root, tableSectors) && node.FileNode? && x in Nodes(Insert(root, d, node))
    requires 60 * (node.id + 1) <= 512 * tableSectors <= 512 * node.inode.chunkaddr1
    ensures 60 * (x.id + 1) <= 512 * tableSectors <= 512 * x.inode.chunkaddr1
  {
    if x != node {
      var m := Origin(root, d, node, x);
      assert Placed(m, tableSectors);
    }
  }

  lemma CreatedLaidOut(root: Node, tableSectors: nat, d: nat, node: Node)
    requires LaidOut(root, tableSectors) && node.FileNode? && node.id !in AllIds(root)
    requires forall m | m in Nodes(root) :: Apart(node, m)
    requires 60 * (node.id + 1) <= 512 * tableSectors <= 512 * node.inode.chunkaddr1
    ensures LaidOut(Insert(root, d, node), tableSectors)
  {
    var r := Insert(root, d, node);
    forall x, y | x in Nodes(r) && y in Nodes(r) && x != y
      ensures Separate(x, y)
    {
      PairApart(root, tableSectors, d, node, x, y);
    }
    forall x | x in Nodes(r)
      ensures Placed(x, tableSectors)
    {
      WithinTable(root, tableSectors, d, node, x);
    }
  }

  lemma {:induction false} DirHasId(n: Node, m: Node)
    requires m in Nodes(n) && m.DirNode?
    ensures IsDir(n, m.id)
    decreases n
  {
    if m != n {
      var k :| 0 <= k < |n.kids| && m in Nodes(n.kids[k]);
      DirHasId(n.kids[k], m);
    }
  }

  lemma NewNodeOnDisk(fs: seq<byte>, tableSectors: nat, dir: Node, id: nat, inode: Inode)
    requires Growable(fs, dir, id, inode, tableSectors) && inode.Valid() && 0 in inode.name && Readable(fs, id)
    requires 512 * (inode.chunkaddr1 + inode.chunklen) <= |fs|
    ensures OnDisk(WithEntry(fs, dir, id, inode), FileNode(id, inode, Region(WithEntry(fs, dir, id, inode), inode)))
  {
    var b, p := Encode(inode), 60 * id;
    var one, q, w := Splice(fs, p, b), NextSlot(dir), Le(id, 8);
    AtSplice(one, q, w, p, b);
    StoredInode(Splice(one, q, w), id, inode);
  }

  lemma StoredInode(fs: seq<byte>, id: nat, inode: Inode)
    requires inode.Valid() && At(fs, 60 * id, Encode(inode))
    ensures InodeAt(fs, id) == inode
  {
    DecodeEncode(inode);
  }

  function NewNode(fs: seq<byte>, dir: Node, id: nat, inode: Inode): Node
    requires dir.DirNode? && |inode.name| == 32 && 60 * (id + 1) <= |fs|
    requires 512 * dir.inode.chunkaddr1 + 8 * (|dir.kids| + 1) <= |fs|
    requires 512 * (inode.chunkaddr1 + inode.chunklen) <= |fs|
  {
    FileNode(id, inode, Region(WithEntry(fs, dir, id, inode), inode))
  }

  /** Facts about the directory that every step of a creation needs. */
  lemma DirFacts(fs: seq<byte>, root: Node, tableSectors: nat, n: nat, dir: Node, inode: Inode)
    requires MayCreate(fs, root, tableSectors, n, dir, inode)
    ensures OwnPart(fs, dir) && Growable(fs, dir, n, inode, tableSectors) && Readable(fs, n)
    ensures n !in AllIds(root)
    ensures forall m | m in Nodes(root) :: Clear(m, dir, n, tableSectors)
  {
    NodeOnDisk(fs, root, dir);
    IdsOfNodes(root);
    forall m | m in Nodes(root)
      ensures Clear(m, dir, n, tableSectors)
    {
      NodeClear(root, tableSectors, dir, n, m);
    }
  }

  lemma NodeClear(root: Node, tableSectors: nat, dir: Node, n: nat, m: Node)
    requires LaidOut(root, tableSectors) && dir in Nodes(root) && m in Nodes(root)
    requires m.id in AllIds(root) && n !in AllIds(root)
    ensures Clear(m, dir, n, tableSectors)
  {
    assert m != dir ==> Separate(m, dir);
    assert Placed(m, tableSectors);
  }

  lemma IdsOfNodes(root: Node)
    ensures forall m | m in Nodes(root) :: m.id in AllIds(root)
  {
    forall m | m in Nodes(root)
      ensures m.id in AllIds(root)
    {
      NodeOfId(root, m.id);
    }
  }

  lemma SlotsKept(fs: seq<byte>, dir: Node, id: nat, inode: Inode, tableSectors: nat, i: nat)
    requires Growable(fs, dir, id, inode, tableSectors) && i != id && 60 * (i + 1) <= 512 * tableSectors
    ensures InodeAt(WithEntry(fs, dir, id, inode), i) == InodeAt(fs, i)
  {
    SliceKept(fs, 60 * id, Encode(inode), NextSlot(dir), Le(id, 8),
              60 * i, 60 * (i + 1));
  }

  lemma CreatedNumbers(root: Node, dir: Node, node: Node, n: nat)
    requires dir in Nodes(root) && dir.DirNode? && node.FileNode? && node.id == n
    requires forall i :: i in AllIds(root) <==> 0 <= i < n
    ensures forall i :: i in AllIds(Insert(root, dir.id, node)) <==> 0 <= i < n + 1
  {
    DirHasId(root, dir);
    forall i: nat
      ensures i in AllIds(Insert(root, dir.id, node)) <==> i < n + 1
    {
      IdsInserted(root, dir.id, node, i);
    }
  }

  /** A creation keeps the disk well laid out, with one more number in use. */
  lemma CreatedMounted(fs: seq<byte>, root: Node, tableSectors: nat, n: nat, dir: Node, inode: Inode)
    requires MayCreate(fs, root, tableSectors, n, dir, inode)
    ensures Growable(fs, dir, n, inode, tableSectors)
    ensures Mounted(WithEntry(fs, dir, n, inode), Insert(root, dir.id, NewNode(fs, dir, n, inode)), tableSectors, n + 1)
  {
    DirFacts(fs, root, tableSectors, n, dir, inode);
    var node := NewNode(fs, dir, n, inode);
    var fs', root' := WithEntry(fs, dir, n, inode), Insert(root, dir.id, node);
    NewNodeOnDisk(fs, tableSectors, dir, n, inode);
    InsertOnDisk(fs, root, dir, node, tableSectors);
    NewApartFromAll(root, n, inode, node);
    CreatedLaidOut(root, tableSectors, dir.id, node);
    CreatedNumbers(root, dir, node, n);
    forall i: nat | n + 1 <= i && 60 * (i + 1) <= 512 * tableSectors
      ensures InodeAt(fs', i).chunklen == 0
    {
      SlotsKept(fs, dir, n, inode, tableSectors, i);
    }
  }

  lemma NewApartFromAll(root: Node, n: nat, inode: Inode, node: Node)
    requires forall m | m in Nodes(root) :: Apart(FileNode(n, inode, []), m)
    requires node.inode == inode
    ensures forall m | m in Nodes(root) :: Apart(node, m)
  {
    forall m | m in Nodes(root)
      ensures Apart(node, m)
    {
      ApartAlike(FileNode(n, inode, []), m, node, m);
    }
  }

  lemma CreatedNoEmptyRegion(root: Node, d: nat, node: Node)
    requires NoEmptyRegion(root) && node.FileNode? && node.inode.chunklen != 0
    ensures NoEmptyRegion(Insert(root, d, node))
  {
    forall x | x in Nodes(Insert(root, d, node))
      ensures x.inode.chunklen != 0
    {
      if x != node {
        var m := Origin(root, d, node, x);
      }
    }
  }

  /** `writeIN` and `addtoD` for an unused number. */
  method StoreEntry(q: Qfs, dir: VNode, inode: Inode, id: nat, ghost dirNode: Node, ghost tableSectors: nat)
    requires q.Valid() && q.Coherent() && dir.id == dirNode.id && dir.a == dirNode.inode
    requires Growable(q.disk, dirNode, id, inode, tableSectors) && OwnPart(q.disk, dirNode)
    requires inode.Valid() && Readable(q.disk, id) && 512 * dir.a.chunklen < 65536
    requires forall i: nat | q.Cached(i) :: i != id && 60 * (i + 1) <= 512 * tableSectors
    modifies q`disk, q.kINb
    ensures q.Valid() && q.Coherent() && q.kINb == old(q.kINb)
    ensures q.disk == WithEntry(old(q.disk), dirNode, id, inode)
    ensures forall i: nat | q.Cached(i) :: old(q.Cached(i))
  {
    assert !q.Cached(id);
    q.WriteIN(inode, id);
    assert !q.Cached(id);
    assert forall i: nat :: q.Cached(i) ==> old(q.Cached(i));
    DirKept(old(q.disk), dirNode, id, inode, tableSectors);
    StoreNumber(q, dir, id, dirNode, tableSectors);
  }

  /** `addtoD`, for a directory that is on the disk. */
  method StoreNumber(q: Qfs, dir: VNode, id: nat, ghost dirNode: Node, ghost tableSectors: nat)
    requires q.Valid() && q.Coherent() && RoomFor(dirNode, id, tableSectors)
    requires dir.id == dirNode.id && dir.a == dirNode.inode
    requires 512 * (dir.a.chunkaddr1 + dir.a.chunklen) <= |q.disk| && 512 * dir.a.chunklen < 65536
    requires DirRegion(Region(q.disk, dir.a), KidIds(dirNode.kids))
    requires forall i: nat | q.Cached(i) :: 60 * (i + 1) <= 512 * tableSectors
    modifies q`disk, q.kINb
    ensures q.Valid() && q.Coherent() && q.kINb == old(q.kINb)
    ensures NextSlot(dirNode) + 8 <= |old(q.disk)| && q.disk == Splice(old(q.disk), NextSlot(dirNode), Le(id, 8))
    ensures forall i: nat | q.Cached(i) :: old(q.Cached(i))
  {
    q.AddToD(dir, id, KidIds(dirNode.kids));
  }

  /** Writing the inode leaves the directory's region as it is. */
  lemma DirKept(fs: seq<byte>, dir: Node, id: nat, inode: Inode, tableSectors: nat)
    requires Growable(fs, dir, id, inode, tableSectors) && 60 * (id + 1) <= |fs|
    ensures Region(Splice(fs, 60 * id, Encode(inode)), dir.inode) == Region(fs, dir.inode)
  {
    SpliceElsewhere(fs, 60 * id, Encode(inode), 512 * dir.inode.chunkaddr1,
                    512 * (dir.inode.chunkaddr1 + dir.inode.chunklen));
  }

  /**
   * Create an entry: take a number with `getI`, write the inode with `writeIN`, append the number with `addtoD`.
   * As long as no region on the disk is empty, the number is a new one, the disk holds the tree with the new
   * entry, and the inode cache stays coherent.
   */
  method CreateEntry(q: Qfs, dir: VNode, inode: Inode, ghost root: Node, ghost tableSectors: nat, ghost n: nat,
                     ghost dirNode: Node)
    returns (id: nat, ghost node: Node)
    requires q.Valid() && q.Coherent()
    requires MayCreate(q.disk, root, tableSectors, n, dirNode, inode) && NoEmptyRegion(root)
    requires dir.id == dirNode.id && dir.a == dirNode.inode
    requires forall i: nat | q.Cached(i) :: i in AllIds(root)
    modifies q`disk, q.kINb
    ensures q.Valid() && q.Coherent() && q.kINb == old(q.kINb)
    ensures id == n && node.FileNode? && node.id == n && node.inode == inode
    ensures Mounted(q.disk, Insert(root, dirNode.id, node), tableSectors, n + 1) && |q.disk| == |old(q.disk)|
    ensures NoEmptyRegion(Insert(root, dirNode.id, node))
    ensures forall i: nat | q.Cached(i) :: i in AllIds(root)
  {
    ghost var fs := q.disk;
    DirFacts(fs, root, tableSectors, n, dirNode, inode);
    assert InodeAt(fs, n).chunklen == 0;
    id := q.GetI();
    FreeNumber(fs, root, tableSectors, n, id);
    CachedBelowTable(root, tableSectors);
    StoreEntry(q, dir, inode, id, dirNode, tableSectors);
    node := NewNode(fs, dirNode, n, inode);
    CreatedMounted(fs, root, tableSectors, n, dirNode, inode);
    CreatedNoEmptyRegion(root, dirNode.id, node);
  }

  /** Every number in use stays in use. */
  lemma CreatedIds(root: Node, d: nat, node: Node)
    requires node.FileNode?
    ensures AllIds(root) <= AllIds(Insert(root, d, node))
  {
    forall i | i in AllIds(root)
      ensures i in AllIds(Insert(root, d, node))
    {
      IdsInserted(root, d, node, i);
    }
  }

  lemma CachedBelowTable(root: Node, tableSectors: nat)
    requires LaidOut(root, tableSectors)
    ensures forall i | i in AllIds(root) :: 60 * (i + 1) <= 512 * tableSectors
  {
    forall i | i in AllIds(root)
      ensures 60 * (i + 1) <= 512 * tableSectors
    {
      NodeOfId(root, i);
      var m :| m in Nodes(root) && m.id == i;
      assert Placed(m, tableSectors);
    }
  }

  lemma AllPathsKept(root: Node, d: nat, node: Node, root': Node)
    requires node.FileNode? && root' == Insert(root, d, node)
    ensures forall p | Walk(root, p).Hit? ::
              Walk(root', p).Hit? && Walk(root', p).node.inode == Walk(root, p).node.inode
  {
    forall p | Walk(root, p).Hit?
      ensures Walk(root', p).Hit? && Walk(root', p).node.inode == Walk(root, p).node.inode
    {
      OldPathsKept(root, d, node, p);
    }
  }

  /**
   * Create `/dir/name` and look it up: it resolves to the new inode, and every path that resolved before still
   * resolves to the same inode.
   */
  method CreateThenResolve(q: Qfs, basedir: Inode, cs: seq<Name>, name: Name, dir: VNode, inode: Inode,
                           ghost root: Node, ghost tableSectors: nat, ghost n: nat, ghost dirNode: Node)
    returns (r: Answer, ghost root': Node, ghost bytes: seq<byte>)
    requires q.Valid() && q.Coherent() && basedir == root.inode
    requires MayCreate(q.disk, root, tableSectors, n, dirNode, inode) && NoEmptyRegion(root)
    requires Walk(root, cs) == Hit(dirNode) && |dirNode.kids| < 64
    requires dir.id == dirNode.id && dir.a == dirNode.inode
    requires forall i | 0 <= i < |cs| :: Component(cs[i])
    requires Component(name) && CStr(inode.name) == name
    requires forall k | k in dirNode.kids :: CStr(k.inode.name) != name
    requires forall i: nat | q.Cached(i) :: i in AllIds(root)
    modifies q`disk, q`kINb, q`kINb_sz, q.kINb
    ensures r == Found(inode)
    ensures forall p | Walk(root, p).Hit? ::
              Walk(root', p).Hit? && Walk(root', p).node.inode == Walk(root, p).node.inode
    ensures Mounted(q.disk, root', tableSectors, n + 1) && q.Valid() && q.Coherent() && |q.disk| == |old(q.disk)|
    ensures NoEmptyRegion(root') && root' == Insert(root, dirNode.id, FileNode(n, inode, bytes))
    ensures forall i: nat | q.Cached(i) :: i in AllIds(root')
    ensures q.kINb == old(q.kINb) || fresh(q.kINb)
  {
    ghost var node;
    var id;
    id, node := CreateEntry(q, dir, inode, root, tableSectors, n, dirNode);
    root', bytes := Insert(root, dirNode.id, node), node.bytes;
    CreatedIds(root, dirNode.id, node);
    AllPathsKept(root, dirNode.id, node, root');
    NewPathResolves(root, dirNode.id, node, cs, name);
    r := ResolveJoined(q, basedir, cs + [name], root');
  }

  /** The image the builder leaves is a mounted disk, if it has a sector to spare after the table. */
  lemma BuiltMounted(fs: seq<byte>, t: Tree)
    requires t.Dir? && WellNamed(t) && Image(t) <= fs && 512 * (TableSectors(t) + 1) <= |fs| < Pow256(8)
    ensures Mounted(fs, LayoutOf(t, 0, TableSectors(t)), TableSectors(t), Count(t))
  {
    var n := TableSectors(t);
    ImageHolds(fs, t);
    forall i: nat | i < Count(t)
      ensures Readable(fs, i)
    {
      AllReadable(fs, t, i);
    }
    LayoutOnDisk(fs, t, 0, n);
    BuiltLaidOut(t);
    forall i: nat
      ensures i in AllIds(LayoutOf(t, 0, n)) <==> i < Count(t)
    {
      LayoutIds(t, 0, n, i);
    }
    forall i: nat | Count(t) <= i && 60 * (i + 1) <= 512 * n
      ensures InodeAt(fs, i).chunklen == 0
    {
      UnusedSlot(fs, t, i);
    }
  }

  lemma UnusedSlot(fs: seq<byte>, t: Tree, i: nat)
    requires Image(t) <= fs && Count(t) <= i && 60 * (i + 1) <= 512 * TableSectors(t)
    ensures 60 * (i + 1) <= |fs| && InodeAt(fs, i).chunklen == 0
  {
    var n := TableSectors(t);
    var table := TableBytes(t, n);
    assert At(fs, 0, Image(t));
    AtParts(fs, 0, Pad(table, 512 * n), Blob(t, 0), 512 * n);
    var b := fs[60 * i..60 * (i + 1)];
    forall k | 0 <= k < 60
      ensures b[k] == 0
    {
      assert fs[0..512 * n][60 * i + k] == Pad(table, 512 * n)[60 * i + k];
    }
    FromLeZeros(b[8..16]);
  }

  lemma {:induction false} LayoutIds(t: Tree, id: nat, sector: nat, i: nat)
    ensures i in AllIds(LayoutOf(t, id, sector)) <==> id <= i < id + Count(t)
    decreases t
  {
    var n := LayoutOf(t, id, sector);
    if t.Dir? {
      LayoutKids(t, id, sector);
      var ts := t.entries;
      forall k | 0 <= k < |ts|
        ensures i in AllIds(n.kids[k]) <==> IdOf(ts, id + 1, k) <= i < IdOf(ts, id + 1, k) + Count(ts[k])
        ensures id < IdOf(ts, id + 1, k) && IdOf(ts, id + 1, k) + Count(ts[k]) <= id + Count(t)
      {
        LayoutIds(ts[k], IdOf(ts, id + 1, k), SectorOf(ts, sector + SizeOf(t), k), i);
        KidNumbers(t, id, k);
      }
      LastEntry(ts, id + 1);
      assert ts[..0] == [];
      if id < i < id + Count(t) {
        var k := Owner(ts, id + 1, i, |ts|);
        assert i in AllIds(n.kids[k]);
      }
    }
  }

  /** The entry whose stretch of numbers contains `i`. */
  lemma {:induction false} Owner(ts: seq<Tree>, id: nat, i: nat, m: nat) returns (k: nat)
    requires 0 < m <= |ts| && id <= i < IdOf(ts, id, m)
    ensures k < |ts| && IdOf(ts, id, k) <= i < IdOf(ts, id, k) + Count(ts[k])
    decreases m
  {
    NextEntry(ts, id, m - 1);
    assert ts[..0] == [];
    if m > 1 && i < IdOf(ts, id, m - 1) {
      k := Owner(ts, id, i, m - 1);
    } else {
      k := m - 1;
    }
  }

  lemma EmptyRegionHeld(fs: seq<byte>, t: Tree, e: Tree, n: nat)
    requires t.Dir? && t.entries == [e] && e.File? && e.contents == [] && Holds(fs, t, 0, n)
    ensures 120 <= |fs| && InodeAt(fs, 0).chunklen != 0 && InodeAt(fs, 1).chunklen == 0
  {
    assert t.entries[..0] == [];
    HeldInode(fs, t, 0, n);
    HeldKid(fs, t, 0, n, 0);
    HeldInode(fs, e, IdOf(t.entries, 1, 0), SectorOf(t.entries, n + SizeOf(t), 0));
  }

  /**
   * The case that goes wrong, on the smallest disk: with an empty file in the root, `getI` hands out the number of
   * that file, so the next creation overwrites its inode.
   */
  lemma EmptyFileReused(fs: seq<byte>, name: Name)
    requires Component(name) && |name| < 32
    requires var t := Dir([], [File(name, [])]);
             Image(t) <= fs && 512 * (TableSectors(t) + 1) <= |fs| < Pow256(8)
    ensures FirstFree(fs, 1)
    ensures var t := Dir([], [File(name, [])]);
            1 in AllIds(LayoutOf(t, 0, TableSectors(t)))
  {
    var e := File(name, []);
    var t := Dir([], [e]);
    var n := TableSectors(t);
    ImageHolds(fs, t);
    assert t.entries[..0] == [] && CountAll(t.entries) == CountAll(t.entries[..0]) + Count(e);
    AllReadable(fs, t, 0);
    AllReadable(fs, t, 1);
    EmptyRegionHeld(fs, t, e, n);
    LayoutIds(t, 0, n, 1);
  }
}
