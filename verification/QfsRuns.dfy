/** Whole runs of the file system: lookups, inode reads, invalidations and creations in any order. */
module QfsRuns {
  import opened Bytes
  import opened QfsFormat
  import opened QfsTree
  import opened QfsNodes
  import opened QfsLayout
  import opened QfsPath
  import opened QfsKernel
  import opened QfsRoundTrip
  import opened QfsCreate

  /** A step; `dir` is the directory that the path `cs` leads to. */
  datatype Op =
    | Lookup(cs: seq<Name>)
    | Grab(id: nat)
    | Drop(id: nat)
    | Create(cs: seq<Name>, name: Name, dir: VNode, inode: Inode)

  /**
   * The disk holds the nodes from `root`, and the cache holds nothing but inodes of theirs, as they are on the disk.
   */
  ghost predicate Consistent(q: Qfs, root: Node, tableSectors: nat, n: nat)
    reads q, q.kINb
  {
    && q.Valid() && q.Coherent() && Mounted(q.disk, root, tableSectors, n) && root.id == 0
    && forall i: nat | q.Cached(i) :: i in AllIds(root)
  }

  /** What a creation asks for: room, and a fresh name in a directory that is where the path leads. */
  ghost predicate Creatable(root: Node, tableSectors: nat, n: nat, size: nat, op: Op)
    requires op.Create?
  {
    && NoEmptyRegion(root) && (forall i | 0 <= i < |op.cs| :: Component(op.cs[i])) && Walk(root, op.cs).Hit?
    && var d := Walk(root, op.cs).node;
       && HasRoom(root, tableSectors, n, d, op.inode, size) && |d.kids| < 64
       && op.dir.id == d.id && op.dir.a == d.inode
       && Component(op.name) && CStr(op.inode.name) == op.name
       && forall k | k in d.kids :: CStr(k.inode.name) != op.name
  }

  ghost predicate Findable(root: Node, cs: seq<Name>) {
    cs != [] && (forall i | 0 <= i < |cs| :: Component(cs[i])) && Walk(root, cs) != Astray
  }

  /** The nodes after a creation; the region of the new inode may hold anything. */
  function Grown(root: Node, n: nat, op: Op, bytes: seq<byte>): Node
    requires op.Create?
  {
    Insert(root, op.dir.id, FileNode(n, op.inode, bytes))
  }

  /** Each step is possible when its turn comes. */
  ghost predicate Legal(root: Node, tableSectors: nat, n: nat, size: nat, ops: seq<Op>)
    decreases |ops|
  {
    ops != [] ==>
      match ops[0]
      case Lookup(cs) => Findable(root, cs) && Legal(root, tableSectors, n, size, ops[1..])
      case Grab(id) => id in AllIds(root) && Legal(root, tableSectors, n, size, ops[1..])
      case Drop(_) => Legal(root, tableSectors, n, size, ops[1..])
      case Create(_, _, _, _) =>
        && Creatable(root, tableSectors, n, size, ops[0])
        && forall bytes :: Legal(Grown(root, n, ops[0], bytes), tableSectors, n + 1, size, ops[1..])
  }

  /** Each answer is the one of the nodes as they are when its turn comes; what was created is found at once. */
  ghost predicate AllAnswered(root: Node, n: nat, ops: seq<Op>, rs: seq<Answer>)
    decreases |ops|
  {
    && |rs| == |ops|
    && (ops != [] ==>
          match ops[0]
          case Lookup(cs) => Answers(rs[0], Walk(root, cs)) && AllAnswered(root, n, ops[1..], rs[1..])
          case Grab(id) => HasInode(root, id, rs[0]) && AllAnswered(root, n, ops[1..], rs[1..])
          case Drop(_) => AllAnswered(root, n, ops[1..], rs[1..])
          case Create(_, _, _, inode) =>
            && rs[0] == Found(inode)
            && exists bytes :: AllAnswered(Grown(root, n, ops[0], bytes), n + 1, ops[1..], rs[1..]))
  }

  /** The answer is the inode of the node numbered `id`. */
  ghost predicate HasInode(root: Node, id: nat, r: Answer) {
    exists m :: m in Nodes(root) && m.id == id && r == Found(m.inode)
  }

  /** An inode in use can be read and is the one of its node. */
  lemma InUse(fs: seq<byte>, root: Node, id: nat)
    requires OnDisk(fs, root) && id in AllIds(root)
    ensures Readable(fs, id) && HasInode(root, id, Found(InodeAt(fs, id)))
  {
    NodeOfId(root, id);
    var m :| m in Nodes(root) && m.id == id;
    NodeOnDisk(fs, root, m);
  }

  method LookUp(q: Qfs, cs: seq<Name>, ghost root: Node, ghost tableSectors: nat, ghost n: nat) returns (r: Answer)
    requires Consistent(q, root, tableSectors, n) && Findable(root, cs)
    modifies q`kINb, q`kINb_sz, q.kINb
    ensures Consistent(q, root, tableSectors, n) && Answers(r, Walk(root, cs))
    ensures q.disk == old(q.disk) && (q.kINb == old(q.kINb) || fresh(q.kINb))
  {
    InodeOfRoot(q.disk, root);
    var basedir := q.GrabInode(0);
    r := ResolveJoined(q, basedir, cs, root);
  }

  lemma InodeOfRoot(fs: seq<byte>, root: Node)
    requires OnDisk(fs, root) && root.id == 0
    ensures Readable(fs, 0) && InodeAt(fs, 0) == root.inode && 0 in AllIds(root)
  {
    assert InodeOnDisk(fs, root);
  }

  /** One step. */
  method Step(q: Qfs, op: Op, ghost root: Node, ghost tableSectors: nat, ghost n: nat)
    returns (r: Answer, ghost root': Node, ghost n': nat, ghost bytes: seq<byte>)
    requires Consistent(q, root, tableSectors, n)
    requires op.Lookup? ==> Findable(root, op.cs)
    requires op.Grab? ==> op.id in AllIds(root)
    requires op.Create? ==> Creatable(root, tableSectors, n, |q.disk|, op)
    modifies q, q.kINb
    ensures Consistent(q, root', tableSectors, n') && |q.disk| == |old(q.disk)|
    ensures q.kINb == old(q.kINb) || fresh(q.kINb)
    ensures op.Lookup? ==> Answers(r, Walk(root, op.cs))
    ensures op.Grab? ==> HasInode(root, op.id, r)
    ensures op.Create? ==> r == Found(op.inode) && root' == Grown(root, n, op, bytes) && n' == n + 1
    ensures !op.Create? ==> root' == root && n' == n
  {
    root', n', bytes := root, n, [];
    match op
    case Lookup(cs) =>
      r := LookUp(q, cs, root, tableSectors, n);
    case Grab(id) =>
      InUse(q.disk, root, id);
      var inode := q.GrabInode(id);
      r := Found(inode);
    case Drop(id) =>
      q.Invalidate(id);
      r := Null;
    case Create(cs, name, dir, inode) =>
      InodeOfRoot(q.disk, root);
      var basedir := q.GrabInode(0);
      ghost var place := Walk(root, cs).node;
      r, root', bytes := CreateThenResolve(q, basedir, cs, name, dir, inode, root, tableSectors, n, place);
      n' := n + 1;
  }

  /**
   * Every run: after any sequence of steps the cache is coherent and holds only inodes in use, the disk shows the
   * nodes as the creations left them, and every answer was right when it was given.
   */
  method Run(q: Qfs, ops: seq<Op>, ghost root: Node, ghost tableSectors: nat, ghost n: nat)
    returns (rs: seq<Answer>, ghost root': Node, ghost n': nat)
    requires Consistent(q, root, tableSectors, n) && Legal(root, tableSectors, n, |q.disk|, ops)
    modifies q, q.kINb
    ensures Consistent(q, root', tableSectors, n') && AllAnswered(root, n, ops, rs)
    ensures |q.disk| == |old(q.disk)| && (q.kINb == old(q.kINb) || fresh(q.kINb))
    decreases |ops|
  {
    if ops == [] {
      return [], root, n;
    }
    ghost var bytes;
    var r;
    r, root', n', bytes := Step(q, ops[0], root, tableSectors, n);
    ghost var root1, n1 := root', n';
    rs, root', n' := Run(q, ops[1..], root1, tableSectors, n1);
    rs := [r] + rs;
    assert AllAnswered(root1, n1, ops[1..], rs[1..]);
  }

  /** A run from the image that the builder leaves, if it has a sector to spare. */
  method BuildAndRun(image: seq<byte>, t: Tree, ops: seq<Op>)
    returns (q: Qfs, rs: seq<Answer>, ghost root: Node, ghost n: nat)
    requires t.Dir? && WellNamed(t)
    requires 512 * (108 + ImageSectors(t)) <= |image| < 0x8000_0000 && 512 * (109 + TableSectors(t)) <= |image|
    requires Legal(LayoutOf(t, 0, TableSectors(t)), TableSectors(t), Count(t), |image| - 512 * 108, ops)
    ensures Consistent(q, root, TableSectors(t), n)
    ensures AllAnswered(LayoutOf(t, 0, TableSectors(t)), Count(t), ops, rs)
  {
    q := BuildAndMount(image, t);
    assert Pow256(8) == 0x1_0000_0000_0000_0000;
    BuiltMounted(q.disk, t);
    rs, root, n := Run(q, ops, LayoutOf(t, 0, TableSectors(t)), TableSectors(t), Count(t));
  }

  // Runs that are possible: a new file beside another one, and a lookup of it.

  function NewFile(name: Name): Inode {
    ConstructInode(3, 1, PERM_FILE, 0, 0, 0, name)
  }

  lemma OneFileSizes(a: Tree)
    requires a.File? && 0 < |a.contents| <= 512
    ensures var t := Dir([], [a]); Count(t) == 2 && TableSectors(t) == 1 && SizeOf(t) == 1
    ensures SizeOf(a) == 1 && Count(a) == 1 && IdOf([a], 1, 0) == 1 && SectorOf([a], 2, 0) == 2
  {
    var ts := [a];
    assert ts[..0] == [] && ts[..|ts| - 1] == [] && CountAll([]) == 0 && SectorsAll([]) == 0;
    assert CountAll(ts) == 1;
  }

  /** The nodes of a tree with one file. */
  lemma OneFileLayout(a: Tree, t: Tree, root: Node, k: Node)
    requires a.File? && 0 < |a.contents| <= 512 && 0 !in a.name && |a.name| < 32 && t == Dir([], [a])
    requires root == LayoutOf(t, 0, 1) && k == LayoutOf(a, 1, 2)
    ensures root.id == 0 && root.DirNode? && root.kids == [k] && root.inode.chunkaddr1 == 1 && root.inode.chunklen == 1
    ensures k.FileNode? && k.id == 1 && k.inode.chunkaddr1 == 2 && k.inode.chunklen == 1 && CStr(k.inode.name) == a.name
  {
    OneFileSizes(a);
    LayoutKids(t, 0, 1);
    assert root.kids[0] == k;
    assert root.kids == [k];
  }

  lemma NewFileIsGood(name: Name)
    requires Component(name) && |name| < 32
    ensures NewFile(name).Valid() && 0 in NewFile(name).name && CStr(NewFile(name).name) == name
  {
    PowersAreLarge();
    assert NewFile(name).name[|name|] == 0;
  }

  /** A creation in a directory with one entry is possible when it has room. */
  lemma OneKidCreatable(root: Node, k: Node, name: Name, size: nat, op: Op)
    requires root.DirNode? && root.kids == [k] && root.id == 0 && root.inode.chunkaddr1 == 1 && root.inode.chunklen == 1
    requires k.FileNode? && k.id == 1 && k.inode.chunkaddr1 == 2 && k.inode.chunklen == 1 && CStr(k.inode.name) != name
    requires Component(name) && |name| < 32 && size >= 2048
    requires op == Create([], name, VNode(root.inode, 0, 0, true), NewFile(name))
    ensures Creatable(root, 1, 2, size, op)
  {
    NewFileIsGood(name);
    assert Nodes(k) == {k};
    assert forall m | m in Nodes(root) :: m == root || m == k;
    assert root in Nodes(root);
  }

  /** On a disk with one small file, creating another one and looking it up is a run of this kind. */
  lemma CreationIsLegal(a: Tree, name: Name, size: nat)
    requires a.File? && 0 < |a.contents| <= 512 && 0 !in a.name && |a.name| < 32 && size >= 2048
    requires Component(name) && |name| < 32 && name != a.name
    ensures var t := Dir([], [a]);
            var dir := VNode(LayoutOf(t, 0, TableSectors(t)).inode, 0, 0, true);
            Legal(LayoutOf(t, 0, TableSectors(t)), TableSectors(t), Count(t), size,
                  [Create([], name, dir, NewFile(name)), Lookup([name])])
  {
    var t := Dir([], [a]);
    var root, k := LayoutOf(t, 0, 1), LayoutOf(a, 1, 2);
    var op, next := Create([], name, VNode(root.inode, 0, 0, true), NewFile(name)), [Lookup([name])];
    OneFileSizes(a);
    OneFileLayout(a, t, root, k);
    OneKidCreatable(root, k, name, size, op);
    assert [op] + next == [op, Lookup([name])] && ([op] + next)[1..] == next;
    forall bytes
      ensures Legal(Grown(root, 2, op, bytes), 1, 3, size, next)
    {
      LookupIsLegal(Grown(root, 2, op, bytes), name, 3, size, next);
    }
  }

  lemma LookupIsLegal(r: Node, c: Name, n: nat, size: nat, ops: seq<Op>)
    requires r.DirNode? && Component(c) && ops == [Lookup([c])]
    ensures Legal(r, 1, n, size, ops)
  {
    assert ops[1..] == [] && [c][1..] == [];
    assert Findable(r, [c]);
  }

  lemma PowersAreLarge()
    ensures Pow256(2) == 65536 && Pow256(8) > 3
  {
    assert Pow256(2) == 256 * Pow256(1) == 65536;
    assert Pow256(8) == 256 * Pow256(7) && Pow256(7) == 256 * Pow256(6) && Pow256(6) > 0;
  }
}
