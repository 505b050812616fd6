/** The image round trip: the kernel resolves on the built image exactly the paths of the tree. */
module QfsRoundTrip {
  import opened Bytes
  import opened QfsFormat
  import opened QfsTree
  import opened QfsPath
  import opened QfsNodes
  import opened QfsBuilder
  import opened QfsKernel

  /** Where a path leads in a tree whose root has number `id` and first sector `sector`. */
  datatype Resolved =
    | Is(t: Tree, id: nat, sector: nat)
    | Absent        // a directory with entries lacks the component
    | InEmptyDir    // the component is looked up in a directory without entries
    | ThroughFile   // a component is looked up in a file

  function IndexOf(ts: seq<Tree>, c: Name, i: nat): (k: nat)
    requires i <= |ts|
    ensures i <= k <= |ts| && (k < |ts| ==> ts[k].name == c)
    ensures forall j | i <= j < k :: ts[j].name != c
    decreases |ts| - i
  {
    if i == |ts| || ts[i].name == c then i else IndexOf(ts, c, i + 1)
  }

  function Resolve(t: Tree, id: nat, sector: nat, cs: seq<Name>): Resolved
    decreases |cs|
  {
    if cs == [] then Is(t, id, sector)
    else if t.File? then ThroughFile
    else if t.entries == [] then InEmptyDir
    else
      var k := IndexOf(t.entries, cs[0], 0);
      if k == |t.entries| then Absent
      else Resolve(t.entries[k], IdOf(t.entries, id + 1, k), SectorOf(t.entries, sector + SizeOf(t), k), cs[1..])
  }

  /** Every component that exists is among the first 64 entries of its directory. */
  predicate Visible(t: Tree, cs: seq<Name>)
    decreases |cs|
  {
    cs != [] && t.Dir? ==>
      var k := IndexOf(t.entries, cs[0], 0);
      k < |t.entries| ==> k < 64 && Visible(t.entries[k], cs[1..])
  }

  lemma {:induction false} SameIndex(ts: seq<Tree>, kids: seq<Node>, c: Name, i: nat)
    requires |kids| == |ts| && i <= Limit(|kids|)
    requires forall j | 0 <= j < |ts| :: CStr(kids[j].inode.name) == ts[j].name
    ensures var k := IndexOf(ts, c, i);
            FindKid(kids, c, i) == if k < Limit(|kids|) then k else Limit(|kids|)
    decreases |ts| - i
  {
    if i < Limit(|kids|) && ts[i].name != c {
      SameIndex(ts, kids, c, i + 1);
    }
  }

  lemma LayoutNames(t: Tree, id: nat, sector: nat)
    requires WellNamed(t)
    ensures CStr(LayoutOf(t, id, sector).inode.name) == t.name
  {
  }

  /** What lookup should find, as a node. */
  function Looked(t: Tree, id: nat, sector: nat, cs: seq<Name>): Walked {
    if !Visible(t, cs) then Miss
    else
      match Resolve(t, id, sector, cs)
      case Is(u, i, s) => Hit(LayoutOf(u, i, s))
      case Absent => Miss
      case InEmptyDir => Fault
      case ThroughFile => Astray
  }

  /**
   * Lookup on the laid-out nodes against lookup in the tree, for every path: equal as long as the components
   * are among the first 64 entries of their directories, and a miss otherwise.
   */
  lemma {:induction false} WalkOfLayout(t: Tree, id: nat, sector: nat, cs: seq<Name>)
    requires WellNamed(t)
    ensures Walk(LayoutOf(t, id, sector), cs) == Looked(t, id, sector, cs)
    decreases |cs|
  {
    if cs != [] && t.Dir? && t.entries != [] {
      var k := IndexOf(t.entries, cs[0], 0);
      StepInLayout(t, id, sector, cs[0], k);
      LookedStep(t, id, sector, cs, k);
      if k < Limit(|t.entries|) {
        WalkOfLayout(t.entries[k], IdOf(t.entries, id + 1, k), SectorOf(t.entries, sector + SizeOf(t), k), cs[1..]);
      }
    } else {
      WalkEnds(t, id, sector, cs);
    }
  }

  lemma WalkEnds(t: Tree, id: nat, sector: nat, cs: seq<Name>)
    requires cs == [] || t.File? || t.entries == []
    ensures Walk(LayoutOf(t, id, sector), cs) == Looked(t, id, sector, cs)
  {
  }

  lemma LookedStep(t: Tree, id: nat, sector: nat, cs: seq<Name>, k: nat)
    requires cs != [] && t.Dir? && t.entries != [] && k == IndexOf(t.entries, cs[0], 0)
    ensures Looked(t, id, sector, cs) ==
            if k < Limit(|t.entries|) then
              Looked(t.entries[k], IdOf(t.entries, id + 1, k), SectorOf(t.entries, sector + SizeOf(t), k), cs[1..])
            else Miss
  {
  }

  lemma StepInLayout(t: Tree, id: nat, sector: nat, c: Name, k: nat)
    requires WellNamed(t) && t.Dir? && t.entries != [] && k == IndexOf(t.entries, c, 0)
    ensures Step(LayoutOf(t, id, sector), c) ==
            if k < Limit(|t.entries|) then
              Hit(LayoutOf(t.entries[k], IdOf(t.entries, id + 1, k), SectorOf(t.entries, sector + SizeOf(t), k)))
            else Miss
  {
    IndexInLayout(t, id, sector, c, k);
  }

  function Min(a: nat, b: nat): nat {
    if a < b then a else b
  }

  /** The entry that a directory scan finds. */
  lemma IndexInLayout(t: Tree, id: nat, sector: nat, c: Name, k: nat)
    requires WellNamed(t) && t.Dir? && t.entries != [] && k == IndexOf(t.entries, c, 0)
    ensures var n := LayoutOf(t, id, sector);
            && n.DirNode? && |n.kids| == |t.entries| && n.inode.chunklen != 0
            && FindKid(n.kids, c, 0) == Min(k, Limit(|n.kids|))
            && (k < |t.entries| ==>
                  n.kids[k]
                  == LayoutOf(t.entries[k], IdOf(t.entries, id + 1, k), SectorOf(t.entries, sector + SizeOf(t), k)))
  {
    var n := LayoutOf(t, id, sector);
    LayoutKids(t, id, sector);
    assert n.inode.chunklen == SizeOf(t) != 0;
    forall j | 0 <= j < |t.entries|
      ensures CStr(n.kids[j].inode.name) == t.entries[j].name
    {
      LayoutNames(t.entries[j], IdOf(t.entries, id + 1, j), SectorOf(t.entries, sector + SizeOf(t), j));
    }
    SameIndex(t.entries, n.kids, c, 0);
  }

  lemma ResolveStep(t: Tree, id: nat, sector: nat, cs: seq<Name>, k: nat, id': nat, sector': nat, rest: seq<Name>)
    requires cs != [] && Resolve(t, id, sector, cs).Is? && t.Dir? && k == IndexOf(t.entries, cs[0], 0)
    requires rest == cs[1..]
    requires k < |t.entries| ==>
               id' == IdOf(t.entries, id + 1, k) && sector' == SectorOf(t.entries, sector + SizeOf(t), k)
    ensures k < |t.entries| && t.entries[k].name == cs[0]
    ensures Resolve(t, id, sector, cs) == Resolve(t.entries[k], id', sector', rest)
  {
  }

  /** A resolved path ends at a subtree that carries its last component as name and lies within the image. */
  lemma {:induction false} ResolvedHeld(fs: seq<byte>, t: Tree, id: nat, sector: nat, cs: seq<Name>)
    requires Holds(fs, t, id, sector) && Resolve(t, id, sector, cs).Is?
    ensures var r := Resolve(t, id, sector, cs);
            Holds(fs, r.t, r.id, r.sector) && (cs != [] ==> r.t.name == cs[|cs| - 1])
    decreases |cs|
  {
    if cs != [] {
      var k := IndexOf(t.entries, cs[0], 0);
      var id', sector' := IdOf(t.entries, id + 1, k), SectorOf(t.entries, sector + SizeOf(t), k);
      var rest := cs[1..];
      ResolveStep(t, id, sector, cs, k, id', sector', rest);
      HeldKid(fs, t, id, sector, k);
      ResolvedHeld(fs, t.entries[k], id', sector', rest);
      assert rest == [] ==> Resolve(t.entries[k], id', sector', rest).t.name == cs[0];
    }
  }

  /** What the kernel has to answer for a path of the tree. */
  ghost predicate Faithful(fs: seq<byte>, t: Tree, cs: seq<Name>, r: Answer)
    requires cs != []
  {
    if !Visible(t, cs) then r == Null
    else
      match Resolve(t, 0, TableSectors(t), cs)
      case Absent => r == Null
      case InEmptyDir => r == Panic
      case ThroughFile => true
      case Is(u, id, sector) =>
        && r.Found?
        && CStr(r.inode.name) == u.name == cs[|cs| - 1]
        && r.inode.perms == (if u.File? then PERM_FILE else PERM_DIR)
        && 512 * (r.inode.chunkaddr1 + r.inode.chunklen) <= |fs|
        && RightRegion(fs, r.inode, u)
  }

  /** The region has the fewest sectors that hold the file or directory, and a file's bytes with zeros behind them. */
  ghost predicate RightRegion(fs: seq<byte>, inode: Inode, u: Tree)
    requires 512 * (inode.chunkaddr1 + inode.chunklen) <= |fs|
  {
    match u
    case Dir(_, entries) => 512 * (inode.chunklen - 1) < 60 * |entries| <= 512 * inode.chunklen
    case File(_, contents) =>
      && 512 * (inode.chunklen - 1) < |contents| <= 512 * inode.chunklen
      && Region(fs, inode) == contents + Zeros(512 * inode.chunklen - |contents|)
  }

  lemma RegionHeld(fs: seq<byte>, u: Tree, id: nat, sector: nat, inode: Inode)
    requires Holds(fs, u, id, sector) && inode == InodeOf(u, sector)
    ensures 512 * (inode.chunkaddr1 + inode.chunklen) <= |fs| && RightRegion(fs, inode, u)
  {
    HeldRegion(fs, u, id, sector);
  }

  lemma FaithfulAnswer(fs: seq<byte>, t: Tree, cs: seq<Name>, r: Answer)
    requires cs != [] && Holds(fs, t, 0, TableSectors(t)) && WellNamed(t)
    requires Answers(r, Walk(LayoutOf(t, 0, TableSectors(t)), cs))
    ensures Faithful(fs, t, cs, r)
  {
    var sector := TableSectors(t);
    WalkOfLayout(t, 0, sector, cs);
    var res := Resolve(t, 0, sector, cs);
    if Visible(t, cs) && res.Is? {
      ResolvedHeld(fs, t, 0, sector, cs);
      NamedBelow(t, 0, sector, cs);
      RegionHeld(fs, res.t, res.id, res.sector, r.inode);
    }
  }

  lemma {:induction false} NamedBelow(t: Tree, id: nat, sector: nat, cs: seq<Name>)
    requires WellNamed(t) && Resolve(t, id, sector, cs).Is?
    ensures WellNamed(Resolve(t, id, sector, cs).t)
    decreases |cs|
  {
    if cs != [] {
      var k := IndexOf(t.entries, cs[0], 0);
      NamedBelow(t.entries[k], IdOf(t.entries, id + 1, k), SectorOf(t.entries, sector + SizeOf(t), k), cs[1..]);
    }
  }

  /** The disk holds the files and directories of the tree where the builder puts them. */
  ghost predicate HasTree(fs: seq<byte>, t: Tree) {
    Holds(fs, t, 0, TableSectors(t)) && OnDisk(fs, LayoutOf(t, 0, TableSectors(t)))
  }

  lemma WrittenAtBase(image: seq<byte>, d: seq<byte>)
    requires 512 * 108 + |d| <= |image|
    ensures |FsWrite(image, 0, d)| == |image| && d <= FsWrite(image, 0, d)[512 * 108..]
  {
  }

  lemma MountBuilt(image: seq<byte>, t: Tree)
    requires t.Dir? && WellNamed(t)
    requires 512 * (108 + ImageSectors(t)) <= |image| < 0x8000_0000
    ensures var fs := FsWrite(image, 0, Image(t))[512 * 108..];
            HasTree(fs, t) && Image(t) <= fs && |fs| == |image| - 512 * 108
  {
    var fs := FsWrite(image, 0, Image(t))[512 * 108..];
    WrittenAtBase(image, Image(t));
    assert Pow256(8) == 0x1_0000_0000_0000_0000;
    ImageHolds(fs, t);
    forall i: nat | i < Count(t)
      ensures Readable(fs, i)
    {
      AllReadable(fs, t, i);
    }
    LayoutOnDisk(fs, t, 0, TableSectors(t));
  }

  /** The path and the root as `GetFileFromFilename` wants them. */
  lemma PathParsed(t: Tree, cs: seq<Name>)
    requires WellNamed(t) && cs != [] && forall i | 0 <= i < |cs| :: Component(cs[i])
    requires Visible(t, cs) ==> Resolve(t, 0, TableSectors(t), cs) != ThroughFile
    ensures SLASH in Join(cs) && 0 !in Join(cs) && Parse(Join(cs)).Parsed?
    ensures Parse(Join(cs)).dirs + [Parse(Join(cs)).name] == cs
    ensures Walk(LayoutOf(t, 0, TableSectors(t)), cs) != Astray
  {
    ParseOfJoin(cs);
    JoinClean(cs);
    WalkOfLayout(t, 0, TableSectors(t), cs);
    InitAndLast(cs);
  }

  /** Look a path up on a mounted image of `t`: the answer is that of the walk over the layout. */
  method LookUp(q: Qfs, t: Tree, cs: seq<Name>) returns (r: Answer)
    requires q.Valid() && q.Coherent() && WellNamed(t)
    requires HasTree(q.disk, t)
    requires cs != [] && forall i | 0 <= i < |cs| :: Component(cs[i])
    requires Visible(t, cs) ==> Resolve(t, 0, TableSectors(t), cs) != ThroughFile
    modifies q`kINb, q`kINb_sz, q.kINb
    ensures q.Valid() && q.Coherent() && (q.kINb == old(q.kINb) || fresh(q.kINb))
    ensures Answers(r, Walk(LayoutOf(t, 0, TableSectors(t)), cs))
    ensures forall i :: q.Cached(i) ==> old(q.Cached(i)) || i in AllIds(LayoutOf(t, 0, TableSectors(t)))
  {
    ghost var root := LayoutOf(t, 0, TableSectors(t));
    assert InodeOnDisk(q.disk, root) && root.id == 0;
    var basedir := q.GrabInode(0);
    PathParsed(t, cs);
    r := q.GetFileFromFilename(basedir, Join(cs), root);
  }

  /** Resolve a path on a mounted image of `t`. */
  method ResolvePath(q: Qfs, t: Tree, cs: seq<Name>) returns (r: Answer)
    requires q.Valid() && q.Coherent() && WellNamed(t)
    requires HasTree(q.disk, t)
    requires cs != [] && forall i | 0 <= i < |cs| :: Component(cs[i])
    requires Visible(t, cs) ==> Resolve(t, 0, TableSectors(t), cs) != ThroughFile
    modifies q`kINb, q`kINb_sz, q.kINb
    ensures q.Valid() && q.Coherent() && (q.kINb == old(q.kINb) || fresh(q.kINb))
    ensures Faithful(q.disk, t, cs, r)
    ensures forall i :: q.Cached(i) ==> old(q.Cached(i)) || i in AllIds(LayoutOf(t, 0, TableSectors(t)))
  {
    r := LookUp(q, t, cs);
    FaithfulAnswer(q.disk, t, cs, r);
  }

  /**
   * Build the image of a tree, mount it and resolve a path: a path of the tree that stays within the first 64
   * entries of every directory gives the inode of the file or directory it names, whose sectors hold the file's
   * bytes zero-padded; any other path gives NULL, except that looking into an empty directory is fatal and that
   * nothing is said about a path through a file.
   */
  method BuildThenResolve(image: seq<byte>, t: Tree, cs: seq<Name>) returns (r: Answer, q: Qfs)
    requires t.Dir? && WellNamed(t)
    requires 512 * (108 + ImageSectors(t)) <= |image| < 0x8000_0000
    requires cs != [] && forall i | 0 <= i < |cs| :: Component(cs[i])
    requires Visible(t, cs) ==> Resolve(t, 0, TableSectors(t), cs) != ThroughFile
    ensures Faithful(q.disk, t, cs, r)
    ensures q.Valid() && q.Coherent() && |q.disk| == |image| - 512 * 108
  {
    q := BuildAndMount(image, t);
    r := ResolvePath(q, t, cs);
  }

  /** The kernel's disk begins at sector 108 of the image. */
  method BuildAndMount(image: seq<byte>, t: Tree) returns (q: Qfs)
    requires t.Dir? && WellNamed(t)
    requires 512 * (108 + ImageSectors(t)) <= |image| < 0x8000_0000
    ensures fresh(q) && q.Valid() && q.Coherent() && fresh(q.kINb) && |q.disk| == |image| - 512 * 108
    ensures HasTree(q.disk, t) && Image(t) <= q.disk && forall i :: !q.Cached(i)
  {
    var b := new Builder(image);
    Build(b, t);
    var fs := b.image[512 * 108..];
    MountBuilt(image, t);
    q := new Qfs(fs);
  }

  // Every node of a tree with distinct sibling names, addressed by the positions on the way to it.

  ghost predicate Positions(t: Tree, ps: seq<nat>)
    decreases |ps|
  {
    ps != [] ==> t.Dir? && ps[0] < |t.entries| && Positions(t.entries[ps[0]], ps[1..])
  }

  function PathTo(t: Tree, ps: seq<nat>): (cs: seq<Name>)
    requires Positions(t, ps)
    ensures |cs| == |ps|
    decreases |ps|
  {
    if ps == [] then [] else [t.entries[ps[0]].name] + PathTo(t.entries[ps[0]], ps[1..])
  }

  function NodeAt(t: Tree, ps: seq<nat>): Tree
    requires Positions(t, ps)
    decreases |ps|
  {
    if ps == [] then t else NodeAt(t.entries[ps[0]], ps[1..])
  }

  /**
   * The path of every file and directory resolves to it, and lookup can see it exactly when no position on the
   * way is 64 or more: the scan of a directory reads one sector of 64 numbers.
   */
  lemma {:induction false} EveryPathResolves(t: Tree, id: nat, sector: nat, ps: seq<nat>)
    requires DistinctNames(t) && Positions(t, ps)
    ensures var r := Resolve(t, id, sector, PathTo(t, ps));
            r.Is? && r.t == NodeAt(t, ps)
    ensures Visible(t, PathTo(t, ps)) <==> forall i | 0 <= i < |ps| :: ps[i] < 64
    decreases |ps|
  {
    if ps != [] {
      var p, c, cs := ps[0], t.entries[ps[0]].name, PathTo(t, ps);
      assert IndexOf(t.entries, c, 0) == p by { FirstWithName(t.entries, p, 0); }
      assert cs[0] == c && cs[1..] == PathTo(t.entries[p], ps[1..]);
      EveryPathResolves(t.entries[p], IdOf(t.entries, id + 1, p), SectorOf(t.entries, sector + SizeOf(t), p), ps[1..]);
      assert (forall i | 0 <= i < |ps| :: ps[i] < 64) <==> p < 64 && (forall i | 0 <= i < |ps[1..]| :: ps[1..][i] < 64)
      by {
        if p < 64 && (forall i | 0 <= i < |ps[1..]| :: ps[1..][i] < 64) {
          forall i | 0 <= i < |ps|
            ensures ps[i] < 64
          {
            if i > 0 { assert ps[i] == ps[1..][i - 1]; }
          }
        }
      }
    }
  }

  lemma {:induction false} FirstWithName(ts: seq<Tree>, p: nat, i: nat)
    requires i <= p < |ts| && forall j, k | 0 <= j < k < |ts| :: ts[j].name != ts[k].name
    ensures IndexOf(ts, ts[p].name, i) == p
    decreases p - i
  {
    if i < p {
      FirstWithName(ts, p, i + 1);
    }
  }
}
