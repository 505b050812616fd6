/** The layout of the image: who gets which number and which sectors. */
module QfsLayout {
  import opened Bytes
  import opened QfsFormat
  import opened QfsTree
  import opened QfsNodes

  function Preorder(n: Node): (ns: seq<Node>)
    decreases n, 1
  {
    if n.FileNode? then [n] else [n] + PreorderAll(n.kids)
  }

  function PreorderAll(kids: seq<Node>): seq<Node>
    decreases kids, 0
  {
    if kids == [] then [] else PreorderAll(kids[..|kids| - 1]) + Preorder(kids[|kids| - 1])
  }

  /** `ns` has the numbers from `id` on and fills the sectors from `from` up to `to` without a gap. */
  ghost predicate Consecutive(ns: seq<Node>, id: nat, from: nat, to: nat) {
    && (forall k | 0 <= k < |ns| :: ns[k].id == id + k)
    && (if ns == [] then from == to
        else ns[0].inode.chunkaddr1 == from
             && ns[|ns| - 1].inode.chunkaddr1 + ns[|ns| - 1].inode.chunklen == to)
    && (forall k {:trigger Follows(ns, k)} | 0 < k < |ns| :: Follows(ns, k))
  }

  /** The region of node `k` begins where the one before ends. */
  ghost predicate Follows(ns: seq<Node>, k: int)
    requires 0 < k < |ns|
  {
    ns[k].inode.chunkaddr1 == ns[k - 1].inode.chunkaddr1 + ns[k - 1].inode.chunklen
  }

  lemma ConsecutiveJoin(a: seq<Node>, b: seq<Node>, id: nat, from: nat, mid: nat, to: nat)
    requires Consecutive(a, id, from, mid) && Consecutive(b, id + |a|, mid, to)
    ensures Consecutive(a + b, id, from, to)
  {
    var c := a + b;
    forall k | 0 < k < |c|
      ensures Follows(c, k)
    {
      if k < |a| {
        assert Follows(a, k);
      } else if k > |a| {
        assert c[k] == b[k - |a|] && c[k - 1] == b[k - 1 - |a|] && Follows(b, k - |a|);
      }
    }
  }

  /**
   * The builder's layout: inode numbers are the pre-order numbers, and the regions in that order follow one
   * another without gap or overlap.
   */
  lemma {:induction false} LayoutConsecutive(t: Tree, id: nat, sector: nat)
    ensures var ns := Preorder(LayoutOf(t, id, sector));
            |ns| == Count(t) && Consecutive(ns, id, sector, sector + Sectors(t))
    decreases t
  {
    var n := LayoutOf(t, id, sector);
    assert Consecutive([n], id, sector, sector + SizeOf(t));
    if t.Dir? {
      LayoutKids(t, id, sector);
      KidsConsecutive(t, n.kids, |t.entries|, id + 1, sector + SizeOf(t));
      assert n.kids[..|n.kids|] == n.kids && t.entries[..|t.entries|] == t.entries;
      ConsecutiveJoin([n], PreorderAll(n.kids), id, sector, sector + SizeOf(t), sector + Sectors(t));
    }
  }

  ghost predicate KidLaidOut(ts: seq<Tree>, kids: seq<Node>, id: nat, sector: nat, i: nat)
    requires i < |ts| == |kids|
  {
    kids[i] == LayoutOf(ts[i], IdOf(ts, id, i), SectorOf(ts, sector, i))
  }

  lemma {:induction false} KidsConsecutive(t: Tree, kids: seq<Node>, k: nat, id: nat, sector: nat)
    requires t.Dir? && k <= |t.entries| == |kids|
    requires forall i {:trigger KidLaidOut(t.entries, kids, id, sector, i)} | 0 <= i < |kids| ::
               KidLaidOut(t.entries, kids, id, sector, i)
    ensures |PreorderAll(kids[..k])| == CountAll(t.entries[..k])
    ensures Consecutive(PreorderAll(kids[..k]), id, sector, SectorOf(t.entries, sector, k))
    decreases t, k
  {
    if k > 0 {
      var i := k - 1;
      var ts, id1, sec1 := t.entries, IdOf(t.entries, id, i), SectorOf(t.entries, sector, i);
      assert KidLaidOut(ts, kids, id, sector, i);
      KidsConsecutive(t, kids, i, id, sector);
      LayoutConsecutive(ts[i], id1, sec1);
      NextKid(ts, kids, kids[i], id, sector, i, id1, sec1);
    }
  }

  lemma NextKid(ts: seq<Tree>, kids: seq<Node>, kid: Node, id: nat, sector: nat, i: nat, id1: nat, sec1: nat)
    requires i < |ts| == |kids| && kid == kids[i]
    requires id1 == IdOf(ts, id, i) && sec1 == SectorOf(ts, sector, i)
    requires |PreorderAll(kids[..i])| == CountAll(ts[..i]) && Consecutive(PreorderAll(kids[..i]), id, sector, sec1)
    requires |Preorder(kid)| == Count(ts[i]) && Consecutive(Preorder(kid), id1, sec1, sec1 + Sectors(ts[i]))
    ensures |PreorderAll(kids[..i + 1])| == CountAll(ts[..i + 1])
    ensures Consecutive(PreorderAll(kids[..i + 1]), id, sector, SectorOf(ts, sector, i + 1))
  {
    var next := i + 1;
    assert kids[..next][..i] == kids[..i] && ts[..next][..i] == ts[..i];
    NextEntry(ts, sector, i);
    ConsecutiveJoin(PreorderAll(kids[..i]), Preorder(kid), id, sector, sec1, sec1 + Sectors(ts[i]));
  }

  /** Regions that follow one another are disjoint and keep to their stretch. */
  lemma {:induction false} ConsecutiveApart(ns: seq<Node>, id: nat, from: nat, to: nat, j: nat, k: nat)
    requires Consecutive(ns, id, from, to) && j < k < |ns|
    ensures ns[j].id < ns[k].id
    ensures ns[j].inode.chunkaddr1 + ns[j].inode.chunklen <= ns[k].inode.chunkaddr1
    decreases k
  {
    assert Follows(ns, k);
    if j < k - 1 {
      ConsecutiveApart(ns, id, from, to, j, k - 1);
    }
  }

  lemma ConsecutiveWithin(ns: seq<Node>, id: nat, from: nat, to: nat, k: nat)
    requires Consecutive(ns, id, from, to) && k < |ns|
    ensures from <= ns[k].inode.chunkaddr1 && ns[k].inode.chunkaddr1 + ns[k].inode.chunklen <= to
  {
    if k > 0 {
      ConsecutiveApart(ns, id, from, to, 0, k);
    }
    if k < |ns| - 1 {
      ConsecutiveApart(ns, id, from, to, k, |ns| - 1);
    }
  }

  // The same facts on the set of nodes, which is what later changes to the disk preserve.

  function Nodes(n: Node): (s: set<Node>)
    ensures n in s
    decreases n
  {
    if n.FileNode? then {n} else {n} + (set i, m | 0 <= i < |n.kids| && m in Nodes(n.kids[i]) :: m)
  }

  ghost predicate Apart(m: Node, n: Node) {
    || m.inode.chunkaddr1 + m.inode.chunklen <= n.inode.chunkaddr1
    || n.inode.chunkaddr1 + n.inode.chunklen <= m.inode.chunkaddr1
  }

  /** Numbers identify nodes, inodes lie in the `tableSectors` sectors of the table, regions above it and apart. */
  ghost predicate LaidOut(root: Node, tableSectors: nat) {
    && (forall m, n {:trigger Separate(m, n)} | m in Nodes(root) && n in Nodes(root) && m != n :: Separate(m, n))
    && (forall m {:trigger Placed(m, tableSectors)} | m in Nodes(root) :: Placed(m, tableSectors))
  }

  /** Different numbers, and regions apart. */
  ghost predicate Separate(m: Node, n: Node) {
    m.id != n.id && Apart(m, n)
  }

  /** The inode is in the table, and the region above it. */
  ghost predicate Placed(m: Node, tableSectors: nat) {
    60 * (m.id + 1) <= 512 * tableSectors <= 512 * m.inode.chunkaddr1
  }

  lemma {:induction false} NodesInPreorder(n: Node)
    ensures forall m | m in Nodes(n) :: m in Preorder(n)
    decreases n
  {
    if n.DirNode? {
      forall m | m in Nodes(n)
        ensures m in Preorder(n)
      {
        if m != n {
          var i :| 0 <= i < |n.kids| && m in Nodes(n.kids[i]);
          NodesInPreorder(n.kids[i]);
          KidInPreorder(n.kids, i, m);
        }
      }
    }
  }

  lemma {:induction false} KidInPreorder(kids: seq<Node>, i: nat, m: Node)
    requires i < |kids| && m in Preorder(kids[i])
    ensures m in PreorderAll(kids)
    decreases |kids|
  {
    var k := |kids| - 1;
    if i < k {
      KidInPreorder(kids[..k], i, m);
    }
  }

  lemma PlaceInBuilt(t: Tree, m: Node) returns (j: nat)
    requires m in Nodes(LayoutOf(t, 0, TableSectors(t)))
    ensures var ns := Preorder(LayoutOf(t, 0, TableSectors(t)));
            j < |ns| == Count(t) && ns[j] == m && Consecutive(ns, 0, TableSectors(t), ImageSectors(t))
  {
    LayoutConsecutive(t, 0, TableSectors(t));
    NodesInPreorder(LayoutOf(t, 0, TableSectors(t)));
    var ns := Preorder(LayoutOf(t, 0, TableSectors(t)));
    j :| 0 <= j < |ns| && ns[j] == m;
  }

  lemma BuiltApart(t: Tree, m: Node, o: Node)
    requires m in Nodes(LayoutOf(t, 0, TableSectors(t))) && o in Nodes(LayoutOf(t, 0, TableSectors(t))) && m != o
    ensures m.id != o.id && Apart(m, o)
  {
    var ns := Preorder(LayoutOf(t, 0, TableSectors(t)));
    var j := PlaceInBuilt(t, m);
    var k := PlaceInBuilt(t, o);
    if j < k {
      ConsecutiveApart(ns, 0, TableSectors(t), ImageSectors(t), j, k);
    } else {
      ConsecutiveApart(ns, 0, TableSectors(t), ImageSectors(t), k, j);
    }
  }

  lemma BuiltWithin(t: Tree, m: Node)
    requires m in Nodes(LayoutOf(t, 0, TableSectors(t)))
    ensures m.id < Count(t) && TableSectors(t) <= m.inode.chunkaddr1
    ensures m.inode.chunkaddr1 + m.inode.chunklen <= ImageSectors(t)
  {
    var j := PlaceInBuilt(t, m);
    ConsecutiveWithin(Preorder(LayoutOf(t, 0, TableSectors(t))), 0, TableSectors(t), ImageSectors(t), j);
  }

  lemma BuiltLaidOut(t: Tree)
    ensures LaidOut(LayoutOf(t, 0, TableSectors(t)), TableSectors(t))
  {
    var root := LayoutOf(t, 0, TableSectors(t));
    forall m, o | m in Nodes(root) && o in Nodes(root) && m != o
      ensures Separate(m, o)
    {
      BuiltApart(t, m, o);
    }
    forall m | m in Nodes(root)
      ensures Placed(m, TableSectors(t))
    {
      BuiltWithin(t, m);
    }
  }

  // What the layout means for each file and directory, in terms of its own length.

  /** The fewest sectors that hold the given number of bytes. */
  predicate Tight(sectors: nat, bytes: nat) {
    512 * (sectors - 1) < bytes <= 512 * sectors
  }

  /** The node is the file or directory: its name and kind, its bytes with zeros behind them, its entries in order. */
  ghost predicate Mirrors(n: Node, t: Tree)
    decreases t
  {
    CStr(n.inode.name) == t.name &&
    match t
    case File(_, contents) =>
      && n.FileNode? && n.inode.perms == PERM_FILE && Tight(n.inode.chunklen, |contents|)
      && |n.bytes| == 512 * n.inode.chunklen && contents <= n.bytes
      && (forall i | |contents| <= i < |n.bytes| :: n.bytes[i] == 0)
    case Dir(_, entries) =>
      && n.DirNode? && n.inode.perms == PERM_DIR && Tight(n.inode.chunklen, 60 * |entries|)
      && |n.kids| == |entries| && forall i | 0 <= i < |entries| :: Mirrors(n.kids[i], entries[i])
  }

  /** Every node of the layout mirrors its subtree, in the fewest sectors that hold it. */
  lemma {:induction false} LayoutMirrors(t: Tree, id: nat, sector: nat)
    requires WellNamed(t)
    ensures Mirrors(LayoutOf(t, id, sector), t)
    decreases t
  {
    if t.Dir? {
      LayoutKids(t, id, sector);
      forall i | 0 <= i < |t.entries|
        ensures Mirrors(LayoutOf(t, id, sector).kids[i], t.entries[i])
      {
        LayoutMirrors(t.entries[i], IdOf(t.entries, id + 1, i), SectorOf(t.entries, sector + SizeOf(t), i));
      }
    }
  }

  /** The regions begin behind the fewest sectors that hold one inode for each node. */
  lemma TableTight(t: Tree)
    ensures var root := LayoutOf(t, 0, TableSectors(t));
            root.id == 0 && Tight(root.inode.chunkaddr1, 60 * |Preorder(root)|)
  {
    LayoutConsecutive(t, 0, TableSectors(t));
  }
}
