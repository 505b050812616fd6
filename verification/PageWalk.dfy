/** Four-level page tables (page.c; 4-level paging, section 4.5 of the Intel SDM, Volume 3A) as a tree of frames. */
module PageWalk {
  import opened Options

  /** Entries of the tables by frame and index. */
  type Tables = map<(nat, nat), nat>

  /** Indices from the root table downwards. */
  type Path = seq<nat>

  predicate Present(e: nat) {
    e % 2 == 1
  }

  /** The frame that a path leads to: a table for fewer than four indices, a page for four. */
  function Walk(t: Tables, root: nat, p: Path): Option<nat> {
    if p == [] then Some(root)
    else
      match Walk(t, root, p[..|p| - 1])
      case None => None
      case Some(f) =>
        var i := p[|p| - 1];
        if i < 512 && (f, i) in t && Present(t[(f, i)]) then Some(t[(f, i)] / 4096) else None
  }

  predicate HasTable(t: Tables, f: nat) {
    forall i | 0 <= i < 512 :: (f, i) in t
  }

  /** Two different paths do not lead to the same table, nor to the same page. */
  ghost predicate Apart(t: Tables, root: nat, p: Path, q: Path) {
    (|p| <= 3 && |q| <= 3) || |p| == |q| == 4 ==>
      Walk(t, root, p).Some? && Walk(t, root, p) == Walk(t, root, q) ==> p == q
  }

  /** No table and no page is shared. A page may lie on the frame of a table. */
  ghost predicate Injective(t: Tables, root: nat) {
    forall p: Path, q: Path :: Apart(t, root, p, q)
  }

  ghost predicate Complete(t: Tables, root: nat) {
    forall p: Path {:trigger HasTable(t, Walk(t, root, p).value)} | |p| <= 3 && Walk(t, root, p).Some? ::
      HasTable(t, Walk(t, root, p).value)
  }

  /** The tables form a tree: no table is shared and no two pages lie on one frame. */
  ghost predicate Tree(t: Tables, root: nat) {
    Injective(t, root) && Complete(t, root)
  }

  ghost predicate Reached(t: Tables, root: nat, f: nat) {
    exists p: Path :: |p| <= 4 && Walk(t, root, p) == Some(f)
  }

  /** The frame holds a table. */
  ghost predicate IsTable(t: Tables, root: nat, f: nat) {
    exists p: Path :: |p| <= 3 && Walk(t, root, p) == Some(f)
  }

  ghost predicate Zeroed(t: Tables, f: nat) {
    forall i | 0 <= i < 512 :: (f, i) in t && t[(f, i)] == 0
  }

  lemma WalkStep(t: Tables, root: nat, p: Path, i: nat)
    requires Walk(t, root, p).Some?
    ensures var f := Walk(t, root, p).value;
            Walk(t, root, p + [i])
            == if i < 512 && (f, i) in t && Present(t[(f, i)]) then Some(t[(f, i)] / 4096) else None
  {
    assert (p + [i])[..|p|] == p;
  }

  lemma {:induction false} WalkPrefix(t: Tables, root: nat, p: Path, k: nat)
    requires k <= |p| && Walk(t, root, p).Some?
    ensures Walk(t, root, p[..k]).Some?
  {
    if k < |p| {
      WalkPrefix(t, root, p[..|p| - 1], k);
      assert p[..|p| - 1][..k] == p[..k];
    } else {
      assert p[..k] == p;
    }
  }

  // Storing one entry.

  /** The entry that the path `p + [i]` goes through last. */
  ghost predicate Slot(t: Tables, root: nat, p: Path, i: nat, f: nat) {
    |p| <= 3 && i < 512 && Walk(t, root, p) == Some(f)
  }

  /** No walk but those through `p + [i]` sees the entry. */
  lemma {:induction false} WalkElsewhere(t: Tables, root: nat, p: Path, i: nat, f: nat, e: nat, q: Path)
    requires Tree(t, root) && Slot(t, root, p, i, f) && |q| <= 4 && !(p + [i] <= q)
    ensures Walk(t[(f, i) := e], root, q) == Walk(t, root, q)
    decreases |q|
  {
    if q != [] {
      var s, q0, j := p + [i], q[..|q| - 1], q[|q| - 1];
      assert q == q0 + [j];
      assert s <= q0 ==> s <= q;
      WalkElsewhere(t, root, p, i, f, e, q0);
      assert q0 != p || j != i by {
        assert q0 == p && j == i ==> q == s;
      }
      assert Apart(t, root, q0, p);
    }
  }

  lemma WalkThere(t: Tables, root: nat, p: Path, i: nat, f: nat, e: nat)
    requires Tree(t, root) && Slot(t, root, p, i, f)
    ensures Walk(t[(f, i) := e], root, p + [i]) == if Present(e) then Some(e / 4096) else None
  {
    WalkElsewhere(t, root, p, i, f, e, p);
    WalkStep(t[(f, i) := e], root, p, i);
  }

  /** Below a table whose entries are all clear there is nothing. */
  lemma {:induction false} WalkBelowZeroed(t: Tables, root: nat, p: Path, q: Path)
    requires Walk(t, root, p).Some? && Zeroed(t, Walk(t, root, p).value) && p < q
    ensures Walk(t, root, q).None?
    decreases |q|
  {
    var q0 := q[..|q| - 1];
    if q0 != p {
      assert p < q0;
      WalkBelowZeroed(t, root, p, q0);
    }
  }

  lemma {:induction false} WalkBelowNothing(t: Tables, root: nat, p: Path, q: Path)
    requires Walk(t, root, p).None? && p <= q
    ensures Walk(t, root, q).None?
    decreases |q|
  {
    if q != p {
      assert p <= q[..|q| - 1];
      WalkBelowNothing(t, root, p, q[..|q| - 1]);
    }
  }

  /** What an entry for a clear slot needs: an odd word with a zeroed frame that is no table, or with an unused one. */
  ghost predicate Installable(t: Tables, root: nat, p: Path, i: nat, f: nat, e: nat) {
    && Tree(t, root) && Slot(t, root, p, i, f) && Walk(t, root, p + [i]).None? && Present(e)
    && if |p| < 3 then Zeroed(t, e / 4096) && !IsTable(t, root, e / 4096) else !Reached(t, root, e / 4096)
  }

  /** After the entry is stored, exactly one path more leads somewhere: to the new frame. */
  lemma InstalledWalk(t: Tables, root: nat, p: Path, i: nat, f: nat, e: nat, q: Path)
    requires Installable(t, root, p, i, f, e) && |q| <= 4
    ensures Walk(t[(f, i) := e], root, q) == if q == p + [i] then Some(e / 4096) else Walk(t, root, q)
  {
    var t' := t[(f, i) := e];
    WalkThere(t, root, p, i, f, e);
    if !(p + [i] <= q) {
      WalkElsewhere(t, root, p, i, f, e, q);
    } else if q != p + [i] {
      assert e / 4096 != f by { assert IsTable(t, root, f); }
      assert Zeroed(t', e / 4096);
      WalkBelowZeroed(t', root, p + [i], q);
      WalkBelowNothing(t, root, p + [i], q);
    }
  }

  lemma InstalledTree(t: Tables, root: nat, p: Path, i: nat, f: nat, e: nat)
    requires Installable(t, root, p, i, f, e)
    ensures Tree(t[(f, i) := e], root)
    ensures forall q: Path | |q| <= 4 ::
              Walk(t[(f, i) := e], root, q) == if q == p + [i] then Some(e / 4096) else Walk(t, root, q)
  {
    var t' := t[(f, i) := e];
    forall q: Path | |q| <= 4
      ensures Walk(t', root, q) == if q == p + [i] then Some(e / 4096) else Walk(t, root, q)
    {
      InstalledWalk(t, root, p, i, f, e, q);
    }
    forall q: Path | |q| <= 3 && Walk(t', root, q).Some?
      ensures HasTable(t', Walk(t', root, q).value)
    {
      assert Walk(t, root, q).Some? ==> HasTable(t, Walk(t, root, q).value);
    }
    forall q: Path, s: Path
      ensures Apart(t', root, q, s)
    {
      assert Apart(t, root, q, s);
    }
  }

  /** Clearing the entry of a page removes exactly that page. */
  lemma ClearedTree(t: Tables, root: nat, p: Path, i: nat, f: nat)
    requires Tree(t, root) && Slot(t, root, p, i, f) && |p| == 3
    ensures Tree(t[(f, i) := 0], root)
    ensures forall q: Path | |q| <= 4 ::
              Walk(t[(f, i) := 0], root, q) == if q == p + [i] then None else Walk(t, root, q)
  {
    var t' := t[(f, i) := 0];
    WalkThere(t, root, p, i, f, 0);
    forall q: Path | |q| <= 4
      ensures Walk(t', root, q) == if q == p + [i] then None else Walk(t, root, q)
    {
      if q != p + [i] {
        assert !(p + [i] <= q);
        WalkElsewhere(t, root, p, i, f, 0, q);
      }
    }
    forall q: Path | |q| <= 3 && Walk(t', root, q).Some?
      ensures HasTable(t', Walk(t', root, q).value)
    {
      assert HasTable(t, Walk(t, root, q).value);
    }
    forall q: Path, s: Path
      ensures Apart(t', root, q, s)
    {
      assert Apart(t, root, q, s);
    }
  }

  /** The memory of a frame cleared. */
  function Cleared(t: Tables, m: nat): Tables {
    t + map i: nat | i < 512 :: (m, i) := 0
  }

  /** Clearing a frame that holds no table changes no walk. */
  lemma {:induction false} ClearedWalk(t: Tables, root: nat, m: nat, q: Path)
    requires !IsTable(t, root, m) && |q| <= 4
    ensures Walk(Cleared(t, m), root, q) == Walk(t, root, q)
    decreases |q|
  {
    if q != [] {
      var q0 := q[..|q| - 1];
      ClearedWalk(t, root, m, q0);
      assert Walk(t, root, q0) != Some(m);
    }
  }

  lemma ClearedFrame(t: Tables, root: nat, m: nat)
    requires Tree(t, root) && !IsTable(t, root, m)
    ensures Tree(Cleared(t, m), root) && Zeroed(Cleared(t, m), m)
    ensures forall q: Path | |q| <= 4 :: Walk(Cleared(t, m), root, q) == Walk(t, root, q)
  {
    var t' := Cleared(t, m);
    forall q: Path | |q| <= 4
      ensures Walk(t', root, q) == Walk(t, root, q)
    {
      ClearedWalk(t, root, m, q);
    }
    forall q: Path | |q| <= 3 && Walk(t', root, q).Some?
      ensures HasTable(t', Walk(t', root, q).value)
    {
      assert HasTable(t, Walk(t, root, q).value);
    }
    forall q: Path, s: Path
      ensures Apart(t', root, q, s)
    {
      assert Apart(t, root, q, s);
    }
  }
}
