/** The low twelve bits of the entries in the page tables. */
module PageFlags {
  import opened Options
  import opened Bits
  import opened PageWalk

  /** The flags in the last entry on the way `p`; 0 where nothing is. */
  function Flags(t: Tables, root: nat, p: Path): nat {
    if p == [] || Walk(t, root, p).None? then 0
    else t[(Walk(t, root, p[..|p| - 1]).value, p[|p| - 1])] % 4096
  }

  /** That entry as a word. */
  lemma EntryIs(t: Tables, root: nat, p: Path, i: nat)
    requires Walk(t, root, p + [i]).Some?
    ensures Walk(t, root, p).Some? && (Walk(t, root, p).value, i) in t
    ensures t[(Walk(t, root, p).value, i)] == 4096 * Walk(t, root, p + [i]).value + Flags(t, root, p + [i])
  {
    assert (p + [i])[..|p|] == p;
  }

  /** The flags are those of the two words together. */
  ghost predicate FlagsAre(flags: nat, a: nat, b: nat) {
    forall k: nat :: Bit(flags, k) <==> Bit(a, k) || Bit(b, k)
  }

  /** Whatever was reached is where it was, with the same flags. */
  ghost predicate Kept(t': Tables, t: Tables, root: nat) {
    forall q: Path {:trigger Flags(t', root, q)} | |q| <= 4 && Walk(t, root, q).Some? ::
      Walk(t', root, q) == Walk(t, root, q) && Flags(t', root, q) == Flags(t, root, q)
  }

  /** The same but for one path. */
  ghost predicate KeptBut(t': Tables, t: Tables, root: nat, p: Path) {
    forall q: Path {:trigger Flags(t', root, q)} | |q| <= 4 && q != p && Walk(t, root, q).Some? ::
      Walk(t', root, q) == Walk(t, root, q) && Flags(t', root, q) == Flags(t, root, q)
  }

  lemma KeptTwice(t2: Tables, t1: Tables, t: Tables, root: nat)
    requires Kept(t2, t1, root) && Kept(t1, t, root)
    ensures Kept(t2, t, root)
  {
    forall q: Path | |q| <= 4 && Walk(t, root, q).Some?
      ensures Walk(t2, root, q) == Walk(t, root, q) && Flags(t2, root, q) == Flags(t, root, q)
    {
      assert Flags(t1, root, q) == Flags(t, root, q);
    }
  }

  /** Storing another entry changes no flags. */
  lemma FlagsElsewhere(t: Tables, root: nat, p: Path, i: nat, f: nat, e: nat, q: Path)
    requires Tree(t, root) && Slot(t, root, p, i, f) && |q| <= 4 && q != p + [i] && Walk(t, root, q).Some?
    requires forall s: Path | |s| <= 4 && s != p + [i] :: Walk(t[(f, i) := e], root, s) == Walk(t, root, s)
    requires |p| == 3 || Walk(t, root, p + [i]).None?
    ensures Flags(t[(f, i) := e], root, q) == Flags(t, root, q)
  {
    if q != [] {
      var s, q0, j := p + [i], q[..|q| - 1], q[|q| - 1];
      assert q == q0 + [j];
      assert |s| == |p| + 1 && q0 != s;
      assert Apart(t, root, q0, p);
      assert Walk(t[(f, i) := e], root, q0) == Walk(t, root, q0);
      assert Walk(t[(f, i) := e], root, q) == Walk(t, root, q);
    }
  }

  lemma InstalledFlags(t: Tables, root: nat, p: Path, i: nat, f: nat, e: nat)
    requires Installable(t, root, p, i, f, e)
    ensures Kept(t[(f, i) := e], t, root) && Flags(t[(f, i) := e], root, p + [i]) == e % 4096
  {
    var t' := t[(f, i) := e];
    InstalledTree(t, root, p, i, f, e);
    forall q: Path | |q| <= 4 && Walk(t, root, q).Some?
      ensures Walk(t', root, q) == Walk(t, root, q) && Flags(t', root, q) == Flags(t, root, q)
    {
      FlagsElsewhere(t, root, p, i, f, e, q);
    }
    assert (p + [i])[..|p|] == p && Walk(t', root, p) == Some(f);
  }

  lemma ClearedFlags(t: Tables, root: nat, m: nat)
    requires Tree(t, root) && !IsTable(t, root, m)
    ensures Kept(Cleared(t, m), t, root)
  {
    ClearedFrame(t, root, m);
    forall q: Path | |q| <= 4 && Walk(t, root, q).Some?
      ensures Walk(Cleared(t, m), root, q) == Walk(t, root, q) && Flags(Cleared(t, m), root, q) == Flags(t, root, q)
    {
      if q != [] {
        assert Walk(t, root, q[..|q| - 1]) != Some(m);
      }
    }
  }

  lemma RemovedFlags(t: Tables, root: nat, p: Path, i: nat, f: nat)
    requires Tree(t, root) && Slot(t, root, p, i, f) && |p| == 3
    ensures KeptBut(t[(f, i) := 0], t, root, p + [i])
  {
    ClearedTree(t, root, p, i, f);
    forall q: Path | |q| <= 4 && q != p + [i] && Walk(t, root, q).Some?
      ensures Flags(t[(f, i) := 0], root, q) == Flags(t, root, q)
    {
      FlagsElsewhere(t, root, p, i, f, 0, q);
    }
  }
}
