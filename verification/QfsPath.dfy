/** The three passes of `getFileFromFilename` over a path. A path is a C string: its bytes without the final NUL. */
module QfsPath {
  import opened Options
  import opened Bytes
  import opened QfsTree

  /** Maximal runs of slashes. */
  function Runs(s: seq<byte>): (n: nat)
    ensures n <= |s|
  {
    if s == [] then 0
    else
      var k := |s| - 1;
      Runs(s[..k]) + (if s[k] == SLASH && (k == 0 || s[k - 1] != SLASH) then 1 else 0)
  }

  predicate EndsWithSlash(s: seq<byte>) {
    s != [] && s[|s| - 1] == SLASH
  }

  /** First position from `i` on that holds a slash, or the end. */
  function NextSlash(s: seq<byte>, i: nat): (k: nat)
    requires i <= |s|
    ensures i <= k <= |s| && SLASH !in s[i..k] && (k < |s| ==> s[k] == SLASH)
    decreases |s| - i
  {
    if i == |s| || s[i] == SLASH then i
    else
      var k := NextSlash(s, i + 1);
      assert s[i..k] == [s[i]] + s[i + 1..k];
      k
  }

  /** The `count` pieces, each ended by one slash, that start at `i`. */
  function Pieces(s: seq<byte>, i: nat, count: nat): (r: Option<seq<Name>>)
    requires i <= |s|
    ensures r.Some? ==> |r.value| == count
    decreases count
  {
    if count == 0 then Some([])
    else
      var k := NextSlash(s, i);
      if k == |s| then None
      else
        match Pieces(s, k + 1, count - 1)
        case None => None
        case Some(rest) => Some([s[i..k]] + rest)
  }

  function Prepend<T>(front: seq<T>, r: Option<seq<T>>): Option<seq<T>> {
    match r
    case None => None
    case Some(rest) => Some(front + rest)
  }

  lemma NothingPrepended<T>(r: Option<seq<T>>)
    ensures Prepend([], r) == r
  {
    assert r.Some? ==> [] + r.value == r.value;
  }

  lemma NextPiece(s: seq<byte>, k: nat, i: nat, count: nat, front: seq<Name>)
    requires k <= i < |s| && s[i] == SLASH && NextSlash(s, k) == i && count > 0
    ensures Prepend(front, Pieces(s, k, count)) == Prepend(front + [s[k..i]], Pieces(s, i + 1, count - 1))
  {
    var rest := Pieces(s, i + 1, count - 1);
    assert rest.Some? ==> front + ([s[k..i]] + rest.value) == (front + [s[k..i]]) + rest.value;
  }

  /** Position after the last slash. */
  function AfterLastSlash(s: seq<byte>, e: nat): (i: nat)
    requires e <= |s| && SLASH in s[..e]
    ensures 0 < i <= e && s[i - 1] == SLASH && SLASH !in s[i..e]
  {
    if s[e - 1] == SLASH then e
    else
      assert s[..e] == s[..e - 1] + [s[e - 1]];
      var i := AfterLastSlash(s, e - 1);
      assert s[i..e] == s[i..e - 1] + [s[e - 1]];
      i
  }

  /** First pass: the number of slash runs, or nothing for a path that ends with a slash. */
  method CountPass(s: seq<byte>) returns (r: Option<nat>, e: nat)
    ensures r == if EndsWithSlash(s) then None else Some(Runs(s))
    ensures r.Some? ==> e == |s|
  {
    var i, slashes := 0, 0;
    e := 0;
    assert s[..0] == [];
    while i < |s|
      invariant 0 <= i <= |s| && e == i
      invariant i > 0 && i < |s| && s[i] == SLASH ==> s[i - 1] != SLASH
      invariant i == |s| ==> !EndsWithSlash(s)
      invariant slashes == Runs(s[..i])
    {
      if s[i] == SLASH {
        assert s[..i + 1][..i] == s[..i];
        slashes := slashes + 1;
        i := i + 1;
        while i < |s| && s[i] == SLASH
          invariant 0 < i <= |s| && s[i - 1] == SLASH
          invariant slashes == Runs(s[..i])
        {
          assert s[..i + 1][..i] == s[..i];
          i := i + 1;
        }
        if i == |s| {
          return None, e;
        }
      } else {
        assert s[..i + 1][..i] == s[..i];
        i := i + 1;
      }
      e := i;
    }
    assert s[..|s|] == s;
    return Some(slashes), e;
  }

  /** Second pass: the directory components. */
  method SplitPass(s: seq<byte>, count: nat) returns (r: Option<seq<Name>>)
    requires count > 0 ==> |s| > 1
    requires !EndsWithSlash(s)
    ensures r == if count == 0 then Some([]) else Pieces(s, 1, count)
  {
    var directories: seq<Name> := [];
    if count != 0 {
      var i, j := 1, 0;
      NothingPrepended(Pieces(s, 1, count));
      while j < count
        invariant 0 <= j <= count && 1 <= i < |s| && |directories| == j
        invariant Pieces(s, 1, count) == Prepend(directories, Pieces(s, i, count - j))
      {
        var k := i;
        while s[i] != SLASH
          invariant k <= i < |s| && NextSlash(s, k) == NextSlash(s, i)
          decreases |s| - i
        {
          i := i + 1;
          if i == |s| {
            return None;
          }
        }
        NextPiece(s, k, i, count - j, directories);
        directories := directories + [s[k..i]];
        i := i + 1;
        j := j + 1;
      }
      assert directories + [] == directories;
    }
    return Some(directories);
  }

  /** Third pass: the last component. */
  method NamePass(s: seq<byte>, e: nat) returns (name: Name, i: nat)
    requires e == |s| && SLASH in s
    ensures i == AfterLastSlash(s, e) && name == s[i..]
  {
    i := e;
    assert s[..e] == s;
    while s[i - 1] != SLASH
      invariant 0 < i <= e && SLASH in s[..i]
      invariant AfterLastSlash(s, e) == AfterLastSlash(s, i)
      decreases i
    {
      assert s[..i] == s[..i - 1] + [s[i - 1]];
      i := i - 1;
    }
    name := s[i..e];
  }

  /** What the three passes make of a path: directory components and a last component. */
  datatype Parsed = Rejected | Missing | Parsed(dirs: seq<Name>, name: Name)

  function Parse(s: seq<byte>): Parsed
    requires SLASH in s
  {
    if EndsWithSlash(s) then Rejected
    else
      var count := if Runs(s) > 0 then Runs(s) - 1 else 0;
      var dirs := if count == 0 then Some([]) else Pieces(s, 1, count);
      assert s[..|s|] == s;
      if dirs.None? then Missing else Parsed(dirs.value, s[AfterLastSlash(s, |s|)..])
  }

  // Paths by what stands between their slashes.

  /** Doubled slashes have an empty field between them. */
  predicate Field(c: Name) {
    SLASH !in c
  }

  /** The fields that are not empty, in order. */
  function Present(fs: seq<Name>): (cs: seq<Name>)
    ensures |cs| <= |fs| && forall i | 0 <= i < |cs| :: cs[i] != []
  {
    if fs == [] then []
    else
      var k := |fs| - 1;
      Present(fs[..k]) + if fs[k] == [] then [] else [fs[k]]
  }

  /** The fields of a path that begins with a slash. */
  function FieldsOf(s: seq<byte>): (fs: seq<Name>)
    requires s != [] ==> s[0] == SLASH
    ensures Join(fs) == s && (fs == [] <==> s == []) && forall i | 0 <= i < |fs| :: Field(fs[i])
  {
    if s == [] then []
    else
      var k := NextSlash(s, 1);
      assert s == [SLASH] + s[1..k] + s[k..];
      [s[1..k]] + FieldsOf(s[k..])
  }

  function Join(cs: seq<Name>): seq<byte> {
    if cs == [] then [] else [SLASH] + cs[0] + Join(cs[1..])
  }

  lemma {:induction false} JoinLast(cs: seq<Name>)
    requires cs != []
    ensures Join(cs) == Join(cs[..|cs| - 1]) + [SLASH] + cs[|cs| - 1]
  {
    if |cs| > 1 {
      JoinLast(cs[1..]);
      assert cs[1..][..|cs| - 2] == cs[..|cs| - 1][1..];
    } else {
      assert cs[1..] == [] && cs[..0] == [];
    }
  }

  lemma {:induction false} RunsNoSlash(x: seq<byte>, c: seq<byte>)
    requires SLASH !in c
    ensures Runs(x + c) == Runs(x)
  {
    if c == [] {
      assert x + c == x;
    } else {
      var k := |c| - 1;
      assert (x + c)[..|x| + k] == x + c[..k];
      RunsNoSlash(x, c[..k]);
    }
  }

  /** A slash behind some fields begins a new run unless the last field is empty. */
  lemma OneMoreSlash(x: seq<byte>)
    ensures Runs(x + [SLASH]) == Runs(x) + if EndsWithSlash(x) then 0 else 1
  {
    assert (x + [SLASH])[..|x|] == x;
  }

  lemma {:induction false} RunsOfJoin(fs: seq<Name>)
    requires forall i | 0 <= i < |fs| :: Field(fs[i])
    ensures EndsWithSlash(Join(fs)) <==> fs != [] && fs[|fs| - 1] == []
    ensures Runs(Join(fs)) == |Present(fs)| + if EndsWithSlash(Join(fs)) then 1 else 0
  {
    if fs != [] {
      var k := |fs| - 1;
      var front, c := Join(fs[..k]), fs[k];
      JoinLast(fs);
      RunsOfJoin(fs[..k]);
      OneMoreSlash(front);
      RunsNoSlash(front + [SLASH], c);
      assert c != [] ==> c[|c| - 1] in c;
    }
  }

  lemma {:induction false} SplitAtSlash(s: seq<byte>, i: nat, c: seq<byte>)
    requires At(s, i, c) && SLASH !in c && i + |c| < |s| && s[i + |c|] == SLASH
    ensures NextSlash(s, i) == i + |c|
    decreases |c|
  {
    if c != [] {
      AtParts(s, i, c[..1], c[1..], i + 1);
      assert c == c[..1] + c[1..] && s[i] == c[0];
      SplitAtSlash(s, i + 1, c[1..]);
    }
  }

  lemma {:induction false} LastSlashAt(s: seq<byte>, e: nat, q: nat)
    requires q < e <= |s| && s[q] == SLASH && forall i | q < i < e :: s[i] != SLASH
    ensures SLASH in s[..e] && AfterLastSlash(s, e) == q + 1
  {
    assert s[..e][q] == SLASH;
    if q < e - 1 {
      LastSlashAt(s, e - 1, q);
    }
  }

  lemma FrontOf<T>(cs: seq<T>, count: nat)
    requires 0 < count <= |cs|
    ensures [cs[0]] + cs[1..][..count - 1] == cs[..count]
  {
  }

  lemma OnePiece(s: seq<byte>, i: nat, c: Name, rest: seq<Name>, next: nat, count: nat)
    requires At(s, i, c) && SLASH !in c && i + |c| < |s| && s[i + |c|] == SLASH && next == i + |c| + 1
    requires count > 0 && Pieces(s, next, count - 1) == Some(rest)
    ensures Pieces(s, i, count) == Some([c] + rest)
  {
    SplitAtSlash(s, i, c);
  }

  lemma FirstField(s: seq<byte>, p: nat, c: Name, rest: seq<Name>, next: nat)
    requires At(s, p, [SLASH] + c + Join(rest)) && next == p + 1 + |c|
    ensures p + 1 <= |s| && At(s, p + 1, c) && At(s, next, Join(rest))
    ensures rest != [] ==> next < |s| && s[next] == SLASH
  {
    var tail := Join(rest);
    AtParts(s, p, [SLASH] + c, tail, next);
    AtParts(s, p, [SLASH], c, p + 1);
    assert rest != [] ==> tail[0] == SLASH && s[next] == tail[0];
  }

  lemma {:induction false} PiecesOfJoin(s: seq<byte>, p: nat, fs: seq<Name>, count: nat)
    requires count < |fs| && At(s, p, Join(fs))
    requires forall i | 0 <= i < |fs| :: Field(fs[i])
    ensures p + 1 <= |s| && Pieces(s, p + 1, count) == Some(fs[..count])
    decreases count
  {
    var c, rest, next := fs[0], fs[1..], p + 1 + |fs[0]|;
    FirstField(s, p, c, rest, next);
    if count > 0 {
      PiecesOfJoin(s, next, rest, count - 1);
      OnePiece(s, p + 1, c, rest[..count - 1], next + 1, count);
      FrontOf(fs, count);
    }
  }

  lemma NameOfJoin(fs: seq<Name>, s: seq<byte>)
    requires fs != [] && (forall i | 0 <= i < |fs| :: Field(fs[i])) && s == Join(fs)
    ensures SLASH in s && SLASH in s[..|s|] && s[AfterLastSlash(s, |s|)..] == fs[|fs| - 1]
  {
    var front, c := Join(fs[..|fs| - 1]), fs[|fs| - 1];
    JoinLast(fs);
    assert s == front + [SLASH] + c && s[..|s|] == s;
    LastSlashAt(s, |s|, |front|);
    assert s[0] == SLASH;
  }

  lemma PiecesOfPath(fs: seq<Name>, s: seq<byte>, count: nat)
    requires count < |fs| && (forall i | 0 <= i < |fs| :: Field(fs[i])) && s == Join(fs)
    ensures s != [] && Pieces(s, 1, count) == Some(fs[..count])
  {
    PiecesOfJoin(s, 0, fs, count);
  }

  lemma ParsedFrom(s: seq<byte>, count: nat, dirs: seq<Name>, name: Name)
    requires s != [] && SLASH in s && !EndsWithSlash(s) && Runs(s) == count + 1
    requires Pieces(s, 1, count) == Some(dirs)
    requires SLASH in s[..|s|] && s[AfterLastSlash(s, |s|)..] == name
    ensures Parse(s) == Parsed(dirs, name)
  {
  }

  /**
   * A path is rejected exactly when its last field is empty. Otherwise there is one directory less than there are
   * fields that are not empty, but the first fields are taken, whether empty or not; and the name is the last field.
   */
  lemma ParseOfFields(fs: seq<Name>)
    requires fs != [] && forall i | 0 <= i < |fs| :: Field(fs[i])
    ensures SLASH in Join(fs)
    ensures fs[|fs| - 1] == [] ==> Parse(Join(fs)) == Rejected
    ensures fs[|fs| - 1] != [] ==>
              |Present(fs)| > 0 && Parse(Join(fs)) == Parsed(fs[..|Present(fs)| - 1], fs[|fs| - 1])
  {
    var s, n := Join(fs), |Present(fs)|;
    RunsOfPath(fs, s, n);
    NameOfJoin(fs, s);
    if fs[|fs| - 1] != [] {
      PiecesOfPath(fs, s, n - 1);
      ParsedFrom(s, n - 1, fs[..n - 1], fs[|fs| - 1]);
    }
  }

  lemma RunsOfPath(fs: seq<Name>, s: seq<byte>, n: nat)
    requires fs != [] && (forall i | 0 <= i < |fs| :: Field(fs[i])) && s == Join(fs) && n == |Present(fs)|
    ensures fs[|fs| - 1] == [] <==> EndsWithSlash(s)
    ensures fs[|fs| - 1] != [] ==> n > 0 && Runs(s) == n
  {
    RunsOfJoin(fs);
  }

  lemma {:induction false} PresentFront(fs: seq<Name>, n: nat)
    requires n <= |fs| && forall i | 0 <= i < n :: fs[i] != []
    ensures n <= |Present(fs)| && Present(fs)[..n] == fs[..n]
  {
    if fs != [] {
      var k := |fs| - 1;
      PresentFront(fs[..k], if n > k then k else n);
      assert n > k ==> fs[..n] == fs[..k] + [fs[k]] && fs[..k][..k] == fs[..k];
    }
  }

  lemma AllPresent(cs: seq<Name>)
    requires forall i | 0 <= i < |cs| :: cs[i] != []
    ensures Present(cs) == cs
  {
    PresentFront(cs, |cs|);
    assert Present(cs)[..|cs|] == Present(cs) && cs[..|cs|] == cs;
  }

  lemma PresentMore(fs: seq<Name>, c: Name)
    ensures Present(fs + [c]) == Present(fs) + if c == [] then [] else [c]
  {
    assert (fs + [c])[..|fs|] == fs;
  }

  /** On a path `/c1/.../cn` without doubled slashes the passes yield exactly `[c1, .., c(n-1)]` and `cn`. */
  lemma ParseOfJoin(cs: seq<Name>)
    requires cs != [] && forall i | 0 <= i < |cs| :: cs[i] != [] && Field(cs[i])
    ensures SLASH in Join(cs) && Parse(Join(cs)) == Parsed(cs[..|cs| - 1], cs[|cs| - 1])
  {
    AllPresent(cs);
    ParseOfFields(cs);
  }

  /**
   * Doubled slashes make no difference exactly when none stands before the name of a directory: when of all fields
   * that are not empty all but the last one come first.
   */
  lemma DoubledIff(fs: seq<Name>)
    requires fs != [] && fs[|fs| - 1] != [] && forall i | 0 <= i < |fs| :: Field(fs[i])
    ensures Present(fs) != [] && SLASH in Join(fs) && SLASH in Join(Present(fs))
    ensures Parse(Join(fs)) == Parse(Join(Present(fs))) <==> forall i | 0 <= i < |Present(fs)| - 1 :: fs[i] != []
  {
    var cs := Present(fs);
    PresentIn(fs);
    ParseOfFields(fs);
    ParseOfJoin(cs);
    var n := |cs| - 1;
    if forall i | 0 <= i < n :: fs[i] != [] {
      PresentFront(fs, n);
    } else {
      var i :| 0 <= i < n && fs[i] == [];
      assert fs[..n][i] != cs[..n][i];
    }
  }

  lemma {:induction false} PresentIn(fs: seq<Name>)
    ensures forall i | 0 <= i < |Present(fs)| :: Present(fs)[i] in fs
  {
    if fs != [] { PresentIn(fs[..|fs| - 1]); }
  }

  /** Two slashes at the beginning are not one: `//a/b` is a path through a directory without a name. */
  lemma DoubledFirst(fs: seq<Name>, a: Name, b: Name)
    requires a != [] && b != [] && Field(a) && Field(b) && fs == [[], a, b]
    ensures SLASH in Join(fs) && Parse(Join(fs)) == Parsed([[]], b)
  {
    PresentMore([], []);
    PresentMore([[]], a);
    PresentMore([[], a], b);
    assert fs == [[], a] + [b] && [[], a] == [[]] + [a];
    ParseOfFields(fs);
    assert fs[..1] == [[]];
  }

  lemma {:induction false} JoinClean(cs: seq<Name>)
    requires forall i | 0 <= i < |cs| :: Component(cs[i])
    ensures 0 !in Join(cs)
  {
    if cs != [] {
      JoinClean(cs[1..]);
    }
  }

  lemma InitAndLast<T>(s: seq<T>)
    requires s != []
    ensures s[..|s| - 1] + [s[|s| - 1]] == s
  {
  }
}
