/** Bytes, little-endian words and in-place patches of byte sequences. */
module Bytes {
  import opened Division

  type byte = x: int | 0 <= x < 256

  ghost function Pow256(k: nat): (p: nat)
    ensures p > 0
  {
    if k == 0 then 1 else 256 * Pow256(k - 1)
  }

  /** The `k` low bytes of `n`, least significant first. */
  function Le(n: nat, k: nat): (s: seq<byte>)
    ensures |s| == k
  {
    if k == 0 then [] else [n % 256] + Le(n / 256, k - 1)
  }

  function FromLe(s: seq<byte>): nat
  {
    if s == [] then 0 else s[0] + 256 * FromLe(s[1..])
  }

  lemma {:induction false} LeRoundTrip(n: nat, k: nat)
    requires n < Pow256(k)
    ensures FromLe(Le(n, k)) == n
  {
    if k > 0 {
      LeRoundTrip(n / 256, k - 1);
      assert Le(n, k)[1..] == Le(n / 256, k - 1);
    }
  }

  /** Byte `i` of a word, counted from the least significant one. */
  lemma {:induction false} LeByte(n: nat, k: nat, i: nat)
    requires i < k
    ensures Le(n, k)[i] == n / Pow256(i) % 256
  {
    if i > 0 {
      LeByte(n / 256, k - 1, i - 1);
      DivideTwice(n, Pow256(i - 1));
      assert Le(n, k)[i] == Le(n / 256, k - 1)[i - 1];
    }
  }

  lemma {:induction false} FromLeBound(s: seq<byte>)
    ensures FromLe(s) < Pow256(|s|)
  {
    if s != [] { FromLeBound(s[1..]); }
  }

  lemma {:induction false} FromLeZeros(s: seq<byte>)
    requires forall i | 0 <= i < |s| :: s[i] == 0
    ensures FromLe(s) == 0
  {
    if s != [] { FromLeZeros(s[1..]); }
  }

  function Zeros(n: nat): (s: seq<byte>)
    ensures |s| == n && forall i | 0 <= i < n :: s[i] == 0
  {
    seq(n, _ => 0)
  }

  /** `d` followed by zeros up to `n` bytes. */
  function Pad(d: seq<byte>, n: nat): (s: seq<byte>)
    requires |d| <= n
    ensures |s| == n && s[..|d|] == d && forall i | |d| <= i < n :: s[i] == 0
  {
    d + Zeros(n - |d|)
  }

  /** `s` with the bytes from `p` on overwritten by `d`. */
  function Splice(s: seq<byte>, p: nat, d: seq<byte>): (r: seq<byte>)
    requires p + |d| <= |s|
    ensures |r| == |s|
    ensures forall i | 0 <= i < |s| :: r[i] == if p <= i < p + |d| then d[i - p] else s[i]
  {
    s[..p] + d + s[p + |d|..]
  }

  lemma SpliceElsewhere(s: seq<byte>, p: nat, d: seq<byte>, a: nat, b: nat)
    requires p + |d| <= |s| && a <= b <= |s|
    requires b <= p || p + |d| <= a
    ensures Splice(s, p, d)[a..b] == s[a..b]
  {
  }

  lemma SpliceInside(s: seq<byte>, p: nat, d: seq<byte>, a: nat, b: nat)
    requires a <= p && p + |d| <= b <= |s|
    ensures Splice(s, p, d)[a..b] == Splice(s[a..b], p - a, d)
  {
  }

  /** Two adjacent patches, written in either order, are one patch. */
  lemma SpliceAdjacent(s: seq<byte>, p: nat, d: seq<byte>, e: seq<byte>)
    requires p + |d| + |e| <= |s|
    ensures Splice(Splice(s, p, d), p + |d|, e) == Splice(s, p, d + e)
    ensures Splice(Splice(s, p + |d|, e), p, d) == Splice(s, p, d + e)
  {
    assert Splice(Splice(s, p, d), p + |d|, e) == Splice(s, p, d + e);
    assert Splice(Splice(s, p + |d|, e), p, d) == Splice(s, p, d + e);
  }

  /** A file after `fwrite` of `d` at position `p`: writing past its end extends it with zeros. */
  function FileWrite(s: seq<byte>, p: nat, d: seq<byte>): (r: seq<byte>)
    ensures |r| == if d != [] && |s| < p + |d| then p + |d| else |s|
  {
    seq(if d != [] && |s| < p + |d| then p + |d| else |s|,
        i requires 0 <= i => if p <= i < p + |d| then d[i - p] else if i < |s| then s[i] else 0)
  }

  /** `fread` of `n` bytes at position `p` into a zeroed buffer. */
  function FileRead(s: seq<byte>, p: nat, n: nat): (r: seq<byte>)
    ensures |r| == n
  {
    seq(n, i requires 0 <= i < n => if p + i < |s| then s[p + i] else 0)
  }

  lemma ReadWritten(s: seq<byte>, p: nat, d: seq<byte>)
    ensures FileRead(FileWrite(s, p, d), p, |d|) == d
  {
  }

  lemma WriteThenNext(s: seq<byte>, p: nat, d: seq<byte>, e: seq<byte>)
    ensures FileWrite(FileWrite(s, p, d), p + |d|, e) == FileWrite(s, p, d + e)
  {
    var one, two := FileWrite(FileWrite(s, p, d), p + |d|, e), FileWrite(s, p, d + e);
    assert |one| == |two|;
    forall i | 0 <= i < |one|
      ensures one[i] == two[i]
    {
    }
  }

  lemma WriteThenPrevious(s: seq<byte>, p: nat, d: seq<byte>, e: seq<byte>)
    ensures FileWrite(FileWrite(s, p + |d|, e), p, d) == FileWrite(s, p, d + e)
  {
    var one, two := FileWrite(FileWrite(s, p + |d|, e), p, d), FileWrite(s, p, d + e);
    assert |one| == |two|;
    forall i | 0 <= i < |one|
      ensures one[i] == two[i]
    {
    }
  }

  lemma SlicesOfEqual(s: seq<byte>, t: seq<byte>, a: nat, b: nat, c: nat, d: nat)
    requires a <= c <= d <= b <= |s| && b <= |t|
    requires s[a..b] == t[a..b]
    ensures s[c..d] == t[c..d]
  {
    forall i | c <= i < d
      ensures s[i] == t[i]
    {
      assert s[i] == s[a..b][i - a] && t[i] == t[a..b][i - a];
    }
  }

  lemma ConcatAssoc<T>(a: seq<T>, b: seq<T>, c: seq<T>)
    ensures a + (b + c) == (a + b) + c
  {
  }

  /** Up to the first zero byte: the C string held in a buffer. */
  function CStr(b: seq<byte>): (s: seq<byte>)
    ensures |s| <= |b| && s == b[..|s|]
    ensures 0 !in s && (|s| < |b| ==> b[|s|] == 0)
  {
    if b == [] || b[0] == 0 then [] else [b[0]] + CStr(b[1..])
  }

  lemma {:induction false} CStrOfPadded(s: seq<byte>, b: seq<byte>)
    requires 0 !in s && |s| < |b| && b[..|s|] == s && b[|s|] == 0
    ensures CStr(b) == s
  {
    if s != [] {
      assert b[0] == s[0];
      assert b[1..][..|s| - 1] == s[1..];
      assert b[1..][|s[1..]|] == 0;
      CStrOfPadded(s[1..], b[1..]);
    }
  }

  /** `b` stands in `s` at position `p`. */
  ghost predicate At(s: seq<byte>, p: nat, b: seq<byte>) {
    p + |b| <= |s| && s[p..p + |b|] == b
  }

  lemma AtPart(s: seq<byte>, p: nat, w: seq<byte>, n: nat, b: seq<byte>, q: nat)
    requires At(s, p, w) && At(w, n, b) && q == p + n
    ensures At(s, q, b)
  {
    forall i | 0 <= i < |b|
      ensures s[q + i] == b[i]
    {
      assert s[p..p + |w|][n + i] == s[q + i] && w[n..n + |b|][i] == b[i];
    }
  }

  lemma AtParts(s: seq<byte>, p: nat, a: seq<byte>, b: seq<byte>, q: nat)
    requires At(s, p, a + b) && q == p + |a|
    ensures At(s, p, a) && At(s, q, b)
  {
    var w := a + b;
    assert At(w, 0, a) && At(w, |a|, b);
    AtPart(s, p, w, 0, a, p);
    AtPart(s, p, w, |a|, b, q);
  }

  lemma AtSplice(s: seq<byte>, p: nat, d: seq<byte>, q: nat, b: seq<byte>)
    requires p + |d| <= |s| && At(s, q, b)
    requires q + |b| <= p || p + |d| <= q
    ensures At(Splice(s, p, d), q, b)
  {
    SpliceElsewhere(s, p, d, q, q + |b|);
  }
}
