/** The byte stream between processes (filesystem.c): a chain of buffers of 255 bytes. */
module Stream {
  import opened Bytes

  /** Addresses; 0 is NULL. */
  type Ptr = nat

  /** A buffer: 256 bytes of which the first `datac` count. */
  datatype Node = Node(data: seq<byte>, datac: nat, next: Ptr)

  type Nodes = map<Ptr, Node>

  predicate GoodNode(n: Node) {
    |n.data| == 256 && n.datac <= 255
  }

  function Live(n: Node): seq<byte>
    requires GoodNode(n)
  {
    n.data[..n.datac]
  }

  /** Buffer `i` of the chain. Its link matters unless it is the last one; those in between are full. */
  ghost predicate Place(m: Nodes, q: seq<Ptr>, i: nat)
    requires i < |q|
  {
    && q[i] in m && GoodNode(m[q[i]])
    && (i + 1 < |q| ==> m[q[i]].next == q[i + 1])
    && (0 < i && i + 1 < |q| ==> m[q[i]].datac == 255)
  }

  ghost predicate Chain(m: Nodes, q: seq<Ptr>) {
    && q != []
    && (forall i {:trigger Place(m, q, i)} | 0 <= i < |q| :: Place(m, q, i))
    && (forall i, j | 0 <= i < j < |q| :: q[i] != q[j])
  }

  /** The bytes in the buffers from position `k` on. */
  ghost function Buffered(m: Nodes, q: seq<Ptr>, k: nat): seq<byte>
    requires k <= |q| && forall i {:trigger Place(m, q, i)} | k <= i < |q| :: Place(m, q, i)
    decreases |q| - k
  {
    if k == |q| then [] else assert Place(m, q, k); Live(m[q[k]]) + Buffered(m, q, k + 1)
  }

  /** More bytes at the end of the last buffer. */
  lemma {:induction false} LastGrown(m: Nodes, q: seq<Ptr>, k: nat, m': Nodes, d: seq<byte>)
    requires Chain(m, q) && Chain(m', q) && k < |q|
    requires forall i | 0 <= i < |q| - 1 :: q[i] in m && q[i] in m' && m'[q[i]] == m[q[i]]
    requires var l := q[|q| - 1];
             l in m && l in m' && GoodNode(m[l]) && GoodNode(m'[l]) && Live(m'[l]) == Live(m[l]) + d
    ensures Buffered(m', q, k) == Buffered(m, q, k) + d
    decreases |q| - k
  {
    assert Place(m, q, k) && Place(m', q, k);
    if k < |q| - 1 {
      LastGrown(m, q, k + 1, m', d);
      ConcatAssoc(Live(m[q[k]]), Buffered(m, q, k + 1), d);
    } else {
      AtTheEnd(m, q, k);
      AtTheEnd(m', q, k);
    }
  }

  lemma AtTheEnd(m: Nodes, q: seq<Ptr>, k: nat)
    requires Chain(m, q) && k == |q| - 1 && q[k] in m && GoodNode(m[q[k]])
    ensures Buffered(m, q, k) == Live(m[q[k]])
  {
    assert Buffered(m, q, k + 1) == [];
  }

  /** A new last buffer. */
  lemma {:induction false} LastAdded(m: Nodes, q: seq<Ptr>, k: nat, m': Nodes, p: Ptr)
    requires Chain(m, q) && Chain(m', q + [p]) && k <= |q| && p in m' && GoodNode(m'[p])
    requires forall i | 0 <= i < |q| ::
               q[i] in m && q[i] in m' && m'[q[i]].data == m[q[i]].data && m'[q[i]].datac == m[q[i]].datac
    ensures Buffered(m', q + [p], k) == Buffered(m, q, k) + Live(m'[p])
    decreases |q| - k
  {
    var q' := q + [p];
    if k < |q| {
      LastAdded(m, q, k + 1, m', p);
      assert q'[k] == q[k] && Place(m, q, k) && Place(m', q', k);
    } else {
      assert Place(m', q', k);
      assert Buffered(m', q', k + 1) == [];
    }
  }

  /** The buffers behind the first one, seen as a chain of their own. */
  lemma {:induction false} FirstDropped(m: Nodes, q: seq<Ptr>, k: nat, m': Nodes, q': seq<Ptr>)
    requires Chain(m, q) && Chain(m', q') && 0 < |q| && q' == q[1..] && 0 < k <= |q|
    requires forall i | 0 < i < |q| :: q[i] in m && q[i] in m' && m'[q[i]] == m[q[i]]
    ensures Buffered(m', q', k - 1) == Buffered(m, q, k)
    decreases |q| - k
  {
    if k < |q| {
      FirstDropped(m, q, k + 1, m', q');
      assert q'[k - 1] == q[k] && Place(m, q, k) && Place(m', q', k - 1);
    }
  }

  /** A change of the first buffer only. */
  lemma {:induction false} RestSame(m: Nodes, q: seq<Ptr>, k: nat, m': Nodes)
    requires Chain(m, q) && Chain(m', q) && 0 < k <= |q|
    requires forall i | 0 < i < |q| :: q[i] in m && q[i] in m' && m'[q[i]] == m[q[i]]
    ensures Buffered(m', q, k) == Buffered(m, q, k)
    decreases |q| - k
  {
    if k < |q| {
      RestSame(m, q, k + 1, m');
      assert Place(m, q, k) && Place(m', q, k);
    }
  }

  /** The buffers in between are full, so there are at most two more than the buffered bytes fill. */
  lemma {:induction false} EnoughBuffered(m: Nodes, q: seq<Ptr>, k: nat)
    requires Chain(m, q) && 0 < k < |q|
    ensures |Buffered(m, q, k)| >= 255 * (|q| - 1 - k)
    decreases |q| - k
  {
    assert Place(m, q, k);
    if k < |q| - 1 { EnoughBuffered(m, q, k + 1); }
  }

  lemma NodeCount(m: Nodes, q: seq<Ptr>)
    requires Chain(m, q)
    ensures |q| <= |Buffered(m, q, 0)| / 255 + 2
  {
    if |q| > 1 {
      EnoughBuffered(m, q, 1);
      assert Place(m, q, 0);
    }
  }

  /** `(unsigned char)(255 - (char)datac)`: the conversion to a signed byte and back gives the free space. */
  function Space(datac: nat): nat
    requires datac <= 255
  {
    (255 - (if datac < 128 then datac else datac - 256)) % 256
  }

  lemma SpaceIs(datac: nat)
    requires datac <= 255
    ensures Space(datac) == 255 - datac
  {
  }

  function Min(a: nat, b: nat): nat {
    if a < b then a else b
  }

  /** Buffers that `malloc` can still return: none is in use, and no two are the same. */
  ghost predicate Supply(supply: seq<(Ptr, Node)>, used: set<Ptr>) {
    && (forall i | 0 <= i < |supply| :: supply[i].0 !in used && GoodNode(supply[i].1))
    && forall i, j | 0 <= i < j < |supply| :: supply[i].0 != supply[j].0
  }

  lemma FewerKeys(a: set<Ptr>, b: set<Ptr>)
    requires a <= b
    ensures |a| <= |b| && (a != b ==> |a| < |b|)
  {
    assert b == a + (b - a);
  }

  /** `memcpy` within one buffer, byte after byte upwards: moving towards the front is safe. */
  method MoveDown(data: seq<byte>, from: nat, n: nat) returns (d: seq<byte>)
    requires from + n <= |data|
    ensures d == data[from..from + n] + data[n..]
  {
    d := data;
    for i := 0 to n
      invariant |d| == |data| && d == data[from..from + i] + data[i..]
    {
      assert d[from + i] == data[from + i];
      d := d[i := d[from + i]];
    }
  }

  class Stream {
    var nodes: Nodes
    var first: Ptr                   // bufferOut
    var last: Ptr                    // bufferOutEnd
    ghost var chain: seq<Ptr>
    ghost var appended: seq<byte>    // all that writers ever put in
    ghost var delivered: seq<byte>   // all that readers ever got

    ghost predicate Valid()
      reads this
    {
      && Chain(nodes, chain) && first == chain[0] && last == chain[|chain| - 1]
      && nodes.Keys == (set i | 0 <= i < |chain| :: chain[i])
      && delivered + Buffered(nodes, chain, 0) == appended
    }

    /** One empty buffer. */
    constructor (p: Ptr, n: Node)
      requires p != 0 && GoodNode(n)
      ensures Valid() && appended == [] && delivered == []
    {
      nodes := map[p := n.(datac := 0)];
      first, last := p, p;
      chain, appended, delivered := [p], [], [];
      new;
      assert Place(nodes, chain, 0);
      assert Buffered(nodes, chain, 1) == [];
    }

    /**
     * One round of the loop of `STDOUTStream`, under the semaphore: it puts the next bytes of the writer's buffer,
     * from `WP` on, into the last buffer, or into a new one once that is full. `p` and `n` are what `malloc` returns.
     */
    method WriteRound(buffer: seq<byte>, WP: nat, p: Ptr, n: Node) returns (WP': nat)
      requires Valid() && WP < |buffer| && p !in nodes && GoodNode(n)
      modifies this
      ensures Valid() && delivered == old(delivered)
      ensures WP < WP' <= |buffer| && appended == old(appended) + buffer[WP..WP']
      ensures old(last in nodes && nodes[last].datac <= 255)
      ensures var free := if old(nodes[last].datac) == 255 then 255 else 255 - old(nodes[last].datac);
              WP' - WP == Min(free, |buffer| - WP)
      ensures WP' < |buffer| ==> last in nodes && nodes[last].datac == 255
      ensures nodes.Keys == old(nodes.Keys) + if old(nodes[last].datac) == 255 then {p} else {}
      ensures last == if old(nodes[last].datac) == 255 then p else old(last)
    {
      assert Place(nodes, chain, |chain| - 1);
      var len := |buffer| - WP;
      if nodes[last].datac != 255 {
        SpaceIs(nodes[last].datac);
        var toWrite := Min(Space(nodes[last].datac), len);
        FillLast(buffer[WP..WP + toWrite]);
        WP' := WP + toWrite;
      } else {
        var toWrite := Min(255, len);
        AddLast(buffer[WP..WP + toWrite], p, n);
        WP' := WP + toWrite;
      }
    }

    method FillLast(d: seq<byte>)
      requires Valid() && last in nodes && nodes[last].datac + |d| <= 255
      modifies this`nodes, this`appended
      ensures Valid() && appended == old(appended) + d && nodes.Keys == old(nodes.Keys)
      ensures last in nodes && nodes[last].datac == old(nodes[last].datac) + |d|
    {
      var c := nodes[last];
      assert Place(nodes, chain, |chain| - 1);
      nodes := nodes[last := c.(data := Splice(c.data, c.datac, d), datac := c.datac + |d|)];
      appended := appended + d;
      FilledChain(old(nodes), chain, nodes, d);
    }

    method AddLast(d: seq<byte>, p: Ptr, n: Node)
      requires Valid() && last in nodes && nodes[last].datac == 255 && 0 < |d| <= 255 && p !in nodes && GoodNode(n)
      modifies this`nodes, this`appended, this`last, this`chain
      ensures Valid() && appended == old(appended) + d && last == p && nodes.Keys == old(nodes.Keys) + {p}
      ensures last in nodes && nodes[last].datac == |d|
    {
      var n' := n.(datac := |d|, data := Splice(n.data, 0, d));
      nodes := nodes[last := nodes[last].(next := p)];
      nodes := nodes[p := n'];
      last := p;
      chain := chain + [p];
      appended := appended + d;
      AddedChain(old(nodes), old(chain), p, n', nodes);
    }

    /**
     * One round of the loop of `STDINStream`, under the semaphore: it takes bytes from the first buffer. An empty first
     * buffer is freed if it is not the last one; then only is its link followed. Otherwise the reader has to wait.
     */
    method ReadRound(len: nat) returns (got: seq<byte>, relent: bool)
      requires Valid() && len > 0
      modifies this
      ensures Valid() && appended == old(appended) && delivered == old(delivered) + got && |got| <= len
      ensures last == old(last) && last in nodes && old(first in nodes) && |got| == Min(old(nodes[first]).datac, len)
      ensures relent <==> old(first == last) && old(appended) == old(delivered)
      ensures got == [] && !relent <==> old(first != last) && first != old(first)
      ensures nodes.Keys == old(nodes.Keys) - if first != old(first) then {old(first)} else {}
    {
      assert Place(nodes, chain, 0) && Place(nodes, chain, |chain| - 1);
      FirstBuffer(nodes, chain);
      var toRead := Min(nodes[first].datac, len);
      if toRead == 0 {
        got := [];
        relent := first == last;
        if !relent {
          FreeFirst();
        }
      } else {
        got := nodes[first].data[..toRead];
        relent := false;
        TakeFromFirst(toRead);
      }
    }

    /** `STDOUTStream` without other calls: all bytes go in, with one `malloc` at most for each 255 of them and one. */
    method STDOUTStream(buffer: seq<byte>, supply: seq<(Ptr, Node)>) returns (rounds: nat)
      requires Valid() && Supply(supply, nodes.Keys) && |supply| >= |buffer| / 255 + 2
      modifies this
      ensures Valid() && delivered == old(delivered) && appended == old(appended) + buffer
      ensures rounds <= |buffer| / 255 + 2
    {
      var WP := 0;
      rounds := 0;
      while WP < |buffer|
        invariant Valid() && delivered == old(delivered) && WP <= |buffer| && appended == old(appended) + buffer[..WP]
        invariant rounds == 0 ==> WP == 0
        invariant rounds > 0 && WP < |buffer| ==> last in nodes && nodes[last].datac == 255 && 255 * (rounds - 1) < WP
        invariant rounds > 0 && WP == |buffer| ==> 255 * (rounds - 2) < WP
        invariant forall k | rounds <= k < |supply| :: supply[k].0 !in nodes
        decreases |buffer| - WP
      {
        var WP' := WriteRound(buffer, WP, supply[rounds].0, supply[rounds].1);
        assert buffer[..WP] + buffer[WP..WP'] == buffer[..WP'];
        WP, rounds := WP', rounds + 1;
      }
    }

    /** `STDINStream` without other calls: the next bytes are delivered without waiting, if there are enough. */
    method STDINStream(len: nat) returns (got: seq<byte>)
      requires Valid() && |delivered| + len <= |appended|
      modifies this
      ensures Valid() && appended == old(appended) && delivered == old(delivered) + got
      ensures |got| == len && delivered == appended[..old(|delivered|) + len]
    {
      got := [];
      assert delivered + [] == delivered == (delivered + Buffered(nodes, chain, 0))[..|delivered|];
      while |got| < len
        invariant Valid() && appended == old(appended) && delivered == old(delivered) + got && |got| <= len
        invariant delivered == appended[..|delivered|]
        decreases len - |got|, |nodes.Keys|
      {
        var more := ReadSome(len - |got|);
        ConcatAssoc(old(delivered), got, more);
        got := got + more;
      }
    }

    /** A round of a reader that need not wait. */
    method ReadSome(len: nat) returns (got: seq<byte>)
      requires Valid() && len > 0 && |delivered| < |appended|
      modifies this
      ensures Valid() && appended == old(appended) && delivered == old(delivered) + got && |got| <= len
      ensures |nodes.Keys| <= old(|nodes.Keys|) && (got == [] ==> |nodes.Keys| < old(|nodes.Keys|))
      ensures delivered == appended[..|delivered|]
    {
      ghost var before := nodes.Keys;
      var relent;
      got, relent := ReadRound(len);
      FewerKeys(nodes.Keys, before);
    }

    method FreeFirst()
      requires Valid() && first != last && first in nodes && nodes[first].datac == 0
      modifies this`nodes, this`first, this`chain
      ensures Valid() && nodes.Keys == old(nodes.Keys) - {old(first)} && first != old(first)
    {
      var m := first;
      assert Place(nodes, chain, 0);
      first := nodes[m].next;
      nodes := nodes - {m};
      chain := chain[1..];
      FreedChain(old(nodes), old(chain), nodes, chain);
    }

    method TakeFromFirst(n: nat)
      requires Valid() && first in nodes && 0 < n <= nodes[first].datac <= |nodes[first].data|
      modifies this`nodes, this`delivered
      ensures Valid() && delivered == old(delivered) + old(nodes[first].data[..n]) && nodes.Keys == old(nodes.Keys)
    {
      assert Place(nodes, chain, 0);
      var c := nodes[first];
      var data := MoveDown(c.data, n, 255 - n);
      nodes := nodes[first := c.(data := data, datac := c.datac - n)];
      delivered := delivered + c.data[..n];
      TakenChain(old(nodes), chain, nodes, n);
      ConcatAssoc(old(delivered), c.data[..n], Buffered(nodes, chain, 0));
    }
  }

  lemma FirstBuffer(m: Nodes, q: seq<Ptr>)
    requires Chain(m, q)
    ensures q[0] in m && GoodNode(m[q[0]]) && (|q| > 1 <==> q[0] != q[|q| - 1])
    ensures |q| == 1 ==> Buffered(m, q, 0) == Live(m[q[0]])
  {
    assert Place(m, q, 0);
    if |q| == 1 {
      assert Buffered(m, q, 1) == [];
    }
  }

  lemma FreedChain(m: Nodes, q: seq<Ptr>, m': Nodes, q': seq<Ptr>)
    requires Chain(m, q) && |q| > 1 && q[0] in m && m[q[0]].datac == 0 && m' == m - {q[0]} && q' == q[1..]
    requires m.Keys == set i | 0 <= i < |q| :: q[i]
    ensures m[q[0]].next == q'[0] && Chain(m', q') && Buffered(m', q', 0) == Buffered(m, q, 0)
    ensures m'.Keys == set i | 0 <= i < |q'| :: q'[i]
  {
    assert Place(m, q, 0);
    forall i | 0 < i < |q|
      ensures q[i] in m && q[i] in m' && m'[q[i]] == m[q[i]]
    {
      assert Place(m, q, i);
    }
    RestIsChain(m, q, m', q');
    FirstDropped(m, q, 1, m', q');
    RestKeys(m, q, m', q');
  }

  lemma RestIsChain(m: Nodes, q: seq<Ptr>, m': Nodes, q': seq<Ptr>)
    requires Chain(m, q) && |q| > 1 && q' == q[1..]
    requires forall i | 0 < i < |q| :: q[i] in m && q[i] in m' && m'[q[i]] == m[q[i]]
    ensures Chain(m', q')
  {
    forall i | 0 <= i < |q'|
      ensures Place(m', q', i)
    {
      var k := i + 1;
      assert Place(m, q, k) && q'[i] == q[k];
      if k + 1 < |q| {
        assert q'[i + 1] == q[k + 1];
      }
    }
  }

  lemma RestKeys(m: Nodes, q: seq<Ptr>, m': Nodes, q': seq<Ptr>)
    requires |q| > 0 && m' == m - {q[0]} && q' == q[1..] && (forall i | 0 < i < |q| :: q[i] in m')
    requires m.Keys == set i | 0 <= i < |q| :: q[i]
    ensures m'.Keys == set i | 0 <= i < |q'| :: q'[i]
  {
    forall i | 0 <= i < |q'|
      ensures q'[i] in m'
    {
      assert q'[i] == q[i + 1];
    }
    forall x | x in m'
      ensures exists i :: 0 <= i < |q'| && q'[i] == x
    {
      var i :| 0 <= i < |q| && q[i] == x;
      assert q'[i - 1] == x;
    }
  }

  lemma TakenChain(m: Nodes, q: seq<Ptr>, m': Nodes, n: nat)
    requires Chain(m, q) && q[0] in m && m'.Keys == m.Keys && 0 < n <= m[q[0]].datac
    requires forall x | x in m && x != q[0] :: m'[x] == m[x]
    requires var c := m[q[0]];
             GoodNode(c) && m'[q[0]] == c.(data := c.data[n..255] + c.data[255 - n..], datac := c.datac - n)
    ensures Chain(m', q) && m[q[0]].data[..n] + Buffered(m', q, 0) == Buffered(m, q, 0)
  {
    forall i | 0 <= i < |q|
      ensures Place(m', q, i) && q[i] in m && (i > 0 ==> m'[q[i]] == m[q[i]])
    {
      assert Place(m, q, i);
    }
    RestSame(m, q, 1, m');
    var c := m[q[0]];
    assert c.data[..n] + Live(m'[q[0]]) == Live(c);
    ConcatAssoc(c.data[..n], Live(m'[q[0]]), Buffered(m', q, 1));
  }

  lemma FilledChain(m: Nodes, q: seq<Ptr>, m': Nodes, d: seq<byte>)
    requires Chain(m, q) && q[|q| - 1] in m && GoodNode(m[q[|q| - 1]]) && m[q[|q| - 1]].datac + |d| <= 255
    requires var l := q[|q| - 1]; var c := m[l];
             m' == m[l := c.(data := Splice(c.data, c.datac, d), datac := c.datac + |d|)]
    ensures Chain(m', q) && Buffered(m', q, 0) == Buffered(m, q, 0) + d && m'.Keys == m.Keys
  {
    forall i | 0 <= i < |q|
      ensures Place(m', q, i) && q[i] in m && (i < |q| - 1 ==> m'[q[i]] == m[q[i]])
    {
      assert Place(m, q, i);
    }
    LastGrown(m, q, 0, m', d);
  }

  lemma AddedChain(m: Nodes, q: seq<Ptr>, p: Ptr, n: Node, m': Nodes)
    requires Chain(m, q) && p !in m && GoodNode(n)
    requires var l := q[|q| - 1]; l in m && m[l].datac == 255 && m' == m[l := m[l].(next := p)][p := n]
    requires m.Keys == set i | 0 <= i < |q| :: q[i]
    ensures Chain(m', q + [p]) && Buffered(m', q + [p], 0) == Buffered(m, q, 0) + Live(n)
    ensures m'.Keys == set i | 0 <= i < |q + [p]| :: (q + [p])[i]
  {
    var q' := q + [p];
    forall i | 0 <= i < |q'|
      ensures Place(m', q', i)
      ensures i < |q| ==> q[i] in m && m'[q[i]].data == m[q[i]].data && m'[q[i]].datac == m[q[i]].datac
    {
      assert i < |q| ==> Place(m, q, i);
    }
    LastAdded(m, q, 0, m', p);
    MoreKeys(m, q, p, m');
  }

  lemma MoreKeys(m: Nodes, q: seq<Ptr>, p: Ptr, m': Nodes)
    requires m.Keys == (set i | 0 <= i < |q| :: q[i]) && m'.Keys == m.Keys + {p}
    ensures m'.Keys == set i | 0 <= i < |q + [p]| :: (q + [p])[i]
  {
    var q' := q + [p];
    assert q'[|q|] == p;
    forall x | x in m'
      ensures exists i :: 0 <= i < |q'| && q'[i] == x
    {
      if x != p {
        var i :| 0 <= i < |q| && q[i] == x;
        assert q'[i] == x;
      }
    }
  }

  // Any number of calls of `STDOUTStream` and `STDINStream` at once, whose rounds alternate in any way.

  /** A call that has put `done` bytes of its buffer, or one that wants `want` bytes and has `got` some. */
  datatype Call = Writer(buffer: seq<byte>, done: nat) | Reader(want: nat, got: seq<byte>)

  /** The call whose round comes next, and what `malloc` returns if that round needs a buffer. */
  datatype Turn = Turn(id: nat, p: Ptr, n: Node)

  /** Bytes with the number of the call that they belong to. */
  type Log = seq<(nat, byte)>

  function Tagged(id: nat, d: seq<byte>): (log: Log)
    ensures |log| == |d|
  {
    seq(|d|, i requires 0 <= i < |d| => (id, d[i]))
  }

  function Untagged(log: Log): seq<byte> {
    seq(|log|, i requires 0 <= i < |log| => log[i].1)
  }

  /** The bytes of one call, in order. */
  function Of(log: Log, id: nat): seq<byte> {
    if log == [] then []
    else Of(log[..|log| - 1], id) + if log[|log| - 1].0 == id then [log[|log| - 1].1] else []
  }

  lemma {:induction false} OfMore(log: Log, id: nat, d: seq<byte>, other: nat)
    ensures Of(log + Tagged(id, d), other) == if other == id then Of(log, id) + d else Of(log, other)
    ensures Untagged(log + Tagged(id, d)) == Untagged(log) + d
  {
    if d == [] {
      assert log + Tagged(id, d) == log && Of(log, id) + d == Of(log, id);
    } else {
      var d0, b := d[..|d| - 1], d[|d| - 1];
      OfMore(log, id, d0, other);
      TaggedLast(log, id, d, d0, b);
      OfLast(log + Tagged(id, d0), (id, b), other);
      assert d == d0 + [b];
      ConcatAssoc(Of(log, id), d0, [b]);
      ConcatAssoc(Untagged(log), d0, [b]);
    }
  }

  lemma TaggedLast(log: Log, id: nat, d: seq<byte>, d0: seq<byte>, b: byte)
    requires d == d0 + [b]
    ensures log + Tagged(id, d) == (log + Tagged(id, d0)) + [(id, b)]
  {
  }

  lemma OfLast(log: Log, e: (nat, byte), other: nat)
    ensures Of(log + [e], other) == Of(log, other) + if e.0 == other then [e.1] else []
    ensures Untagged(log + [e]) == Untagged(log) + [e.1]
  {
    assert (log + [e])[..|log|] == log;
  }

  /** If all bytes belong to one call, its bytes are all bytes. */
  lemma {:induction false} OnlyOne(log: Log, id: nat)
    requires forall i | 0 <= i < |log| :: log[i].0 == id
    ensures Of(log, id) == Untagged(log)
  {
    if log != [] {
      var log0 := log[..|log| - 1];
      OnlyOne(log0, id);
      assert Untagged(log) == Untagged(log0) + [log[|log| - 1].1];
    }
  }

  predicate Fresh(c: Call) {
    match c
    case Writer(_, done) => done == 0
    case Reader(_, got) => got == []
  }

  /** What a call did so far is what the logs say of it, in the order of its own buffer. */
  ghost predicate CallOk(c: Call, c0: Call, id: nat, written: Log, read: Log) {
    match c
    case Writer(buffer, done) =>
      c0.Writer? && buffer == c0.buffer && done <= |buffer| && Of(written, id) == buffer[..done] && Of(read, id) == []
    case Reader(want, got) =>
      c0.Reader? && want == c0.want && |got| <= want && Of(read, id) == got && Of(written, id) == []
  }

  ghost predicate AllOk(calls: seq<Call>, calls0: seq<Call>, written: Log, read: Log) {
    && |calls| == |calls0|
    && forall id | 0 <= id < |calls| :: CallOk(calls[id], calls0[id], id, written, read)
  }

  /**
   * For every order of rounds: the bytes read so far followed by the bytes still buffered are the bytes written so
   * far, in order; each writer's bytes went in in the order of its buffer, and each reader holds the bytes it took.
   */
  method Run(s: Stream, calls0: seq<Call>, turns: seq<Turn>)
    returns (calls: seq<Call>, ghost written: Log, ghost read: Log)
    requires s.Valid() && s.appended == [] && forall id | 0 <= id < |calls0| :: Fresh(calls0[id])
    modifies s
    ensures s.Valid() && AllOk(calls, calls0, written, read)
    ensures Untagged(written) == s.appended && Untagged(read) == s.delivered
    ensures Untagged(read) + Buffered(s.nodes, s.chain, 0) == Untagged(written)
  {
    calls, written, read := calls0, [], [];
    assert s.delivered == [];
    for i := 0 to |turns|
      invariant s.Valid() && AllOk(calls, calls0, written, read)
      invariant Untagged(written) == s.appended && Untagged(read) == s.delivered
    {
      var t := turns[i];
      if t.id < |calls| && t.p !in s.nodes && GoodNode(t.n) {
        calls, written, read := Round(s, t, calls, calls0, written, read);
      }
    }
  }

  /** The loop of the call has come to its end. */
  predicate Over(c: Call) {
    match c
    case Writer(buffer, done) => done >= |buffer|
    case Reader(want, got) => |got| >= want
  }

  /** A writer whose last buffer had `datac` bytes put as many bytes as fit that one, or a new one if it was full. */
  predicate Wrote(c: Call, c': Call, datac: nat) {
    c.Writer? && c'.Writer? && c.done <= |c.buffer|
    && c'.done - c.done == Min(if datac >= 255 then 255 else 255 - datac, |c.buffer| - c.done)
  }

  /** A reader whose first buffer had `datac` bytes took as many of them as it still wants. */
  predicate Took(c: Call, c': Call, datac: nat) {
    c.Reader? && c'.Reader? && |c.got| <= c.want && |c'.got| - |c.got| == Min(datac, c.want - |c.got|)
  }

  /**
   * One round of one call. A call that is not over moves on, unless it is a reader whose round freed a buffer, or
   * one that has to wait because nothing is buffered.
   */
  method Round(s: Stream, t: Turn, calls: seq<Call>, ghost calls0: seq<Call>, ghost written: Log, ghost read: Log)
    returns (calls': seq<Call>, ghost written': Log, ghost read': Log)
    requires s.Valid() && AllOk(calls, calls0, written, read) && t.id < |calls| && t.p !in s.nodes && GoodNode(t.n)
    requires Untagged(written) == s.appended && Untagged(read) == s.delivered
    modifies s
    ensures s.Valid() && AllOk(calls', calls0, written', read') && calls' == calls[t.id := calls'[t.id]]
    ensures Untagged(written') == s.appended && Untagged(read') == s.delivered
    ensures Over(calls[t.id]) ==> calls' == calls && s.appended == old(s.appended) && s.delivered == old(s.delivered)
    ensures !Over(calls[t.id]) && calls[t.id].Writer? ==>
              old(s.last in s.nodes) && Wrote(calls[t.id], calls'[t.id], old(s.nodes[s.last].datac))
    ensures !Over(calls[t.id]) && calls[t.id].Reader? ==>
              old(s.first in s.nodes) && Took(calls[t.id], calls'[t.id], old(s.nodes[s.first].datac))
    ensures !Over(calls[t.id]) && calls' == calls ==>
              s.nodes.Keys < old(s.nodes.Keys) || (old(s.first == s.last) && s.appended == s.delivered)
  {
    calls', written', read' := calls, written, read;
    match calls[t.id]
    case Writer(buffer, done) =>
      if done < |buffer| {
        var done' := s.WriteRound(buffer, done, t.p, t.n);
        written' := written + Tagged(t.id, buffer[done..done']);
        calls' := calls[t.id := Writer(buffer, done')];
        assert buffer[..done] + buffer[done..done'] == buffer[..done'];
        WroteOk(calls, calls0, written, read, t.id, buffer[done..done'], calls');
      }
    case Reader(want, got) =>
      if |got| < want {
        var more, relent := s.ReadRound(want - |got|);
        read' := read + Tagged(t.id, more);
        calls' := calls[t.id := Reader(want, got + more)];
        ReadOk(calls, calls0, written, read, t.id, more, calls');
      }
  }

  lemma WroteOk(calls: seq<Call>, calls0: seq<Call>, written: Log, read: Log, id: nat, d: seq<byte>, calls': seq<Call>)
    requires AllOk(calls, calls0, written, read) && id < |calls| && calls[id].Writer?
    requires var c := calls[id];
             c.done + |d| <= |c.buffer| && c.buffer[..c.done] + d == c.buffer[..c.done + |d|]
             && calls' == calls[id := c.(done := c.done + |d|)]
    ensures AllOk(calls', calls0, written + Tagged(id, d), read)
    ensures Untagged(written + Tagged(id, d)) == Untagged(written) + d
  {
    OfMore(written, id, d, id);
    forall k | 0 <= k < |calls|
      ensures CallOk(calls'[k], calls0[k], k, written + Tagged(id, d), read)
    {
      OfMore(written, id, d, k);
      assert CallOk(calls[k], calls0[k], k, written, read);
    }
  }

  lemma ReadOk(calls: seq<Call>, calls0: seq<Call>, written: Log, read: Log, id: nat, d: seq<byte>, calls': seq<Call>)
    requires AllOk(calls, calls0, written, read) && id < |calls| && calls[id].Reader?
    requires var c := calls[id]; |c.got| + |d| <= c.want && calls' == calls[id := c.(got := c.got + d)]
    ensures AllOk(calls', calls0, written, read + Tagged(id, d))
    ensures Untagged(read + Tagged(id, d)) == Untagged(read) + d
  {
    OfMore(read, id, d, id);
    forall k | 0 <= k < |calls|
      ensures CallOk(calls'[k], calls0[k], k, written, read + Tagged(id, d))
    {
      OfMore(read, id, d, k);
      assert CallOk(calls[k], calls0[k], k, written, read);
    }
  }
}
