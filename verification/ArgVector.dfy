/** `splitv` (userland/libc.c): the arguments as strings in allocated blocks. */
module ArgVector {
  import opened Bytes
  import opened UserHeap
  import opened ArgSplit
  import opened ArgQuotes

  type Live = map<Ptr, seq<byte>>

  /** A string of the vector. One without characters has its two bytes, but nothing was ever stored there. */
  predicate TextOk(d: seq<byte>, w: seq<byte>) {
    if w == [] then |d| == 2 else d == w + [0]
  }

  /** Entry `j` of the vector at `argv` leads to a block of its own with the text `w`. */
  ghost predicate EntryOk(live: Live, argv: Ptr, p: Ptr, w: seq<byte>, j: nat) {
    p in live && p != argv && argv in live && TextOk(live[p], w) && At(live[argv], 8 * j, Le(p, 8))
  }

  ghost predicate VectorOk(live: Live, argv: Ptr, argc: nat, ptrs: seq<Ptr>, ws: seq<seq<byte>>) {
    && |ptrs| == |ws| <= argc && argv in live && |live[argv]| == 8 * argc
    && (forall j {:trigger EntryOk(live, argv, ptrs[j], ws[j], j)} | 0 <= j < |ptrs| ::
         EntryOk(live, argv, ptrs[j], ws[j], j))
    && (forall i, j | 0 <= i < j < |ptrs| :: ptrs[i] != ptrs[j])
  }

  /** The blocks that were live before still are, with the same contents, and are none of those made since. */
  ghost predicate Untouched(live0: Live, live: Live, argv: Ptr, ptrs: seq<Ptr>) {
    && (forall p | p in live0 :: p in live && live[p] == live0[p])
    && argv !in live0
    && forall j | 0 <= j < |ptrs| :: ptrs[j] !in live0
  }

  /** No string of the vector begins with NUL. */
  ghost predicate Marked(live: Live, ptrs: seq<Ptr>) {
    forall j | 0 <= j < |ptrs| :: ptrs[j] in live && live[ptrs[j]] != [] && live[ptrs[j]][0] != 0
  }

  /** The bytes are those that memory above the break had. */
  ghost predicate Junk(d: seq<byte>, junk: nat -> byte, p: Ptr) {
    forall i | 0 <= i < |d| :: d[i] == junk(p + i)
  }

  /** The string is the argument, ended by NUL. */
  predicate Right(d: seq<byte>, w: seq<byte>) {
    w + [0] <= d
  }

  ghost predicate AllRight(live: Live, ptrs: seq<Ptr>, ws: seq<seq<byte>>) {
    |ptrs| == |ws| && forall j | 0 <= j < |ptrs| :: ptrs[j] in live && Right(live[ptrs[j]], ws[j])
  }

  /** Arguments that are not empty are right; an empty one is wrong if its block does not begin with NUL. */
  lemma RightIff(live: Live, argv: Ptr, argc: nat, ptrs: seq<Ptr>, ws: seq<seq<byte>>)
    requires VectorOk(live, argv, argc, ptrs, ws)
    ensures [] !in ws ==> AllRight(live, ptrs, ws)
    ensures Marked(live, ptrs) ==> (AllRight(live, ptrs, ws) <==> [] !in ws)
  {
    forall j | 0 <= j < |ptrs|
      ensures ptrs[j] in live && (ws[j] != [] ==> Right(live[ptrs[j]], ws[j]))
      ensures ws[j] == [] && Marked(live, ptrs) ==> !Right(live[ptrs[j]], ws[j])
    {
      assert EntryOk(live, argv, ptrs[j], ws[j], j);
    }
  }

  lemma PointerFits(h: Heap, p: Ptr)
    requires h.Valid() && p in h.live
    ensures p < Pow256(8)
  {
    assert LiveOk(h.mem, h.blocks, p, h.live[p]);
    assert BlockOk(h.mem, p, h.blocks[p]);
  }

  /** How far the break may move for one block of at most `n` bytes. */
  function Need(n: nat): nat {
    16 + if n > 4096 then n else 4096
  }

  /** The words with one more character at the end of the last one. */
  function Longer(ws: seq<seq<byte>>, d: seq<byte>): (r: seq<seq<byte>>)
    requires ws != []
    ensures |r| == |ws|
  {
    ws[..|ws| - 1] + [ws[|ws| - 1] + d]
  }

  /** `addcv`: one more character at the end of the last string; `il` is that string's length with its final NUL. */
  method AddCv(h: Heap, argv: Ptr, k: nat, il: nat, n: byte, ghost argc: nat, ghost ptrs: seq<Ptr>,
               ghost ws: seq<seq<byte>>, ghost live0: Live)
    returns (il': nat, ghost ptrs': seq<Ptr>)
    requires h.Valid() && VectorOk(h.live, argv, argc, ptrs, ws) && Untouched(live0, h.live, argv, ptrs)
    requires |ws| == k + 1 && il == |ws[k]| + 1 && il + 1 < Pow256(4) && |h.mem| + Need(il + 1) <= Pow256(8)
    modifies h
    ensures h.Valid() && il' == il + 1 && VectorOk(h.live, argv, argc, ptrs', Longer(ws, [n]))
    ensures Untouched(live0, h.live, argv, ptrs') && |h.mem| <= old(|h.mem|) + Need(il + 1)
    ensures old(h.Dirty() && Marked(h.live, ptrs)) && n != 0 ==> h.Dirty() && Marked(h.live, ptrs')
    ensures ws[k] != [] && il <= 8 ==> h.NextHolds(ws[k] + [0])
  {
    ghost var live1 := h.live;
    assert EntryOk(live1, argv, ptrs[k], ws[k], k);
    PointerFits(h, ptrs[k]);
    LeRoundTrip(ptrs[k], 8);
    var word := h.Load(argv, 8 * k, 8);
    var p := FromLe(word);
    assert p == ptrs[k];
    var p' := h.Realloc(p, il + 1);
    h.Store(argv, 8 * k, Le(p', 8));
    EndString(h, p', il, n, ws[k]);
    il' := il + 1;
    ptrs' := ptrs[k := p'];
    Extended(live1, h.live, live0, argv, argc, ptrs, ws, p', n);
  }

  /** Its last two stores: the new character over the old NUL, and a new NUL. */
  method EndString(h: Heap, p: Ptr, il: nat, n: byte, ghost w: seq<byte>)
    requires h.Valid() && p in h.live && |h.live[p]| == il + 1 && il == |w| + 1
    requires h.live[p][..|w|] == w
    modifies h
    ensures h.Valid() && h.live == old(h.live)[p := w + [n] + [0]] && |h.mem| == old(|h.mem|)
    ensures old(h.Dirty()) ==> h.Dirty()
    ensures forall e {:trigger h.NextHolds(e)} | |e| <= 8 && old(h.NextHolds(e)) :: h.NextHolds(e)
  {
    h.Store(p, il, [0]);
    h.Store(p, il - 1, [n]);
    assert h.live[p] == w + [n] + [0];
  }

  /** The vector after the last string moved to `p'` and grew. */
  lemma Extended(live: Live, live': Live, live0: Live, argv: Ptr, argc: nat, ptrs: seq<Ptr>, ws: seq<seq<byte>>,
                 p': Ptr, n: byte)
    requires VectorOk(live, argv, argc, ptrs, ws) && Untouched(live0, live, argv, ptrs) && ws != [] && p' !in live
    requires var k := |ws| - 1;
             && live'.Keys == live.Keys - {ptrs[k]} + {p'}
             && (forall p | p in live' && p != p' && p != argv :: live'[p] == live[p])
             && argv in live' && 8 * k + 8 <= |live[argv]| && live'[argv] == Splice(live[argv], 8 * k, Le(p', 8))
             && live'[p'] == ws[k] + [n] + [0]
    ensures VectorOk(live', argv, argc, ptrs[|ws| - 1 := p'], Longer(ws, [n]))
    ensures Untouched(live0, live', argv, ptrs[|ws| - 1 := p'])
    ensures Marked(live, ptrs) && n != 0 ==> Marked(live', ptrs[|ws| - 1 := p'])
  {
    var k := |ws| - 1;
    var ptrs', ws' := ptrs[k := p'], Longer(ws, [n]);
    forall j | 0 <= j < |ptrs'|
      ensures EntryOk(live', argv, ptrs'[j], ws'[j], j)
      ensures ptrs'[j] !in live0 && (j < k ==> ptrs[j] in live && live'[ptrs[j]] == live[ptrs[j]])
      ensures j == k ==> ptrs[k] in live && TextOk(live[ptrs[k]], ws[k])
    {
      assert EntryOk(live, argv, ptrs[j], ws[j], j);
      if j < k {
        AtSplice(live[argv], 8 * k, Le(p', 8), 8 * j, Le(ptrs[j], 8));
      }
    }
  }

  /** `malloc(2)`, for the characters of a string that begins. */
  method NewString(h: Heap) returns (p: Ptr)
    requires h.Valid() && |h.mem| + Need(2) <= Pow256(8)
    modifies h
    ensures h.Valid() && p !in old(h.live) && p in h.live && h.live == old(h.live)[p := h.live[p]] && |h.live[p]| == 2
    ensures |h.mem| <= old(|h.mem|) + Need(2)
    ensures old(h.Dirty()) ==> h.Dirty() && h.live[p][0] != 0
    ensures forall e | |e| == 2 && old(h.NextHolds(e)) :: h.live[p] == e
    ensures old(|h.buckets|) == 4 && (old(h.buckets)[0] == 0 ==> Junk(h.live[p], h.junk, p))
  {
    SmallFits();
    p := h.Malloc(2);
  }

  /** `malloc` of the vector and of the first string. */
  method Begin(h: Heap, argc: nat) returns (argv: Ptr, ghost ptrs: seq<Ptr>)
    requires h.Valid() && argc > 0 && 8 * argc < Pow256(4) && |h.mem| + Need(8 * argc) + Need(2) <= Pow256(8)
    modifies h
    ensures h.Valid() && VectorOk(h.live, argv, argc, ptrs, [[]]) && Untouched(old(h.live), h.live, argv, ptrs)
    ensures |h.mem| <= old(|h.mem|) + Need(8 * argc) + Need(2)
    ensures old(h.Dirty()) ==> h.Dirty() && Marked(h.live, ptrs)
    ensures old(|h.buckets|) == 4 && |ptrs| == 1 && ptrs[0] in h.live
    ensures argc == 1 && old(h.buckets)[0] == 0 ==> Junk(h.live[ptrs[0]], h.junk, ptrs[0])
  {
    argv := h.Malloc(8 * argc);
    ghost var live1 := h.live;
    assert VectorOk(live1, argv, argc, [], []) && Untouched(old(h.live), live1, argv, []);
    var p := NewString(h);
    ghost var live2 := h.live;
    h.Store(argv, 0, Le(p, 8));
    ptrs := [p];
    Added(live1, h.live, old(h.live), argv, argc, [], [], p);
    assert [] + [p] == [p];
  }

  lemma SmallFits()
    ensures 2 < Pow256(4)
  {
    assert Pow256(3) > 0;
  }

  /** A new string behind the last one: `argv[k] = malloc(2)`. */
  method NewArg(h: Heap, argv: Ptr, k: nat, ghost argc: nat, ghost ptrs: seq<Ptr>, ghost ws: seq<seq<byte>>,
                ghost live0: Live) returns (ghost ptrs': seq<Ptr>)
    requires h.Valid() && VectorOk(h.live, argv, argc, ptrs, ws) && Untouched(live0, h.live, argv, ptrs)
    requires |ws| == k < argc && |h.mem| + Need(2) <= Pow256(8)
    modifies h
    ensures h.Valid() && VectorOk(h.live, argv, argc, ptrs', ws + [[]]) && Untouched(live0, h.live, argv, ptrs')
    ensures |h.mem| <= old(|h.mem|) + Need(2)
    ensures old(h.Dirty() && Marked(h.live, ptrs)) ==> h.Dirty() && Marked(h.live, ptrs')
    ensures ptrs' != [] && ptrs'[|ptrs'| - 1] in h.live
    ensures forall e | |e| == 2 && old(h.NextHolds(e)) :: h.live[ptrs'[|ptrs'| - 1]] == e
  {
    ghost var live1 := h.live;
    var p := NewString(h);
    h.Store(argv, 8 * k, Le(p, 8));
    ptrs' := ptrs + [p];
    Added(live1, h.live, live0, argv, argc, ptrs, ws, p);
  }

  /** The vector after one more string. */
  lemma Added(live: Live, live': Live, live0: Live, argv: Ptr, argc: nat, ptrs: seq<Ptr>, ws: seq<seq<byte>>, p': Ptr)
    requires VectorOk(live, argv, argc, ptrs, ws) && Untouched(live0, live, argv, ptrs) && |ws| < argc && p' !in live
    requires var k := |ws|;
             && live'.Keys == live.Keys + {p'}
             && (forall p | p in live' && p != p' && p != argv :: live'[p] == live[p])
             && 8 * k + 8 <= |live[argv]| && live'[argv] == Splice(live[argv], 8 * k, Le(p', 8))
             && |live'[p']| == 2
    ensures VectorOk(live', argv, argc, ptrs + [p'], ws + [[]])
    ensures Untouched(live0, live', argv, ptrs + [p'])
  {
    var k := |ws|;
    var ptrs', ws' := ptrs + [p'], ws + [[]];
    forall j | 0 <= j < |ptrs'|
      ensures EntryOk(live', argv, ptrs'[j], ws'[j], j)
      ensures ptrs'[j] !in live0 && (j < k ==> ptrs[j] in live)
    {
      if j < k {
        assert EntryOk(live, argv, ptrs[j], ws[j], j);
        AtSplice(live[argv], 8 * k, Le(p', 8), 8 * j, Le(ptrs[j], 8));
      }
    }
  }

  /** Arguments so far, the last one unfinished, and the rest of the line. */
  function Join(ws: seq<seq<byte>>, rest: seq<seq<byte>>): (r: seq<seq<byte>>)
    requires ws != [] && rest != []
    ensures |r| == |ws| + |rest| - 1
  {
    ws[..|ws| - 1] + Prepend(ws[|ws| - 1], rest)
  }

  /** The arguments after a round. */
  function After(ws: seq<seq<byte>>, st: Step): (r: seq<seq<byte>>)
    requires ws != []
    ensures r != []
  {
    if st.gap then ws + [[]] else Longer(ws, st.add)
  }

  lemma NothingAdded(ws: seq<seq<byte>>)
    requires ws != []
    ensures Longer(ws, []) == ws
  {
    assert ws[|ws| - 1] + [] == ws[|ws| - 1];
  }

  lemma JoinStep(s: seq<byte>, i: nat, q: nat, ws: seq<seq<byte>>)
    requires ws != [] && i < |s|
    ensures var st := VStep(s, i, q); Join(After(ws, st), Words(s, st.at, st.quote)) == Join(ws, Words(s, i, q))
  {
    var st := VStep(s, i, q);
    var rest := Words(s, st.at, st.quote);
    if st.gap {
      JoinGap(ws, rest);
    } else {
      JoinAdd(ws, st.add, rest);
    }
  }

  lemma JoinGap(ws: seq<seq<byte>>, rest: seq<seq<byte>>)
    requires ws != [] && rest != []
    ensures Join(ws + [[]], rest) == Join(ws, [[]] + rest)
  {
    var n := |ws| - 1;
    assert (ws + [[]])[..n + 1] == ws;
    PrependNothing(rest);
    assert ws[n] + [] == ws[n];
    assert ([[]] + rest)[1..] == rest;
    assert ws + rest == ws[..n] + ([ws[n]] + rest);
  }

  lemma JoinAdd(ws: seq<seq<byte>>, add: seq<byte>, rest: seq<seq<byte>>)
    requires ws != [] && rest != []
    ensures Join(Longer(ws, add), rest) == Join(ws, Prepend(add, rest))
  {
    var n := |ws| - 1;
    PrependTwice(ws[n], add, rest);
    assert Longer(ws, add)[..n] == ws[..n];
  }

  lemma JoinFirst(rest: seq<seq<byte>>)
    requires rest != []
    ensures Join([[]], rest) == rest
  {
    PrependNothing(rest);
  }

  lemma JoinLast(ws: seq<seq<byte>>)
    requires ws != []
    ensures Join(ws, [[]]) == ws
  {
    assert ws[|ws| - 1] + [] == ws[|ws| - 1];
  }

  /** After a round there is room for one block less, and one block less is needed at most. */
  lemma RoomStep(used: nat, used': nat, n: nat, m: nat, need: nat, all: nat)
    requires m < n && used + n * need <= all && used' <= used + need
    ensures used' + m * need <= all && used + need <= all
  {
    assert (n - m - 1) * need >= 0;
    assert n * need == m * need + need + (n - m - 1) * need;
    assert m * need >= 0;
  }

  /**
   * `splitv`, on a line that does not end in an unquoted backslash, with the count of `splitc`: it never goes past
   * the end of the line or of the vector, and the strings are the arguments.
   */
  method SplitV(h: Heap, argc: nat, s: seq<byte>) returns (argv: Ptr, ghost ptrs: seq<Ptr>)
    requires h.Valid() && CString(s) && Terminated(s) && argc == 1 + Blanks(s, |s|)
    requires 8 * argc < Pow256(4) && |s| + 2 < Pow256(4)
    requires |h.mem| + Need(8 * argc) + (|s| + 1) * Need(|s| + 2) <= Pow256(8)
    modifies h
    ensures h.Valid() && VectorOk(h.live, argv, argc, ptrs, Words(s, 0, 0))
    ensures Untouched(old(h.live), h.live, argv, ptrs)
    ensures old(h.Dirty()) ==> Marked(h.live, ptrs)
    ensures [] !in Words(s, 0, 0) ==> AllRight(h.live, ptrs, Words(s, 0, 0))
    ensures old(|h.buckets|) == 4
    ensures s == [] && old(h.buckets)[0] == 0 ==>
              ptrs != [] && ptrs[0] in h.live && Junk(h.live[ptrs[0]], h.junk, ptrs[0])
  {
    ghost var need := Need(|s| + 2);
    ghost var all, used := Pow256(8), |h.mem| + Need(8 * argc);
    RoomStep(used, used + need, |s| + 1, |s|, need, all);
    CountSuffices(s);
    argv, ptrs := Begin(h, argc);
    RoomStep(used, |h.mem|, |s| + 1, |s|, need, all);
    var inquote: nat, k: nat, il: nat, i: nat := 0, 0, 1, 0;
    ghost var ws: seq<seq<byte>> := [[]];
    JoinFirst(Words(s, 0, 0));
    ghost var n := |s|;
    while i < |s|
      invariant h.Valid() && Agree(s, i, inquote) && |ws| == k + 1 && il == |ws[k]| + 1 && il <= i + 1
      invariant VectorOk(h.live, argv, argc, ptrs, ws) && Untouched(old(h.live), h.live, argv, ptrs)
      invariant Join(ws, Words(s, i, inquote)) == Words(s, 0, 0)
      invariant n == |s| - i && |h.mem| + n * need <= all
      invariant old(h.Dirty()) ==> h.Dirty() && Marked(h.live, ptrs)
      invariant s == [] && old(h.buckets)[0] == 0 ==>
                  ptrs != [] && ptrs[0] in h.live && Junk(h.live[ptrs[0]], h.junk, ptrs[0])
      decreases |s| - i
    {
      StepInside(s, i, inquote);
      StepAgrees(s, i, inquote);
      JoinStep(s, i, inquote, ws);
      ghost var st := VStep(s, i, inquote);
      ghost var used, m := |h.mem|, |s| - st.at;
      RoomStep(used, used, n, m, need, all);
      i, inquote, k, il, ptrs, ws := Round(h, s, i, inquote, k, il, argv, argc, ptrs, ws, old(h.live));
      RoomStep(used, |h.mem|, n, m, need, all);
      n := m;
    }
    JoinLast(ws);
    RightIff(h.live, argv, argc, ptrs, ws);
  }

  /** One round of its loop. */
  method Round(h: Heap, s: seq<byte>, i: nat, inquote: nat, k: nat, il: nat, argv: Ptr, ghost argc: nat,
               ghost ptrs: seq<Ptr>, ghost ws: seq<seq<byte>>, ghost live0: Live)
    returns (i': nat, inquote': nat, k': nat, il': nat, ghost ptrs': seq<Ptr>, ghost ws': seq<seq<byte>>)
    requires h.Valid() && i < |s| && |ws| == k + 1 && il == |ws[k]| + 1 && il <= i + 1 && inquote <= 2
    requires VectorOk(h.live, argv, argc, ptrs, ws) && Untouched(live0, h.live, argv, ptrs)
    requires |s| + 2 < Pow256(4) && |h.mem| + Need(|s| + 2) <= Pow256(8)
    requires VStep(s, i, inquote).at <= |s| && (VStep(s, i, inquote).gap ==> k + 1 < argc)
    modifies h
    ensures h.Valid() && VectorOk(h.live, argv, argc, ptrs', ws') && Untouched(live0, h.live, argv, ptrs')
    ensures var st := VStep(s, i, inquote); i' == st.at && inquote' == st.quote && ws' == After(ws, st)
    ensures |ws'| == k' + 1 && il' == |ws'[k']| + 1 && il' <= i' + 1 && |h.mem| <= old(|h.mem|) + Need(|s| + 2)
    ensures old(h.Dirty() && Marked(h.live, ptrs)) && CString(s) && (inquote == 0 ==> VStep(s, i, 0).at <= |s|) ==>
              h.Dirty() && Marked(h.live, ptrs')
    ensures |VStep(s, i, inquote).add| == 1 && ws[k] != [] && il <= 8 ==> h.NextHolds(ws[k] + [0])
    ensures VStep(s, i, inquote).gap ==>
              ptrs' != [] && ptrs'[|ptrs'| - 1] in h.live
              && forall e | |e| == 2 && old(h.NextHolds(e)) :: h.live[ptrs'[|ptrs'| - 1]] == e
  {
    i', inquote', k', il', ptrs', ws' := i, inquote, k, il, ptrs, ws;
    NothingAdded(ws);
    if s[i] == BACKSLASH {
      var n := Char(s, i + 1);
      if inquote != 0 {
        if (n == SINGLE && inquote == 1) || (n == DOUBLE && inquote == 2) || n == BACKSLASH {
          il', ptrs' := AddCv(h, argv, k, il, n, argc, ptrs, ws, live0);
          ws' := Longer(ws, [n]);
          i' := i' + 1;
        } else {
          il', ptrs' := AddCv(h, argv, k, il, s[i], argc, ptrs, ws, live0);
          ws' := Longer(ws, [s[i]]);
        }
      } else {
        il', ptrs' := AddCv(h, argv, k, il, n, argc, ptrs, ws, live0);
        ws' := Longer(ws, [n]);
        i' := i' + 1;
      }
    } else if s[i] == DOUBLE || s[i] == SINGLE {
      if (inquote == 1 && s[i] == SINGLE) || (inquote == 2 && s[i] == DOUBLE) {
        inquote' := 0;
      } else if inquote == 0 {
        inquote' := if s[i] == SINGLE then 1 else 2;
      } else {
        il', ptrs' := AddCv(h, argv, k, il, s[i], argc, ptrs, ws, live0);
        ws' := Longer(ws, [s[i]]);
      }
    } else if s[i] == SPACE && inquote == 0 {
      while Char(s, i') == SPACE
        invariant i <= i' <= |s| && SkipSpaces(s, i') == SkipSpaces(s, i)
        decreases |s| - i'
      {
        i' := i' + 1;
      }
      i' := i' - 1;
      il' := 1;
      k' := k' + 1;
      ptrs' := NewArg(h, argv, k', argc, ptrs, ws, live0);
      ws' := ws + [[]];
    } else {
      il', ptrs' := AddCv(h, argv, k, il, s[i], argc, ptrs, ws, live0);
      ws' := Longer(ws, [s[i]]);
    }
    i' := i' + 1;
  }

  /**
   * What empty arguments hold. Over memory full of ones all arguments are right exactly when none is empty; over
   * any memory they are right if none is empty.
   */
  method SplitOverOnes(s: seq<byte>) returns (h: Heap, argc: nat, argv: Ptr, ghost ptrs: seq<Ptr>)
    requires CString(s) && Terminated(s) && 8 * (1 + Blanks(s, |s|)) < Pow256(4) && |s| + 2 < Pow256(4)
    requires Need(8 * (1 + Blanks(s, |s|))) + (|s| + 1) * Need(|s| + 2) <= Pow256(8)
    ensures VectorOk(h.live, argv, argc, ptrs, Words(s, 0, 0))
    ensures AllRight(h.live, ptrs, Words(s, 0, 0)) <==> [] !in Words(s, 0, 0)
  {
    h := new Heap([], _ => 1);
    argc := SplitC(s);
    argv, ptrs := SplitV(h, argc, s);
    RightIff(h.live, argv, argc, ptrs, Words(s, 0, 0));
  }

  /** The empty line: its one argument is empty, and its block is not ended by NUL. */
  method SplitNothing() returns (h: Heap, argv: Ptr, ghost ptrs: seq<Ptr>)
    ensures |ptrs| == 1 && ptrs[0] in h.live && h.live[ptrs[0]] == [1, 1]
    ensures !AllRight(h.live, ptrs, Words([], 0, 0))
  {
    var ones: nat -> byte := _ => 1;
    h := new Heap([], ones);
    assert forall p: nat :: h.junk(p) == 1;
    SmallFits();
    var argc := SplitC([]);
    argv, ptrs := SplitV(h, argc, []);
    assert Words([], 0, 0) == [[]];
    assert EntryOk(h.live, argv, ptrs[0], [], 0);
    assert h.live[ptrs[0]][0] == 1 && h.live[ptrs[0]][1] == 1;
  }

  const AB: seq<byte> := [97, 98, SPACE]

  /**
   * The rounds of `splitv` on the line `ab ` over any memory: the second argument is empty, but its block holds the
   * first character of the first one, ended by NUL.
   */
  method SplitStale(h: Heap) returns (argv: Ptr, ghost ptrs: seq<Ptr>)
    requires h.Valid() && |h.mem| + 10 * Need(16) <= Pow256(8)
    modifies h
    ensures Words(AB, 0, 0) == [[97, 98], []]
    ensures h.Valid() && VectorOk(h.live, argv, 2, ptrs, [[97, 98], []])
    ensures ptrs[1] in h.live && h.live[ptrs[1]] == [97, 0]
  {
    SmallFits();
    AbSteps();
    argv, ptrs := Begin(h, 2);
    var i, q, k, il: nat := 0, 0, 0, 1;
    ghost var ws: seq<seq<byte>> := [[]];
    i, q, k, il, ptrs, ws := Round(h, AB, i, q, k, il, argv, 2, ptrs, ws, old(h.live));
    i, q, k, il, ptrs, ws := Round(h, AB, i, q, k, il, argv, 2, ptrs, ws, old(h.live));
    assert h.NextHolds([97] + [0]);
    assert [97] + [0] == [97, 0];
    i, q, k, il, ptrs, ws := Round(h, AB, i, q, k, il, argv, 2, ptrs, ws, old(h.live));
  }

  /** The three rounds on that line. */
  lemma AbSteps()
    ensures VStep(AB, 0, 0) == Step(1, 0, [97], false) && VStep(AB, 1, 0) == Step(2, 0, [98], false)
    ensures VStep(AB, 2, 0) == Step(3, 0, [], true) && Words(AB, 0, 0) == [[97, 98], []]
    ensures After([[]], VStep(AB, 0, 0)) == [[97]] && After([[97]], VStep(AB, 1, 0)) == [[97, 98]]
    ensures After([[97, 98]], VStep(AB, 2, 0)) == [[97, 98], []]
  {
    assert |AB| == 3 && AB[0] == 97 && AB[1] == 98 && AB[2] == SPACE;
    assert SkipSpaces(AB, 3) == 3 == SkipSpaces(AB, 2);
    assert Words(AB, 3, 0) == [[]];
    assert [] + [97] == [97] && [97] + [98] == [97, 98];
    var gap: seq<seq<byte>> := [[], []];
    assert Words(AB, 2, 0) == gap;
    var tail: seq<seq<byte>> := [[98], []];
    assert gap == [[]] + tail[1..];
    PrependWord([98], tail);
    assert Words(AB, 1, 0) == tail;
    assert [97] + tail[0] == [97, 98] && tail[1..] == [[]];
  }

  lemma CommandRight(live: Live, argv: Ptr, argc: nat, ptrs: seq<Ptr>, ws: seq<seq<byte>>, args: seq<seq<Piece>>)
    requires VectorOk(live, argv, argc, ptrs, ws) && |ws| == |args|
    requires forall k | 0 <= k < |args| :: ws[k] == Text(args[k]) && ws[k] != []
    ensures forall k | 0 <= k < |args| ::
              At(live[argv], 8 * k, Le(ptrs[k], 8)) && ptrs[k] in live && live[ptrs[k]] == Text(args[k]) + [0]
  {
    forall k | 0 <= k < |args|
      ensures At(live[argv], 8 * k, Le(ptrs[k], 8)) && ptrs[k] in live && live[ptrs[k]] == Text(args[k]) + [0]
    {
      assert EntryOk(live, argv, ptrs[k], ws[k], k);
    }
  }

  /** `splitc` and `splitv` on a command line: the arguments come out as they were meant, NUL-terminated. */
  method SplitCommand(h: Heap, args: seq<seq<Piece>>) returns (argc: nat, argv: Ptr, ghost ptrs: seq<Ptr>)
    requires h.Valid() && args != [] && forall k | 0 <= k < |args| :: ArgOk(args[k]) && Text(args[k]) != []
    requires 8 * |args| < Pow256(4) && |Command(args)| + 2 < Pow256(4)
    requires |h.mem| + Need(8 * |args|) + (|Command(args)| + 1) * Need(|Command(args)| + 2) <= Pow256(8)
    modifies h
    ensures h.Valid() && argc == |args| == |ptrs| && argv in h.live && |h.live[argv]| == 8 * argc
    ensures forall k | 0 <= k < |args| ::
              At(h.live[argv], 8 * k, Le(ptrs[k], 8)) && ptrs[k] in h.live && h.live[ptrs[k]] == Text(args[k]) + [0]
    ensures Untouched(old(h.live), h.live, argv, ptrs)
  {
    var line := Command(args);
    CommandRoundTrip(args);
    argc := SplitC(line);
    argv, ptrs := SplitV(h, argc, line);
    AllTexts(args);
    CommandRight(h.live, argv, argc, ptrs, Texts(args), args);
  }

  /** The same for words that are only escaped. */
  method SplitEscaped(h: Heap, ws: seq<seq<byte>>) returns (argc: nat, argv: Ptr, ghost ptrs: seq<Ptr>)
    requires h.Valid() && ws != [] && forall k | 0 <= k < |ws| :: Word(ws[k])
    requires 8 * |ws| < Pow256(4) && |Line(ws)| + 2 < Pow256(4)
    requires |h.mem| + Need(8 * |ws|) + (|Line(ws)| + 1) * Need(|Line(ws)| + 2) <= Pow256(8)
    modifies h
    ensures h.Valid() && argc == |ws| == |ptrs| && argv in h.live && |h.live[argv]| == 8 * argc
    ensures forall k | 0 <= k < |ws| ::
              At(h.live[argv], 8 * k, Le(ptrs[k], 8)) && ptrs[k] in h.live && h.live[ptrs[k]] == ws[k] + [0]
    ensures Untouched(old(h.live), h.live, argv, ptrs)
  {
    forall k | 0 <= k < |ws|
      ensures ArgOk(Bares(ws)[k]) && Text(Bares(ws)[k]) == ws[k]
    {
      OneBare(ws[k]);
    }
    argc, argv, ptrs := SplitCommand(h, Bares(ws));
  }
}
