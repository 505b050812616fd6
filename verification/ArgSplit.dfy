/** The two argument splitters of the user-level C library (userland/libc.c): `splitc` counts, `splitv` splits. */
module ArgSplit {
  import opened Bytes

  const SPACE: byte := 32
  const DOUBLE: byte := 34
  const SINGLE: byte := 39
  const BACKSLASH: byte := 92

  /** Character `i` of a C string; the one behind the end is NUL. */
  function Char(s: seq<byte>, i: nat): byte {
    if i < |s| then s[i] else 0
  }

  predicate CString(s: seq<byte>) {
    0 !in s
  }

  /** The character ends quotes of kind `q`, 1 for single and 2 for double ones. */
  predicate Closes(c: byte, q: nat) {
    (c == SINGLE && q == 1) || (c == DOUBLE && q == 2)
  }

  // What `splitc` does: the state is the kind of quote and whether the next character is escaped.

  datatype State = State(quote: nat, escaped: bool)

  function Next(st: State, c: byte): State {
    if st.escaped then st.(escaped := false)
    else if st.quote != 0 then
      if c == BACKSLASH then st.(escaped := true) else if Closes(c, st.quote) then st.(quote := 0) else st
    else if c == BACKSLASH then st.(escaped := true)
    else if c == DOUBLE then st.(quote := 2)
    else if c == SINGLE then st.(quote := 1)
    else st
  }

  /** The state before character `i`. */
  function StateAt(s: seq<byte>, i: nat): State
    requires i <= |s|
  {
    if i == 0 then State(0, false) else Next(StateAt(s, i - 1), s[i - 1])
  }

  /** There is a space at `i` that is neither quoted nor escaped. */
  predicate Blank(s: seq<byte>, i: nat) {
    i < |s| && s[i] == SPACE && StateAt(s, i) == State(0, false)
  }

  /** The number of such spaces before `i`, and of those followed by another one. */
  function Blanks(s: seq<byte>, i: nat): nat
    requires i <= |s|
  {
    if i == 0 then 0 else Blanks(s, i - 1) + if Blank(s, i - 1) then 1 else 0
  }

  function Adjoining(s: seq<byte>, i: nat): nat
    requires i <= |s|
  {
    if i == 0 then 0 else Adjoining(s, i - 1) + if Blank(s, i - 1) && Blank(s, i) then 1 else 0
  }

  /** The line does not end in an unquoted backslash that escapes nothing. */
  predicate Terminated(s: seq<byte>) {
    !(StateAt(s, |s|) == State(0, true))
  }

  /** `splitc`: one more than the number of unquoted, unescaped spaces. */
  method SplitC(s: seq<byte>) returns (ar: nat)
    requires CString(s)
    ensures ar == 1 + Blanks(s, |s|)
  {
    var inquote, inbksl := 0, false;
    ar := 1;
    for i := 0 to |s|
      invariant State(inquote, inbksl) == StateAt(s, i) && inquote <= 2
      invariant ar == 1 + Blanks(s, i)
    {
      if inbksl {
        inbksl := false;
        continue;
      } else if inquote != 0 {
        if s[i] == BACKSLASH {
          inbksl := true;
          continue;
        } else if (s[i] == SINGLE && inquote == 1) || (s[i] == DOUBLE && inquote == 2) {
          inquote := 0;
          continue;
        }
        continue;
      } else if s[i] == SPACE {
        ar := ar + 1;
      } else if s[i] == BACKSLASH {
        inbksl := true;
      }
      if s[i] == DOUBLE { inquote := 2; }
      if s[i] == SINGLE { inquote := 1; }
    }
  }

  // What `splitv` does.

  /** The first position from `i` on without a space. */
  function SkipSpaces(s: seq<byte>, i: nat): (j: nat)
    requires i <= |s|
    ensures i <= j <= |s| && (forall k | i <= k < j :: s[k] == SPACE) && (j < |s| ==> s[j] != SPACE)
    decreases |s| - i
  {
    if i < |s| && s[i] == SPACE then SkipSpaces(s, i + 1) else i
  }

  /** One round: where it goes on, in which kind of quote, and what it adds to the argument; a gap begins a new one. */
  datatype Step = Step(at: nat, quote: nat, add: seq<byte>, gap: bool)

  function VStep(s: seq<byte>, i: nat, q: nat): Step
    requires i < |s|
  {
    var c, n := s[i], Char(s, i + 1);
    if c == BACKSLASH then
      if q == 0 || Closes(n, q) || n == BACKSLASH then Step(i + 2, q, [n], false) else Step(i + 1, q, [c], false)
    else if c == DOUBLE || c == SINGLE then
      if Closes(c, q) then Step(i + 1, 0, [], false)
      else if q == 0 then Step(i + 1, if c == SINGLE then 1 else 2, [], false)
      else Step(i + 1, q, [c], false)
    else if c == SPACE && q == 0 then Step(SkipSpaces(s, i), 0, [], true)
    else Step(i + 1, q, [c], false)
  }

  function Prepend(d: seq<byte>, ws: seq<seq<byte>>): (r: seq<seq<byte>>)
    requires ws != []
    ensures |r| == |ws|
  {
    [d + ws[0]] + ws[1..]
  }

  /** The arguments from position `i` on, the first one being the rest of the one that `splitv` is in. */
  function Words(s: seq<byte>, i: nat, q: nat): (ws: seq<seq<byte>>)
    ensures ws != []
    decreases |s| - i
  {
    if i >= |s| then [[]]
    else
      var st := VStep(s, i, q);
      if st.gap then [[]] + Words(s, st.at, st.quote) else Prepend(st.add, Words(s, st.at, st.quote))
  }

  /**
   * At the beginning of a round of `splitv` both programs are in the same kind of quote. `splitc` may take the next
   * character for an escaped one, but only inside quotes and when that makes no difference.
   */
  predicate Agree(s: seq<byte>, i: nat, q: nat) {
    && i <= |s| && StateAt(s, i).quote == q && q <= 2
    && (StateAt(s, i).escaped ==> q != 0 && !Closes(Char(s, i), q) && Char(s, i) != BACKSLASH)
  }

  lemma {:induction false} SpaceRun(s: seq<byte>, i: nat, j: nat)
    requires i < j <= |s| && StateAt(s, i) == State(0, false) && forall k | i <= k < j :: s[k] == SPACE
    ensures StateAt(s, j) == State(0, false)
    ensures Blanks(s, j) == Blanks(s, i) + (j - i)
    ensures Adjoining(s, j) == Adjoining(s, i) + (j - i - 1) + if j < |s| && s[j] == SPACE then 1 else 0
    decreases j - i
  {
    if i + 1 < j {
      SpaceRun(s, i, j - 1);
    }
  }

  /** A round of `splitv` goes past the end of the line only over a final unquoted backslash. */
  lemma StepInside(s: seq<byte>, i: nat, q: nat)
    requires Agree(s, i, q) && i < |s|
    ensures VStep(s, i, q).at > |s| ==> !Terminated(s)
  {
    if VStep(s, i, q).at > |s| {
      assert StateAt(s, i + 1) == Next(StateAt(s, i), s[i]);
    }
  }

  /** From position `i` on `splitv` goes past the end of the line. */
  predicate RunsOver(s: seq<byte>, i: nat, q: nat)
    decreases |s| - i
  {
    i < |s| && (VStep(s, i, q).at > |s| || RunsOver(s, VStep(s, i, q).at, VStep(s, i, q).quote))
  }

  /** It does so on exactly the lines that end in an unquoted backslash. */
  lemma {:induction false} RunsOverIff(s: seq<byte>, i: nat, q: nat)
    requires CString(s) && Agree(s, i, q)
    ensures RunsOver(s, i, q) <==> !Terminated(s)
    decreases |s| - i
  {
    if i < |s| {
      StepInside(s, i, q);
      if VStep(s, i, q).at <= |s| {
        StepAgrees(s, i, q);
        RunsOverIff(s, VStep(s, i, q).at, VStep(s, i, q).quote);
      }
    }
  }

  /** One round of `splitv` keeps the agreement, and passes one gap for each run of spaces. */
  lemma StepAgrees(s: seq<byte>, i: nat, q: nat)
    requires CString(s) && Agree(s, i, q) && i < |s| && VStep(s, i, q).at <= |s|
    ensures var st := VStep(s, i, q);
            && i < st.at && Agree(s, st.at, st.quote)
            && Blanks(s, st.at) == Blanks(s, i) + (if st.gap then st.at - i else 0)
            && Adjoining(s, st.at) == Adjoining(s, i) + (if st.gap then st.at - i - 1 else 0)
  {
    var st := VStep(s, i, q);
    if st.gap {
      SpaceRun(s, i, st.at);
    } else {
      assert StateAt(s, i + 1) == Next(StateAt(s, i), s[i]);
      if i + 1 < |s| {
        assert StateAt(s, i + 2) == Next(StateAt(s, i + 1), s[i + 1]);
      }
    }
  }

  /** From any point of agreement on: blanks = further arguments + pairs of adjoining blanks. */
  lemma {:induction false} CountsAgree(s: seq<byte>, i: nat, q: nat)
    requires CString(s) && Terminated(s) && Agree(s, i, q)
    ensures Blanks(s, |s|) - Blanks(s, i) == |Words(s, i, q)| - 1 + Adjoining(s, |s|) - Adjoining(s, i)
    decreases |s| - i
  {
    if i < |s| {
      StepInside(s, i, q);
      StepAgrees(s, i, q);
      var st := VStep(s, i, q);
      CountsAgree(s, st.at, st.quote);
    }
  }

  /** What `splitc` counts is never too small for `splitv`, and exact when no two unquoted spaces adjoin. */
  lemma CountSuffices(s: seq<byte>)
    requires CString(s) && Terminated(s)
    ensures 1 + Blanks(s, |s|) == |Words(s, 0, 0)| + Adjoining(s, |s|)
    ensures 1 + Blanks(s, |s|) == |Words(s, 0, 0)| <==> forall k | 0 <= k < |s| :: !(Blank(s, k) && Blank(s, k + 1))
  {
    CountsAgree(s, 0, 0);
    NoneAdjoin(s, |s|);
  }

  lemma {:induction false} NoneAdjoin(s: seq<byte>, i: nat)
    requires i <= |s|
    ensures Adjoining(s, i) == 0 <==> forall k | 0 <= k < i :: !(Blank(s, k) && Blank(s, k + 1))
  {
    if i > 0 { NoneAdjoin(s, i - 1); }
  }

  // Escaping.

  predicate Special(c: byte) {
    c == SPACE || c == DOUBLE || c == SINGLE || c == BACKSLASH
  }

  function Escape(w: seq<byte>): seq<byte> {
    if w == [] then [] else (if Special(w[0]) then [BACKSLASH, w[0]] else [w[0]]) + Escape(w[1..])
  }

  predicate Word(w: seq<byte>) {
    w != [] && CString(w)
  }

  /** Going over an escaped word outside quotes adds just that word. */
  lemma {:induction false} OverEscaped(s: seq<byte>, i: nat, w: seq<byte>, j: nat)
    requires At(s, i, Escape(w)) && j == i + |Escape(w)| && StateAt(s, i) == State(0, false) && CString(w)
    ensures StateAt(s, j) == State(0, false) && Blanks(s, j) == Blanks(s, i)
    ensures Words(s, i, 0) == Prepend(w, Words(s, j, 0))
    decreases |w|
  {
    if w == [] {
      PrependNothing(Words(s, j, 0));
    } else {
      var c := w[0];
      var e := if Special(c) then [BACKSLASH, c] else [c];
      var k := i + |e|;
      AtParts(s, i, e, Escape(w[1..]), k);
      OneEscaped(s, i, c, k);
      OverEscaped(s, k, w[1..], j);
      PrependTwice([c], w[1..], Words(s, j, 0));
      assert [c] + w[1..] == w;
    }
  }

  lemma PrependNothing(ws: seq<seq<byte>>)
    requires ws != []
    ensures Prepend([], ws) == ws
  {
    assert [] + ws[0] == ws[0];
  }

  /** A word before the rest. */
  lemma PrependWord(w: seq<byte>, ws: seq<seq<byte>>)
    requires ws != [] && ws[0] == w
    ensures Prepend(w, [[]] + ws[1..]) == ws
  {
    assert w + [] == w;
    assert ([[]] + ws[1..])[1..] == ws[1..];
    assert ws == [w] + ws[1..];
  }

  lemma PrependTwice(a: seq<byte>, b: seq<byte>, ws: seq<seq<byte>>)
    requires ws != []
    ensures Prepend(a, Prepend(b, ws)) == Prepend(a + b, ws)
  {
    ConcatAssoc(a, b, ws[0]);
  }

  lemma OneEscaped(s: seq<byte>, i: nat, c: byte, k: nat)
    requires StateAtBlank(s, i) && k == i + (if Special(c) then 2 else 1)
    requires At(s, i, if Special(c) then [BACKSLASH, c] else [c])
    ensures StateAtBlank(s, k) && Blanks(s, k) == Blanks(s, i)
    ensures Words(s, i, 0) == Prepend([c], Words(s, k, 0))
  {
    if Special(c) {
      assert s[i] == s[i..i + 2][0] && s[i + 1] == s[i..i + 2][1];
      assert StateAt(s, i + 1) == State(0, true);
    } else {
      assert s[i] == s[i..i + 1][0];
    }
  }

  predicate StateAtBlank(s: seq<byte>, i: nat) {
    i <= |s| && StateAt(s, i) == State(0, false)
  }

  lemma OneSpace(s: seq<byte>, j: nat, rest: seq<byte>)
    requires At(s, j, [SPACE]) && At(s, j + 1, rest) && rest != [] && rest[0] != SPACE
    requires StateAt(s, j) == State(0, false)
    ensures StateAt(s, j + 1) == State(0, false) && Blanks(s, j + 1) == Blanks(s, j) + 1
    ensures Words(s, j, 0) == [[]] + Words(s, j + 1, 0)
  {
    assert s[j] == s[j..j + 1][0];
    assert s[j + 1] == s[j + 1..j + 1 + |rest|][0];
    assert SkipSpaces(s, j) == j + 1;
  }

  lemma {:induction false} EscapeIsCString(w: seq<byte>)
    requires CString(w)
    ensures CString(Escape(w))
  {
    if w != [] { EscapeIsCString(w[1..]); }
  }
}
