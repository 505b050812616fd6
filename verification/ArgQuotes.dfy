/** Quoted arguments (userland/libc.c): what they mean, without the machines that read them. */
module ArgQuotes {
  import opened Bytes
  import opened ArgSplit

  /** A part of an argument, as it is written: with escapes only, or between quotes of kind 1 (single) or 2 (double). */
  datatype Piece = Bare(text: seq<byte>) | Quoted(text: seq<byte>, kind: nat)

  function Mark(kind: nat): byte {
    if kind == 1 then SINGLE else DOUBLE
  }

  /** Between quotes only the closing quote and the backslash have to be escaped. */
  function Inside(w: seq<byte>, kind: nat): seq<byte> {
    if w == [] then []
    else (if w[0] == Mark(kind) || w[0] == BACKSLASH then [BACKSLASH, w[0]] else [w[0]]) + Inside(w[1..], kind)
  }

  function Writing(p: Piece): seq<byte> {
    match p
    case Bare(w) => Escape(w)
    case Quoted(w, kind) => [Mark(kind)] + (Inside(w, kind) + [Mark(kind)])
  }

  function WritingAll(ps: seq<Piece>): seq<byte> {
    if ps == [] then [] else Writing(ps[0]) + WritingAll(ps[1..])
  }

  /** The argument that the pieces make up. */
  function Text(ps: seq<Piece>): seq<byte> {
    if ps == [] then [] else ps[0].text + Text(ps[1..])
  }

  /** The arguments, with one space between any two. */
  function Command(args: seq<seq<Piece>>): seq<byte> {
    if args == [] then []
    else if |args| == 1 then WritingAll(args[0])
    else WritingAll(args[0]) + ([SPACE] + Command(args[1..]))
  }

  function Texts(args: seq<seq<Piece>>): seq<seq<byte>> {
    if args == [] then [] else [Text(args[0])] + Texts(args[1..])
  }

  predicate PieceOk(p: Piece) {
    CString(p.text) && (p.Quoted? ==> p.kind == 1 || p.kind == 2)
  }

  /** An argument that is written down: it may be empty only between quotes. */
  predicate ArgOk(ps: seq<Piece>) {
    (forall i | 0 <= i < |ps| :: PieceOk(ps[i])) && WritingAll(ps) != []
  }

  predicate ArgsOk(args: seq<seq<Piece>>) {
    forall k | 0 <= k < |args| :: ArgOk(args[k])
  }

  lemma RestOk(args: seq<seq<Piece>>, a: seq<Piece>, rest: seq<seq<Piece>>)
    requires args != [] && a == args[0] && rest == args[1..] && ArgsOk(args)
    ensures ArgOk(a) && ArgsOk(rest) && (rest != [] ==> ArgOk(rest[0])) && args == [a] + rest
  {
  }

  ghost predicate In(s: seq<byte>, i: nat, kind: nat) {
    i <= |s| && StateAt(s, i) == State(kind, false)
  }

  /** Between quotes a backslash before any other character stays, and so does the character. */
  lemma BackslashStays(s: seq<byte>, i: nat, kind: nat)
    requires kind == 1 || kind == 2
    requires i + 1 < |s| && s[i] == BACKSLASH && s[i + 1] != Mark(kind) && s[i + 1] != BACKSLASH
    ensures Words(s, i, kind) == Prepend([BACKSLASH, s[i + 1]], Words(s, i + 2, kind))
  {
    PrependTwice([BACKSLASH], [s[i + 1]], Words(s, i + 2, kind));
    assert [BACKSLASH] + [s[i + 1]] == [BACKSLASH, s[i + 1]];
  }

  /** Outside quotes a backslash goes, and the character behind it stays whatever it is. */
  lemma BackslashGoes(s: seq<byte>, i: nat)
    requires i + 1 < |s| && s[i] == BACKSLASH
    ensures Words(s, i, 0) == Prepend([s[i + 1]], Words(s, i + 2, 0))
  {
  }

  /** One character between quotes. */
  lemma OneInside(s: seq<byte>, i: nat, kind: nat, c: byte, k: nat)
    requires In(s, i, kind) && (kind == 1 || kind == 2)
    requires k == i + (if c == Mark(kind) || c == BACKSLASH then 2 else 1)
    requires At(s, i, if c == Mark(kind) || c == BACKSLASH then [BACKSLASH, c] else [c])
    ensures In(s, k, kind) && Blanks(s, k) == Blanks(s, i)
    ensures Words(s, i, kind) == Prepend([c], Words(s, k, kind))
  {
    if c == Mark(kind) || c == BACKSLASH {
      assert s[i] == s[i..i + 2][0] && s[i + 1] == s[i..i + 2][1];
      assert StateAt(s, i + 1) == State(kind, true);
    } else {
      assert s[i] == s[i..i + 1][0];
    }
  }

  lemma {:induction false} OverInside(s: seq<byte>, i: nat, w: seq<byte>, kind: nat, j: nat)
    requires At(s, i, Inside(w, kind)) && j == i + |Inside(w, kind)| && In(s, i, kind) && (kind == 1 || kind == 2)
    ensures In(s, j, kind) && Blanks(s, j) == Blanks(s, i)
    ensures Words(s, i, kind) == Prepend(w, Words(s, j, kind))
    decreases |w|
  {
    if w == [] {
      PrependNothing(Words(s, j, kind));
    } else {
      var c := w[0];
      var e := if c == Mark(kind) || c == BACKSLASH then [BACKSLASH, c] else [c];
      var k := i + |e|;
      AtParts(s, i, e, Inside(w[1..], kind), k);
      OneInside(s, i, kind, c, k);
      OverInside(s, k, w[1..], kind, j);
      PrependTwice([c], w[1..], Words(s, j, kind));
      assert [c] + w[1..] == w;
    }
  }

  /** A quote outside quotes opens, and one of the same kind closes. */
  lemma OneMark(s: seq<byte>, i: nat, kind: nat)
    requires (kind == 1 || kind == 2) && At(s, i, [Mark(kind)])
    ensures In(s, i, 0) ==> In(s, i + 1, kind) && Words(s, i, 0) == Words(s, i + 1, kind)
    ensures In(s, i, kind) ==> In(s, i + 1, 0) && Words(s, i, kind) == Words(s, i + 1, 0)
    ensures In(s, i, 0) || In(s, i, kind) ==> Blanks(s, i + 1) == Blanks(s, i)
  {
    assert s[i] == s[i..i + 1][0];
    PrependNothing(Words(s, i + 1, kind));
    PrependNothing(Words(s, i + 1, 0));
  }

  lemma OverQuoted(s: seq<byte>, i: nat, w: seq<byte>, kind: nat, j: nat)
    requires (kind == 1 || kind == 2) && In(s, i, 0)
    requires At(s, i, [Mark(kind)] + (Inside(w, kind) + [Mark(kind)])) && j == i + |Inside(w, kind)| + 2
    ensures In(s, j, 0) && Blanks(s, j) == Blanks(s, i) && Words(s, i, 0) == Prepend(w, Words(s, j, 0))
  {
    var a, b := i + 1, j - 1;
    AtParts(s, i, [Mark(kind)], Inside(w, kind) + [Mark(kind)], a);
    AtParts(s, a, Inside(w, kind), [Mark(kind)], b);
    OneMark(s, i, kind);
    OverInside(s, a, w, kind, b);
    OneMark(s, b, kind);
  }

  /** Going over the pieces of an argument adds just their text. */
  lemma {:induction false} OverPieces(s: seq<byte>, i: nat, ps: seq<Piece>, j: nat)
    requires In(s, i, 0) && At(s, i, WritingAll(ps)) && j == i + |WritingAll(ps)|
    requires forall k | 0 <= k < |ps| :: PieceOk(ps[k])
    ensures In(s, j, 0) && Blanks(s, j) == Blanks(s, i) && Words(s, i, 0) == Prepend(Text(ps), Words(s, j, 0))
    decreases |ps|
  {
    if ps == [] {
      PrependNothing(Words(s, j, 0));
    } else {
      var p, rest := ps[0], ps[1..];
      var k := i + |Writing(p)|;
      AtParts(s, i, Writing(p), WritingAll(rest), k);
      if p.Bare? {
        OverEscaped(s, i, p.text, k);
      } else {
        OverQuoted(s, i, p.text, p.kind, k);
      }
      OverPieces(s, k, rest, j);
      PrependTwice(p.text, Text(rest), Words(s, j, 0));
    }
  }

  lemma {:induction false} FirstWritten(ps: seq<Piece>)
    requires ArgOk(ps)
    ensures WritingAll(ps)[0] != SPACE
  {
    var p, rest := ps[0], ps[1..];
    if Writing(p) == [] {
      FirstWritten(rest);
    } else {
      assert WritingAll(ps)[0] == Writing(p)[0];
    }
  }

  /** The first argument of several, and the space behind it. */
  lemma OverFirst(s: seq<byte>, i: nat, a: seq<Piece>, rest: seq<seq<Piece>>, j: nat, next: nat)
    requires ArgOk(a) && rest != [] && ArgOk(rest[0]) && In(s, i, 0)
    requires At(s, i, WritingAll(a) + ([SPACE] + Command(rest))) && j == i + |WritingAll(a)| && next == j + 1
    ensures At(s, next, Command(rest)) && In(s, next, 0) && Blanks(s, next) == Blanks(s, i) + 1
    ensures Words(s, i, 0) == Prepend(Text(a), [[]] + Words(s, next, 0))
  {
    AtParts(s, i, WritingAll(a), [SPACE] + Command(rest), j);
    AtParts(s, j, [SPACE], Command(rest), next);
    OverPieces(s, i, a, j);
    FirstWritten(rest[0]);
    assert Command(rest)[0] == WritingAll(rest[0])[0];
    OneSpace(s, j, Command(rest));
  }

  /** From `i` to the end of the line at `end` there are just these arguments. */
  ghost predicate Holds(s: seq<byte>, i: nat, end: nat, args: seq<seq<Piece>>)
    requires i <= end == |s|
  {
    In(s, end, 0) && Words(s, i, 0) == Texts(args) && Blanks(s, end) == Blanks(s, i) + |args| - 1
  }

  lemma WordsAtEnd(s: seq<byte>, end: nat)
    requires end == |s|
    ensures Words(s, end, 0) == [[]]
  {
  }

  /** A command of one argument. */
  lemma OverLast(s: seq<byte>, i: nat, end: nat, a: seq<Piece>, args: seq<seq<Piece>>)
    requires ArgOk(a) && args == [a] && In(s, i, 0) && At(s, i, WritingAll(a)) && i + |WritingAll(a)| == end == |s|
    ensures Holds(s, i, end, args)
  {
    OverPieces(s, i, a, end);
    WordsAtEnd(s, end);
    FirstText(args, a, []);
  }

  /** A command from any point outside quotes on. */
  lemma {:induction false} OverCommand(s: seq<byte>, i: nat, end: nat, line: seq<byte>, args: seq<seq<Piece>>)
    requires args != [] && ArgsOk(args) && line == Command(args)
    requires At(s, i, line) && i + |line| == end == |s| && In(s, i, 0)
    ensures Holds(s, i, end, args)
    decreases |args|
  {
    var a, rest := args[0], args[1..];
    var j := i + |WritingAll(a)|;
    FirstText(args, a, rest);
    RestOk(args, a, rest);
    if rest == [] {
      OverLast(s, i, end, a, args);
    } else {
      OverFirst(s, i, a, rest, j, j + 1);
      OverCommand(s, j + 1, end, Command(rest), rest);
      HoldsMore(s, i, j + 1, end, a, rest, args);
    }
  }

  lemma HoldsMore(s: seq<byte>, i: nat, next: nat, end: nat, a: seq<Piece>, rest: seq<seq<Piece>>,
                  args: seq<seq<Piece>>)
    requires i <= next <= end == |s| && Holds(s, next, end, rest) && args != [] && a == args[0] && rest == args[1..]
    requires rest != [] && Blanks(s, next) == Blanks(s, i) + 1
    requires Words(s, i, 0) == Prepend(Text(a), [[]] + Words(s, next, 0))
    ensures Holds(s, i, end, args)
  {
    FirstText(args, a, rest);
  }

  lemma FirstText(args: seq<seq<Piece>>, a: seq<Piece>, rest: seq<seq<Piece>>)
    requires args != [] && a == args[0] && rest == args[1..]
    ensures rest == [] ==> Prepend(Text(a), [[]]) == Texts(args) && Command(args) == WritingAll(a)
    ensures rest != [] ==> Prepend(Text(a), [[]] + Texts(rest)) == Texts(args)
    ensures rest != [] ==> Command(args) == WritingAll(a) + ([SPACE] + Command(rest))
    ensures rest != [] ==> |Command(args)| == |WritingAll(a)| + 1 + |Command(rest)|
  {
    PrependWord(Text(a), Texts(args));
    assert Texts(args)[1..] == Texts(rest);
    assert rest == [] ==> [[]] + Texts(args)[1..] == [[]];
  }

  lemma {:induction false} InsideIsCString(w: seq<byte>, kind: nat)
    requires CString(w)
    ensures CString(Inside(w, kind))
  {
    if w != [] { InsideIsCString(w[1..], kind); }
  }

  lemma {:induction false} WritingIsCString(ps: seq<Piece>)
    requires forall k | 0 <= k < |ps| :: PieceOk(ps[k])
    ensures CString(WritingAll(ps))
  {
    if ps != [] {
      EscapeIsCString(ps[0].text);
      if ps[0].Quoted? { InsideIsCString(ps[0].text, ps[0].kind); }
      WritingIsCString(ps[1..]);
    }
  }

  lemma {:induction false} CommandIsCString(args: seq<seq<Piece>>)
    requires ArgsOk(args)
    ensures CString(Command(args))
  {
    if args != [] {
      WritingIsCString(args[0]);
      CommandIsCString(args[1..]);
    }
  }

  /** Both splitters undo quoting, escaping and joining. */
  lemma CommandRoundTrip(args: seq<seq<Piece>>)
    requires args != [] && ArgsOk(args)
    ensures var s := Command(args);
            CString(s) && Terminated(s) && Words(s, 0, 0) == Texts(args) && 1 + Blanks(s, |s|) == |args|
  {
    var s := Command(args);
    assert At(s, 0, s);
    OverCommand(s, 0, |s|, s, args);
    CommandIsCString(args);
  }

  /** The words as arguments without quotes. */
  function Bares(ws: seq<seq<byte>>): (args: seq<seq<Piece>>)
    ensures |args| == |ws| && forall k | 0 <= k < |ws| :: args[k] == [Bare(ws[k])]
  {
    seq(|ws|, k requires 0 <= k < |ws| => [Bare(ws[k])])
  }

  /** The words, escaped, with one space between any two. */
  function Line(ws: seq<seq<byte>>): seq<byte> {
    Command(Bares(ws))
  }

  lemma {:induction false} TextsAt(args: seq<seq<Piece>>, k: nat)
    requires k < |args|
    ensures |Texts(args)| == |args| && Texts(args)[k] == Text(args[k])
  {
    if k > 0 {
      TextsAt(args[1..], k - 1);
    } else if |args| > 1 {
      TextsAt(args[1..], 0);
    }
  }

  lemma AllTexts(args: seq<seq<Piece>>)
    ensures |Texts(args)| == |args| && forall k | 0 <= k < |args| :: Texts(args)[k] == Text(args[k])
  {
    forall k | 0 <= k < |args|
      ensures |Texts(args)| == |args| && Texts(args)[k] == Text(args[k])
    {
      TextsAt(args, k);
    }
  }

  lemma OneBare(w: seq<byte>)
    requires Word(w)
    ensures ArgOk([Bare(w)]) && Text([Bare(w)]) == w && WritingAll([Bare(w)]) == Escape(w)
  {
    var ps := [Bare(w)];
    assert ps[1..] == [] && Text(ps) == w + Text(ps[1..]) && WritingAll(ps) == Escape(w) + WritingAll(ps[1..]);
  }

  /** Both splitters undo escaping and joining. */
  lemma LineRoundTrip(ws: seq<seq<byte>>)
    requires ws != [] && forall k | 0 <= k < |ws| :: Word(ws[k])
    ensures var s := Line(ws);
            CString(s) && Terminated(s) && Words(s, 0, 0) == ws && 1 + Blanks(s, |s|) == |ws|
  {
    var args := Bares(ws);
    forall k | 0 <= k < |ws|
      ensures ArgOk(args[k]) && |Texts(args)| == |ws| && Texts(args)[k] == ws[k]
    {
      OneBare(ws[k]);
      TextsAt(args, k);
    }
    CommandRoundTrip(args);
    assert Texts(args) == ws;
  }
}
