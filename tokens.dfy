/** Diff tokens and the streams the tokenizers emit. A stream is specified
    here by the edit script it renders (`RenderText`, `RenderXWords`,
    `RenderYWords`); the lemmas state what a reader of the stream can recover
    from it: the two sides, the matched lines, the line numbers in the gutter,
    and the script itself. */
module Tokens {
  import opened Wrappers
  import opened Decimal
  import opened Gutter
  import opened EditScript

  /** The kind of a token. ChunkStart, ChunkEnd and EmptyLine are kinds that
      no tokenizer here produces. */
  datatype Type =
    | Newline | Space
    | ChunkStart | ChunkEnd
    | SameSymbol | SameLine
    | AddSymbol | AddLine
    | DelSymbol | DelLine
    | SameWords | AddWords | DelWords
    | EmptyLine

  /** One printable unit of diff output. */
  datatype Token = Token(typ: Type, literal: string)

  predicate IsSymbol(t: Type) {
    t == DelSymbol || t == AddSymbol || t == SameSymbol
  }

  /** l without its final newline, if it has one. */
  function DropNewline(l: string): string {
    if |l| > 0 && l[|l| - 1] == '\n' then l[..|l| - 1] else l
  }

  /** Each element of ls with a newline appended. */
  function WithNewlines(ls: seq<string>): seq<string> {
    if ls == [] then [] else WithNewlines(ls[..|ls| - 1]) + [ls[|ls| - 1] + "\n"]
  }

  /** The numbers 1, 2, ..., n. */
  function Ordinals(n: nat): seq<nat> {
    if n == 0 then [] else Ordinals(n - 1) + [n]
  }

  // ---------------------------------------------------------------------
  // Reading a stream

  /** What a reader takes from a stream: the x lines (deleted lines and
      matched lines without their newline), the y lines (added and matched
      lines likewise), the matched lines as emitted, every literal, or the
      matched words. */
  datatype View = XLines | YLines | MatchedLines | AllLiterals | MatchedWords

  function TextOf(t: Token, v: View): seq<string> {
    match v
    case XLines =>
      if t.typ == DelLine then [t.literal] else if t.typ == SameLine then [DropNewline(t.literal)] else []
    case YLines =>
      if t.typ == AddLine then [t.literal] else if t.typ == SameLine then [DropNewline(t.literal)] else []
    case MatchedLines =>
      if t.typ == SameLine then [t.literal] else []
    case AllLiterals =>
      [t.literal]
    case MatchedWords =>
      if t.typ == SameWords then [t.literal] else []
  }

  /** The view v of a stream, in stream order. */
  function Texts(ts: seq<Token>, v: View): seq<string> {
    if ts == [] then [] else Texts(ts[..|ts| - 1], v) + TextOf(ts[|ts| - 1], v)
  }

  /** The gutter column to read: the x number or the y number. */
  datatype Column = XColumn | YColumn

  /** The number shown in column c of a symbol token, for a gutter whose x and
      y number fields are xl and yl characters wide. */
  function NumberOf(t: Token, c: Column, xl: nat, yl: nat): seq<nat> {
    match c
    case XColumn =>
      if (t.typ == DelSymbol || t.typ == SameSymbol) && xl <= |t.literal|
      then [Value(t.literal[..xl])] else []
    case YColumn =>
      if (t.typ == AddSymbol || t.typ == SameSymbol) && xl + 1 + yl <= |t.literal|
      then [Value(t.literal[xl + 1..xl + 1 + yl])] else []
  }

  /** The numbers shown in column c, in stream order. */
  function Numbers(ts: seq<Token>, c: Column, xl: nat, yl: nat): seq<nat> {
    if ts == [] then [] else Numbers(ts[..|ts| - 1], c, xl, yl) + NumberOf(ts[|ts| - 1], c, xl, yl)
  }

  /** Every symbol token of the stream is w characters wide. */
  predicate GutterWidth(ts: seq<Token>, w: nat) {
    forall p :: 0 <= p < |ts| && IsSymbol(ts[p].typ) ==> |ts[p].literal| == w
  }

  function Last(s: string): char
    requires s != []
  {
    s[|s| - 1]
  }

  /** The step spelled by one complete token group, if g is one: a deletion
      [DelSymbol ending in '-', Space, DelLine, Newline], an addition
      [AddSymbol ending in '+', Space, AddLine, Newline], or a match
      [SameSymbol ending in ' ', Space, SameLine ending in a newline]. */
  function ParseGroup(g: seq<Token>): Option<Edit> {
    if |g| == 4 && g[1] == Token(Space, " ") && g[3] == Token(Newline, "\n")
       && g[0].typ == DelSymbol && g[0].literal != [] && Last(g[0].literal) == '-'
       && g[2].typ == DelLine
    then Some(Del(g[2].literal))
    else if |g| == 4 && g[1] == Token(Space, " ") && g[3] == Token(Newline, "\n")
       && g[0].typ == AddSymbol && g[0].literal != [] && Last(g[0].literal) == '+'
       && g[2].typ == AddLine
    then Some(Add(g[2].literal))
    else if |g| == 3 && g[1] == Token(Space, " ")
       && g[0].typ == SameSymbol && g[0].literal != [] && Last(g[0].literal) == ' '
       && g[2].typ == SameLine && g[2].literal != [] && Last(g[2].literal) == '\n'
    then Some(Same(DropNewline(g[2].literal)))
    else None
  }

  /** Reads a text-diff stream back as a sequence of complete groups: None
      unless the stream is a concatenation of well-formed groups. A group ends
      in a Newline token (deletion, addition: four tokens) or in a SameLine
      token (match: three tokens). */
  function ParseText(ts: seq<Token>): Option<seq<Edit>> {
    if ts == [] then Some([])
    else
      var n := if ts[|ts| - 1].typ == Newline then 4 else 3;
      if |ts| < n then None
      else match (ParseText(ts[..|ts| - n]), ParseGroup(ts[|ts| - n..]))
        case (Some(front), Some(step)) => Some(front + [step])
        case _ => None
  }

  // ---------------------------------------------------------------------
  // Writing a stream

  /** The token group TokenizeText emits for one step, given the literal of
      its symbol token. */
  function Group(step: Edit, symbol: string): seq<Token> {
    match step
    case Del(l) => [Token(DelSymbol, symbol), Token(Space, " "), Token(DelLine, l), Token(Newline, "\n")]
    case Add(l) => [Token(AddSymbol, symbol), Token(Space, " "), Token(AddLine, l), Token(Newline, "\n")]
    case Same(l) => [Token(SameSymbol, symbol), Token(Space, " "), Token(SameLine, l + "\n")]
  }

  /** The symbol literal of a step: its gutter, printed by one of the formats
      f (as numFormat builds them) from the 1-based numbers i and j of the
      current x and y line, then the marker '-', '+' or ' '. */
  function Symbol(step: Edit, f: Formats, i: nat, j: nat): string
    requires Arity(f)
  {
    match step
    case Del(_) => Sprintf(f.xNum, [i]) + "-"
    case Add(_) => Sprintf(f.yNum, [j]) + "+"
    case Same(_) => Sprintf(f.sNum, [i, j]) + " "
  }

  /** The text-diff stream of a script, with gutter formats f: one group per
      step, the lines numbered from 1 on each side. */
  function RenderText(e: seq<Edit>, f: Formats): seq<Token>
    requires Arity(f)
  {
    if e == [] then []
    else
      var front := e[..|e| - 1];
      var step := e[|e| - 1];
      RenderText(front, f) + Group(step, Symbol(step, f, |Source(front)| + 1, |Target(front)| + 1))
  }

  /** The token TokenizeLine emits on the x side for one step: DelWords for
      a deleted word, SameWords for a matched one, nothing for an added one. */
  function XWord(step: Edit): seq<Token> {
    match step
    case Del(w) => [Token(DelWords, w)]
    case Add(_) => []
    case Same(w) => [Token(SameWords, w)]
  }

  /** The token TokenizeLine emits on the y side for one step. */
  function YWord(step: Edit): seq<Token> {
    match step
    case Del(_) => []
    case Add(w) => [Token(AddWords, w)]
    case Same(w) => [Token(SameWords, w)]
  }

  /** The x stream of a word diff, one XWord per step. */
  function RenderXWords(e: seq<Edit>): seq<Token> {
    if e == [] then [] else RenderXWords(e[..|e| - 1]) + XWord(e[|e| - 1])
  }

  /** The y stream of a word diff, one YWord per step. */
  function RenderYWords(e: seq<Edit>): seq<Token> {
    if e == [] then [] else RenderYWords(e[..|e| - 1]) + YWord(e[|e| - 1])
  }

  // ---------------------------------------------------------------------
  // Lemmas

  lemma {:induction false} TextsAppend(a: seq<Token>, b: seq<Token>, v: View)
    ensures Texts(a + b, v) == Texts(a, v) + Texts(b, v)
    decreases |b|
  {
    if b == [] {
      assert a + b == a;
    } else {
      var b', last := b[..|b| - 1], b[|b| - 1];
      assert (a + b)[..|a + b| - 1] == a + b' && (a + b)[|a + b| - 1] == last;
      calc {
        Texts(a + b, v);
        Texts(a + b', v) + TextOf(last, v);
        { TextsAppend(a, b', v); }
        (Texts(a, v) + Texts(b', v)) + TextOf(last, v);
        Texts(a, v) + (Texts(b', v) + TextOf(last, v));
        Texts(a, v) + Texts(b, v);
      }
    }
  }

  lemma {:induction false} NumbersAppend(a: seq<Token>, b: seq<Token>, c: Column, xl: nat, yl: nat)
    ensures Numbers(a + b, c, xl, yl) == Numbers(a, c, xl, yl) + Numbers(b, c, xl, yl)
    decreases |b|
  {
    if b == [] {
      assert a + b == a;
    } else {
      var b', last := b[..|b| - 1], b[|b| - 1];
      assert (a + b)[..|a + b| - 1] == a + b' && (a + b)[|a + b| - 1] == last;
      calc {
        Numbers(a + b, c, xl, yl);
        Numbers(a + b', c, xl, yl) + NumberOf(last, c, xl, yl);
        { NumbersAppend(a, b', c, xl, yl); }
        (Numbers(a, c, xl, yl) + Numbers(b', c, xl, yl)) + NumberOf(last, c, xl, yl);
        Numbers(a, c, xl, yl) + (Numbers(b', c, xl, yl) + NumberOf(last, c, xl, yl));
        Numbers(a, c, xl, yl) + Numbers(b, c, xl, yl);
      }
    }
  }

  /** A three-token group whose first two tokens show nothing in view v
      shows what its third shows. */
  lemma ThirdShows(t0: Token, t1: Token, t2: Token, v: View)
    requires TextOf(t0, v) == [] && TextOf(t1, v) == []
    ensures Texts([t0, t1, t2], v) == TextOf(t2, v)
  {
    var g1, g2, g3 := [t0], [t0, t1], [t0, t1, t2];
    assert g1[..0] == [] && g2[..1] == g1 && g3[..2] == g2;
    assert Texts(g1, v) == [];
    assert Texts(g2, v) == [];
  }

  /** A four-token group whose tokens other than the third show nothing in
      view v shows what its third shows. */
  lemma ThirdOfFourShows(t0: Token, t1: Token, t2: Token, t3: Token, v: View)
    requires TextOf(t0, v) == [] && TextOf(t1, v) == [] && TextOf(t3, v) == []
    ensures Texts([t0, t1, t2, t3], v) == TextOf(t2, v)
  {
    ThirdShows(t0, t1, t2, v);
    var g := [t0, t1, t2, t3];
    assert g[..3] == [t0, t1, t2];
  }

  /** What a deletion group shows: its line on the x side only. */
  lemma DelGroupShows(l: string, symbol: string)
    ensures var g := Group(Del(l), symbol);
      Texts(g, XLines) == [l] && Texts(g, YLines) == [] && Texts(g, MatchedLines) == []
  {
    var t0, t1, t2, t3 := Token(DelSymbol, symbol), Token(Space, " "), Token(DelLine, l), Token(Newline, "\n");
    ThirdOfFourShows(t0, t1, t2, t3, XLines);
    ThirdOfFourShows(t0, t1, t2, t3, YLines);
    ThirdOfFourShows(t0, t1, t2, t3, MatchedLines);
  }

  /** What an addition group shows: its line on the y side only. */
  lemma AddGroupShows(l: string, symbol: string)
    ensures var g := Group(Add(l), symbol);
      Texts(g, XLines) == [] && Texts(g, YLines) == [l] && Texts(g, MatchedLines) == []
  {
    var t0, t1, t2, t3 := Token(AddSymbol, symbol), Token(Space, " "), Token(AddLine, l), Token(Newline, "\n");
    ThirdOfFourShows(t0, t1, t2, t3, XLines);
    ThirdOfFourShows(t0, t1, t2, t3, YLines);
    ThirdOfFourShows(t0, t1, t2, t3, MatchedLines);
  }

  /** What a match group shows: its line on both sides, and as a matched
      line with its newline. */
  lemma SameGroupShows(l: string, symbol: string)
    ensures var g := Group(Same(l), symbol);
      Texts(g, XLines) == [l] && Texts(g, YLines) == [l] && Texts(g, MatchedLines) == [l + "\n"]
  {
    var t0, t1, t2 := Token(SameSymbol, symbol), Token(Space, " "), Token(SameLine, l + "\n");
    assert DropNewline(l + "\n") == l;
    ThirdShows(t0, t1, t2, XLines);
    ThirdShows(t0, t1, t2, YLines);
    ThirdShows(t0, t1, t2, MatchedLines);
  }

  /** What one group shows of its step. */
  lemma GroupSides(step: Edit, symbol: string)
    ensures Texts(Group(step, symbol), XLines) == Source([step])
    ensures Texts(Group(step, symbol), YLines) == Target([step])
    ensures Texts(Group(step, symbol), MatchedLines) == WithNewlines(Common([step]))
  {
    Single(step);
    match step
    case Del(l) => DelGroupShows(l, symbol);
    case Add(l) => AddGroupShows(l, symbol);
    case Same(l) =>
      SameGroupShows(l, symbol);
      assert WithNewlines([l]) == [l + "\n"] by {
        assert [l][..0] == [];
      }
  }

  /** Tokens other than symbols show no numbers. */
  lemma {:induction false} NumbersOfGroup(g: seq<Token>, c: Column, xl: nat, yl: nat)
    requires g != [] && forall p :: 1 <= p < |g| ==> !IsSymbol(g[p].typ)
    ensures Numbers(g, c, xl, yl) == NumberOf(g[0], c, xl, yl)
    decreases |g|
  {
    if |g| == 1 {
      assert g[..0] == [];
    } else {
      var front := g[..|g| - 1];
      assert front[0] == g[0];
      NumbersOfGroup(front, c, xl, yl);
      assert NumberOf(g[|g| - 1], c, xl, yl) == [];
    }
  }

  /** Only the symbol token of a group shows numbers. */
  lemma GroupNumbers(step: Edit, symbol: string, c: Column, xl: nat, yl: nat)
    ensures Numbers(Group(step, symbol), c, xl, yl) == NumberOf(Group(step, symbol)[0], c, xl, yl)
  {
    NumbersOfGroup(Group(step, symbol), c, xl, yl);
  }

  /** Appending a group adds the numbers its symbol shows. */
  lemma NumbersStep(r: seq<Token>, step: Edit, symbol: string, c: Column, xl: nat, yl: nat)
    ensures Numbers(r + Group(step, symbol), c, xl, yl)
      == Numbers(r, c, xl, yl) + NumberOf(Group(step, symbol)[0], c, xl, yl)
  {
    GroupNumbers(step, symbol, c, xl, yl);
    NumbersAppend(r, Group(step, symbol), c, xl, yl);
  }

  /** A symbol made of a gutter of width xl + yl + 2 and a one-character
      marker is xl + yl + 3 wide and shows the gutter's number fields: the
      x field for deletions and matches, the y field for additions and
      matches. */
  lemma MarkedGutter(typ: Type, m: string, marker: string, xl: nat, yl: nat)
    requires IsSymbol(typ) && |m| == xl + yl + 2 && |marker| == 1
    ensures var t := Token(typ, m + marker);
      |t.literal| == xl + yl + 3
      && NumberOf(t, XColumn, xl, yl) == (if typ == AddSymbol then [] else [Value(m[..xl])])
      && NumberOf(t, YColumn, xl, yl) == (if typ == DelSymbol then [] else [Value(m[xl + 1..xl + 1 + yl])])
  {
    assert (m + marker)[..xl] == m[..xl];
    assert (m + marker)[xl + 1..xl + 1 + yl] == m[xl + 1..xl + 1 + yl];
  }

  /** Appending the marker keeps a blank stretch of the gutter blank. */
  lemma BlankBeforeMarker(m: string, marker: string, lo: nat, hi: nat)
    requires lo <= hi <= |m| && AllSpaces(m[lo..hi])
    ensures AllSpaces((m + marker)[lo..hi])
  {
    assert (m + marker)[lo..hi] == m[lo..hi];
  }

  /** A deletion symbol shows x line i in the x column and is xl + yl + 3
      characters wide; everything between the x field and the marker, the
      y column included, is blank. */
  lemma DelSymbolShows(xn: nat, yn: nat, i: nat)
    requires i <= xn
    ensures var t, xl, yl := Token(DelSymbol, Sprintf(NumFormat(xn, yn).xNum, [i]) + "-"), DigitWidth(xn), DigitWidth(yn);
      |t.literal| == xl + yl + 3 && NumberOf(t, XColumn, xl, yl) == [i] && NumberOf(t, YColumn, xl, yl) == []
      && AllSpaces(t.literal[xl..xl + yl + 2])
  {
    var d, xl, yl := Sprintf(NumFormat(xn, yn).xNum, [i]), DigitWidth(xn), DigitWidth(yn);
    assert |d| == xl + yl + 2 && Value(d[..xl]) == i && AllSpaces(d[xl..]) by {
      DelGutter(xn, yn, i);
    }
    BlankBeforeMarker(d, "-", xl, xl + yl + 2);
    MarkedGutter(DelSymbol, d, "-", xl, yl);
  }

  /** An addition symbol shows y line j in the y column and is xl + yl + 3
      characters wide; the x column and the blank after it are blank. */
  lemma AddSymbolShows(xn: nat, yn: nat, j: nat)
    requires j <= yn
    ensures var t, xl, yl := Token(AddSymbol, Sprintf(NumFormat(xn, yn).yNum, [j]) + "+"), DigitWidth(xn), DigitWidth(yn);
      |t.literal| == xl + yl + 3 && NumberOf(t, XColumn, xl, yl) == [] && NumberOf(t, YColumn, xl, yl) == [j]
      && AllSpaces(t.literal[..xl + 1])
  {
    var a, xl, yl := Sprintf(NumFormat(xn, yn).yNum, [j]), DigitWidth(xn), DigitWidth(yn);
    assert |a| == xl + yl + 2 && Value(a[xl + 1..xl + 1 + yl]) == j && AllSpaces(a[..xl + 1]) by {
      AddGutter(xn, yn, j);
    }
    BlankBeforeMarker(a, "+", 0, xl + 1);
    MarkedGutter(AddSymbol, a, "+", xl, yl);
  }

  /** A match symbol shows x line i and y line j, and is xl + yl + 3
      characters wide. */
  lemma SameSymbolShows(xn: nat, yn: nat, i: nat, j: nat)
    requires i <= xn && j <= yn
    ensures var t, xl, yl := Token(SameSymbol, Sprintf(NumFormat(xn, yn).sNum, [i, j]) + " "), DigitWidth(xn), DigitWidth(yn);
      |t.literal| == xl + yl + 3 && NumberOf(t, XColumn, xl, yl) == [i] && NumberOf(t, YColumn, xl, yl) == [j]
  {
    var m, xl, yl := Sprintf(NumFormat(xn, yn).sNum, [i, j]), DigitWidth(xn), DigitWidth(yn);
    assert |m| == xl + yl + 2 && Value(m[..xl]) == i && Value(m[xl + 1..xl + 1 + yl]) == j by {
      SameGutter(xn, yn, i, j);
    }
    MarkedGutter(SameSymbol, m, " ", xl, yl);
  }

  /** The numbers and width of a group's symbol, for line numbers within the
      counts (only the numbers a step shows need to be). */
  lemma SymbolGutter(step: Edit, xn: nat, yn: nat, i: nat, j: nat)
    requires (step.Add? || i <= xn) && (step.Del? || j <= yn)
    ensures var t, xl, yl := Group(step, Symbol(step, NumFormat(xn, yn), i, j))[0], DigitWidth(xn), DigitWidth(yn);
      IsSymbol(t.typ) && |t.literal| == xl + yl + 3
      && NumberOf(t, XColumn, xl, yl) == (if step.Add? then [] else [i])
      && NumberOf(t, YColumn, xl, yl) == (if step.Del? then [] else [j])
  {
    match step
    case Del(_) => DelSymbolShows(xn, yn, i);
    case Add(_) => AddSymbolShows(xn, yn, j);
    case Same(_) => SameSymbolShows(xn, yn, i, j);
  }

  /** The formats f print, for every step whose line numbers are within xn
      and yn, a symbol xl + yl + 3 characters wide whose x and y number fields
      show those line numbers. */
  ghost predicate Aligned(f: Formats, xn: nat, yn: nat, xl: nat, yl: nat)
    requires Arity(f)
  {
    forall step: Edit, i: nat, j: nat {:trigger Symbol(step, f, i, j)} ::
      (step.Add? || i <= xn) && (step.Del? || j <= yn) ==>
        var t := Group(step, Symbol(step, f, i, j))[0];
        |t.literal| == xl + yl + 3
        && NumberOf(t, XColumn, xl, yl) == (if step.Add? then [] else [i])
        && NumberOf(t, YColumn, xl, yl) == (if step.Del? then [] else [j])
  }

  /** The formats numFormat builds for xn and yn lines are aligned, with
      number fields as wide as the digit counts of xn and yn. */
  lemma NumFormatAligned(xn: nat, yn: nat)
    ensures Aligned(NumFormat(xn, yn), xn, yn, DigitWidth(xn), DigitWidth(yn))
  {
    forall step: Edit, i: nat, j: nat | (step.Add? || i <= xn) && (step.Del? || j <= yn)
      ensures var t := Group(step, Symbol(step, NumFormat(xn, yn), i, j))[0];
        |t.literal| == DigitWidth(xn) + DigitWidth(yn) + 3
        && NumberOf(t, XColumn, DigitWidth(xn), DigitWidth(yn)) == (if step.Add? then [] else [i])
        && NumberOf(t, YColumn, DigitWidth(xn), DigitWidth(yn)) == (if step.Del? then [] else [j])
    {
      SymbolGutter(step, xn, yn, i, j);
    }
  }

  /** A stream rendered from a script shows the script's x side, its y side
      and its matched elements (each followed by a newline), in order. */
  lemma {:induction false} RenderTextSides(e: seq<Edit>, f: Formats)
    requires Arity(f)
    ensures Texts(RenderText(e, f), XLines) == Source(e)
    ensures Texts(RenderText(e, f), YLines) == Target(e)
    ensures Texts(RenderText(e, f), MatchedLines) == WithNewlines(Common(e))
    decreases |e|
  {
    if e != [] {
      var front := e[..|e| - 1];
      var step := e[|e| - 1];
      assert e == front + [step];
      SplitSides(front, [step]);
      var symbol := Symbol(step, f, |Source(front)| + 1, |Target(front)| + 1);
      var g := Group(step, symbol);
      var r := RenderText(front, f);
      assert RenderText(e, f) == r + g;
      RenderTextSides(front, f);
      GroupSides(step, symbol);
      TextsAppend(r, g, XLines);
      TextsAppend(r, g, YLines);
      TextsAppend(r, g, MatchedLines);
      WithNewlinesAppend(Common(front), Common([step]));
    }
  }

  lemma {:induction false} WithNewlinesAppend(a: seq<string>, b: seq<string>)
    ensures WithNewlines(a + b) == WithNewlines(a) + WithNewlines(b)
    decreases |b|
  {
    if b == [] {
      assert a + b == a;
    } else {
      var b' := b[..|b| - 1];
      assert (a + b)[..|a + b| - 1] == a + b';
      WithNewlinesAppend(a, b');
    }
  }

  /** Rendering one more step appends its group, numbered after the lines
      already shown. */
  lemma RenderAppend(e: seq<Edit>, x: Edit, f: Formats)
    requires Arity(f)
    ensures RenderText(e + [x], f) == RenderText(e, f) + Group(x, Symbol(x, f, |Source(e)| + 1, |Target(e)| + 1))
  {
    assert (e + [x])[..|e + [x]| - 1] == e;
    LastStep(e + [x], f, |Source(e)|, |Target(e)|);
  }

  /** The deletion group for x line i + 1, as TokenizeText spells it out,
      extends the rendering of a script that has shown i x lines and j y
      lines by a deletion of l. */
  lemma DelTokens(ts: seq<Token>, e: seq<Edit>, f: Formats, l: string, i: nat, j: nat)
    requires Arity(f) && ts == RenderText(e, f) && |Source(e)| == i && |Target(e)| == j
    ensures ts + [Token(DelSymbol, Sprintf(f.xNum, [i + 1]) + "-"), Token(Space, " "), Token(DelLine, l), Token(Newline, "\n")]
      == RenderText(e + [Del(l)], f)
  {
    RenderAppend(e, Del(l), f);
  }

  /** Likewise for the addition group of y line j + 1. */
  lemma AddTokens(ts: seq<Token>, e: seq<Edit>, f: Formats, l: string, i: nat, j: nat)
    requires Arity(f) && ts == RenderText(e, f) && |Source(e)| == i && |Target(e)| == j
    ensures ts + [Token(AddSymbol, Sprintf(f.yNum, [j + 1]) + "+"), Token(Space, " "), Token(AddLine, l), Token(Newline, "\n")]
      == RenderText(e + [Add(l)], f)
  {
    RenderAppend(e, Add(l), f);
  }

  /** Likewise for the match group of x line i + 1 and y line j + 1. */
  lemma SameTokens(ts: seq<Token>, e: seq<Edit>, f: Formats, l: string, i: nat, j: nat)
    requires Arity(f) && ts == RenderText(e, f) && |Source(e)| == i && |Target(e)| == j
    ensures ts + [Token(SameSymbol, Sprintf(f.sNum, [i + 1, j + 1]) + " "), Token(Space, " "), Token(SameLine, l + "\n")]
      == RenderText(e + [Same(l)], f)
  {
    RenderAppend(e, Same(l), f);
  }

  /** Rendering one more step appends its word tokens to each stream. */
  lemma WordsAppend(e: seq<Edit>, x: Edit)
    ensures RenderXWords(e + [x]) == RenderXWords(e) + XWord(x)
    ensures RenderYWords(e + [x]) == RenderYWords(e) + YWord(x)
  {
    assert (e + [x])[..|e + [x]| - 1] == e;
  }

  /** A deleted word extends the x stream only. */
  lemma DelWord(e: seq<Edit>, w: string)
    ensures RenderXWords(e + [Del(w)]) == RenderXWords(e) + [Token(DelWords, w)]
    ensures RenderYWords(e + [Del(w)]) == RenderYWords(e)
  {
    WordsAppend(e, Del(w));
  }

  /** An added word extends the y stream only. */
  lemma AddWord(e: seq<Edit>, w: string)
    ensures RenderXWords(e + [Add(w)]) == RenderXWords(e)
    ensures RenderYWords(e + [Add(w)]) == RenderYWords(e) + [Token(AddWords, w)]
  {
    WordsAppend(e, Add(w));
  }

  /** A matched word extends both streams. */
  lemma SameWord(e: seq<Edit>, w: string)
    ensures RenderXWords(e + [Same(w)]) == RenderXWords(e) + [Token(SameWords, w)]
    ensures RenderYWords(e + [Same(w)]) == RenderYWords(e) + [Token(SameWords, w)]
  {
    WordsAppend(e, Same(w));
  }

  /** The last step of a script, and the line numbers it is shown with: n
      and m count the x and y lines before it. */
  lemma LastStep(e: seq<Edit>, f: Formats, n: nat, m: nat)
    requires Arity(f) && e != []
    requires n == |Source(e[..|e| - 1])| && m == |Target(e[..|e| - 1])|
    ensures var step := e[|e| - 1];
      |Source(e)| == (if step.Add? then n else n + 1) &&
      |Target(e)| == (if step.Del? then m else m + 1) &&
      RenderText(e, f) == RenderText(e[..|e| - 1], f) + Group(step, Symbol(step, f, n + 1, m + 1))
  {
    LastSides(e, n, m);
  }

  /** Appending a group whose symbol shows x line n + 1 (or nothing, for an
      addition) continues the x numbering 1, ..., n. */
  lemma XNumbersStep(r: seq<Token>, step: Edit, symbol: string, xl: nat, yl: nat, n: nat)
    requires Numbers(r, XColumn, xl, yl) == Ordinals(n)
    requires NumberOf(Group(step, symbol)[0], XColumn, xl, yl) == (if step.Add? then [] else [n + 1])
    ensures Numbers(r + Group(step, symbol), XColumn, xl, yl) == Ordinals(if step.Add? then n else n + 1)
  {
    NumbersStep(r, step, symbol, XColumn, xl, yl);
    if !step.Add? {
      assert Ordinals(n + 1) == Ordinals(n) + [n + 1];
    }
  }

  /** Appending a group whose symbol shows y line m + 1 (or nothing, for a
      deletion) continues the y numbering 1, ..., m. */
  lemma YNumbersStep(r: seq<Token>, step: Edit, symbol: string, xl: nat, yl: nat, m: nat)
    requires Numbers(r, YColumn, xl, yl) == Ordinals(m)
    requires NumberOf(Group(step, symbol)[0], YColumn, xl, yl) == (if step.Del? then [] else [m + 1])
    ensures Numbers(r + Group(step, symbol), YColumn, xl, yl) == Ordinals(if step.Del? then m else m + 1)
  {
    NumbersStep(r, step, symbol, YColumn, xl, yl);
    if !step.Del? {
      assert Ordinals(m + 1) == Ordinals(m) + [m + 1];
    }
  }

  /** Appending a group whose symbol is w characters wide keeps every symbol
      w characters wide. */
  lemma WidthStep(r: seq<Token>, step: Edit, symbol: string, w: nat)
    requires GutterWidth(r, w) && |symbol| == w
    ensures GutterWidth(r + Group(step, symbol), w)
  {
    var g := Group(step, symbol);
    forall p | 0 <= p < |r + g| && IsSymbol((r + g)[p].typ)
      ensures |(r + g)[p].literal| == w
    {
      if p >= |r| {
        assert (r + g)[p] == g[p - |r|];
      }
    }
  }

  /** Dropping the last step leaves no more lines on either side. */
  lemma Shrink(e: seq<Edit>)
    requires e != []
    ensures |Source(e[..|e| - 1])| <= |Source(e)| && |Target(e[..|e| - 1])| <= |Target(e)|
  {
    var front, step := e[..|e| - 1], e[|e| - 1];
    assert e == front + [step];
    SourceAppend(front, [step]);
    TargetAppend(front, [step]);
  }

  lemma XRenderStep(e: seq<Edit>, f: Formats, xn: nat, yn: nat, xl: nat, yl: nat)
    requires Arity(f) && Aligned(f, xn, yn, xl, yl)
    requires e != [] && |Source(e)| <= xn && |Target(e)| <= yn
    requires Numbers(RenderText(e[..|e| - 1], f), XColumn, xl, yl) == Ordinals(|Source(e[..|e| - 1])|)
    ensures Numbers(RenderText(e, f), XColumn, xl, yl) == Ordinals(|Source(e)|)
  {
    var front, step := e[..|e| - 1], e[|e| - 1];
    var n, m := |Source(front)|, |Target(front)|;
    LastStep(e, f, n, m);
    var symbol := Symbol(step, f, n + 1, m + 1);
    XNumbersStep(RenderText(front, f), step, symbol, xl, yl, n);
  }

  lemma YRenderStep(e: seq<Edit>, f: Formats, xn: nat, yn: nat, xl: nat, yl: nat)
    requires Arity(f) && Aligned(f, xn, yn, xl, yl)
    requires e != [] && |Source(e)| <= xn && |Target(e)| <= yn
    requires Numbers(RenderText(e[..|e| - 1], f), YColumn, xl, yl) == Ordinals(|Target(e[..|e| - 1])|)
    ensures Numbers(RenderText(e, f), YColumn, xl, yl) == Ordinals(|Target(e)|)
  {
    var front, step := e[..|e| - 1], e[|e| - 1];
    var n, m := |Source(front)|, |Target(front)|;
    LastStep(e, f, n, m);
    var symbol := Symbol(step, f, n + 1, m + 1);
    YNumbersStep(RenderText(front, f), step, symbol, xl, yl, m);
  }

  lemma WidthRenderStep(e: seq<Edit>, f: Formats, xn: nat, yn: nat, xl: nat, yl: nat)
    requires Arity(f) && Aligned(f, xn, yn, xl, yl)
    requires e != [] && |Source(e)| <= xn && |Target(e)| <= yn
    requires GutterWidth(RenderText(e[..|e| - 1], f), xl + yl + 3)
    ensures GutterWidth(RenderText(e, f), xl + yl + 3)
  {
    var front, step := e[..|e| - 1], e[|e| - 1];
    var n, m := |Source(front)|, |Target(front)|;
    LastStep(e, f, n, m);
    var symbol := Symbol(step, f, n + 1, m + 1);
    WidthStep(RenderText(front, f), step, symbol, xl + yl + 3);
  }

  /** Reading the x column of the deletion and match symbols of a stream
      rendered with aligned formats gives 1, 2, ... up to the number of x
      lines shown. */
  lemma {:induction false} XNumbersAligned(e: seq<Edit>, f: Formats, xn: nat, yn: nat, xl: nat, yl: nat)
    requires Arity(f) && Aligned(f, xn, yn, xl, yl)
    requires |Source(e)| <= xn && |Target(e)| <= yn
    ensures Numbers(RenderText(e, f), XColumn, xl, yl) == Ordinals(|Source(e)|)
    decreases |e|
  {
    if e != [] {
      Shrink(e);
      XNumbersAligned(e[..|e| - 1], f, xn, yn, xl, yl);
      XRenderStep(e, f, xn, yn, xl, yl);
    }
  }

  /** Likewise for the y column of the addition and match symbols. */
  lemma {:induction false} YNumbersAligned(e: seq<Edit>, f: Formats, xn: nat, yn: nat, xl: nat, yl: nat)
    requires Arity(f) && Aligned(f, xn, yn, xl, yl)
    requires |Source(e)| <= xn && |Target(e)| <= yn
    ensures Numbers(RenderText(e, f), YColumn, xl, yl) == Ordinals(|Target(e)|)
    decreases |e|
  {
    if e != [] {
      Shrink(e);
      YNumbersAligned(e[..|e| - 1], f, xn, yn, xl, yl);
      YRenderStep(e, f, xn, yn, xl, yl);
    }
  }

  /** Every symbol of a stream rendered with aligned formats is
      xl + yl + 3 characters wide. */
  lemma {:induction false} WidthAligned(e: seq<Edit>, f: Formats, xn: nat, yn: nat, xl: nat, yl: nat)
    requires Arity(f) && Aligned(f, xn, yn, xl, yl)
    requires |Source(e)| <= xn && |Target(e)| <= yn
    ensures GutterWidth(RenderText(e, f), xl + yl + 3)
    decreases |e|
  {
    if e != [] {
      Shrink(e);
      WidthAligned(e[..|e| - 1], f, xn, yn, xl, yl);
      WidthRenderStep(e, f, xn, yn, xl, yl);
    }
  }

  /** The gutter of a stream rendered with numFormat's formats for xn and yn
      lines: reading the x column gives 1, 2, ... up to the number of x
      lines shown, the y column likewise, and every symbol is as wide as the
      two digit counts plus three. */
  lemma RenderTextGutter(e: seq<Edit>, xn: nat, yn: nat)
    requires |Source(e)| <= xn && |Target(e)| <= yn
    ensures var f, xl, yl := NumFormat(xn, yn), DigitWidth(xn), DigitWidth(yn);
      Numbers(RenderText(e, f), XColumn, xl, yl) == Ordinals(|Source(e)|)
      && Numbers(RenderText(e, f), YColumn, xl, yl) == Ordinals(|Target(e)|)
      && GutterWidth(RenderText(e, f), xl + yl + 3)
  {
    var f, xl, yl := NumFormat(xn, yn), DigitWidth(xn), DigitWidth(yn);
    NumFormatAligned(xn, yn);
    XNumbersAligned(e, f, xn, yn, xl, yl);
    YNumbersAligned(e, f, xn, yn, xl, yl);
    WidthAligned(e, f, xn, yn, xl, yl);
  }

  /** A group reads back as its step. */
  lemma ParseGroupOf(step: Edit, f: Formats, i: nat, j: nat)
    requires Arity(f)
    ensures ParseGroup(Group(step, Symbol(step, f, i, j))) == Some(step)
  {
    var symbol := Symbol(step, f, i, j);
    assert symbol != [] && Last(symbol) == (match step case Del(_) => '-' case Add(_) => '+' case Same(_) => ' ');
    if step.Same? {
      assert DropNewline(step.text + "\n") == step.text;
    }
  }

  /** Appending a complete group to a stream that reads back appends its
      step. */
  lemma ParseAppend(r: seq<Token>, g: seq<Token>, e: seq<Edit>)
    requires e != [] && ParseText(r) == Some(e[..|e| - 1]) && ParseGroup(g) == Some(e[|e| - 1])
    requires (|g| == 4 && g[3].typ == Newline) || (|g| == 3 && g[2].typ != Newline)
    ensures ParseText(r + g) == Some(e)
  {
    var ts := r + g;
    assert ts[|ts| - 1] == g[|g| - 1];
    assert ts[..|ts| - |g|] == r && ts[|ts| - |g|..] == g;
    assert e[..|e| - 1] + [e[|e| - 1]] == e;
  }

  lemma ParseStep(e: seq<Edit>, f: Formats)
    requires Arity(f) && e != [] && ParseText(RenderText(e[..|e| - 1], f)) == Some(e[..|e| - 1])
    ensures ParseText(RenderText(e, f)) == Some(e)
  {
    var front, step := e[..|e| - 1], e[|e| - 1];
    var n, m := |Source(front)|, |Target(front)|;
    var r, g := RenderText(front, f), Group(step, Symbol(step, f, n + 1, m + 1));
    assert ParseText(r + g) == Some(e) by {
      ParseGroupOf(step, f, n + 1, m + 1);
      ParseAppend(r, g, e);
    }
    assert RenderText(e, f) == r + g by {
      LastStep(e, f, n, m);
    }
  }

  /** Reading back a rendered stream gives the script: the stream is a
      concatenation of complete groups, one per step. */
  lemma {:induction false} ParseRenderText(e: seq<Edit>, f: Formats)
    requires Arity(f)
    ensures ParseText(RenderText(e, f)) == Some(e)
    decreases |e|
  {
    if e != [] {
      ParseRenderText(e[..|e| - 1], f);
      ParseStep(e, f);
    }
  }

  /** What one step's word token shows. */
  lemma WordSides(step: Edit)
    ensures Texts(XWord(step), AllLiterals) == Source([step])
    ensures Texts(XWord(step), MatchedWords) == Common([step])
    ensures Texts(YWord(step), AllLiterals) == Target([step])
    ensures Texts(YWord(step), MatchedWords) == Common([step])
  {
    assert [step][..0] == [];
    var x, y := XWord(step), YWord(step);
    if x != [] {
      assert x[..0] == [];
    }
    if y != [] {
      assert y[..0] == [];
    }
  }

  /** The x stream of a word diff holds only DelWords and SameWords tokens. */
  lemma {:induction false} XWordsTypes(e: seq<Edit>)
    ensures forall p :: 0 <= p < |RenderXWords(e)| ==> RenderXWords(e)[p].typ in {DelWords, SameWords}
    decreases |e|
  {
    if e != [] {
      XWordsTypes(e[..|e| - 1]);
      var r: seq<Token>, g: seq<Token> := RenderXWords(e[..|e| - 1]), XWord(e[|e| - 1]);
      forall p | 0 <= p < |r + g|
        ensures (r + g)[p].typ in {DelWords, SameWords}
      {
        if p >= |r| {
          assert (r + g)[p] == g[p - |r|];
        }
      }
    }
  }

  /** The y stream of a word diff holds only AddWords and SameWords tokens. */
  lemma {:induction false} YWordsTypes(e: seq<Edit>)
    ensures forall p :: 0 <= p < |RenderYWords(e)| ==> RenderYWords(e)[p].typ in {AddWords, SameWords}
    decreases |e|
  {
    if e != [] {
      YWordsTypes(e[..|e| - 1]);
      var r: seq<Token>, g: seq<Token> := RenderYWords(e[..|e| - 1]), YWord(e[|e| - 1]);
      forall p | 0 <= p < |r + g|
        ensures (r + g)[p].typ in {AddWords, SameWords}
      {
        if p >= |r| {
          assert (r + g)[p] == g[p - |r|];
        }
      }
    }
  }

  /** The literals of the x stream of a word diff are the x side, and its
      SameWords literals the matched words. */
  lemma {:induction false} XWordsSides(e: seq<Edit>)
    ensures Texts(RenderXWords(e), AllLiterals) == Source(e)
    ensures Texts(RenderXWords(e), MatchedWords) == Common(e)
    decreases |e|
  {
    if e != [] {
      var front, step := e[..|e| - 1], e[|e| - 1];
      assert e == front + [step];
      SourceAppend(front, [step]);
      CommonAppend(front, [step]);
      XWordsSides(front);
      WordSides(step);
      TextsAppend(RenderXWords(front), XWord(step), AllLiterals);
      TextsAppend(RenderXWords(front), XWord(step), MatchedWords);
    }
  }

  /** The literals of the y stream of a word diff are the y side, and its
      SameWords literals the matched words. */
  lemma {:induction false} YWordsSides(e: seq<Edit>)
    ensures Texts(RenderYWords(e), AllLiterals) == Target(e)
    ensures Texts(RenderYWords(e), MatchedWords) == Common(e)
    decreases |e|
  {
    if e != [] {
      var front, step := e[..|e| - 1], e[|e| - 1];
      assert e == front + [step];
      TargetAppend(front, [step]);
      CommonAppend(front, [step]);
      YWordsSides(front);
      WordSides(step);
      TextsAppend(RenderYWords(front), YWord(step), AllLiterals);
      TextsAppend(RenderYWords(front), YWord(step), MatchedWords);
    }
  }
}
