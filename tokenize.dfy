/** The two tokenizers: the merge walk over x, y and their common
    subsequence s, emitting one token group per step (text diff) or one word
    token per stream and step (word diff). Splitting the inputs into lines or
    words and computing s are not part of this model: the walk takes the
    split sides and any common subsequence s of them. */
module Tokenize {
  import opened Wrappers
  import opened Decimal
  import opened Gutter
  import opened Subsequence
  import opened EditScript
  import opened Tokens

  /** TokenizeText over the lines xs and ys with common subsequence s. The
      stream reads back as the walk's edit script and is exactly that
      script's rendering; it shows xs on the x side, ys on the y side and the
      matched lines with their newlines; its gutter numbers each side 1, 2,
      ... in order, and every symbol has the same width. */
  method TokenizeText(xs: seq<string>, ys: seq<string>, s: seq<string>) returns (ts: seq<Token>)
    requires IsSubsequence(s, xs) && IsSubsequence(s, ys)
    ensures ParseText(ts).Some? && IsWalk(ParseText(ts).value, xs, ys, s)
    ensures ts == RenderText(ParseText(ts).value, NumFormat(|xs|, |ys|))
    ensures Texts(ts, XLines) == xs && Texts(ts, YLines) == ys && Texts(ts, MatchedLines) == WithNewlines(s)
    ensures Numbers(ts, XColumn, DigitWidth(|xs|), DigitWidth(|ys|)) == Ordinals(|xs|)
    ensures Numbers(ts, YColumn, DigitWidth(|xs|), DigitWidth(|ys|)) == Ordinals(|ys|)
    ensures GutterWidth(ts, DigitWidth(|xs|) + DigitWidth(|ys|) + 3)
    ensures xs == [] && ys == [] ==> ts == []
  {
    var f := NumFormat(|xs|, |ys|);
    ts := [];
    var i, j, k := 0, 0, 0;
    ghost var e: seq<Edit> := [];
    WalkStart(xs, ys, s);
    while i < |xs| || j < |ys|
      invariant WalkState(e, xs, ys, s, i, j, k)
      invariant ts == RenderText(e, f)
      decreases |xs| - i + |ys| - j
    {
      assert |Source(e)| == i && |Target(e)| == j;
      ghost var ts0 := ts;
      if i < |xs| && (k == |s| || xs[i] != s[k]) {
        ts := ts + [Token(DelSymbol, Sprintf(f.xNum, [i + 1]) + "-"), Token(Space, " "), Token(DelLine, xs[i]), Token(Newline, "\n")];
        StepDel(e, xs, ys, s, i, j, k);
        DelTokens(ts0, e, f, xs[i], i, j);
        e := e + [Del(xs[i])];
        i := i + 1;
      } else if j < |ys| && (k == |s| || ys[j] != s[k]) {
        ts := ts + [Token(AddSymbol, Sprintf(f.yNum, [j + 1]) + "+"), Token(Space, " "), Token(AddLine, ys[j]), Token(Newline, "\n")];
        StepAdd(e, xs, ys, s, i, j, k);
        AddTokens(ts0, e, f, ys[j], i, j);
        e := e + [Add(ys[j])];
        j := j + 1;
      } else {
        StepSame(e, xs, ys, s, i, j, k);
        ts := ts + [Token(SameSymbol, Sprintf(f.sNum, [i + 1, j + 1]) + " "), Token(Space, " "), Token(SameLine, s[k] + "\n")];
        SameTokens(ts0, e, f, s[k], i, j);
        e := e + [Same(s[k])];
        i, j, k := i + 1, j + 1, k + 1;
      }
    }
    WalkDone(e, xs, ys, s, i, j, k);
    ParseRenderText(e, f);
    RenderTextSides(e, f);
    RenderTextGutter(e, |xs|, |ys|);
  }

  /** TokenizeLine over the words xs and ys with common subsequence s. The two
      streams are the renderings of the walk's edit script; the x stream holds
      only DelWords and SameWords tokens and its literals are xs, the y stream
      only AddWords and SameWords tokens and its literals are ys, and the
      SameWords literals of each are s. */
  method TokenizeLine(xs: seq<string>, ys: seq<string>, s: seq<string>) returns (xTokens: seq<Token>, yTokens: seq<Token>)
    requires IsSubsequence(s, xs) && IsSubsequence(s, ys)
    ensures exists e :: IsWalk(e, xs, ys, s) && xTokens == RenderXWords(e) && yTokens == RenderYWords(e)
    ensures forall p :: 0 <= p < |xTokens| ==> xTokens[p].typ in {DelWords, SameWords}
    ensures forall p :: 0 <= p < |yTokens| ==> yTokens[p].typ in {AddWords, SameWords}
    ensures Texts(xTokens, AllLiterals) == xs && Texts(yTokens, AllLiterals) == ys
    ensures Texts(xTokens, MatchedWords) == s && Texts(yTokens, MatchedWords) == s
    ensures xs == [] && ys == [] ==> xTokens == [] && yTokens == []
  {
    xTokens, yTokens := [], [];
    var i, j, k := 0, 0, 0;
    ghost var e: seq<Edit> := [];
    WalkStart(xs, ys, s);
    while i < |xs| || j < |ys|
      invariant WalkState(e, xs, ys, s, i, j, k)
      invariant xTokens == RenderXWords(e) && yTokens == RenderYWords(e)
      decreases |xs| - i + |ys| - j
    {
      if i < |xs| && (k == |s| || xs[i] != s[k]) {
        xTokens := xTokens + [Token(DelWords, xs[i])];
        StepDel(e, xs, ys, s, i, j, k);
        DelWord(e, xs[i]);
        e := e + [Del(xs[i])];
        i := i + 1;
      } else if j < |ys| && (k == |s| || ys[j] != s[k]) {
        yTokens := yTokens + [Token(AddWords, ys[j])];
        StepAdd(e, xs, ys, s, i, j, k);
        AddWord(e, ys[j]);
        e := e + [Add(ys[j])];
        j := j + 1;
      } else {
        StepSame(e, xs, ys, s, i, j, k);
        xTokens := xTokens + [Token(SameWords, s[k])];
        yTokens := yTokens + [Token(SameWords, s[k])];
        SameWord(e, s[k]);
        e := e + [Same(s[k])];
        i, j, k := i + 1, j + 1, k + 1;
      }
    }
    WalkDone(e, xs, ys, s, i, j, k);
    XWordsTypes(e);
    YWordsTypes(e);
    XWordsSides(e);
    YWordsSides(e);
  }
}
