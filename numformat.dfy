/** The line-number gutter of the text diff: `numFormat` builds three printf
    formats from the digit widths of the two line counts, and `TokenizeText`
    applies them to 1-based line numbers. Only the effect of `fmt.Sprintf` on
    the formats built here is modelled: literal text, and `%0<w>d` verbs. */
module Gutter {
  import opened Decimal

  /** A piece of a format string as numFormat builds it: literal text, or a
      `%0<width>d` verb. */
  datatype Piece = Text(text: string) | Padded(width: nat)

  /** The number of verbs in a format, i.e. of arguments it consumes. */
  function Verbs(f: seq<Piece>): nat {
    if f == [] then 0 else (if f[0].Padded? then 1 else 0) + Verbs(f[1..])
  }

  /** `fmt.Sprintf(f, args...)`: literal text is copied, each verb prints the
      next argument zero-padded to its width. */
  function Sprintf(f: seq<Piece>, args: seq<nat>): string
    requires |args| == Verbs(f)
    decreases |f|
  {
    if f == [] then ""
    else match f[0]
      case Text(t) => t + Sprintf(f[1..], args)
      case Padded(w) => ZeroPad(args[0], w) + Sprintf(f[1..], args[1..])
  }

  /** The nominal width of a format: its text plus the widths of its verbs. */
  function Width(f: seq<Piece>): nat {
    if f == [] then 0
    else (match f[0] case Text(t) => |t| case Padded(w) => w) + Width(f[1..])
  }

  /** Every argument has no more digits than its verb's width. */
  predicate Fits(f: seq<Piece>, args: seq<nat>)
    requires |args| == Verbs(f)
    decreases |f|
  {
    f == [] ||
    match f[0]
    case Text(_) => Fits(f[1..], args)
    case Padded(w) => DigitWidth(args[0]) <= w && Fits(f[1..], args[1..])
  }

  /** When the arguments fit, Sprintf prints exactly the nominal width. */
  lemma {:induction false} SprintfWidth(f: seq<Piece>, args: seq<nat>)
    requires |args| == Verbs(f) && Fits(f, args)
    ensures |Sprintf(f, args)| == Width(f)
    decreases |f|
  {
    if f != [] {
      match f[0]
      case Text(t) =>
        SprintfWidth(f[1..], args);
      case Padded(w) =>
        ZeroPadIsFaithful(args[0], w);
        SprintfWidth(f[1..], args[1..]);
    }
  }

  /** The three formats: for deletions (x number, then blank y column), for
      additions (blank x column, then y number) and for matches (both). */
  datatype Formats = Formats(xNum: seq<Piece>, yNum: seq<Piece>, sNum: seq<Piece>)

  /** The deletion and addition formats take one number, the match format
      two. */
  predicate Arity(f: Formats) {
    Verbs(f.xNum) == 1 && Verbs(f.yNum) == 1 && Verbs(f.sNum) == 2
  }

  /** numFormat over sequences of xn and yn elements: xl and yl are the digit
      widths of xn and yn; the deletion format is `%0<xl>d ` followed by
      yl + 1 spaces, the addition format is xl spaces followed by
      ` %0<yl>d `, and the match format is `%0<xl>d %0<yl>d `. Each takes as
      many numbers as the tokenizer passes to it. */
  function NumFormat(xn: nat, yn: nat): (f: Formats)
    ensures Arity(f)
  {
    var xl, yl := DigitWidth(xn), DigitWidth(yn);
    var x1 := [Text(" " + Repeat(' ', yl + 1))];
    var y2 := [Text(" ")];
    var y1 := [Padded(yl)] + y2;
    var s1 := [Text(" ")] + y1;
    assert x1[1..] == [] && y2[1..] == [] && y1[1..] == y2 && s1[1..] == y1;
    assert Verbs(y1) == 1 && Verbs(s1) == 1;
    var f := Formats([Padded(xl)] + x1, [Text(Repeat(' ', xl) + " ")] + y1, [Padded(xl)] + s1);
    assert f.xNum[1..] == x1 && f.yNum[1..] == y1 && f.sNum[1..] == s1;
    f
  }

  /** The deletion format applied to i: i zero-padded to xl digits, then
      yl + 2 blanks. */
  lemma DelGutterShape(xn: nat, yn: nat, i: nat)
    ensures Sprintf(NumFormat(xn, yn).xNum, [i]) == ZeroPad(i, DigitWidth(xn)) + (" " + Repeat(' ', DigitWidth(yn) + 1))
  {
    var x1 := NumFormat(xn, yn).xNum[1..];
    assert x1[1..] == [] && [i][1..] == [];
    assert Sprintf(x1, []) == " " + Repeat(' ', DigitWidth(yn) + 1);
  }

  /** The addition format applied to j: xl + 1 blanks, then j zero-padded to
      yl digits, then a blank. */
  lemma AddGutterShape(xn: nat, yn: nat, j: nat)
    ensures Sprintf(NumFormat(xn, yn).yNum, [j]) == (Repeat(' ', DigitWidth(xn)) + " ") + (ZeroPad(j, DigitWidth(yn)) + " ")
  {
    var y1 := NumFormat(xn, yn).yNum[1..];
    var y2 := y1[1..];
    assert y2[1..] == [] && [j][1..] == [];
    assert Sprintf(y2, []) == " ";
    assert Sprintf(y1, [j]) == ZeroPad(j, DigitWidth(yn)) + " ";
  }

  /** The match format applied to i and j: i zero-padded to xl digits, a
      blank, j zero-padded to yl digits, a blank. */
  lemma SameGutterShape(xn: nat, yn: nat, i: nat, j: nat)
    ensures Sprintf(NumFormat(xn, yn).sNum, [i, j]) == ZeroPad(i, DigitWidth(xn)) + (" " + (ZeroPad(j, DigitWidth(yn)) + " "))
  {
    var s1 := NumFormat(xn, yn).sNum[1..];
    var y1 := s1[1..];
    var y2 := y1[1..];
    assert y2[1..] == [] && [j][1..] == [] && [i, j][1..] == [j];
    assert Sprintf(y2, []) == " ";
    assert Sprintf(y1, [j]) == ZeroPad(j, DigitWidth(yn)) + " ";
    assert Sprintf(s1, [j]) == " " + (ZeroPad(j, DigitWidth(yn)) + " ");
  }

  /** The three fields of a string built as p + (q + r). */
  lemma Fields(p: string, q: string, r: string)
    ensures var a := p + (q + r);
      |a| == |p| + |q| + |r| && a[..|p|] == p && a[|p|..|p| + |q|] == q && a[|p| + |q|..] == r
  {
    var a := p + (q + r);
    assert a[..|p|] == p;
    assert a[|p|..|p| + |q|] == q;
    assert a[|p| + |q|..] == r;
  }

  /** The four fields of a string built as p + (" " + (q + " ")). */
  lemma MatchFields(p: string, q: string)
    ensures var a := p + (" " + (q + " "));
      |a| == |p| + |q| + 2 && a[..|p|] == p && a[|p|] == ' '
      && a[|p| + 1..|p| + 1 + |q|] == q && a[|p| + 1 + |q|] == ' '
  {
    var a := p + (" " + (q + " "));
    assert a[..|p|] == p;
    assert a[|p| + 1..|p| + 1 + |q|] == q;
  }

  /** A blank column of any width followed by a number field and a blank. */
  lemma AddGutterFields(a: string, b: string, z: string, j: nat)
    requires a == b + (z + " ") && b != [] && AllSpaces(b) && AllDigits(z) && Value(z) == j
    ensures |a| == |b| + |z| + 1
    ensures AllSpaces(a[..|b|]) && Value(a[|b|..|b| + |z|]) == j && AllDigits(a[|b|..|b| + |z|]) && a[|b| + |z|] == ' '
  {
    Fields(b, z, " ");
  }

  /** Two number fields, each followed by a blank. */
  lemma MatchGutterFields(m: string, p: string, q: string, i: nat, j: nat)
    requires m == p + (" " + (q + " ")) && AllDigits(p) && Value(p) == i && AllDigits(q) && Value(q) == j
    ensures |m| == |p| + |q| + 2
    ensures Value(m[..|p|]) == i && AllDigits(m[..|p|]) && m[|p|] == ' '
      && Value(m[|p| + 1..|p| + 1 + |q|]) == j && AllDigits(m[|p| + 1..|p| + 1 + |q|]) && m[|p| + 1 + |q|] == ' '
  {
    MatchFields(p, q);
  }

  /** The deletion gutter of x line i: the number zero-padded to xl digits,
      then yl + 2 blanks. */
  lemma DelGutter(xn: nat, yn: nat, i: nat)
    requires i <= xn
    ensures |Sprintf(NumFormat(xn, yn).xNum, [i])| == DigitWidth(xn) + DigitWidth(yn) + 2
    ensures var d, xl := Sprintf(NumFormat(xn, yn).xNum, [i]), DigitWidth(xn);
      Value(d[..xl]) == i && AllDigits(d[..xl]) && AllSpaces(d[xl..])
  {
    var xl, yl := DigitWidth(xn), DigitWidth(yn);
    DigitWidthMonotone(i, xn);
    ZeroPadIsFaithful(i, xl);
    DelGutterShape(xn, yn, i);
    Fields(ZeroPad(i, xl), " ", Repeat(' ', yl + 1));
  }

  /** The addition gutter of y line j: xl + 1 blanks, the number zero-padded
      to yl digits, then one blank. */
  lemma AddGutter(xn: nat, yn: nat, j: nat)
    requires j <= yn
    ensures |Sprintf(NumFormat(xn, yn).yNum, [j])| == DigitWidth(xn) + DigitWidth(yn) + 2
    ensures var a, xl, yl := Sprintf(NumFormat(xn, yn).yNum, [j]), DigitWidth(xn), DigitWidth(yn);
      AllSpaces(a[..xl + 1]) && Value(a[xl + 1..xl + 1 + yl]) == j && AllDigits(a[xl + 1..xl + 1 + yl])
      && a[xl + 1 + yl] == ' '
  {
    var xl, yl := DigitWidth(xn), DigitWidth(yn);
    var a, b, z := Sprintf(NumFormat(xn, yn).yNum, [j]), Repeat(' ', xl) + " ", ZeroPad(j, yl);
    DigitWidthMonotone(j, yn);
    ZeroPadIsFaithful(j, yl);
    AddGutterShape(xn, yn, j);
    AddGutterFields(a, b, z, j);
  }

  /** The match gutter of x line i and y line j: i zero-padded to xl digits,
      a blank, j zero-padded to yl digits, a blank. */
  lemma SameGutter(xn: nat, yn: nat, i: nat, j: nat)
    requires i <= xn && j <= yn
    ensures |Sprintf(NumFormat(xn, yn).sNum, [i, j])| == DigitWidth(xn) + DigitWidth(yn) + 2
    ensures var m, xl, yl := Sprintf(NumFormat(xn, yn).sNum, [i, j]), DigitWidth(xn), DigitWidth(yn);
      Value(m[..xl]) == i && AllDigits(m[..xl]) && m[xl] == ' '
      && Value(m[xl + 1..xl + 1 + yl]) == j && AllDigits(m[xl + 1..xl + 1 + yl]) && m[xl + 1 + yl] == ' '
  {
    var xl, yl := DigitWidth(xn), DigitWidth(yn);
    var m, p, q := Sprintf(NumFormat(xn, yn).sNum, [i, j]), ZeroPad(i, xl), ZeroPad(j, yl);
    assert |p| == xl && AllDigits(p) && Value(p) == i by {
      DigitWidthMonotone(i, xn);
      ZeroPadIsFaithful(i, xl);
    }
    assert |q| == yl && AllDigits(q) && Value(q) == j by {
      DigitWidthMonotone(j, yn);
      ZeroPadIsFaithful(j, yl);
    }
    assert m == p + (" " + (q + " ")) by {
      SameGutterShape(xn, yn, i, j);
    }
    MatchGutterFields(m, p, q, i, j);
  }

  /** The gutter is aligned: applied to line numbers within the two counts,
      the three formats print strings of one width, xl + yl + 2, where xl and
      yl are the digit widths of the counts; this is also the formats'
      nominal width. */
  lemma GutterAligned(xn: nat, yn: nat, i: nat, j: nat)
    requires i <= xn && j <= yn
    ensures |Sprintf(NumFormat(xn, yn).xNum, [i])| == Width(NumFormat(xn, yn).xNum)
    ensures |Sprintf(NumFormat(xn, yn).yNum, [j])| == Width(NumFormat(xn, yn).yNum)
    ensures |Sprintf(NumFormat(xn, yn).sNum, [i, j])| == Width(NumFormat(xn, yn).sNum)
    ensures Width(NumFormat(xn, yn).xNum) == Width(NumFormat(xn, yn).yNum) == Width(NumFormat(xn, yn).sNum)
      == DigitWidth(xn) + DigitWidth(yn) + 2
  {
    var f := NumFormat(xn, yn);
    var xl, yl := DigitWidth(xn), DigitWidth(yn);
    DigitWidthMonotone(i, xn);
    DigitWidthMonotone(j, yn);
    var x1, y1, s1 := f.xNum[1..], f.yNum[1..], f.sNum[1..];
    var y2 := y1[1..];
    assert x1[1..] == [] && y2[1..] == [] && s1[1..] == y1;
    assert [j][1..] == [] && [i, j][1..] == [j];
    assert Fits(y1, [j]) && Fits(s1, [j]) && Fits(x1, []);
    assert Width(x1) == yl + 2 && Width(y2) == 1 && Width(y1) == yl + 1 && Width(s1) == yl + 2;
    SprintfWidth(f.xNum, [i]);
    SprintfWidth(f.yNum, [j]);
    SprintfWidth(f.sNum, [i, j]);
  }
}
