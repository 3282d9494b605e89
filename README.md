# Diff tokenizer of `got`, in Dafny

This project models the diff tokenizer of the Go library `got`
(`lib/diff/token.go`) and proves what its token streams mean.

The tokenizer turns two inputs and their longest common subsequence into
typed, printable tokens:

- `TokenizeText` works on two blocks of lines. For every step (a deleted
  line, an added line, or a matched pair of lines) it emits one fixed-shape
  group:
  - a deletion: `DelSymbol`, `Space`, `DelLine`, `Newline`;
  - an addition: `AddSymbol`, `Space`, `AddLine`, `Newline`;
  - a match: `SameSymbol`, `Space`, `SameLine`.

  The symbol token carries a gutter of zero-padded, 1-based line numbers.
  `numFormat` builds the gutter's formats from the digit counts of the two
  line counts.
- `TokenizeLine` does the same walk over two sequences of words. It emits
  `DelWords`/`SameWords` tokens on the x stream and `AddWords`/`SameWords`
  tokens on the y stream.

Modules:

- `Decimal` covers what `%d` and `%0<w>d` print, and reading a digit string
  back.
- `Gutter` covers the three formats `numFormat` returns, and the effect of
  `fmt.Sprintf` on them.
- `Subsequence` covers common subsequences: all the walk needs to know about
  the LCS it is given.
- `EditScript` covers the walk's classification of every element as
  deleted, added or kept.
  - `IsWalk` is a definition independent of any loop. It says which script
    the walk must produce: sides `xs` and `ys`, common elements `s`, the
    deletion-first tie-break, and greedy matching.
  - The script is proved unique (`WalkUnique`).
  - The per-step lemmas keep the loop invariant `WalkState`.
- `Tokens` covers the token kinds and the rendering of a script as a text
  stream (`RenderText`) or as two word streams
  (`RenderXWords`/`RenderYWords`). It also covers what a reader recovers
  from a stream:
  - the two sides and the matched lines (`Texts`);
  - the gutter's line numbers (`Numbers`);
  - the gutter width (`GutterWidth`);
  - the script itself (`ParseText`).
- `Tokenize` holds the two tokenizers as methods with the source's loop. The
  loop has the source's three indices and branches, and appends tokens
  step by step.

In the Go code the longest common subsequence comes from `LCS`, which is not
part of this model. The tokenizers take the split sides `xs` and `ys` and any
common subsequence `s` of them (`requires IsSubsequence(s, xs) &&
IsSubsequence(s, ys)`). Every property below holds for any such `s`, longest
or not.

The loop's termination measure is `(len(xs) - i) + (len(ys) - j)`. Every
step lowers it by one or two. `len(xs) + len(ys) - k` would not work,
because it stays the same on a deletion or an addition.

## Model

| member | source | states |
|---|---|---|
| Tokenize.TokenizeText | lib/diff/token.go:56-91 | The stream reads back (`ParseText`) as the unique walk script for xs, ys and s. It is exactly that script rendered with `numFormat(len(xs), len(ys))`. The x view (DelLine and SameLine without its newline) is xs, the y view is ys, and the SameLine literals are s, each with a newline. The x and y gutter numbers read 1..len(xs) and 1..len(ys) in order. Every symbol is xl+yl+3 wide. Empty inputs give an empty stream. |
| Tokenize.TokenizeLine | lib/diff/token.go:94-118 | Both streams are renderings of a walk script for xs, ys and s. The x stream holds only DelWords/SameWords and the y stream only AddWords/SameWords. The literals of each stream are xs and ys. The SameWords literals of each stream are s. Empty inputs give empty streams. |
| EditScript.DeletionDue | lib/diff/token.go:67 | Defines the deletion condition: an x element is left at i, and either s is used up or xs[i] differs from s[k]. The same test guards the word loop at line 104. |
| EditScript.AdditionDue | lib/diff/token.go:74 | Defines the addition condition: a y element is left at j, and either s is used up or ys[j] differs from s[k]. The loop tests it only when no deletion is due, which is the deletion-first tie-break. The same test guards the word loop at line 107. |
| EditScript.WalkStart | lib/diff/token.go:66 | When s is a common subsequence, the walk starts at i = j = k = 0 with the invariant holding. |
| EditScript.StepDel | lib/diff/token.go:67-73 | When `i < len(xs)` and (k is at the end of s or xs[i] != s[k]), deleting xs[i] and advancing i keeps the invariant. |
| EditScript.StepAdd | lib/diff/token.go:74-80 | When no deletion is due and an addition is, adding ys[j] and advancing j keeps the invariant. |
| EditScript.StepSame | lib/diff/token.go:81-86 | When neither is due and the loop runs, i, j and k are all in range and xs[i] == ys[j] == s[k]. The match step keeps the invariant, so the else branch never indexes out of range. |
| EditScript.WalkDone | lib/diff/token.go:66 | When the loop exits (i = len(xs), j = len(ys)), k = len(s) and the script built is a walk for xs, ys and s. |
| EditScript.WalkHead | lib/diff/token.go:67-86 | The first step of any walk is decided exactly as the loop decides it: a deletion when one is due, otherwise an addition when one is due, otherwise a match with s[0]. |
| EditScript.WalkUnique | lib/diff/token.go:66-88 | xs, ys and s determine the walk script: two walks for the same inputs are equal. |
| EditScript.FirstAfterAdditions | lib/diff/token.go:67-80 | Under the deletion-first tie-break, a run of additions with x lines still to come ends in a match, never in a deletion. The first x line is then the first common element. |
| EditScript.CommonIsSubsequence | lib/diff/token.go:81-86 | The matched elements of any script are a common subsequence of its two sides. |
| EditScript.IdenticalInputs | lib/diff/token.go:66-88 | Diffing a sequence against itself, with itself as s, keeps every element: no deletion and no addition. |
| EditScript.TieBreakExample | lib/diff/token.go:67-80 | Lines a,b against a,c with s = a give a match of a, then the deletion of b, then the addition of c. |
| Subsequence.MatchFirst | lib/diff/token.go:81-86 | Greedy matching is safe: matching s's first element with an equal first element of x leaves a common subsequence of the rests. |
| Subsequence.SubsequenceLength | lib/diff/token.go:66 | A subsequence is no longer than the sequence, so s runs out no later than either side. |
| Decimal.Digits | lib/diff/token.go:121-122 | `%d` prints at least one digit, only digits, and a leading zero only for 0. |
| Decimal.ValueOfDigits | lib/diff/token.go:121-122 | Reading back what `%d` prints gives the number. |
| Decimal.Repeat | lib/diff/token.go:124-125 | Defines `strings.Repeat` of a one-character string: k copies of c. |
| Decimal.ZeroPad | lib/diff/token.go:124-126 | Defines what a `%0<w>d` verb prints: the digits of n, left-padded with zeros to w characters, never cut when n needs more. |
| Decimal.ZeroPadIsFaithful | lib/diff/token.go:124-126 | When n has at most w digits, `%0<w>d` prints exactly w digits, and they denote n. |
| Decimal.DigitWidth | lib/diff/token.go:121-122 | Defines the number of characters `%d` prints for n, the gutter field width `numFormat` takes from a line count. |
| Decimal.DigitWidthBounds | lib/diff/token.go:121-122 | The digit count k of n is the least k >= 1 with n < 10^k: n < 10^k, and 10^(k-1) <= n unless k = 1. |
| Decimal.DigitWidthMonotone | lib/diff/token.go:121-122 | A line number up to a count has no more digits than the count, so it fits the width computed from the count. |
| Gutter.NumFormat | lib/diff/token.go:120-127 | The three formats take one, one and two numbers, as the calls at lines 69, 76 and 83 pass them. |
| Gutter.Sprintf | lib/diff/token.go:69-83 | Defines `fmt.Sprintf` on the formats `numFormat` builds: literal text is copied, and each `%0<w>d` verb prints the next argument through ZeroPad. It takes exactly as many arguments as the format has verbs. |
| Gutter.SprintfWidth | lib/diff/token.go:124-126 | When every argument fits its verb's width, Sprintf prints exactly the format's nominal width. |
| Gutter.DelGutter | lib/diff/token.go:124 | The deletion gutter of x line i (i up to the x count) is xl+yl+2 wide. It shows i in its first xl characters, all digits, followed only by blanks. |
| Gutter.AddGutter | lib/diff/token.go:125 | The addition gutter of y line j is xl+yl+2 wide. It has xl+1 blanks, then j in yl digits, then a blank. |
| Gutter.SameGutter | lib/diff/token.go:126 | The match gutter of lines i and j is xl+yl+2 wide. It holds i in xl digits, a blank, j in yl digits, and a blank. |
| Gutter.GutterAligned | lib/diff/token.go:120-127 | For in-range line numbers, the three formats print strings of the same width, xl+yl+2, which equals each format's nominal width. |
| Tokens.Symbol | lib/diff/token.go:67-86 | Defines a step's symbol literal: the deletion format applied to i then `-`, the addition format applied to j then `+`, or the match format applied to i and j then a blank. |
| Tokens.Group | lib/diff/token.go:68-85 | Defines a step's token group: DelSymbol, Space, DelLine, Newline for a deletion; AddSymbol, Space, AddLine, Newline for an addition; SameSymbol, Space, and the line plus a newline as SameLine for a match. |
| Tokens.RenderText | lib/diff/token.go:66-88 | Defines the text stream of a script: the groups of its steps in order, each symbol numbered with the 1-based x and y line after those already consumed. |
| Tokens.XWord | lib/diff/token.go:104-113 | Defines the x-stream tokens of one word step: a DelWords token for a deleted word, a SameWords token for a matched one, none for an added one. |
| Tokens.YWord | lib/diff/token.go:107-113 | Defines the y-stream tokens of one word step: an AddWords token for an added word, a SameWords token for a matched one, none for a deleted one. |
| Tokens.RenderXWords | lib/diff/token.go:103-115 | Defines the x word stream of a script: a DelWords token per deleted word and a SameWords token per matched word, in order. |
| Tokens.RenderYWords | lib/diff/token.go:103-115 | Defines the y word stream of a script: an AddWords token per added word and a SameWords token per matched word, in order. |
| Tokens.DelSymbolShows | lib/diff/token.go:69 | The DelSymbol literal of x line i is xl+yl+3 wide. Its x field reads i, and everything after the x field up to the `-` marker is blank, the y column included. |
| Tokens.AddSymbolShows | lib/diff/token.go:76 | The AddSymbol literal of y line j is xl+yl+3 wide. Its y field reads j, and its first xl+1 characters, the x column and the blank after it, are blank. |
| Tokens.SameSymbolShows | lib/diff/token.go:83 | The SameSymbol literal of lines i and j is xl+yl+3 wide. Its fields read i and j. |
| Tokens.SymbolGutter | lib/diff/token.go:67-86 | For any step, the symbol is a symbol kind, xl+yl+3 wide, and shows exactly the line numbers the step consumes. |
| Tokens.NumFormatAligned | lib/diff/token.go:64 | The formats `numFormat(len(xs), len(ys))` are aligned: every in-range symbol is xl+yl+3 wide and shows its line numbers. |
| Tokens.DelGroupShows | lib/diff/token.go:68-72 | A deletion group shows its line on the x side only, and nothing as a matched line. |
| Tokens.AddGroupShows | lib/diff/token.go:75-79 | An addition group shows its line on the y side only. |
| Tokens.SameGroupShows | lib/diff/token.go:82-85 | A match group shows its line on both sides, and as a matched line with its newline. |
| Tokens.GroupSides | lib/diff/token.go:67-86 | Each step's group shows exactly that step's x side, y side and matched element. |
| Tokens.DelTokens | lib/diff/token.go:68-72 | The four tokens appended on a deletion extend the stream by the rendering of that deletion, numbered i+1. |
| Tokens.AddTokens | lib/diff/token.go:75-79 | The four tokens appended on an addition extend the stream by the rendering of that addition, numbered j+1. |
| Tokens.SameTokens | lib/diff/token.go:82-85 | The three tokens appended on a match extend the stream by the rendering of that match, numbered i+1 and j+1. |
| Tokens.RenderTextSides | lib/diff/token.go:66-88 | A rendered stream's x view is the script's x side and its y view is the y side. Its SameLine literals are the matched elements, each with a newline, in order. |
| Tokens.XNumbersAligned | lib/diff/token.go:66-88 | With aligned formats, the x numbers of a rendered stream read 1, 2, ... up to the number of x lines. |
| Tokens.YNumbersAligned | lib/diff/token.go:66-88 | With aligned formats, the y numbers read 1, 2, ... up to the number of y lines. |
| Tokens.WidthAligned | lib/diff/token.go:67-86 | With aligned formats, every symbol of a rendered stream is xl+yl+3 wide. |
| Tokens.RenderTextGutter | lib/diff/token.go:64-88 | Rendered with numFormat's formats, the gutter numbers each side 1..n in order, and every symbol has the same width. |
| Tokens.ParseGroupOf | lib/diff/token.go:68-86 | Each step's group is a well-formed group and reads back as that step. |
| Tokens.ParseRenderText | lib/diff/token.go:66-88 | A rendered stream is a concatenation of complete groups and reads back as its script. |
| Tokens.DelWord | lib/diff/token.go:105 | A deleted word appends one DelWords token to the x stream and nothing to the y stream. |
| Tokens.AddWord | lib/diff/token.go:108 | An added word appends one AddWords token to the y stream and nothing to the x stream. |
| Tokens.SameWord | lib/diff/token.go:111-112 | A matched word appends one SameWords token to each stream. |
| Tokens.WordSides | lib/diff/token.go:104-113 | Each step's word tokens show exactly that step's x side, y side and matched element. |
| Tokens.XWordsTypes | lib/diff/token.go:103-115 | The x word stream holds only DelWords and SameWords tokens. |
| Tokens.YWordsTypes | lib/diff/token.go:103-115 | The y word stream holds only AddWords and SameWords tokens. |
| Tokens.XWordsSides | lib/diff/token.go:103-115 | The x word stream's literals are the script's x side, and its SameWords literals are the matched words. |
| Tokens.YWordsSides | lib/diff/token.go:103-115 | The y word stream's literals are the script's y side, and its SameWords literals are the matched words. |

## Left out

- `LCS`, `NewText`, `NewString`, `neq` and `Comparable` are not part of this model:
  - the common subsequence is an input with a precondition;
  - lines and words are strings, compared with string equality;
  - the split of the raw inputs into lines or words is not modelled.
- The `context.Context` argument is dropped. Cancellation is runtime plumbing, and the tokenizers only pass it to `LCS`.
- Only the effect of `fmt.Sprintf` is modelled:
  - `numFormat` builds its format strings with `fmt.Sprintf` and `strings.Repeat`. The model gives the resulting formats directly, as literal text and `%0<w>d` verbs.
  - Applying a format is modelled only for those two kinds of piece. The rest of the printf mini-language is not.
- Tokens are values; Go's `*Token` pointers and aliasing are not modelled.
- `ChunkStart`, `ChunkEnd` and `EmptyLine` exist only as token kinds, since nothing in `lib/diff/token.go` emits them.
- Go's fixed-width `int` is not modelled. Line numbers and counts are unbounded naturals, and no realistic input overflows them.
- `lib/utils/utils.go` is not part of this model: it relies on reflection, floating point, time and an external pretty-printer.
- `lib/utils/check-cov/main.go` is not part of this model: it is a coverage-scraping tool built from process execution and regexes.
- `example_simple_test.go` is not part of this model; it is a usage example without logic.
- Tokenize.TokenizeLine: the script is given by an existential. The word streams alone do not delimit steps, so there is no reader that recovers the script. The script is still unique by `EditScript.WalkUnique`.
