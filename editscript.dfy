/** The classification behind both tokenizers. The merge walk over x, y and
    a common subsequence s of the two labels every element of x and y as
    deleted, added or kept; the labels, in the order the walk visits them,
    form an edit script. This module states, independently of any loop, which
    script the walk must produce (`IsWalk`), proves that there is at most one
    such script for given x, y and s, and gives the per-step lemmas that the
    tokenizers' loops use to build it. */
module EditScript {
  import opened Subsequence

  /** One step of the walk: an element only in x, only in y, or in both
      (matched with the next element of the common subsequence). */
  datatype Edit = Del(text: string) | Add(text: string) | Same(text: string)

  /** The x side of a script: its deleted and kept elements, in order. */
  function Source(e: seq<Edit>): seq<string> {
    if e == [] then []
    else Source(e[..|e| - 1]) + (if e[|e| - 1].Add? then [] else [e[|e| - 1].text])
  }

  /** The y side of a script: its added and kept elements, in order. */
  function Target(e: seq<Edit>): seq<string> {
    if e == [] then []
    else Target(e[..|e| - 1]) + (if e[|e| - 1].Del? then [] else [e[|e| - 1].text])
  }

  /** The kept elements of a script, in order. */
  function Common(e: seq<Edit>): seq<string> {
    if e == [] then []
    else Common(e[..|e| - 1]) + (if e[|e| - 1].Same? then [e[|e| - 1].text] else [])
  }

  /** Tie-break: an addition is never directly followed by a deletion; when
      both are possible the deletion is taken first. */
  predicate DeleteFirst(e: seq<Edit>) {
    forall p :: 0 <= p < |e| - 1 && e[p].Add? ==> !e[p + 1].Del?
  }

  predicate NotNext(l: string, c: seq<string>) {
    c == [] || l != c[0]
  }

  /** Greedy matching, when the common elements still to come after e are
      `rest`: an element is deleted or added only if it differs from the next
      common element (or none is left). */
  predicate GreedyAhead(e: seq<Edit>, rest: seq<string>) {
    forall p :: 0 <= p < |e| && !e[p].Same? ==> NotNext(e[p].text, Common(e[p + 1..]) + rest)
  }

  predicate Walk(e: seq<Edit>) {
    DeleteFirst(e) && GreedyAhead(e, [])
  }

  /** e is the script the merge walk produces for x-side xs, y-side ys and
      common subsequence s. */
  predicate IsWalk(e: seq<Edit>, xs: seq<string>, ys: seq<string>, s: seq<string>) {
    Walk(e) && Source(e) == xs && Target(e) == ys && Common(e) == s
  }

  /** The walk's deletion condition at indices i, k:
      `i < len(xs) && (k == len(s) || neq(xs[i], s[k]))`. */
  predicate DeletionDue(xs: seq<string>, s: seq<string>, i: nat, k: nat)
    requires k <= |s|
  {
    i < |xs| && (k == |s| || xs[i] != s[k])
  }

  /** The walk's addition condition at indices j, k. */
  predicate AdditionDue(ys: seq<string>, s: seq<string>, j: nat, k: nat)
    requires k <= |s|
  {
    j < |ys| && (k == |s| || ys[j] != s[k])
  }

  /** The loop invariant of the merge walk after it has produced e and reached
      indices i, j, k: e covers exactly the first i, j and k elements, the
      rest of s is still a common subsequence of what is left, and e is a
      prefix of a walk. */
  predicate WalkState(e: seq<Edit>, xs: seq<string>, ys: seq<string>, s: seq<string>, i: nat, j: nat, k: nat) {
    i <= |xs| && j <= |ys| && k <= |s| &&
    Source(e) == xs[..i] && Target(e) == ys[..j] && Common(e) == s[..k] &&
    IsSubsequence(s[k..], xs[i..]) && IsSubsequence(s[k..], ys[j..]) &&
    DeleteFirst(e) && GreedyAhead(e, s[k..]) &&
    (e != [] && e[|e| - 1].Add? ==> !DeletionDue(xs, s, i, k))
  }

  lemma {:induction false} SourceAppend(a: seq<Edit>, b: seq<Edit>)
    ensures Source(a + b) == Source(a) + Source(b)
    decreases |b|
  {
    if b == [] {
      assert a + b == a;
    } else {
      var b' := b[..|b| - 1];
      assert (a + b)[..|a + b| - 1] == a + b';
      SourceAppend(a, b');
    }
  }

  lemma {:induction false} TargetAppend(a: seq<Edit>, b: seq<Edit>)
    ensures Target(a + b) == Target(a) + Target(b)
    decreases |b|
  {
    if b == [] {
      assert a + b == a;
    } else {
      var b' := b[..|b| - 1];
      assert (a + b)[..|a + b| - 1] == a + b';
      TargetAppend(a, b');
    }
  }

  lemma {:induction false} CommonAppend(a: seq<Edit>, b: seq<Edit>)
    ensures Common(a + b) == Common(a) + Common(b)
    decreases |b|
  {
    if b == [] {
      assert a + b == a;
    } else {
      var b' := b[..|b| - 1];
      assert (a + b)[..|a + b| - 1] == a + b';
      CommonAppend(a, b');
    }
  }

  /** The sides of a script distribute over concatenation. */
  lemma SplitSides(a: seq<Edit>, b: seq<Edit>)
    ensures Source(a + b) == Source(a) + Source(b)
    ensures Target(a + b) == Target(a) + Target(b)
    ensures Common(a + b) == Common(a) + Common(b)
  {
    SourceAppend(a, b);
    TargetAppend(a, b);
    CommonAppend(a, b);
  }

  /** The sides of a one-step script. */
  lemma Single(step: Edit)
    ensures Source([step]) == (if step.Add? then [] else [step.text])
    ensures Target([step]) == (if step.Del? then [] else [step.text])
    ensures Common([step]) == (if step.Same? then [step.text] else [])
  {
    assert [step][..0] == [];
  }

  /** How many x and y elements the last step of a script adds, n and m
      being the counts before it. */
  lemma LastSides(e: seq<Edit>, n: nat, m: nat)
    requires e != []
    requires n == |Source(e[..|e| - 1])| && m == |Target(e[..|e| - 1])|
    ensures |Source(e)| == (if e[|e| - 1].Add? then n else n + 1)
    ensures |Target(e)| == (if e[|e| - 1].Del? then m else m + 1)
  {
  }

  /** The sides of a script, split after its first step. */
  lemma FirstSides(e: seq<Edit>)
    requires e != []
    ensures Source(e) == (if e[0].Add? then [] else [e[0].text]) + Source(e[1..])
    ensures Target(e) == (if e[0].Del? then [] else [e[0].text]) + Target(e[1..])
    ensures Common(e) == (if e[0].Same? then [e[0].text] else []) + Common(e[1..])
  {
    var a, r := [e[0]], e[1..];
    assert e == a + r && a[..0] == [];
    assert Source(e) == Source(a) + Source(r) by {
      SourceAppend(a, r);
    }
    assert Target(e) == Target(a) + Target(r) by {
      TargetAppend(a, r);
    }
    assert Common(e) == Common(a) + Common(r) by {
      CommonAppend(a, r);
    }
  }

  /** Every script's kept elements are a common subsequence of its two sides. */
  lemma {:induction false} CommonIsSubsequence(e: seq<Edit>)
    ensures IsSubsequence(Common(e), Source(e))
    ensures IsSubsequence(Common(e), Target(e))
    decreases |e|
  {
    if e != [] {
      var r := e[1..];
      assert e == [e[0]] + r;
      SplitSides([e[0]], r);
      CommonIsSubsequence(r);
      var src, tgt, com := Source(e), Target(e), Common(e);
      match e[0]
      case Del(l) =>
        assert Source([e[0]]) == [l] && Target([e[0]]) == [] && Common([e[0]]) == [];
        assert src == [l] + Source(r) && src[1..] == Source(r);
        assert com == Common(r) && tgt == Target(r);
        assert IsSubsequence(com, src[1..]);
      case Add(l) =>
        assert Source([e[0]]) == [] && Target([e[0]]) == [l] && Common([e[0]]) == [];
        assert tgt == [l] + Target(r) && tgt[1..] == Target(r);
        assert com == Common(r) && src == Source(r);
        assert IsSubsequence(com, tgt[1..]);
      case Same(l) =>
        assert Source([e[0]]) == [l] && Target([e[0]]) == [l] && Common([e[0]]) == [l];
        assert src == [l] + Source(r) && src[1..] == Source(r);
        assert tgt == [l] + Target(r) && tgt[1..] == Target(r);
        assert com == [l] + Common(r) && com[1..] == Common(r);
    }
  }

  /** The walk starts in a valid state whenever s is a common subsequence. */
  lemma WalkStart(xs: seq<string>, ys: seq<string>, s: seq<string>)
    requires IsSubsequence(s, xs) && IsSubsequence(s, ys)
    ensures WalkState([], xs, ys, s, 0, 0, 0)
  {
    assert xs[0..] == xs && ys[0..] == ys && s[0..] == s;
  }

  /** Appending a deleted or added element that differs from the next common
      element keeps the script greedy. */
  lemma GreedyAppendChange(e: seq<Edit>, x: Edit, rest: seq<string>)
    requires GreedyAhead(e, rest) && !x.Same? && NotNext(x.text, rest)
    ensures GreedyAhead(e + [x], rest)
  {
    var e' := e + [x];
    assert Common([x]) == [] by {
      assert [x][..0] == [];
    }
    forall p | 0 <= p < |e'| && !e'[p].Same?
      ensures NotNext(e'[p].text, Common(e'[p + 1..]) + rest)
    {
      if p < |e| {
        assert e'[p + 1..] == e[p + 1..] + [x];
        CommonAppend(e[p + 1..], [x]);
      } else {
        assert e'[p + 1..] == [];
      }
    }
  }

  /** Appending the next common element as kept keeps the script greedy. */
  lemma GreedyAppendSame(e: seq<Edit>, l: string, rest: seq<string>)
    requires GreedyAhead(e, [l] + rest)
    ensures GreedyAhead(e + [Same(l)], rest)
  {
    var e' := e + [Same(l)];
    assert Common([Same(l)]) == [l] by {
      assert [Same(l)][..0] == [];
    }
    forall p | 0 <= p < |e'| && !e'[p].Same?
      ensures NotNext(e'[p].text, Common(e'[p + 1..]) + rest)
    {
      assert p < |e|;
      assert e'[p + 1..] == e[p + 1..] + [Same(l)];
      CommonAppend(e[p + 1..], [Same(l)]);
      assert Common(e'[p + 1..]) + rest == Common(e[p + 1..]) + ([l] + rest);
    }
  }

  /** Appending a step after which the tie-break still holds keeps it. */
  lemma DeleteFirstAppend(e: seq<Edit>, x: Edit)
    requires DeleteFirst(e) && (e != [] && e[|e| - 1].Add? ==> !x.Del?)
    ensures DeleteFirst(e + [x])
  {
    var e' := e + [x];
    forall p | 0 <= p < |e'| - 1 && e'[p].Add?
      ensures !e'[p + 1].Del?
    {
      assert e'[p] == e[p];
    }
  }

  /** A deletion step keeps the invariant. */
  lemma StepDel(e: seq<Edit>, xs: seq<string>, ys: seq<string>, s: seq<string>, i: nat, j: nat, k: nat)
    requires WalkState(e, xs, ys, s, i, j, k)
    requires DeletionDue(xs, s, i, k)
    ensures WalkState(e + [Del(xs[i])], xs, ys, s, i + 1, j, k)
  {
    var e' := e + [Del(xs[i])];
    assert Source(e') == xs[..i + 1] && Target(e') == ys[..j] && Common(e') == s[..k] by {
      assert e'[..|e'| - 1] == e;
      assert xs[..i + 1] == xs[..i] + [xs[i]];
    }
    assert IsSubsequence(s[k..], xs[i + 1..]) by {
      assert xs[i..][1..] == xs[i + 1..];
      SkipFirst(s[k..], xs[i..]);
    }
    assert GreedyAhead(e', s[k..]) by {
      GreedyAppendChange(e, Del(xs[i]), s[k..]);
    }
    assert DeleteFirst(e') by {
      DeleteFirstAppend(e, Del(xs[i]));
    }
  }

  /** An addition step, taken only when no deletion is due, keeps the
      invariant. */
  lemma StepAdd(e: seq<Edit>, xs: seq<string>, ys: seq<string>, s: seq<string>, i: nat, j: nat, k: nat)
    requires WalkState(e, xs, ys, s, i, j, k)
    requires !DeletionDue(xs, s, i, k) && AdditionDue(ys, s, j, k)
    ensures WalkState(e + [Add(ys[j])], xs, ys, s, i, j + 1, k)
  {
    var e' := e + [Add(ys[j])];
    assert Source(e') == xs[..i] && Target(e') == ys[..j + 1] && Common(e') == s[..k] by {
      assert e'[..|e'| - 1] == e;
      assert ys[..j + 1] == ys[..j] + [ys[j]];
    }
    assert IsSubsequence(s[k..], ys[j + 1..]) by {
      assert ys[j..][1..] == ys[j + 1..];
      SkipFirst(s[k..], ys[j..]);
    }
    assert GreedyAhead(e', s[k..]) by {
      GreedyAppendChange(e, Add(ys[j]), s[k..]);
    }
    assert DeleteFirst(e') by {
      DeleteFirstAppend(e, Add(ys[j]));
    }
  }

  /** When neither a deletion nor an addition is due and the walk is not
      finished, both sides hold the next common element: the match step is
      in bounds, and it keeps the invariant. */
  lemma StepSame(e: seq<Edit>, xs: seq<string>, ys: seq<string>, s: seq<string>, i: nat, j: nat, k: nat)
    requires WalkState(e, xs, ys, s, i, j, k)
    requires i < |xs| || j < |ys|
    requires !DeletionDue(xs, s, i, k) && !AdditionDue(ys, s, j, k)
    ensures i < |xs| && j < |ys| && k < |s| && xs[i] == s[k] && ys[j] == s[k]
    ensures WalkState(e + [Same(s[k])], xs, ys, s, i + 1, j + 1, k + 1)
  {
    assert k < |s| by {
      SubsequenceLength(s[k..], xs[i..]);
      SubsequenceLength(s[k..], ys[j..]);
    }
    var e' := e + [Same(s[k])];
    assert Source(e') == xs[..i + 1] && Target(e') == ys[..j + 1] && Common(e') == s[..k + 1] by {
      assert e'[..|e'| - 1] == e;
      assert xs[..i + 1] == xs[..i] + [xs[i]];
      assert ys[..j + 1] == ys[..j] + [ys[j]];
      assert s[..k + 1] == s[..k] + [s[k]];
    }
    assert IsSubsequence(s[k + 1..], xs[i + 1..]) by {
      assert xs[i..][1..] == xs[i + 1..] && s[k..][1..] == s[k + 1..];
      MatchFirst(s[k..], xs[i..]);
    }
    assert IsSubsequence(s[k + 1..], ys[j + 1..]) by {
      assert ys[j..][1..] == ys[j + 1..] && s[k..][1..] == s[k + 1..];
      MatchFirst(s[k..], ys[j..]);
    }
    assert GreedyAhead(e', s[k + 1..]) by {
      assert s[k..] == [s[k]] + s[k + 1..];
      GreedyAppendSame(e, s[k], s[k + 1..]);
    }
    assert DeleteFirst(e') by {
      DeleteFirstAppend(e, Same(s[k]));
    }
  }

  /** When both sides are used up, so is s, and the script is the walk. */
  lemma WalkDone(e: seq<Edit>, xs: seq<string>, ys: seq<string>, s: seq<string>, i: nat, j: nat, k: nat)
    requires WalkState(e, xs, ys, s, i, j, k)
    requires i == |xs| && j == |ys|
    ensures k == |s| && IsWalk(e, xs, ys, s)
  {
    assert xs[i..] == [];
    assert xs[..i] == xs && ys[..j] == ys && s[..|s|] == s;
    assert s[|s|..] == [];
  }

  /** The tie-break holds on every suffix. */
  lemma DeleteFirstSuffix(e: seq<Edit>, q: nat)
    requires DeleteFirst(e) && q <= |e|
    ensures DeleteFirst(e[q..])
  {
    var f := e[q..];
    forall p | 0 <= p < |f| - 1 && f[p].Add?
      ensures !f[p + 1].Del?
    {
      assert f[p] == e[q + p] && f[p + 1] == e[q + p + 1];
    }
  }

  /** Every suffix of a walk is a walk. */
  lemma WalkSuffix(e: seq<Edit>, q: nat)
    requires Walk(e) && q <= |e|
    ensures Walk(e[q..])
  {
    var f := e[q..];
    forall p | 0 <= p < |f| && !f[p].Same?
      ensures NotNext(f[p].text, Common(f[p + 1..]) + [])
    {
      assert f[p] == e[q + p] && f[p + 1..] == e[q + p + 1..];
    }
    DeleteFirstSuffix(e, q);
  }

  /** In a script that keeps the tie-break, starts with an addition and
      still has x elements to visit, the run of additions ends in a kept
      element (never in a deletion): the first x element is the first common
      element. */
  lemma {:induction false} FirstAfterAdditions(e: seq<Edit>)
    requires DeleteFirst(e) && e != [] && e[0].Add? && Source(e) != []
    ensures Common(e) != [] && Source(e)[0] == Common(e)[0]
    decreases |e|
  {
    var r := e[1..];
    FirstSides(e);
    assert r != [] && e[1] == r[0];
    assert !r[0].Del? by {
      assert 0 < |e| - 1 && e[0].Add?;
    }
    if r[0].Same? {
      FirstSides(r);
    } else {
      DeleteFirstSuffix(e, 1);
      FirstAfterAdditions(r);
    }
  }

  /** The first step of a walk is decided from the sides exactly as the merge
      walk decides it: a deletion when one is due, otherwise an addition when
      one is due, otherwise a match with the first common element. */
  lemma WalkHead(e: seq<Edit>, xs: seq<string>, ys: seq<string>, s: seq<string>)
    requires IsWalk(e, xs, ys, s) && e != []
    ensures DeletionDue(xs, s, 0, 0) ==> e[0] == Del(xs[0])
    ensures !DeletionDue(xs, s, 0, 0) && AdditionDue(ys, s, 0, 0) ==> e[0] == Add(ys[0])
    ensures !DeletionDue(xs, s, 0, 0) && !AdditionDue(ys, s, 0, 0) ==> s != [] && e[0] == Same(s[0])
  {
    var r := e[1..];
    assert e == [e[0]] + r;
    SplitSides([e[0]], r);
    assert e[1..] == r;
    match e[0]
    case Del(l) =>
      assert Source([e[0]]) == [l] && Common([e[0]]) == [];
      assert NotNext(l, Common(r) + []);
      assert Common(r) + [] == s;
    case Add(l) =>
      assert Target([e[0]]) == [l] && Common([e[0]]) == [];
      assert NotNext(l, Common(r) + []);
      assert Common(r) + [] == s;
      if xs != [] {
        FirstAfterAdditions(e);
      }
    case Same(l) =>
      assert Source([e[0]]) == [l] && Target([e[0]]) == [l] && Common([e[0]]) == [l];
  }

  /** The walk is deterministic: x, y and s determine the script. */
  lemma {:induction false} WalkUnique(e1: seq<Edit>, e2: seq<Edit>, xs: seq<string>, ys: seq<string>, s: seq<string>)
    requires IsWalk(e1, xs, ys, s) && IsWalk(e2, xs, ys, s)
    ensures e1 == e2
    decreases |e1|
  {
    if e1 == [] || e2 == [] {
    } else {
      WalkHead(e1, xs, ys, s);
      WalkHead(e2, xs, ys, s);
      var a := e1[0];
      assert e2[0] == a;
      var r1, r2 := e1[1..], e2[1..];
      assert e1 == [a] + r1 && e2 == [a] + r2;
      SplitSides([a], r1);
      SplitSides([a], r2);
      var sa, ta, ca := Source([a]), Target([a]), Common([a]);
      assert Source(r1) == Source(e1)[|sa|..] == Source(r2);
      assert Target(r1) == Target(e1)[|ta|..] == Target(r2);
      assert Common(r1) == Common(e1)[|ca|..] == Common(r2);
      WalkSuffix(e1, 1);
      WalkSuffix(e2, 1);
      WalkUnique(r1, r2, Source(r1), Target(r1), Common(r1));
    }
  }

  /** The script that keeps every element of xs. */
  function Unchanged(xs: seq<string>): seq<Edit> {
    seq(|xs|, p requires 0 <= p < |xs| => Same(xs[p]))
  }

  lemma {:induction false} UnchangedSides(xs: seq<string>)
    ensures Source(Unchanged(xs)) == xs && Target(Unchanged(xs)) == xs && Common(Unchanged(xs)) == xs
    decreases |xs|
  {
    if xs != [] {
      var n := |xs|;
      assert Unchanged(xs)[..n - 1] == Unchanged(xs[..n - 1]);
      UnchangedSides(xs[..n - 1]);
      assert xs[..n - 1] + [xs[n - 1]] == xs;
    }
  }

  /** Diffing a sequence against itself (with itself as the common
      subsequence) keeps every element: no deletion, no addition. */
  lemma IdenticalInputs(e: seq<Edit>, xs: seq<string>)
    requires IsWalk(e, xs, xs, xs)
    ensures e == Unchanged(xs)
    ensures forall p :: 0 <= p < |e| ==> e[p] == Same(xs[p])
  {
    UnchangedSides(xs);
    WalkUnique(e, Unchanged(xs), xs, xs, xs);
  }

  /** Lines "a","b" against "a","c" with common subsequence "a": the kept
      line, then the deletion of "b" before the addition of "c". */
  lemma TieBreakExample(e: seq<Edit>)
    requires IsWalk(e, ["a", "b"], ["a", "c"], ["a"])
    ensures e == [Same("a"), Del("b"), Add("c")]
  {
    var w := [Same("a"), Del("b"), Add("c")];
    var w1, w2 := [Same("a")], [Same("a"), Del("b")];
    assert w[..2] == w2 && w2[..1] == w1 && w1[..0] == [];
    assert Source(w1) == ["a"] && Target(w1) == ["a"] && Common(w1) == ["a"];
    assert Source(w2) == ["a", "b"] && Target(w2) == ["a"] && Common(w2) == ["a"];
    assert Source(w) == ["a", "b"];
    assert Target(w) == ["a", "c"];
    assert Common(w) == ["a"];
    assert w[2..] == [Add("c")] && w[3..] == [];
    assert Common(w[2..]) == [];
    WalkUnique(e, w, ["a", "b"], ["a", "c"], ["a"]);
  }
}
