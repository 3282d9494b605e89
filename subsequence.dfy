/** Common subsequences: what the merge walk needs from the longest common
    subsequence it is handed. The walk never relies on the sequence being
    longest, only on it being a subsequence of both sides. */
module Subsequence {

  /** s can be obtained from x by deleting elements: either s is empty, or
      x's first element is matched with s's first, or it is dropped. */
  predicate IsSubsequence<T(==)>(s: seq<T>, x: seq<T>)
    decreases |x|
  {
    s == [] ||
    (x != [] &&
      ((s[0] == x[0] && IsSubsequence(s[1..], x[1..])) || IsSubsequence(s, x[1..])))
  }

  /** Dropping the first element of a subsequence leaves a subsequence. */
  lemma {:induction false} DropFirst<T>(s: seq<T>, x: seq<T>)
    requires s != [] && IsSubsequence(s, x)
    ensures IsSubsequence(s[1..], x)
    decreases |x|
  {
    if s[1..] != [] {
      if s[0] == x[0] && IsSubsequence(s[1..], x[1..]) {
        assert IsSubsequence(s[1..], x[1..]);
      } else {
        DropFirst(s, x[1..]);
      }
    }
  }

  /** Greedy matching is safe: when x starts with s's first element, matching
      them leaves a subsequence of the rest of x. */
  lemma MatchFirst<T>(s: seq<T>, x: seq<T>)
    requires s != [] && x != [] && s[0] == x[0]
    requires IsSubsequence(s, x)
    ensures IsSubsequence(s[1..], x[1..])
  {
    if !IsSubsequence(s[1..], x[1..]) {
      DropFirst(s, x[1..]);
    }
  }

  /** When x's first element cannot be matched with s's first (or s is used up),
      it can be skipped. */
  lemma SkipFirst<T>(s: seq<T>, x: seq<T>)
    requires x != [] && (s == [] || s[0] != x[0])
    requires IsSubsequence(s, x)
    ensures IsSubsequence(s, x[1..])
  {
  }

  /** A common subsequence is no longer than either sequence. */
  lemma {:induction false} SubsequenceLength<T>(s: seq<T>, x: seq<T>)
    requires IsSubsequence(s, x)
    ensures |s| <= |x|
    decreases |x|
  {
    if s != [] {
      if s[0] == x[0] && IsSubsequence(s[1..], x[1..]) {
        SubsequenceLength(s[1..], x[1..]);
      } else {
        SubsequenceLength(s, x[1..]);
      }
    }
  }
}
