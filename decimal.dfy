/** Decimal rendering of natural numbers, as Go's `%d` and `%0<w>d` verbs
    write them, together with the reading back of a digit string. */
module Decimal {

  predicate IsDigit(c: char) {
    '0' <= c <= '9'
  }

  predicate AllDigits(s: string) {
    forall i :: 0 <= i < |s| ==> IsDigit(s[i])
  }

  predicate AllSpaces(s: string) {
    forall i :: 0 <= i < |s| ==> s[i] == ' '
  }

  /** The number a digit character stands for (0 for any other character). */
  function CharValue(c: char): nat {
    if IsDigit(c) then (c as int) - ('0' as int) else 0
  }

  /** The character `%d` writes for a single digit. */
  function DigitChar(d: nat): (c: char)
    requires d < 10
    ensures IsDigit(c) && CharValue(c) == d
  {
    (('0' as int) + d) as char
  }

  /** `strings.Repeat(string(c), k)`. */
  function Repeat(c: char, k: nat): string {
    seq(k, _ => c)
  }

  /** What `fmt.Sprintf("%d", n)` writes: the decimal digits of n, most
      significant first, without leading zeros. */
  function Digits(n: nat): (r: string)
    ensures 1 <= |r|
    ensures AllDigits(r)
    ensures r[0] == '0' <==> n == 0
    decreases n
  {
    if n < 10 then [DigitChar(n)] else Digits(n / 10) + [DigitChar(n % 10)]
  }

  /** `len(fmt.Sprintf("%d", n))`: the number of decimal digits of n. */
  function DigitWidth(n: nat): nat {
    |Digits(n)|
  }

  /** The number a string of decimal digits denotes, most significant first. */
  function Value(s: string): nat {
    if s == [] then 0 else 10 * Value(s[..|s| - 1]) + CharValue(s[|s| - 1])
  }

  function Pow10(k: nat): nat {
    if k == 0 then 1 else 10 * Pow10(k - 1)
  }

  /** What `fmt.Sprintf("%0<w>d", n)` writes: the digits of n, left-padded
      with zeros to w characters; never truncated when n needs more. */
  function ZeroPad(n: nat, w: nat): string {
    var d := Digits(n);
    if |d| < w then Repeat('0', w - |d|) + d else d
  }

  /** Reading back what `%d` writes gives the number again. */
  lemma {:induction false} ValueOfDigits(n: nat)
    ensures Value(Digits(n)) == n
    decreases n
  {
    if n >= 10 {
      var d := Digits(n / 10);
      assert Digits(n)[..|Digits(n)| - 1] == d;
      ValueOfDigits(n / 10);
    }
  }

  /** Leading zeros do not change the value of a digit string. */
  lemma {:induction false} ValueOfLeadingZeros(k: nat, s: string)
    ensures Value(Repeat('0', k) + s) == Value(s)
    decreases |s|, k
  {
    if s == [] {
      assert Repeat('0', k) + s == Repeat('0', k);
      if k > 0 {
        assert Repeat('0', k)[..k - 1] == Repeat('0', k - 1);
        ValueOfLeadingZeros(k - 1, []);
        assert Repeat('0', k - 1) + [] == Repeat('0', k - 1);
      }
    } else {
      var z := Repeat('0', k);
      var s' := s[..|s| - 1];
      assert (z + s)[..|z + s| - 1] == z + s';
      ValueOfLeadingZeros(k, s');
    }
  }

  /** `%0<w>d` writes exactly w digit characters when n has at most w digits,
      and they denote n: the padding is recoverable. */
  lemma ZeroPadIsFaithful(n: nat, w: nat)
    requires DigitWidth(n) <= w
    ensures |ZeroPad(n, w)| == w
    ensures AllDigits(ZeroPad(n, w))
    ensures Value(ZeroPad(n, w)) == n
  {
    var d := Digits(n);
    ValueOfDigits(n);
    if |d| < w {
      ValueOfLeadingZeros(w - |d|, d);
    }
  }

  /** The digit count is the least k >= 1 with n < 10^k. */
  lemma {:induction false} DigitWidthBounds(n: nat)
    ensures n < Pow10(DigitWidth(n))
    ensures DigitWidth(n) == 1 || Pow10(DigitWidth(n) - 1) <= n
    decreases n
  {
    if n >= 10 {
      DigitWidthBounds(n / 10);
      assert DigitWidth(n) == DigitWidth(n / 10) + 1;
      assert Pow10(DigitWidth(n)) == 10 * Pow10(DigitWidth(n / 10));
    }
  }

  /** A smaller number never needs more digits; so every line number up to a
      count fits the width computed from that count. */
  lemma {:induction false} DigitWidthMonotone(m: nat, n: nat)
    requires m <= n
    ensures DigitWidth(m) <= DigitWidth(n)
    decreases n
  {
    if m >= 10 {
      DigitWidthMonotone(m / 10, n / 10);
    }
  }
}
