/** Decimal printing of natural numbers, with and without zero padding. */
module DecimalText {
  const DIGITS: string := "0123456789"

  predicate IsDigit(c: char) {
    '0' <= c <= '9'
  }

  function Digits(n: nat): (s: string)
    ensures s != [] && forall i :: 0 <= i < |s| ==> IsDigit(s[i])
  {
    if n < 10 then [DIGITS[n]] else Digits(n / 10) + [DIGITS[n % 10]]
  }

  /** Left padding with zeros up to `width`. */
  function Padded(n: nat, width: nat): string {
    var s := Digits(n);
    if |s| < width then seq(width - |s|, i => '0') + s else s
  }

  /** Reads digits back. */
  function Value(s: string): nat
    requires forall i :: 0 <= i < |s| ==> IsDigit(s[i])
  {
    if s == [] then 0 else assert IsDigit(s[|s| - 1]); 10 * Value(s[..|s| - 1]) + (s[|s| - 1] as int - '0' as int)
  }

  lemma {:induction false} ValueOfDigits(n: nat)
    ensures Value(Digits(n)) == n
  {
    if n >= 10 {
      ValueOfDigits(n / 10);
      assert Digits(n)[..|Digits(n)| - 1] == Digits(n / 10);
    }
  }

  lemma {:induction false} ValueSkipsZeros(zeros: string, s: string)
    requires forall i :: 0 <= i < |zeros| ==> zeros[i] == '0'
    requires forall i :: 0 <= i < |s| ==> IsDigit(s[i])
    ensures Value(zeros + s) == Value(s)
  {
    if s != [] {
      assert (zeros + s)[..|zeros + s| - 1] == zeros + s[..|s| - 1];
      ValueSkipsZeros(zeros, s[..|s| - 1]);
    } else if zeros != [] {
      assert zeros + s == zeros;
      ValueSkipsZeros(zeros[..|zeros| - 1], s);
      assert zeros[..|zeros| - 1] + s == zeros[..|zeros| - 1];
    }
  }

  /** Padding keeps the number readable, whatever the width. */
  lemma ValueOfPadded(n: nat, width: nat)
    ensures forall i :: 0 <= i < |Padded(n, width)| ==> IsDigit(Padded(n, width)[i])
    ensures Value(Padded(n, width)) == n
  {
    var s := Digits(n);
    ValueOfDigits(n);
    if |s| < width {
      ValueSkipsZeros(seq(width - |s|, i => '0'), s);
    }
  }

  /** Numbers are printed without leading zeros. */
  lemma {:induction false} DigitsStart(n: nat)
    ensures if n == 0 then Digits(n) == "0" else Digits(n)[0] != '0'
  {
    if n >= 10 {
      DigitsStart(n / 10);
    }
  }

  /** Padding fills up to the width exactly, with zeros on the left, and cuts nothing. */
  lemma PaddedIs(n: nat, width: nat)
    ensures |Padded(n, width)| == if |Digits(n)| < width then width else |Digits(n)|
    ensures var fill := |Padded(n, width)| - |Digits(n)|;
            && Padded(n, width)[fill..] == Digits(n)
            && forall i :: 0 <= i < fill ==> Padded(n, width)[i] == '0'
  {
  }
}
