// Decimal rendering of natural numbers, as str() and the f-strings of the bot
// produce it, with the reader that undoes it.

module Decimal {

  predicate IsDigit(c: char) {
    '0' <= c <= '9'
  }

  predicate AllDigits(s: string) {
    forall i :: 0 <= i < |s| ==> IsDigit(s[i])
  }

  function Digit(n: nat): (c: char)
    requires n < 10
    ensures IsDigit(c) && DigitValue(c) == n
  {
    ('0' as int + n) as char
  }

  function DigitValue(c: char): (n: nat)
    requires IsDigit(c)
    ensures n < 10
  {
    c as int - '0' as int
  }

  function Render(n: nat): (s: string)
    ensures AllDigits(s) && |s| > 0
  {
    if n < 10 then [Digit(n)] else Render(n / 10) + [Digit(n % 10)]
  }

  function Value(s: string): nat
    requires AllDigits(s)
  {
    if s == [] then 0 else 10 * Value(s[..|s| - 1]) + DigitValue(s[|s| - 1])
  }

  function Pow10(k: nat): (p: nat)
    ensures p > 0
  {
    if k == 0 then 1 else 10 * Pow10(k - 1)
  }

  lemma {:induction false} RenderThenValue(n: nat)
    ensures Value(Render(n)) == n
  {
    if n < 10 {
      assert Render(n)[..0] == [];
    } else {
      RenderThenValue(n / 10);
      assert Render(n)[..|Render(n)| - 1] == Render(n / 10);
    }
  }

  lemma RenderInjective(m: nat, n: nat)
    requires Render(m) == Render(n)
    ensures m == n
  {
    RenderThenValue(m);
    RenderThenValue(n);
  }

  // k digits are enough exactly for the numbers below 10^k.
  lemma {:induction false} RenderLength(n: nat, k: nat)
    requires k > 0
    ensures |Render(n)| <= k <==> n < Pow10(k)
  {
    if n >= 10 {
      if k == 1 {
        assert Pow10(1) == 10 * Pow10(0) == 10;
      } else {
        RenderLength(n / 10, k - 1);
        assert Pow10(k) == 10 * Pow10(k - 1);
      }
    } else {
      assert Pow10(k) == 10 * Pow10(k - 1) >= 10;
    }
  }

  // Padding with zeros on the left, as in the format spec 010d.
  function Padded(n: nat, width: nat): (s: string)
    ensures AllDigits(s)
  {
    Zeros(width - |Render(n)|) + Render(n)
  }

  function Zeros(k: int): (s: string)
    ensures AllDigits(s) && |s| == if k < 0 then 0 else k
  {
    if k <= 0 then [] else ['0'] + Zeros(k - 1)
  }

  lemma {:induction false} LeadingZero(s: string)
    requires AllDigits(s)
    ensures AllDigits(['0'] + s) && Value(['0'] + s) == Value(s)
  {
    if s != [] {
      LeadingZero(s[..|s| - 1]);
      assert (['0'] + s)[..|s|] == ['0'] + s[..|s| - 1];
    } else {
      assert (['0'] + s)[..0] == [];
    }
  }

  lemma {:induction false} ZerosKeepValue(k: int, s: string)
    requires AllDigits(s)
    ensures Value(Zeros(k) + s) == Value(s)
  {
    if k <= 0 {
      assert Zeros(k) + s == s;
    } else {
      ZerosKeepValue(k - 1, s);
      LeadingZero(Zeros(k - 1) + s);
      assert Zeros(k) + s == ['0'] + (Zeros(k - 1) + s);
    }
  }

  // A number below 10^width is padded to exactly `width` characters and reads
  // back as itself.
  lemma PaddedThenValue(n: nat, width: nat)
    requires width > 0 && n < Pow10(width)
    ensures |Padded(n, width)| == width && Value(Padded(n, width)) == n
  {
    RenderLength(n, width);
    ZerosKeepValue(width - |Render(n)|, Render(n));
    RenderThenValue(n);
  }
}
