/** Decimal numerals as the C library reads and writes them. */
module Digits {

  predicate IsDigit(c: char) {
    '0' <= c <= '9'
  }

  predicate AllDigits(s: string) {
    forall k :: 0 <= k < |s| ==> IsDigit(s[k])
  }

  function Value(digits: string): int {
    if digits == "" then 0 else 10 * Value(digits[..|digits| - 1]) + (digits[|digits| - 1] as int - '0' as int)
  }

  function Pow10(n: nat): (p: int)
    ensures p > 0
  {
    if n == 0 then 1 else 10 * Pow10(n - 1)
  }

  function Digit(d: nat): char
    requires d < 10
  {
    '0' + d as char
  }

  lemma {:induction false} ValueOfMoreDigits(d: char, digits: string)
    ensures Value([d] + digits) == Pow10(|digits|) * (d as int - '0' as int) + Value(digits)
  {
    if digits == "" {
      assert Value([d]) == 10 * Value([d][..0]) + (d as int - '0' as int);
    } else {
      ValueOfMoreDigits(d, digits[..|digits| - 1]);
      assert ([d] + digits)[..|digits|] == [d] + digits[..|digits| - 1];
    }
  }

  lemma {:induction false} ValueNotNegative(digits: string)
    requires AllDigits(digits)
    ensures Value(digits) >= 0
  {
    if digits != "" {
      ValueNotNegative(digits[..|digits| - 1]);
    }
  }

  /** The lowest `width` digits of a number. */
  function FixedWidth(n: nat, width: nat): (s: string)
    ensures |s| == width && AllDigits(s)
  {
    if width == 0 then "" else FixedWidth(n / 10, width - 1) + [Digit(n % 10)]
  }

  lemma {:induction false} ValueOfFixedWidth(n: nat, width: nat)
    requires n < Pow10(width)
    ensures Value(FixedWidth(n, width)) == n
  {
    if width > 0 {
      ValueOfFixedWidth(n / 10, width - 1);
      assert FixedWidth(n, width)[..width - 1] == FixedWidth(n / 10, width - 1);
    }
  }

  /** A number as printed by %d, without leading zeros. */
  function Numeral(n: nat): (s: string)
    ensures s != "" && AllDigits(s)
  {
    if n < 10 then [Digit(n)] else Numeral(n / 10) + [Digit(n % 10)]
  }

  lemma {:induction false} ValueOfNumeral(n: nat)
    ensures Value(Numeral(n)) == n
  {
    if n < 10 {
      assert Numeral(n)[..0] == "";
    } else {
      ValueOfNumeral(n / 10);
      assert Numeral(n)[..|Numeral(n)| - 1] == Numeral(n / 10);
    }
  }

  lemma {:induction false} LengthOfNumeral(n: nat, width: nat)
    requires width > 0 && n < Pow10(width)
    ensures |Numeral(n)| <= width
  {
    assert Pow10(1) == 10;
    if n >= 10 {
      LengthOfNumeral(n / 10, width - 1);
    }
  }
}
