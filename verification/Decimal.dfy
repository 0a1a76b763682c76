/** Decimal printing of integers, as str() and String() do it. */
module Decimal {
  import opened Wrappers

  function DigitChar(d: nat): (c: char)
    requires d < 10
    ensures '0' <= c <= '9'
  {
    '0' + d as char
  }

  function DigitValue(c: char): (d: nat)
    requires '0' <= c <= '9'
    ensures d < 10
  {
    c as int - '0' as int
  }

  predicate IsDigit(c: char) {
    '0' <= c <= '9'
  }

  predicate AllDigits(s: string) {
    forall i :: 0 <= i < |s| ==> IsDigit(s[i])
  }

  function OfNat(n: nat): (s: string)
    ensures s != "" && AllDigits(s)
  {
    if n < 10 then [DigitChar(n)] else OfNat(n / 10) + [DigitChar(n % 10)]
  }

  function OfInt(n: int): string {
    if n < 0 then "-" + OfNat(-n) else OfNat(n)
  }

  /** The number a string of digits denotes. */
  function ToNat(s: string): nat
    requires AllDigits(s)
  {
    if s == "" then 0 else 10 * ToNat(s[..|s| - 1]) + DigitValue(s[|s| - 1])
  }

  lemma {:induction false} ReadBack(n: nat)
    ensures ToNat(OfNat(n)) == n
  {
    if n >= 10 {
      ReadBack(n / 10);
      var s := OfNat(n);
      assert s[..|s| - 1] == OfNat(n / 10);
    } else {
      assert OfNat(n)[..0] == "";
    }
  }

  lemma OfNatInjective(m: nat, n: nat)
    requires OfNat(m) == OfNat(n)
    ensures m == n
  {
    ReadBack(m);
    ReadBack(n);
  }

  lemma OfIntSign(n: int)
    ensures OfInt(n) != "" && (OfInt(n)[0] == '-' <==> n < 0)
  {
    if n >= 0 {
      assert IsDigit(OfNat(n)[0]);
    }
  }

  lemma OfIntInjective(m: int, n: int)
    requires OfInt(m) == OfInt(n)
    ensures m == n
  {
    OfIntSign(m);
    OfIntSign(n);
    if m < 0 {
      assert OfInt(m)[1..] == OfNat(-m) && OfInt(n)[1..] == OfNat(-n);
      OfNatInjective(-m, -n);
    } else {
      OfNatInjective(m, n);
    }
  }

  lemma {:induction false} NoLeadingZero(n: nat)
    requires n > 0
    ensures OfNat(n)[0] != '0'
  {
    if n >= 10 {
      NoLeadingZero(n / 10);
    }
  }

  // ---------- reading ----------

  /** A sign in front of negative numbers, and digits; nothing else is a number. */
  function ReadInt(s: string): Option<int> {
    if s != "" && AllDigits(s) then Some(ToNat(s))
    else if |s| > 1 && s[0] == '-' && AllDigits(s[1..]) then Some(-(ToNat(s[1..]) as int))
    else None
  }

  /** The text of a number reads back as that number; it has no sign but for negative ones, and no zeros in front. */
  lemma OfIntReads(n: int)
    ensures ReadInt(OfInt(n)) == Some(n)
    ensures n >= 0 ==> AllDigits(OfInt(n)) && ToNat(OfInt(n)) == n
    ensures n == 0 ==> OfInt(n) == "0"
    ensures n > 0 ==> OfInt(n)[0] != '0'
    ensures n < 0 ==> OfInt(n)[0] == '-' && AllDigits(OfInt(n)[1..]) && ToNat(OfInt(n)[1..]) == -n && OfInt(n)[1] != '0'
  {
    if n < 0 {
      ReadBack(-n);
      NoLeadingZero(-n);
      Signed(OfNat(-n));
    } else {
      Unsigned(n);
    }
  }

  lemma Unsigned(n: nat)
    ensures ReadInt(OfNat(n)) == Some(n) && ToNat(OfNat(n)) == n
    ensures if n == 0 then OfNat(n) == "0" else OfNat(n)[0] != '0'
  {
    ReadBack(n);
    if n > 0 {
      NoLeadingZero(n);
    }
  }

  lemma Signed(digits: string)
    requires digits != "" && AllDigits(digits)
    ensures var s := "-" + digits;
            s[0] == '-' && s[1..] == digits && s[1] == digits[0] && !AllDigits(s) && ReadInt(s) == Some(-(ToNat(digits) as int))
  {
    var s := "-" + digits;
    assert s[1..] == digits;
    assert !IsDigit(s[0]);
  }

  /** A zero in front does not count. */
  lemma {:induction false} ZeroInFront(s: string)
    requires AllDigits(s)
    ensures ToNat("0" + s) == ToNat(s)
  {
    var padded := "0" + s;
    if s == "" {
      assert padded[..|padded| - 1] == "";
    } else {
      assert padded[..|padded| - 1] == "0" + s[..|s| - 1];
      ZeroInFront(s[..|s| - 1]);
    }
  }

  lemma OneDigit(c: char)
    requires IsDigit(c)
    ensures ToNat([c]) == c as int - '0' as int
  {
    assert [c][..0] == "";
  }
}
