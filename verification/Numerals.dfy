/** Decimal numerals and the numbers they stand for. */
module Numerals {

  predicate IsDigit(c: char) { '0' <= c <= '9' }

  predicate AllDigits(s: string) { forall i | 0 <= i < |s| :: IsDigit(s[i]) }

  function DigitValue(c: char): nat
    requires IsDigit(c)
  {
    c as int - '0' as int
  }

  function DigitChar(d: nat): (c: char)
    requires d < 10
    ensures IsDigit(c) && DigitValue(c) == d
  {
    ('0' as int + d) as char
  }

  /** Number(s) of a digit string. */
  function NumberOf(s: string): nat
    requires AllDigits(s)
  {
    if s == [] then 0 else 10 * NumberOf(s[..|s| - 1]) + DigitValue(s[|s| - 1])
  }

  /** A numeral without superfluous zeros. */
  predicate Plain(s: string) { s != "" && AllDigits(s) && (s[0] == '0' ==> |s| == 1) }

  lemma {:induction false} PlainIsPositive(s: string)
    requires Plain(s) && s != "0"
    ensures NumberOf(s) > 0
  {
    if |s| == 1 {
      assert s == [s[0]] && s[..0] == [];
    } else {
      assert s[..|s| - 1] != "0" by { assert s[..|s| - 1][0] == s[0]; }
      PlainIsPositive(s[..|s| - 1]);
    }
  }

  lemma LongNumeralsExceedNine(s: string)
    requires Plain(s) && |s| > 1
    ensures Plain(s[..|s| - 1]) && NumberOf(s) >= 10
  {
    assert s[..|s| - 1][0] == s[0];
    PlainIsPositive(s[..|s| - 1]);
  }

  /** Two such numerals of one number are the same numeral. */
  lemma {:induction false} PlainIsUnique(a: string, b: string)
    requires Plain(a) && Plain(b) && NumberOf(a) == NumberOf(b)
    ensures a == b
  {
    if |a| > 1 { LongNumeralsExceedNine(a); } else { assert a == [a[0]] && a[..0] == []; }
    if |b| > 1 { LongNumeralsExceedNine(b); } else { assert b == [b[0]] && b[..0] == []; }
    assert |a| > 1 <==> |b| > 1;
    if |a| > 1 {
      PlainIsUnique(a[..|a| - 1], b[..|b| - 1]);
      assert a == a[..|a| - 1] + [a[|a| - 1]] && b == b[..|b| - 1] + [b[|b| - 1]];
    }
  }

  /** The numeral of a number. */
  function Digits(n: nat): (s: string)
    ensures AllDigits(s) && |s| >= 1
  {
    if n < 10 then [DigitChar(n)] else Digits(n / 10) + [DigitChar(n % 10)]
  }

  lemma {:induction false} DigitsRoundTrip(n: nat)
    ensures NumberOf(Digits(n)) == n
    ensures Digits(n)[0] == '0' ==> n == 0
  {
    var s := Digits(n);
    if n >= 10 {
      DigitsRoundTrip(n / 10);
      assert s[..|s| - 1] == Digits(n / 10);
    } else {
      assert s[..|s| - 1] == [];
    }
  }

  /** Numerals without superfluous zeros are exactly those of numbers. */
  lemma PlainIffDigits(s: string)
    ensures Plain(s) <==> AllDigits(s) && s == Digits(NumberOf(s))
  {
    if AllDigits(s) {
      var d := Digits(NumberOf(s));
      DigitsRoundTrip(NumberOf(s));
      assert d[0] == '0' ==> d == [DigitChar(0)];
      if Plain(s) { PlainIsUnique(s, d); }
    }
  }
}
