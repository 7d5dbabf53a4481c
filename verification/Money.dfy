/** The money parser and printer of buyer spend policies (lib/buyer-spend-policy.ts). */
module Money {
  import opened Numerals
  import opened Options

  /** The largest amount the accepted pattern can carry: ten whole digits and two decimals. */
  const MAX_CENTS: nat := 999_999_999_999

  // ---- the parser ----

  /** 0, or one to ten digits that do not start with 0. */
  predicate WholePart(s: string) {
    Plain(s) && |s| <= 10
  }

  /** Absent, or a point and one or two digits. */
  predicate FractionPart(s: string) {
    s == "" || (2 <= |s| <= 3 && s[0] == '.' && AllDigits(s[1..]))
  }

  function WholeLength(s: string): (n: nat)
    ensures n <= |s|
    ensures forall i | 0 <= i < n :: s[i] != '.'
    ensures n < |s| ==> s[n] == '.'
  {
    if s == "" || s[0] == '.' then 0 else 1 + WholeLength(s[1..])
  }

  predicate Accepted(s: string) {
    WholePart(s[..WholeLength(s)]) && FractionPart(s[WholeLength(s)..])
  }

  /** padEnd(2, '0') of the digits after the point. */
  function Padded(digits: string): string
    decreases 2 - |digits|
  {
    if |digits| >= 2 then digits else Padded(digits + "0")
  }

  function Parse(s: string): Option<nat> {
    if !Accepted(s) then None
    else
      var n := WholeLength(s);
      var fraction := if n == |s| then "" else s[n + 1..];
      assert AllDigits(Padded(fraction)) by { PaddedDigits(fraction); }
      Some(NumberOf(s[..n]) * 100 + NumberOf(Padded(fraction)))
  }

  lemma PaddedDigits(digits: string)
    requires AllDigits(digits)
    ensures AllDigits(Padded(digits))
    decreases 2 - |digits|
  {
    if |digits| < 2 { PaddedDigits(digits + "0"); }
  }

  // ---- the printer ----

  /** (cents / 100).toFixed(2) */
  function Print(cents: nat): string {
    Digits(cents / 100) + "." + [DigitChar(cents / 10 % 10), DigitChar(cents % 10)]
  }

  // ---- round trips ----

  lemma {:induction false} DigitsLength(n: nat, k: nat, bound: nat)
    requires 1 <= k && bound == Power(k) && n < bound
    ensures |Digits(n)| <= k
    decreases k
  {
    assert Power(1) == 10;
    if n >= 10 {
      assert k > 1;
      DigitsLength(n / 10, k - 1, Power(k - 1));
    }
  }

  function Power(k: nat): nat { if k == 0 then 1 else 10 * Power(k - 1) }

  lemma {:induction false} NumberBelowPower(s: string)
    requires AllDigits(s)
    ensures NumberOf(s) < Power(|s|)
  {
    if s != [] { NumberBelowPower(s[..|s| - 1]); }
  }

  lemma TenDigits()
    ensures Power(10) == 10_000_000_000
    ensures Power(2) == 100
  {
    assert Power(5) == 100_000 by { assert Power(3) == 1000; }
    assert Power(8) == 100_000_000;
  }

  lemma PrintedShape(cents: nat)
    requires cents <= MAX_CENTS
    ensures var w := Digits(cents / 100);
            WholeLength(Print(cents)) == |w| && Print(cents)[..|w|] == w && Accepted(Print(cents))
    ensures |Print(cents)| >= 4 && Print(cents)[|Print(cents)| - 3] == '.'
  {
    var w := Digits(cents / 100);
    var tail := "." + [DigitChar(cents / 10 % 10), DigitChar(cents % 10)];
    assert Print(cents) == w + tail;
    PointAfterDigits(w, tail);
    DigitsRoundTrip(cents / 100);
    TenDigits();
    DigitsLength(cents / 100, 10, Power(10));
    if w[0] == '0' { assert Digits(0) == [DigitChar(0)]; }
    assert (w + tail)[|w|..] == tail;
  }

  lemma {:induction false} PointAfterDigits(w: string, tail: string)
    requires AllDigits(w) && tail != "" && tail[0] == '.'
    ensures WholeLength(w + tail) == |w|
  {
    if w == "" {
      assert w + tail == tail;
    } else {
      PointAfterDigits(w[1..], tail);
      assert (w + tail)[1..] == w[1..] + tail;
    }
  }

  lemma TwoDigits(tens: char, ones: char)
    requires IsDigit(tens) && IsDigit(ones)
    ensures NumberOf([tens, ones]) == 10 * DigitValue(tens) + DigitValue(ones)
  {
    assert [tens, ones][..1] == [tens] && [tens][..0] == [];
    assert NumberOf([tens]) == DigitValue(tens);
  }

  lemma DigitsOfCents(cents: nat)
    ensures cents / 100 * 100 + 10 * (cents / 10 % 10) + cents % 10 == cents
  {
  }

  /** Printing a stored amount and parsing it back gives the same number of cents. */
  lemma PrintThenParse(cents: nat)
    requires cents <= MAX_CENTS
    ensures Accepted(Print(cents)) && Parse(Print(cents)) == Some(cents)
  {
    PrintedShape(cents);
    var w := Digits(cents / 100);
    var f := [DigitChar(cents / 10 % 10), DigitChar(cents % 10)];
    assert Print(cents)[|w| + 1..] == f && Padded(f) == f;
    DigitsRoundTrip(cents / 100);
    TwoDigits(f[0], f[1]);
    DigitsOfCents(cents);
  }

  /** One to ten digits without a superfluous leading zero. */
  predicate WholeDigits(w: string) {
    1 <= |w| <= 10 && (forall i | 0 <= i < |w| :: '0' <= w[i] <= '9') && (w[0] == '0' ==> w == "0")
  }

  /** n whole digits alone, or with a point and one or two more. */
  predicate AmountText(s: string, n: nat) {
    n <= |s| && WholeDigits(s[..n]) && (n == |s| || (s[n] == '.' && n + 2 <= |s| <= n + 3 && AllDigits(s[n + 1..])))
  }

  lemma {:induction false} WholeEndsAtPoint(s: string, n: nat)
    requires n <= |s| && (forall i | 0 <= i < n :: s[i] != '.') && (n < |s| ==> s[n] == '.')
    ensures WholeLength(s) == n
  {
    if n > 0 {
      assert forall i | 0 <= i < |s| - 1 :: s[1..][i] == s[i + 1];
      WholeEndsAtPoint(s[1..], n - 1);
    }
  }

  /** Exactly those texts parse. */
  lemma OnlyAmountsParse(s: string)
    ensures Parse(s).Some? <==> exists n: nat :: AmountText(s, n)
  {
    if Accepted(s) {
      var n := WholeLength(s);
      assert s[n..] != "" ==> s[n..][1..] == s[n + 1..];
      assert AmountText(s, n);
    }
    if n: nat :| AmountText(s, n) {
      assert forall i | 0 <= i < n :: s[i] == s[..n][i];
      WholeEndsAtPoint(s, n);
      assert s[n..] != "" ==> s[n..][1..] == s[n + 1..];
    }
  }

  /** The digit at a place after the point; 0 where the text has ended. */
  function Place(s: string, i: nat): nat
    requires i < |s| ==> IsDigit(s[i])
  {
    if i < |s| then DigitValue(s[i]) else 0
  }

  /** What each text is worth in cents. */
  lemma AmountsMean(s: string, n: nat)
    requires AmountText(s, n)
    ensures AllDigits(s[..n]) && (n + 1 < |s| ==> IsDigit(s[n + 1])) && (n + 2 < |s| ==> IsDigit(s[n + 2]))
    ensures Parse(s) == Some(100 * NumberOf(s[..n]) + 10 * Place(s, n + 1) + Place(s, n + 2))
  {
    assert forall i | 0 <= i < n :: s[i] == s[..n][i];
    WholeEndsAtPoint(s, n);
    OnlyAmountsParse(s);
    var f := if n == |s| then "" else s[n + 1..];
    var tens, ones := if |f| >= 1 then f[0] else '0', if |f| == 2 then f[1] else '0';
    PaddedIs(f, tens, ones);
    TwoDigits(tens, ones);
  }

  lemma PaddedIs(f: string, tens: char, ones: char)
    requires |f| <= 2
    requires (if |f| >= 1 then f[0] == tens else tens == '0') && (if |f| == 2 then f[1] == ones else ones == '0')
    ensures Padded(f) == [tens, ones]
  {
    if |f| == 0 {
      assert f + "0" == ['0'] && ['0'] + "0" == [tens, ones];
      assert Padded(f) == Padded(['0']);
    } else if |f| == 1 {
      assert f + "0" == [tens, ones];
    } else {
      assert f == [tens, ones];
    }
  }

  /** The parser produces exactly the amounts from 0 to the largest one, and no other. */
  lemma ParserRange(cents: nat)
    ensures (exists s :: Parse(s) == Some(cents)) <==> cents <= MAX_CENTS
  {
    if cents <= MAX_CENTS { PrintThenParse(cents); }
    if s :| Parse(s) == Some(cents) {
      var n := WholeLength(s);
      var fraction := if n == |s| then "" else s[n + 1..];
      PaddedDigits(fraction);
      TenDigits();
      NumberBelowPower(s[..n]);
      PowerGrows(n, 10);
      NumberBelowPower(Padded(fraction));
      PaddedLength(fraction);
    }
  }

  lemma PaddedLength(digits: string)
    requires |digits| <= 2
    ensures |Padded(digits)| == 2
    decreases 2 - |digits|
  {
    if |digits| < 2 { PaddedLength(digits + "0"); }
  }

  lemma {:induction false} PowerGrows(a: nat, b: nat)
    requires a <= b
    ensures Power(a) <= Power(b)
    decreases b
  {
    if a < b { PowerGrows(a, b - 1); }
  }

  /** Loading a stored amount, which prints it and parses the text again, loses nothing that parsing ever produced. */
  lemma StoredAmountsSurviveLoading(s: string)
    ensures Parse(s).Some? ==> Parse(Print(Parse(s).value)) == Parse(s)
  {
    if Parse(s).Some? {
      ParserRange(Parse(s).value);
      PrintThenParse(Parse(s).value);
    }
  }
}
