/** Decimal text: how the engine writes integers, and what a run of digits is worth. */
module Text {
  predicate IsDigit(c: char) {
    '0' <= c <= '9'
  }

  predicate AllDigits(s: string) {
    forall i :: 0 <= i < |s| ==> IsDigit(s[i])
  }

  function DigitChar(d: nat): char
    requires d < 10
  {
    (48 + d) as char
  }

  function DigitValue(c: char): nat
    requires IsDigit(c)
  {
    c as int - 48
  }

  /** An integer in decimal, without leading zeros. */
  function Decimal(n: nat): string {
    if n < 10 then [DigitChar(n)] else Decimal(n / 10) + [DigitChar(n % 10)]
  }

  function SignedDecimal(n: int): string {
    if n < 0 then "-" + Decimal(-n) else Decimal(n)
  }

  function Repeat(c: char, n: nat): string {
    if n == 0 then "" else Repeat(c, n - 1) + [c]
  }

  /** Zero-padded on the left to at least `width` characters. */
  function Padded(n: nat, width: nat): string {
    var digits := Decimal(n);
    if |digits| >= width then digits else Repeat('0', width - |digits|) + digits
  }

  /** The number a run of digits denotes. */
  function Value(s: string): nat
    requires AllDigits(s)
  {
    if s == "" then 0 else 10 * Value(s[..|s| - 1]) + DigitValue(s[|s| - 1])
  }

  function Pow10(n: nat): nat {
    if n == 0 then 1 else 10 * Pow10(n - 1)
  }

  function BoolText(b: bool): string {
    if b then "true" else "false"
  }

  lemma {:induction false} Pow10Positive(n: nat)
    ensures Pow10(n) > 0
  {
    if n > 0 { Pow10Positive(n - 1); }
  }

  lemma {:induction false} Pow10Adds(a: nat, b: nat)
    ensures Pow10(a + b) == Pow10(a) * Pow10(b)
  {
    if b > 0 {
      Pow10Adds(a, b - 1);
      calc {
        Pow10(a + b);
        10 * Pow10(a + (b - 1));
        10 * (Pow10(a) * Pow10(b - 1));
        Pow10(a) * (10 * Pow10(b - 1));
      }
    }
  }

  lemma ValuePush(s: string, c: char)
    requires AllDigits(s) && IsDigit(c)
    ensures AllDigits(s + [c]) && Value(s + [c]) == 10 * Value(s) + DigitValue(c)
  {
  }

  /** Reading back what `Decimal` wrote gives the number. */
  lemma {:induction false} DecimalValue(n: nat)
    ensures Decimal(n) != "" && AllDigits(Decimal(n)) && Value(Decimal(n)) == n
  {
    if n < 10 {
      ValuePush("", DigitChar(n));
      assert "" + [DigitChar(n)] == Decimal(n);
    } else {
      DecimalValue(n / 10);
      ValuePush(Decimal(n / 10), DigitChar(n % 10));
    }
  }

  lemma DecimalInjective(a: nat, b: nat)
    requires Decimal(a) == Decimal(b)
    ensures a == b
  {
    DecimalValue(a);
    DecimalValue(b);
  }

  lemma {:induction false} ValueBound(s: string)
    requires AllDigits(s)
    ensures Value(s) < Pow10(|s|)
  {
    if s != "" { ValueBound(s[..|s| - 1]); }
  }

  lemma ShiftDigits(value: nat, scale: nat, rest: nat, digit: nat)
    ensures 10 * (value * scale + rest) + digit == value * (10 * scale) + (10 * rest + digit)
  {
  }

  lemma {:induction false} ValueConcat(a: string, b: string)
    requires AllDigits(a) && AllDigits(b)
    ensures AllDigits(a + b) && Value(a + b) == Value(a) * Pow10(|b|) + Value(b)
  {
    if b == "" {
      assert a + b == a;
    } else {
      var c, d := b[..|b| - 1], b[|b| - 1];
      ValueConcat(a, c);
      assert a + b == (a + c) + [d] && b == c + [d];
      ValuePush(a + c, d);
      ValuePush(c, d);
      assert Pow10(|b|) == 10 * Pow10(|c|);
      ShiftDigits(Value(a), Pow10(|c|), Value(c), DigitValue(d));
      hide *;
    }
  }

  lemma {:induction false} ZerosValue(n: nat)
    ensures |Repeat('0', n)| == n && AllDigits(Repeat('0', n)) && Value(Repeat('0', n)) == 0
  {
    if n > 0 {
      ZerosValue(n - 1);
      ValuePush(Repeat('0', n - 1), '0');
    }
  }

  lemma {:induction false} DecimalLength(n: nat, width: nat)
    requires n < Pow10(width) && width > 0
    ensures |Decimal(n)| <= width
  {
    assert Pow10(width) == 10 * Pow10(width - 1) && Pow10(0) == 1;
    if n >= 10 { DecimalLength(n / 10, width - 1); }
  }

  lemma {:induction false} LeadingZeros(k: nat, s: string)
    requires AllDigits(s)
    ensures |Repeat('0', k) + s| == k + |s|
    ensures AllDigits(Repeat('0', k) + s) && Value(Repeat('0', k) + s) == Value(s)
  {
    if k == 0 {
      assert Repeat('0', 0) + s == s;
    } else {
      assert Repeat('0', k) + s == Repeat('0', k - 1) + (['0'] + s);
      ValueConcat(['0'], s);
      assert Value(['0']) == 0;
      LeadingZeros(k - 1, ['0'] + s);
    }
  }

  /** A fixed-width rendering of a number that fits has that width and that value. */
  lemma PaddedValue(n: nat, width: nat)
    requires n < Pow10(width) && width > 0
    ensures |Padded(n, width)| == width && AllDigits(Padded(n, width)) && Value(Padded(n, width)) == n
  {
    hide Decimal, Value, Repeat, Pow10;
    DecimalLength(n, width);
    DecimalValue(n);
    LeadingZeros(width - |Decimal(n)|, Decimal(n));
  }

  /** A signed number is its digits, after a minus sign below zero. */
  lemma SignedIsWritten(n: int)
    ensures n >= 0 ==> AllDigits(SignedDecimal(n)) && SignedDecimal(n) != "" && Value(SignedDecimal(n)) == n
    ensures n < 0 ==> |SignedDecimal(n)| > 1 && SignedDecimal(n)[0] == '-'
                      && AllDigits(SignedDecimal(n)[1..]) && Value(SignedDecimal(n)[1..]) == -n
  {
    DecimalValue(if n < 0 then -n else n);
    hide Decimal, Value, AllDigits;
    if n < 0 { assert SignedDecimal(n)[1..] == Decimal(-n); }
  }

  // ---- fixed-point text ---------------------------------------------------------------------

  /** `t` writes `n` with exactly `places` decimals: a point stands before the last `places` characters, all
      others are digits that read as `n`, and there is no needless leading zero. */
  ghost predicate FixedPoint(t: string, places: nat, n: nat) {
    && |t| > places + 1
    && (var whole, fraction := t[..|t| - places - 1], t[|t| - places..];
        && t[|t| - places - 1] == '.' && AllDigits(whole) && AllDigits(fraction)
        && Value(whole + fraction) == n
        && (|whole| > 1 ==> whole[0] != '0'))
  }

  lemma {:induction false} NoLeadingZero(n: nat)
    ensures |Decimal(n)| > 1 ==> Decimal(n)[0] != '0'
  {
    if n >= 10 {
      NoLeadingZero(n / 10);
      if |Decimal(n / 10)| == 1 { assert Decimal(n / 10) == [DigitChar(n / 10)]; }
    }
  }

  /** A whole part and a padded rest make fixed-point text. */
  lemma FixedPointText(whole: nat, rest: nat, places: nat)
    requires places > 0 && rest < Pow10(places)
    ensures FixedPoint(Decimal(whole) + "." + Padded(rest, places), places, whole * Pow10(places) + rest)
  {
    DecimalValue(whole);
    NoLeadingZero(whole);
    PaddedValue(rest, places);
    ValueConcat(Decimal(whole), Padded(rest, places));
    var t := Decimal(whole) + "." + Padded(rest, places);
    assert t[..|t| - places - 1] == Decimal(whole) && t[|t| - places..] == Padded(rest, places);
    hide Decimal, Padded, Value, Pow10;
  }

  // ---- trimming ---------------------------------------------------------------------------

  function TrimEnd(s: string, c: char): string {
    if s != "" && s[|s| - 1] == c then TrimEnd(s[..|s| - 1], c) else s
  }

  lemma {:induction false} TrimEndSplits(s: string, c: char)
    ensures |TrimEnd(s, c)| <= |s|
    ensures s == TrimEnd(s, c) + Repeat(c, |s| - |TrimEnd(s, c)|)
    ensures TrimEnd(s, c) == "" || TrimEnd(s, c)[|TrimEnd(s, c)| - 1] != c
  {
    if s != "" && s[|s| - 1] == c {
      var t := s[..|s| - 1];
      TrimEndSplits(t, c);
      calc {
        s;
        t + [c];
        TrimEnd(t, c) + Repeat(c, |t| - |TrimEnd(t, c)|) + [c];
        TrimEnd(t, c) + (Repeat(c, |t| - |TrimEnd(t, c)|) + [c]);
      }
    }
  }

  lemma {:induction false} TrimEndSuffix(a: string, b: string, c: char)
    requires TrimEnd(b, c) != ""
    ensures TrimEnd(a + b, c) == a + TrimEnd(b, c)
  {
    assert (a + b)[|a + b| - 1] == b[|b| - 1];
    if b[|b| - 1] == c {
      assert (a + b)[..|a + b| - 1] == a + b[..|b| - 1];
      TrimEndSuffix(a, b[..|b| - 1], c);
    }
  }

  /** The position of the first occurrence, or the length when there is none. */
  function IndexOf(s: string, c: char): (i: nat)
    ensures i <= |s|
    ensures forall j :: 0 <= j < i ==> s[j] != c
    ensures i < |s| ==> s[i] == c
  {
    if s == "" || s[0] == c then 0 else 1 + IndexOf(s[1..], c)
  }

  // ---- separators --------------------------------------------------------------------------

  lemma BeyondSeparator(a: string, x: string, c: char, k: int)
    requires |a| < k < |a| + 1 + |x|
    ensures (a + [c] + x)[k] in x
  {
  }

  /** Text up to the last separator is recovered when neither tail holds a separator. */
  lemma LastSeparator(a: string, x: string, b: string, y: string, c: char)
    requires c !in x && c !in y && a + [c] + x == b + [c] + y
    ensures a == b && x == y
  {
    var s := a + [c] + x;
    assert |s| == |b + [c] + y| && s[|a|] == c && s[|b|] == c;
    if |a| < |b| { BeyondSeparator(a, x, c, |b|); }
    if |b| < |a| { BeyondSeparator(b, y, c, |a|); }
    assert s[..|a|] == a && s[..|b|] == b && s[|a| + 1..] == x && s[|b| + 1..] == y;
  }

  lemma BeforeSeparator(a: string, x: string, c: char, k: int)
    requires 0 <= k < |a|
    ensures (a + [c] + x)[k] in a
  {
  }

  /** The same from the left: text up to the first separator is recovered. */
  lemma FirstSeparator(a: string, x: string, b: string, y: string, c: char)
    requires c !in a && c !in b && a + [c] + x == b + [c] + y
    ensures a == b && x == y
  {
    var s := a + [c] + x;
    assert |s| == |b + [c] + y| && s[|a|] == c && s[|b|] == c;
    if |a| < |b| { BeforeSeparator(b, y, c, |a|); }
    if |b| < |a| { BeforeSeparator(a, x, c, |b|); }
    assert s[..|a|] == a && s[..|b|] == b && s[|a| + 1..] == x && s[|b| + 1..] == y;
  }

  lemma DecimalHasOnlyDigits(n: nat, c: char)
    requires !IsDigit(c)
    ensures c !in Decimal(n)
  {
  }
}
