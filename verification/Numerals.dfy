/** Numerals in base ten and sixteen, as the address parsers read them and the printers write them. */
module Numerals {
  datatype Base = Decimal | Hexadecimal

  /** A hexadecimal digit, in either case. */
  predicate IsHexDigit(c: char) {
    '0' <= c <= '9' || 'a' <= c <= 'f' || 'A' <= c <= 'F'
  }

  predicate IsDigit(base: Base, c: char) {
    if base == Decimal then '0' <= c <= '9' else IsHexDigit(c)
  }

  /** The source's `hexval`, and `isdigit` with `c - '0'`: the value of a digit, or -1. */
  function DigitVal(base: Base, c: char): (d: int)
    ensures d < 16 && (base == Decimal ==> d < 10)
    ensures d >= 0 <==> IsDigit(base, c)
  {
    var n := c as int;
    if 48 <= n < 58 then n - 48
    else if base == Decimal then -1
    else
      var lower := if n / 32 % 2 == 0 then n + 32 else n;
      if 97 <= lower < 103 then lower - 97 + 10 else -1
  }

  function DigitChar(d: nat): (c: char)
    requires d < 16
    ensures if d < 10 then '0' <= c <= '9' else 'a' <= c <= 'f'
  {
    if d < 10 then (48 + d) as char else (97 + d - 10) as char
  }

  /** What each character is worth: letters count in either case, and nothing else is a digit. */
  lemma DigitValues(c: char)
    ensures DigitVal(Hexadecimal, c) ==
      if '0' <= c <= '9' then c as int - '0' as int
      else if 'a' <= c <= 'f' then 10 + (c as int - 'a' as int)
      else if 'A' <= c <= 'F' then 10 + (c as int - 'A' as int)
      else -1
    ensures DigitVal(Decimal, c) == if '0' <= c <= '9' then c as int - '0' as int else -1
  {
  }

  lemma DigitBack(base: Base, d: nat)
    requires d < 16 && (base == Decimal ==> d < 10)
    ensures DigitVal(base, DigitChar(d)) == d
  {
  }

  lemma DecimalBack(c: char)
    requires DigitVal(Decimal, c) >= 0
    ensures DigitChar(DigitVal(Decimal, c)) == c && DigitVal(Hexadecimal, c) == DigitVal(Decimal, c)
  {
  }

  function Shift(base: Base, v: nat, d: nat): nat {
    if base == Decimal then 10 * v + d else 16 * v + d
  }

  /** A string of digits, and the number it stands for. */
  predicate Digits(base: Base, t: string) {
    forall i | 0 <= i < |t| :: IsDigit(base, t[i])
  }

  function Value(base: Base, t: string): nat
    requires Digits(base, t)
  {
    if t == [] then 0 else Shift(base, Value(base, t[..|t| - 1]), DigitVal(base, t[|t| - 1]))
  }

  /** The value of up to four digits, place by place. */
  lemma Places(base: Base, t: string)
    requires 1 <= |t| <= 4 && Digits(base, t)
    ensures var r, d := if base == Decimal then 10 else 16, (i: int) requires 0 <= i < |t| => DigitVal(base, t[i]);
      Value(base, t) ==
        if |t| == 1 then d(0)
        else if |t| == 2 then d(0) * r + d(1)
        else if |t| == 3 then (d(0) * r + d(1)) * r + d(2)
        else ((d(0) * r + d(1)) * r + d(2)) * r + d(3)
  {
    hide DigitVal, IsDigit;
    ValueMore(base, t[..1]);
    assert Value(base, t[..1][..0]) == 0;
    if |t| > 1 {
      ValueMore(base, t[..2]);
      assert t[..2][..1] == t[..1];
    }
    if |t| > 2 {
      ValueMore(base, t[..3]);
      assert t[..3][..2] == t[..2];
    }
    if |t| > 3 {
      ValueMore(base, t);
      assert t[..4] == t && t[..4][..3] == t[..3];
    }
    assert t[..|t|] == t;
  }

  lemma ValueMore(base: Base, t: string)
    requires t != [] && Digits(base, t)
    ensures Value(base, t) == Shift(base, Value(base, t[..|t| - 1]), DigitVal(base, t[|t| - 1]))
  {
  }

  /** The shortest numeral of `n`. */
  function Numeral(base: Base, n: nat): (t: string)
    ensures |t| > 0
  {
    if base == Decimal then
      if n < 10 then [DigitChar(n)] else Numeral(base, n / 10) + [DigitChar(n % 10)]
    else
      if n < 16 then [DigitChar(n)] else Numeral(base, n / 16) + [DigitChar(n % 16)]
  }

  lemma {:induction false} NumeralValue(base: Base, n: nat)
    ensures Digits(base, Numeral(base, n)) && Value(base, Numeral(base, n)) == n
  {
    hide DigitVal, DigitChar;
    var low := if base == Decimal then n % 10 else n % 16;
    var high := if base == Decimal then n / 10 else n / 16;
    DigitBack(base, low);
    if high > 0 {
      NumeralValue(base, high);
      assert Numeral(base, n)[..|Numeral(base, n)| - 1] == Numeral(base, high);
    }
  }

  function Power(base: Base, k: nat): nat {
    if k == 0 then 1 else Shift(base, Power(base, k - 1), 0)
  }

  lemma {:induction false} NumeralLength(base: Base, n: nat, k: nat)
    requires k > 0 && n < Power(base, k)
    ensures |Numeral(base, n)| <= k
  {
    if k > 1 {
      if base == Decimal && n >= 10 {
        NumeralLength(base, n / 10, k - 1);
      } else if base == Hexadecimal && n >= 16 {
        NumeralLength(base, n / 16, k - 1);
      }
    }
  }

  lemma NumeralShort(base: Base, n: nat)
    ensures base == Decimal && n < 256 ==> |Numeral(base, n)| <= 3
    ensures base == Decimal && n < 65536 ==> |Numeral(base, n)| <= 5
    ensures base == Hexadecimal && n < 65536 ==> |Numeral(base, n)| <= 4
  {
    hide Numeral;
    assert Power(Decimal, 3) == 1000;
    assert Power(Decimal, 5) == 100 * Power(Decimal, 3);
    assert Power(Hexadecimal, 4) == 256 * Power(Hexadecimal, 2);
    if base == Decimal && n < 65536 {
      NumeralLength(base, n, 5);
      if n < 256 {
        NumeralLength(base, n, 3);
      }
    } else if base == Hexadecimal && n < 65536 {
      NumeralLength(base, n, 4);
    }
  }

  /** Only the numeral of zero starts with a zero. */
  lemma {:induction false} NumeralStart(base: Base, n: nat)
    ensures Numeral(base, n)[0] == '0' <==> n == 0
    ensures Numeral(base, n)[0] == '0' ==> Numeral(base, n) == "0"
  {
    hide DigitVal;
    if base == Decimal && n >= 10 {
      NumeralStart(base, n / 10);
    } else if base == Hexadecimal && n >= 16 {
      NumeralStart(base, n / 16);
    }
  }

  /** A decimal string without a leading zero is the numeral of its value. */
  lemma {:induction false} DecimalCanonical(t: string)
    requires |t| > 0 && Digits(Decimal, t) && (|t| > 1 ==> t[0] != '0')
    ensures Numeral(Decimal, Value(Decimal, t)) == t
    ensures t[0] != '0' ==> Value(Decimal, t) > 0
  {
    var rest, last := t[..|t| - 1], t[|t| - 1];
    DecimalBack(last);
    if |t| > 1 {
      DecimalCanonical(rest);
      assert rest[0] == t[0];
      assert t == rest + [last];
    } else {
      assert t == [last] && Value(Decimal, rest) == 0;
    }
  }

  /** How many leading characters are digits, up to `cap`. */
  function Run(base: Base, s: string, cap: nat): (j: nat)
    ensures j <= |s| && j <= cap && Digits(base, s[..j])
    ensures j < cap && j < |s| ==> DigitVal(base, s[j]) < 0
  {
    if cap == 0 || s == [] || DigitVal(base, s[0]) < 0 then 0
    else
      var j := Run(base, s[1..], cap - 1);
      assert s[..1 + j] == [s[0]] + s[1..][..j];
      1 + j
  }

  /** A string of digits is taken whole when no digit follows it. */
  lemma RunTakes(base: Base, t: string, rest: string, cap: nat)
    requires Digits(base, t) && |t| <= cap
    requires |t| < cap && rest != [] ==> DigitVal(base, rest[0]) < 0
    ensures Run(base, t + rest, cap) == |t| && (t + rest)[..|t|] == t && (t + rest)[|t|..] == rest
  {
  }

  /** Reads up to three or four leading digits, as both parsers do. */
  method ReadNumber(base: Base, s: string, cap: nat) returns (v: nat, j: nat)
    ensures j == Run(base, s, cap) && v == Value(base, s[..j])
  {
    hide DigitVal;
    v, j := 0, 0;
    while j < cap && j < |s| && DigitVal(base, s[j]) >= 0
      invariant j <= cap && j <= |s| && Digits(base, s[..j]) && v == Value(base, s[..j])
    {
      assert s[..j + 1][..j] == s[..j];
      v := Shift(base, v, DigitVal(base, s[j]));
      j := j + 1;
    }
    RunTakes(base, s[..j], s[j..], cap);
    assert s[..j] + s[j..] == s;
  }
}
