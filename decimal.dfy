/**
 * Decimal numerals: what Python's `int()` reads from a run of ASCII digits and
 * what the `d` format specifier (`f"{n:02d}"`, `f"{n:04d}"`) writes back.
 */
module Decimal {

  predicate IsDigit(c: char)
  {
    '0' <= c <= '9'
  }

  /** Every character is a digit (the empty string qualifies). */
  predicate AllDigits(s: string)
  {
    forall i :: 0 <= i < |s| ==> IsDigit(s[i])
  }

  /** A numeral: a non-empty run of digits, the only input `int()` accepts in this model. */
  predicate IsNumeral(s: string)
  {
    |s| > 0 && AllDigits(s)
  }

  function DigitValue(c: char): nat
    requires IsDigit(c)
  {
    c as int - '0' as int
  }

  function DigitChar(d: nat): (c: char)
    requires d < 10
    ensures IsDigit(c) && DigitValue(c) == d
  {
    ('0' as int + d) as char
  }

  function Pow10(k: nat): (p: nat)
    ensures p >= 1
  {
    if k == 0 then 1 else 10 * Pow10(k - 1)
  }

  /** The number a digit string denotes (leading zeros allowed; "" denotes 0). */
  function Value(s: string): nat
    requires AllDigits(s)
  {
    if s == [] then 0 else Value(s[..|s| - 1]) * 10 + DigitValue(s[|s| - 1])
  }

  /** The shortest numeral of `n`, as Python's `str(n)` writes it. */
  function ToDecimal(n: nat): (s: string)
    ensures IsNumeral(s)
  {
    if n < 10 then [DigitChar(n)] else ToDecimal(n / 10) + [DigitChar(n % 10)]
  }

  function Zeros(k: nat): (s: string)
    ensures |s| == k && AllDigits(s)
  {
    seq(k, _ => '0')
  }

  /** `s` with zeros in front until it is `w` characters long. */
  function PadLeft(s: string, w: nat): (r: string)
    ensures |r| == if |s| < w then w else |s|
  {
    if |s| < w then Zeros(w - |s|) + s else s
  }

  /** `f"{n:0wd}"` for a non-negative `n`. */
  function ZeroPad(n: nat, w: nat): string
  {
    PadLeft(ToDecimal(n), w)
  }

  /** `f"{n:0wd}"` for any integer: the sign counts toward the width and the zeros follow it. */
  function FormatInt(n: int, w: nat): string
  {
    if n < 0 then "-" + ZeroPad(-n, if w > 0 then w - 1 else 0) else ZeroPad(n, w)
  }

  lemma ZeroPadIsNumeral(n: nat, w: nat)
    ensures IsNumeral(ZeroPad(n, w))
  {
    var d := ToDecimal(n);
    if |d| < w {
      var r := Zeros(w - |d|) + d;
      assert forall i :: 0 <= i < |r| ==> IsDigit(r[i]) by {
        forall i | 0 <= i < |r| ensures IsDigit(r[i]) {
          if i >= w - |d| { assert r[i] == d[i - (w - |d|)]; }
        }
      }
    }
  }

  lemma {:induction false} ValueOfToDecimal(n: nat)
    ensures Value(ToDecimal(n)) == n
  {
    var s := ToDecimal(n);
    if n < 10 {
      assert s[..|s| - 1] == [];
    } else {
      ValueOfToDecimal(n / 10);
      assert s[..|s| - 1] == ToDecimal(n / 10);
    }
  }

  lemma {:induction false} ValueOfZeros(k: nat)
    ensures Value(Zeros(k)) == 0
  {
    if k > 0 {
      ValueOfZeros(k - 1);
      assert Zeros(k)[..k - 1] == Zeros(k - 1);
    }
  }

  lemma AllDigitsAppend(a: string, b: string)
    requires AllDigits(a) && AllDigits(b)
    ensures AllDigits(a + b)
  {
    forall i | 0 <= i < |a + b| ensures IsDigit((a + b)[i]) {
      if i >= |a| { assert (a + b)[i] == b[i - |a|]; }
    }
  }

  lemma ShiftStep(x: nat, p: nat, y: nat, c: nat)
    ensures (x * p + y) * 10 + c == x * (10 * p) + (y * 10 + c)
  {
  }

  /** Reading a concatenation: the left part is shifted by the width of the right part. */
  lemma {:induction false} ValueAppend(a: string, b: string)
    requires AllDigits(a) && AllDigits(b)
    ensures AllDigits(a + b)
    ensures Value(a + b) == Value(a) * Pow10(|b|) + Value(b)
  {
    AllDigitsAppend(a, b);
    if b == [] {
      assert a + b == a;
    } else {
      var b', c := b[..|b| - 1], b[|b| - 1];
      ValueAppend(a, b');
      assert (a + b)[..|a + b| - 1] == a + b';
      assert (a + b)[|a + b| - 1] == c;
      assert Value(a + b) == Value(a + b') * 10 + DigitValue(c);
      assert Value(b) == Value(b') * 10 + DigitValue(c);
      ShiftStep(Value(a), Pow10(|b'|), Value(b'), DigitValue(c));
    }
  }

  /** Leading zeros do not change the value. */
  lemma ValueOfZeroPadded(k: nat, s: string)
    requires AllDigits(s)
    ensures AllDigits(Zeros(k) + s) && Value(Zeros(k) + s) == Value(s)
  {
    ValueAppend(Zeros(k), s);
    ValueOfZeros(k);
  }

  /** Python's `int(f"{n:0wd}") == n`. */
  lemma ValueOfZeroPad(n: nat, w: nat)
    ensures IsNumeral(ZeroPad(n, w)) && Value(ZeroPad(n, w)) == n
  {
    ZeroPadIsNumeral(n, w);
    ValueOfToDecimal(n);
    var d := ToDecimal(n);
    if |d| < w { ValueOfZeroPadded(w - |d|, d); }
  }

  lemma {:induction false} ZeroValueIsZeros(s: string)
    requires AllDigits(s) && Value(s) == 0
    ensures s == Zeros(|s|)
  {
    if s != [] {
      var s' := s[..|s| - 1];
      var v := Value(s');
      assert v * 10 + DigitValue(s[|s| - 1]) == 0;
      assert v == 0 && DigitValue(s[|s| - 1]) == 0;
      ZeroValueIsZeros(s');
      assert s == s' + [s[|s| - 1]];
      assert s[|s| - 1] == '0';
    }
  }

  /**
   * A numeral already written with exactly its own width comes back unchanged:
   * `f"{int(d):0{len(d)}d}" == d`, leading zeros included.
   */
  lemma {:induction false} ZeroPadOfValue(d: string)
    requires IsNumeral(d)
    ensures ZeroPad(Value(d), |d|) == d
  {
    var d', c := d[..|d| - 1], d[|d| - 1];
    assert d == d' + [c];
    var n := Value(d);
    assert n == Value(d') * 10 + DigitValue(c);
    assert DigitChar(DigitValue(c)) == c;
    if n < 10 {
      assert Value(d') == 0;
      ZeroValueIsZeros(d');
      assert ToDecimal(n) == [c];
      assert ZeroPad(n, |d|) == Zeros(|d'|) + [c];
    } else {
      assert n / 10 == Value(d') && n % 10 == DigitValue(c);
      ZeroPadOfValue(d');
      var x := ToDecimal(Value(d'));
      assert ToDecimal(n) == x + [c];
      assert |x| <= |d'|;
      if |x| < |d'| {
        assert ZeroPad(n, |d|) == (Zeros(|d'| - |x|) + x) + [c];
      }
    }
  }

  /** `str(n)` never needs more than `k` digits for `n < 10^k`. */
  lemma {:induction false} ToDecimalLength(n: nat, k: nat)
    requires 1 <= k && n < Pow10(k)
    ensures |ToDecimal(n)| <= k
  {
    if n >= 10 {
      assert k >= 2;
      ToDecimalLength(n / 10, k - 1);
    }
  }
}
