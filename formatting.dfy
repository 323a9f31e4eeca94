/**
 * The two display conventions of the application (app.py:57-81):
 * month tokens, stored as `YYYY-MM` and shown as `MM/YYYY`, and Brazilian
 * currency, `R$ 1.234,50`. Amounts are integer cents here, so the value
 * Python formats with `f"{v:,.2f}"` is `cents / 100` exactly.
 */
module Formatting {
  import opened Wrappers
  import opened Decimal
  import opened Text

  // ---------------------------------------------------------------------
  // Month tokens
  // ---------------------------------------------------------------------

  /** `'2026-02' -> '02/2026'`; anything that does not split into two numerals comes back unchanged. */
  function MesToDisplay(mes: string): string
  {
    var parts := Split(mes, '-');
    if |parts| == 2 && IsNumeral(parts[0]) && IsNumeral(parts[1])
    then ZeroPad(Value(parts[1]), 2) + "/" + ZeroPad(Value(parts[0]), 4)
    else mes
  }

  /** `'02/2026' -> '2026-02'`; anything that does not split into two numerals comes back unchanged. */
  function DisplayToMes(display: string): string
  {
    var parts := Split(display, '/');
    if |parts| == 2 && IsNumeral(parts[0]) && IsNumeral(parts[1])
    then ZeroPad(Value(parts[1]), 4) + "-" + ZeroPad(Value(parts[0]), 2)
    else display
  }

  /** The stored form: four year digits, a hyphen, two month digits. */
  predicate IsMesToken(t: string)
  {
    |t| == 7 && t[4] == '-' && IsNumeral(t[..4]) && IsNumeral(t[5..])
  }

  /** The display form: two month digits, a slash, four year digits. */
  predicate IsDisplayToken(d: string)
  {
    |d| == 7 && d[2] == '/' && IsNumeral(d[..2]) && IsNumeral(d[3..])
  }

  /** `mes_to_display` succeeds: one hyphen with a numeral on each side (any widths). */
  predicate ParsesAsMes(t: string)
  {
    var parts := Split(t, '-');
    |parts| == 2 && IsNumeral(parts[0]) && IsNumeral(parts[1])
  }

  lemma NumeralHasNoSeparators(s: string)
    requires AllDigits(s)
    ensures '-' !in s && '/' !in s
  {
    forall i | 0 <= i < |s| ensures s[i] != '-' && s[i] != '/' {
      assert IsDigit(s[i]);
    }
  }

  lemma {:induction false} MesToDisplayOfParts(y: string, m: string)
    requires IsNumeral(y) && IsNumeral(m)
    ensures MesToDisplay(y + "-" + m) == ZeroPad(Value(m), 2) + "/" + ZeroPad(Value(y), 4)
  {
    NumeralHasNoSeparators(y);
    NumeralHasNoSeparators(m);
    SplitAtSeparator(y, m, '-');
  }

  lemma {:induction false} DisplayToMesOfParts(m: string, y: string)
    requires IsNumeral(m) && IsNumeral(y)
    ensures DisplayToMes(m + "/" + y) == ZeroPad(Value(y), 4) + "-" + ZeroPad(Value(m), 2)
  {
    NumeralHasNoSeparators(y);
    NumeralHasNoSeparators(m);
    SplitAtSeparator(m, y, '/');
  }

  /** A stored token survives the trip to the display form and back. */
  lemma {:induction false} MesRoundTrip(t: string)
    requires IsMesToken(t)
    ensures IsDisplayToken(MesToDisplay(t))
    ensures DisplayToMes(MesToDisplay(t)) == t
  {
    var y, m := t[..4], t[5..];
    assert t == y + "-" + m;
    MesToDisplayOfParts(y, m);
    ZeroPadOfValue(y);
    ZeroPadOfValue(m);
    var d := m + "/" + y;
    assert MesToDisplay(t) == d;
    assert d[..2] == m && d[3..] == y;
    DisplayToMesOfParts(m, y);
  }

  /** A display token survives the trip to the stored form and back. */
  lemma {:induction false} DisplayRoundTrip(d: string)
    requires IsDisplayToken(d)
    ensures IsMesToken(DisplayToMes(d))
    ensures MesToDisplay(DisplayToMes(d)) == d
  {
    var m, y := d[..2], d[3..];
    assert d == m + "/" + y;
    DisplayToMesOfParts(m, y);
    ZeroPadOfValue(y);
    ZeroPadOfValue(m);
    var t := y + "-" + m;
    assert DisplayToMes(d) == t;
    assert t[..4] == y && t[5..] == m;
    MesToDisplayOfParts(y, m);
  }

  /**
   * For every token `mes_to_display` accepts, whatever the widths of its
   * numerals (`2026-2`, `02026-002`), the displayed form is a fixed point of
   * converting back and displaying again.
   */
  lemma {:induction false} DisplayIsStable(t: string)
    requires ParsesAsMes(t)
    ensures MesToDisplay(DisplayToMes(MesToDisplay(t))) == MesToDisplay(t)
  {
    var parts := Split(t, '-');
    var y, m := parts[0], parts[1];
    var dm, dy := ZeroPad(Value(m), 2), ZeroPad(Value(y), 4);
    ValueOfZeroPad(Value(m), 2);
    ValueOfZeroPad(Value(y), 4);
    assert MesToDisplay(t) == dm + "/" + dy;
    DisplayToMesOfParts(dm, dy);
    MesToDisplayOfParts(ZeroPad(Value(y), 4), ZeroPad(Value(m), 2));
  }

  /** Without exactly one hyphen, `mes_to_display` returns its input. */
  lemma MesWithoutOneHyphenUnchanged(t: string)
    requires multiset(t)['-'] != 1
    ensures MesToDisplay(t) == t
  {
    SplitCount(t, '-');
  }

  /** Without exactly one slash, `display_to_mes` returns its input. */
  lemma DisplayWithoutOneSlashUnchanged(d: string)
    requires multiset(d)['/'] != 1
    ensures DisplayToMes(d) == d
  {
    SplitCount(d, '/');
  }

  // ---------------------------------------------------------------------
  // Currency
  // ---------------------------------------------------------------------

  /** Python's `,` grouping option: a comma before every three digits from the right. */
  function GroupThousands(d: string): string
    decreases |d|
  {
    if |d| <= 3 then d else GroupThousands(d[..|d| - 3]) + "," + d[|d| - 3..]
  }

  /** `f"{v:,.2f}"` for `v = a / 100 >= 0`: grouped units, a point, two digits of cents. */
  function UnsignedFixedPoint(a: nat): string
  {
    GroupThousands(ToDecimal(a / 100)) + "." + ZeroPad(a % 100, 2)
  }

  /** `f"{v:,.2f}"` for `v = cents / 100`. */
  function FixedPoint(cents: int): string
  {
    if cents < 0 then "-" + UnsignedFixedPoint(-cents) else UnsignedFixedPoint(cents)
  }

  /** `.replace(",", "X").replace(".", ",").replace("X", ".")`. */
  function SwapSeparators(s: string): string
  {
    Replace(Replace(Replace(s, ',', 'X'), '.', ','), 'X', '.')
  }

  /** `brl(v)` for a numeric `v` of `cents / 100`. */
  function Brl(cents: int): string
  {
    "R$ " + SwapSeparators(FixedPoint(cents))
  }

  /** `brl(value)`: `None` stands for a value `float()` rejects, which is formatted as 0. */
  function BrlOf(value: Option<int>): string
  {
    Brl(value.GetOr(0))
  }

  /** The digits of `s`, separators and signs dropped. */
  function DigitsOf(s: string): (r: string)
    ensures AllDigits(r)
  {
    if s == [] then [] else (if IsDigit(s[0]) then [s[0]] else []) + DigitsOf(s[1..])
  }

  /**
   * Reads back an amount written by `brl`: the prefix `R$ `, an optional minus
   * sign, then the digits of the amount in cents.
   */
  function ParseBrl(s: string): Option<int>
  {
    if |s| < 3 || s[..3] != "R$ " then None
    else
      var body := s[3..];
      var negative := |body| > 0 && body[0] == '-';
      var digits := DigitsOf(if negative then body[1..] else body);
      if digits == [] then None
      else
        var v: int := Value(digits);
        Some(if negative then -v else v)
  }

  /** Away from 'X', the replace chain exchanges ',' and '.' and keeps every other character. */
  lemma SwapSeparatorsAt(s: string, i: nat)
    requires 'X' !in s && i < |s|
    ensures |SwapSeparators(s)| == |s|
    ensures SwapSeparators(s)[i] == if s[i] == ',' then '.' else if s[i] == '.' then ',' else s[i]
  {
    var s1 := Replace(s, ',', 'X');
    var s2 := Replace(s1, '.', ',');
    ReplaceAt(s, ',', 'X', i);
    ReplaceAt(s1, '.', ',', i);
    ReplaceAt(s2, 'X', '.', i);
  }

  lemma SwapSeparatorsConcat(x: string, y: string)
    ensures SwapSeparators(x + y) == SwapSeparators(x) + SwapSeparators(y)
  {
    ReplaceConcat(x, y, ',', 'X');
    ReplaceConcat(Replace(x, ',', 'X'), Replace(y, ',', 'X'), '.', ',');
    ReplaceConcat(Replace(Replace(x, ',', 'X'), '.', ','), Replace(Replace(y, ',', 'X'), '.', ','), 'X', '.');
  }

  lemma {:induction false} DigitsOfConcat(x: string, y: string)
    ensures DigitsOf(x + y) == DigitsOf(x) + DigitsOf(y)
  {
    if x == [] {
      assert x + y == y;
    } else {
      assert (x + y)[0] == x[0] && (x + y)[1..] == x[1..] + y;
      DigitsOfConcat(x[1..], y);
      var h := if IsDigit(x[0]) then [x[0]] else [];
      assert DigitsOf(x + y) == h + DigitsOf(x[1..] + y);
      assert DigitsOf(x) == h + DigitsOf(x[1..]);
    }
  }

  lemma {:induction false} DigitsOfDigits(s: string)
    requires AllDigits(s)
    ensures DigitsOf(s) == s
  {
    if s != [] {
      DigitsOfDigits(s[1..]);
      assert s == [s[0]] + s[1..];
    }
  }

  lemma {:induction false} DigitsOfReplace(s: string, a: char, b: char)
    requires !IsDigit(a) && !IsDigit(b)
    ensures DigitsOf(Replace(s, a, b)) == DigitsOf(s)
  {
    if s != [] {
      DigitsOfReplace(s[1..], a, b);
    }
  }

  lemma DigitsOfSwapSeparators(s: string)
    ensures DigitsOf(SwapSeparators(s)) == DigitsOf(s)
  {
    DigitsOfReplace(s, ',', 'X');
    DigitsOfReplace(Replace(s, ',', 'X'), '.', ',');
    DigitsOfReplace(Replace(Replace(s, ',', 'X'), '.', ','), 'X', '.');
  }

  lemma NoLettersInDigits(s: string)
    requires AllDigits(s)
    ensures '.' !in s && ',' !in s && 'X' !in s && '-' !in s
  {
    forall i | 0 <= i < |s| ensures s[i] != '.' && s[i] != ',' && s[i] != 'X' && s[i] != '-' {
      assert IsDigit(s[i]);
    }
  }

  /** Grouping inserts only commas: the digits are kept, in order. */
  lemma {:induction false} GroupThousandsDigits(d: string)
    requires AllDigits(d)
    ensures DigitsOf(GroupThousands(d)) == d
    decreases |d|
  {
    if |d| <= 3 {
      DigitsOfDigits(d);
    } else {
      var hi, lo := d[..|d| - 3], d[|d| - 3..];
      var g := GroupThousands(hi);
      assert GroupThousands(d) == (g + ",") + lo;
      GroupThousandsDigits(hi);
      DigitsOfConcat(g + ",", lo);
      DigitsOfConcat(g, ",");
      assert DigitsOf(",") == [];
      DigitsOfDigits(lo);
      assert DigitsOf(GroupThousands(d)) == hi + lo;
      assert hi + lo == d;
    }
  }

  lemma {:induction false} GroupThousandsFirst(d: string)
    requires |d| > 0
    ensures |GroupThousands(d)| > 0 && GroupThousands(d)[0] == d[0]
    decreases |d|
  {
    if |d| > 3 {
      GroupThousandsFirst(d[..|d| - 3]);
    }
  }

  lemma {:induction false} GroupThousandsNoPoint(d: string)
    requires AllDigits(d)
    ensures '.' !in GroupThousands(d) && 'X' !in GroupThousands(d)
    decreases |d|
  {
    if |d| <= 3 {
      NoLettersInDigits(d);
    } else {
      var hi, lo := d[..|d| - 3], d[|d| - 3..];
      GroupThousandsNoPoint(hi);
      NoLettersInDigits(lo);
      assert GroupThousands(d) == GroupThousands(hi) + "," + lo;
    }
  }

  /** The two digits after the decimal point. */
  lemma CentsDigits(a: nat)
    ensures |ZeroPad(a % 100, 2)| == 2 && AllDigits(ZeroPad(a % 100, 2))
    ensures Value(ZeroPad(a % 100, 2)) == a % 100
  {
    ToDecimalLength(a % 100, 2);
    ValueOfZeroPad(a % 100, 2);
  }

  /** The unsigned part starts with a digit and holds no 'X'. */
  lemma {:induction false} UnsignedFixedPointChars(a: nat)
    ensures var x := UnsignedFixedPoint(a); |x| > 0 && IsDigit(x[0]) && 'X' !in x
  {
    var whole, frac := ToDecimal(a / 100), ZeroPad(a % 100, 2);
    var g := GroupThousands(whole);
    GroupThousandsFirst(whole);
    GroupThousandsNoPoint(whole);
    ZeroPadIsNumeral(a % 100, 2);
    NoLettersInDigits(frac);
    var x := g + "." + frac;
    assert x == UnsignedFixedPoint(a);
    assert x[0] == g[0];
  }

  /** The digits of the unsigned part spell the amount in cents. */
  lemma {:induction false} UnsignedFixedPointDigits(a: nat)
    ensures Value(DigitsOf(UnsignedFixedPoint(a))) == a
  {
    var whole, frac := ToDecimal(a / 100), ZeroPad(a % 100, 2);
    var g := GroupThousands(whole);
    CentsDigits(a);
    GroupThousandsDigits(whole);
    DigitsOfConcat(g + ".", frac);
    DigitsOfConcat(g, ".");
    assert DigitsOf(".") == [];
    DigitsOfDigits(frac);
    assert DigitsOf(UnsignedFixedPoint(a)) == whole + frac;
    ValueAppend(whole, frac);
    ValueOfToDecimal(a / 100);
    assert Pow10(2) == 100;
  }

  /**
   * `brl` loses nothing: reading its output back gives the amount it formatted,
   * sign included.
   */
  lemma {:induction false} BrlRoundTrip(cents: int)
    ensures ParseBrl(Brl(cents)) == Some(cents)
  {
    var a: nat := if cents < 0 then -cents else cents;
    var x := UnsignedFixedPoint(a);
    UnsignedFixedPointChars(a);
    UnsignedFixedPointDigits(a);
    DigitsOfSwapSeparators(x);
    var r := Brl(cents);
    var body := SwapSeparators(FixedPoint(cents));
    assert r[..3] == "R$ " && r[3..] == body;
    if cents < 0 {
      SwapSeparatorsConcat("-", x);
      assert SwapSeparators("-") == "-";
      assert body == "-" + SwapSeparators(x);
      assert body[1..] == SwapSeparators(x);
    } else {
      SwapSeparatorsAt(x, 0);
      assert body[0] == x[0];
    }
  }

  /** Python's fixed-point text: no 'X', one point, two digits after it. */
  lemma {:induction false} FixedPointShape(cents: int)
    ensures var f := FixedPoint(cents);
      |f| >= 4 && 'X' !in f && f[|f| - 3] == '.' && IsDigit(f[|f| - 2]) && IsDigit(f[|f| - 1])
      && (forall j :: 0 <= j < |f| - 3 ==> f[j] != '.')
  {
    var a: nat := if cents < 0 then -cents else cents;
    var whole, frac := ToDecimal(a / 100), ZeroPad(a % 100, 2);
    var g := GroupThousands(whole);
    GroupThousandsNoPoint(whole);
    GroupThousandsFirst(whole);
    CentsDigits(a);
    NoLettersInDigits(frac);
    var sign := if cents < 0 then "-" else "";
    var f := sign + (g + "." + frac);
    assert f == FixedPoint(cents);
    var n := |f|;
    assert n == |sign| + |g| + 3;
    assert f[n - 3] == '.' && f[n - 2] == frac[0] && f[n - 1] == frac[1];
    forall j | 0 <= j < n - 3 ensures f[j] != '.' {
      if j >= |sign| { assert f[j] == g[j - |sign|]; }
    }
  }

  /**
   * The shape of every `brl` result: the prefix `R$ `, then a single decimal
   * comma followed by exactly two digits.
   */
  lemma {:induction false} BrlShape(cents: int)
    ensures var r := Brl(cents);
      |r| >= 7 && r[..3] == "R$ " && r[|r| - 3] == ','
      && IsDigit(r[|r| - 2]) && IsDigit(r[|r| - 1])
      && (forall i :: 0 <= i < |r| - 3 ==> r[i] != ',')
  {
    var f := FixedPoint(cents);
    FixedPointShape(cents);
    var n := |f|;
    var sw := SwapSeparators(f);
    var r := "R$ " + sw;
    assert r == Brl(cents);
    SwapSeparatorsAt(f, n - 3);
    SwapSeparatorsAt(f, n - 2);
    SwapSeparatorsAt(f, n - 1);
    assert r[|r| - 3] == sw[n - 3] && r[|r| - 2] == sw[n - 2] && r[|r| - 1] == sw[n - 1];
    forall i | 0 <= i < |r| - 3 ensures r[i] != ',' {
      if i >= 3 {
        SwapSeparatorsAt(f, i - 3);
        assert r[i] == sw[i - 3];
      }
    }
  }

  /** A string with the separators of `s` exchanged, character by character, is `SwapSeparators(s)`. */
  lemma SwapSeparatorsIs(s: string, t: string)
    requires 'X' !in s && |t| == |s|
    requires forall i :: 0 <= i < |s| ==> t[i] == if s[i] == ',' then '.' else if s[i] == '.' then ',' else s[i]
    ensures SwapSeparators(s) == t
  {
    forall i | 0 <= i < |s| ensures SwapSeparators(s)[i] == t[i] {
      SwapSeparatorsAt(s, i);
    }
    if |s| > 0 { SwapSeparatorsAt(s, 0); }
  }

  lemma Decimal1234(n: nat)
    requires n == 1234
    ensures ToDecimal(n) == "1234"
  {
    assert ToDecimal(1) == "1";
    assert ToDecimal(12) == "12";
    assert ToDecimal(123) == "123";
  }

  lemma Grouped1234(d: string)
    requires d == "1234"
    ensures GroupThousands(d) == "1,234"
  {
    assert d[..1] == "1" && d[1..] == "234";
  }

  lemma Decimal80(n: nat)
    requires n == 80
    ensures ToDecimal(n) == "80"
  {
    assert ToDecimal(8) == "8";
  }

  lemma TwoDigits(n: nat)
    requires n == 50 || n == 0
    ensures ZeroPad(n, 2) == if n == 50 then "50" else "00"
  {
    assert ToDecimal(5) == "5";
    assert Zeros(1) == "0";
  }

  lemma FixedThousands(cents: int)
    requires cents == 123450
    ensures FixedPoint(cents) == "1,234.50"
  {
    Decimal1234(cents / 100);
    Grouped1234(ToDecimal(cents / 100));
    TwoDigits(cents % 100);
  }

  lemma FixedZero(cents: int)
    requires cents == 0
    ensures FixedPoint(cents) == "0.00"
  {
    TwoDigits(cents % 100);
  }

  lemma FixedNegative(cents: int)
    requires cents == -8000
    ensures FixedPoint(cents) == "-80.00"
  {
    Decimal80(-cents / 100);
    TwoDigits(-cents % 100);
  }

  lemma SwapThousands(cents: int, f: string)
    requires FixedPoint(cents) == f && f == "1,234.50"
    ensures Brl(cents) == "R$ 1.234,50"
  {
    SwapSeparatorsIs(f, "1.234,50");
  }

  lemma SwapZero(s: string)
    requires s == "0.00"
    ensures SwapSeparators(s) == "0,00"
  {
    SwapSeparatorsIs(s, "0,00");
  }

  lemma SwapNegative(cents: int, f: string)
    requires FixedPoint(cents) == f && f == "-80.00"
    ensures Brl(cents) == "R$ -80,00"
  {
    SwapSeparatorsIs(f, "-80,00");
  }

  /** `brl(1234.5)`. */
  lemma BrlThousands(cents: int)
    requires cents == 123450
    ensures Brl(cents) == "R$ 1.234,50"
  {
    FixedThousands(cents);
    SwapThousands(cents, FixedPoint(cents));
  }

  /** `brl("not-a-number")`. */
  lemma BrlNotANumber(value: Option<int>)
    requires value == None
    ensures BrlOf(value) == "R$ 0,00"
  {
    FixedZero(value.GetOr(0));
    SwapZero(FixedPoint(0));
  }

  /** A negative total keeps its sign. */
  lemma BrlNegative(cents: int)
    requires cents == -8000
    ensures Brl(cents) == "R$ -80,00"
  {
    FixedNegative(cents);
    SwapNegative(cents, FixedPoint(cents));
  }
}
