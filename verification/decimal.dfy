/**
 * Decimal digit strings: their value, the canonical (shortest) spelling of a
 * natural number, and the fixed-width, most-significant-first view that
 * `write_number` walks with its `divider`.
 */
module Decimal {
  import opened Arith

  function Pow10(k: nat): (r: nat)
    ensures r >= 1
  {
    if k == 0 then 1 else 10 * Pow10(k - 1)
  }

  predicate IsDigit(c: char) {
    '0' <= c <= '9'
  }

  predicate AllDigits(s: string) {
    forall i :: 0 <= i < |s| ==> IsDigit(s[i])
  }

  /** The numeric value of a digit character. */
  function DigitValue(c: char): (d: int)
    ensures IsDigit(c) ==> 0 <= d <= 9
  {
    c as int - '0' as int
  }

  function DigitChar(d: nat): (c: char)
    requires d < 10
    ensures IsDigit(c) && DigitValue(c) == d
  {
    ('0' as int + d) as char
  }

  /** Horner evaluation: `ds` read after an already accumulated `a`. */
  function Fold(a: nat, ds: string): nat
    requires AllDigits(ds)
    decreases |ds|
  {
    if ds == [] then a else Fold(10 * a + DigitValue(ds[0]), ds[1..])
  }

  /** The number a digit string denotes. */
  function ValueOf(ds: string): nat
    requires AllDigits(ds)
  {
    Fold(0, ds)
  }

  /** A spelling without superfluous leading zeros. */
  predicate Canonical(s: string) {
    AllDigits(s) && |s| >= 1 && (s[0] == '0' ==> |s| == 1)
  }

  /** The canonical decimal spelling of `n`, least significant digit last. */
  function DecimalDigits(n: nat): (r: string)
    ensures Canonical(r)
    ensures r == "0" <==> n == 0
    ensures n >= 10 ==> |r| >= 2
  {
    if n < 10 then [DigitChar(n)]
    else DecimalDigits(n / 10) + [DigitChar(n % 10)]
  }

  /** The JSON spelling of an integer (section 6 of RFC 8259): an optional
      minus sign, then the canonical digits of the magnitude. */
  function Spelling(n: int): string {
    (if n < 0 then "-" else "") + DecimalDigits(if n < 0 then -n else n)
  }

  /** Appending a digit multiplies by ten and adds it. */
  lemma {:induction false} FoldSnoc(a: nat, ds: string, c: char)
    requires AllDigits(ds) && IsDigit(c)
    ensures Fold(a, ds + [c]) == 10 * Fold(a, ds) + DigitValue(c)
    decreases |ds|
  {
    if ds != [] {
      assert (ds + [c])[1..] == ds[1..] + [c];
      FoldSnoc(10 * a + DigitValue(ds[0]), ds[1..], c);
    }
  }

  /** Further digits never decrease the value. */
  lemma {:induction false} FoldGrows(a: nat, ds: string)
    requires AllDigits(ds)
    ensures Fold(a, ds) >= a
    decreases |ds|
  {
    if ds != [] {
      FoldGrows(10 * a + DigitValue(ds[0]), ds[1..]);
    }
  }

  /** Reading the canonical spelling gives back the number. */
  lemma {:induction false} ValueOfDecimalDigits(n: nat)
    ensures ValueOf(DecimalDigits(n)) == n
  {
    if n >= 10 {
      ValueOfDecimalDigits(n / 10);
      FoldSnoc(0, DecimalDigits(n / 10), DigitChar(n % 10));
    } else {
      FoldSnoc(0, [], DigitChar(n));
      assert [] + [DigitChar(n)] == DecimalDigits(n);
    }
  }

  /** Spelling the value of a canonical string gives back the string. */
  lemma {:induction false} DecimalDigitsOfValue(s: string)
    requires Canonical(s)
    ensures DecimalDigits(ValueOf(s)) == s
    decreases |s|
  {
    if |s| == 1 {
      assert s == [] + [s[0]];
      FoldSnoc(0, [], s[0]);
      assert DigitChar(DigitValue(s[0])) == s[0];
    } else {
      var p, l := s[..|s| - 1], s[|s| - 1];
      assert s == p + [l];
      assert Canonical(p);
      FoldSnoc(0, p, l);
      FoldGrows(DigitValue(p[0]), p[1..]);
      assert ValueOf(p) >= 1;
      var v := ValueOf(s);
      assert v == 10 * ValueOf(p) + DigitValue(l);
      assert v / 10 == ValueOf(p) && v % 10 == DigitValue(l);
      DecimalDigitsOfValue(p);
      assert DigitChar(DigitValue(l)) == l;
    }
  }

  /** The digit of `val` at place `10^k`. */
  function Place(val: nat, k: nat): (d: nat)
    ensures d < 10
  {
    (val / Pow10(k)) % 10
  }

  /** The `k + 1` lowest places of `val`, most significant first, with leading zeros. */
  function Digits(val: nat, k: nat): (r: string)
    ensures |r| == k + 1 && AllDigits(r)
  {
    [DigitChar(Place(val, k))] + (if k == 0 then [] else Digits(val, k - 1))
  }

  /** Drop leading zeros, keeping at least one digit. */
  function Strip(s: string): (r: string)
    ensures |r| <= |s| && (|s| >= 1 ==> |r| >= 1)
  {
    if |s| > 1 && s[0] == '0' then Strip(s[1..]) else s
  }

  /** The fixed-width view can also be peeled from the low end. */
  lemma {:induction false} DigitsLow(val: nat, k: nat)
    requires k >= 1
    ensures Digits(val, k) == Digits(val / 10, k - 1) + [DigitChar(val % 10)]
    decreases k
  {
    var low := [DigitChar(val % 10)];
    assert Pow10(k) == 10 * Pow10(k - 1);
    DivDiv(val, 10, Pow10(k - 1));
    var top := [DigitChar(Place(val, k))];
    assert top == [DigitChar(Place(val / 10, k - 1))];
    assert Digits(val, k) == top + Digits(val, k - 1);
    if k == 1 {
      assert Place(val, 0) == val % 10;
      assert Digits(val, 0) == low;
      assert Digits(val / 10, 0) == top;
    } else {
      DigitsLow(val, k - 1);
      assert Digits(val, k - 1) == Digits(val / 10, k - 2) + low;
      assert Digits(val / 10, k - 1) == top + Digits(val / 10, k - 2);
      assert top + (Digits(val / 10, k - 2) + low) == (top + Digits(val / 10, k - 2)) + low;
    }
  }

  /** Stripping commutes with appending a digit, except after a lone zero. */
  lemma {:induction false} StripSnoc(x: string, c: char)
    requires |x| >= 1
    ensures Strip(x + [c]) == if Strip(x) == "0" then [c] else Strip(x) + [c]
    decreases |x|
  {
    if |x| > 1 && x[0] == '0' {
      assert (x + [c])[1..] == x[1..] + [c];
      StripSnoc(x[1..], c);
    } else if |x| == 1 && x[0] == '0' {
      assert x == "0";
      assert (x + [c])[1..] == [c];
    }
  }

  /** Stripping a wide enough fixed-width view gives the canonical spelling. */
  lemma {:induction false} StripDigits(val: nat, k: nat)
    requires val < Pow10(k + 1)
    ensures Strip(Digits(val, k)) == DecimalDigits(val)
    decreases k
  {
    if k == 0 {
      assert Place(val, 0) == val;
    } else {
      DigitsLow(val, k);
      StripDigits(val / 10, k - 1);
      StripSnoc(Digits(val / 10, k - 1), DigitChar(val % 10));
    }
  }
}
