/**
 * Decimal text of integers as Python's `str`, `int` and `str.zfill` write and
 * read it, restricted to ASCII digits.
 */
module Decimal {
  import opened Outcomes
  import opened Strings

  predicate IsDigit(c: char) {
    '0' <= c <= '9'
  }

  predicate AllDigits(s: string) {
    forall i :: 0 <= i < |s| ==> IsDigit(s[i])
  }

  function DigitValue(c: char): (d: nat)
    requires IsDigit(c)
    ensures d < 10
  {
    c as int - '0' as int
  }

  function DigitChar(d: nat): (c: char)
    requires d < 10
    ensures IsDigit(c) && DigitValue(c) == d
  {
    ('0' as int + d) as char
  }

  function Pow10(k: nat): (p: nat)
    ensures p >= 1
  {
    if k == 0 then 1 else 10 * Pow10(k - 1)
  }

  /** The number a string of digits denotes; leading zeros are allowed. */
  function Value(s: string): nat
    requires AllDigits(s)
  {
    if |s| == 0 then 0 else Value(s[..|s| - 1]) * 10 + DigitValue(s[|s| - 1])
  }

  /** `str(n)` for a non-negative integer: digits only, no leading zero. */
  function NatToStr(n: nat): (r: string)
    ensures |r| > 0 && AllDigits(r)
    ensures Value(r) == n
    ensures r[0] == '0' <==> n == 0
  {
    if n < 10 then [DigitChar(n)]
    else
      var r := NatToStr(n / 10) + [DigitChar(n % 10)];
      assert r[..|r| - 1] == NatToStr(n / 10);
      r
  }

  /** `int(s)` for ASCII text: an optional sign, then at least one digit. */
  function ParseInt(s: string): Option<int>
  {
    if |s| > 0 && (s[0] == '+' || s[0] == '-') then
      if |s| > 1 && AllDigits(s[1..]) then
        var v: int := Value(s[1..]);
        Some(if s[0] == '-' then -v else v)
      else None
    else if |s| > 0 && AllDigits(s) then Some(Value(s))
    else None
  }

  /** `str(n)` for any integer; `int` reads it back. */
  function IntToStr(n: int): (r: string)
    ensures |r| > 0
    ensures forall i :: 0 <= i < |r| ==> IsDigit(r[i]) || (i == 0 && r[i] == '-')
    ensures n >= 0 ==> r == NatToStr(n)
  {
    if n < 0 then
      var r := "-" + NatToStr(-n);
      assert r[1..] == NatToStr(-n);
      r
    else NatToStr(n)
  }

  /** `int(str(n)) == n`. */
  lemma IntToStrReadsBack(n: int)
    ensures ParseInt(IntToStr(n)) == Some(n)
  {
    if n < 0 {
      assert IntToStr(n)[1..] == NatToStr(-n);
    }
  }

  function Zeros(k: nat): (z: string)
    ensures |z| == k && AllDigits(z)
  {
    seq(k, _ => '0')
  }

  /** Python's `s.zfill(width)`: '0's on the left (after a leading sign) up to `width`. */
  function ZFill(s: string, width: int): (r: string)
    ensures |r| == if width > |s| then width else |s|
    ensures width <= |s| ==> r == s
    ensures |s| > 0 && (s[0] == '+' || s[0] == '-') ==>
              r[0] == s[0] && (width > |s| ==> r == [s[0]] + Zeros(width - |s|) + s[1..])
    ensures (|s| == 0 || (s[0] != '+' && s[0] != '-')) ==>
              r[|r| - |s|..] == s && forall i :: 0 <= i < |r| - |s| ==> r[i] == '0'
  {
    if width <= |s| then s
    else if |s| > 0 && (s[0] == '+' || s[0] == '-') then [s[0]] + Zeros(width - |s|) + s[1..]
    else Zeros(width - |s|) + s
  }

  // ---------------------------------------------------------------------------
  // Facts about Value and NatToStr

  lemma {:induction false} ValueBound(s: string)
    requires AllDigits(s)
    ensures Value(s) < Pow10(|s|)
    decreases |s|
  {
    if |s| > 0 {
      ValueBound(s[..|s| - 1]);
    }
  }

  /** Leading zeros do not change the number denoted. */
  lemma {:induction false} ValueAfterZeros(k: nat, s: string)
    requires AllDigits(s)
    ensures AllDigits(Zeros(k) + s) && Value(Zeros(k) + s) == Value(s)
    decreases |s|, k
  {
    var z := Zeros(k) + s;
    if |s| == 0 {
      if k > 0 {
        assert z[..|z| - 1] == Zeros(k - 1) + s;
        ValueAfterZeros(k - 1, s);
      }
    } else {
      assert z[..|z| - 1] == Zeros(k) + s[..|s| - 1];
      ValueAfterZeros(k, s[..|s| - 1]);
    }
  }

  /** The leading digit carries weight 10^(|s|-1). */
  lemma {:induction false} ValueFront(s: string)
    requires AllDigits(s) && |s| > 0
    ensures Value(s) == DigitValue(s[0]) * Pow10(|s| - 1) + Value(s[1..])
    decreases |s|
  {
    if |s| == 1 {
      assert s[..0] == [] && s[1..] == [];
    } else {
      var init := s[..|s| - 1];
      ValueFront(init);
      assert init[0] == s[0];
      assert init[1..] == s[1..][..|s[1..]| - 1];
      assert s[1..][|s[1..]| - 1] == s[|s| - 1];
      var d0, p, v, last := DigitValue(s[0]), Pow10(|s| - 2), Value(init[1..]), DigitValue(s[|s| - 1]);
      assert Pow10(|s| - 1) == 10 * p;
      assert Value(s) == Value(init) * 10 + last;
      assert Value(s[1..]) == v * 10 + last;
      Regroup(Value(s), Value(init), Value(s[1..]), v, d0, p, last);
    }
  }

  /** `(d0 * p + v) * 10 + last` regrouped around the leading digit. */
  lemma Regroup(whole: int, init: int, tail: int, v: int, d0: int, p: int, last: int)
    requires whole == init * 10 + last
    requires init == d0 * p + v
    requires tail == v * 10 + last
    ensures whole == d0 * (10 * p) + tail
  {
  }

  /** `str` of a larger number is never shorter. */
  lemma {:induction false} NatToStrLengthMonotone(a: nat, b: nat)
    requires a <= b
    ensures |NatToStr(a)| <= |NatToStr(b)|
    decreases a
  {
    if a >= 10 {
      NatToStrLengthMonotone(a / 10, b / 10);
    }
  }

  /** `str(n)` has k+1 digits exactly when 10^k <= n < 10^(k+1). */
  lemma {:induction false} NatToStrLength(n: nat, k: nat)
    requires Pow10(k) <= n < Pow10(k + 1)
    ensures |NatToStr(n)| == k + 1
    decreases k
  {
    if k > 0 {
      NatToStrLength(n / 10, k - 1);
    }
  }

  /** Zero-filling `str(n)` to a width it fits in gives exactly that many digits denoting `n`. */
  lemma ZFillNat(n: nat, width: int)
    requires |NatToStr(n)| <= width
    ensures |ZFill(NatToStr(n), width)| == width
    ensures AllDigits(ZFill(NatToStr(n), width))
    ensures Value(ZFill(NatToStr(n), width)) == n
  {
    ZFillDigits(NatToStr(n), width);
  }

  /** Zero-filling a digit string keeps the number it denotes. */
  lemma ZFillDigits(s: string, width: int)
    requires |s| > 0 && AllDigits(s) && |s| <= width
    ensures |ZFill(s, width)| == width
    ensures AllDigits(ZFill(s, width))
    ensures Value(ZFill(s, width)) == Value(s)
  {
    assert s[0] != '+' && s[0] != '-' by {
      assert IsDigit(s[0]);
    }
    if width > |s| {
      assert ZFill(s, width) == Zeros(width - |s|) + s;
      ValueAfterZeros(width - |s|, s);
    }
  }

  /** On equal-length digit strings Python's string order is numeric order. */
  lemma {:induction false} LexLessIsNumericOrder(a: string, b: string)
    requires AllDigits(a) && AllDigits(b) && |a| == |b|
    ensures LexLess(a, b) <==> Value(a) < Value(b)
    decreases |a|
  {
    if |a| > 0 {
      ValueFront(a);
      ValueFront(b);
      ValueBound(a[1..]);
      ValueBound(b[1..]);
      LexLessIsNumericOrder(a[1..], b[1..]);
      var da, db := DigitValue(a[0]), DigitValue(b[0]);
      var va, vb := Value(a[1..]), Value(b[1..]);
      var p := Pow10(|a| - 1);
      LeadingDigitDecides(da, db, va, vb, p);
      LeadingDigitDecides(db, da, vb, va, p);
      assert LexLess(a, b) <==> a[0] < b[0] || (a[0] == b[0] && LexLess(a[1..], b[1..]));
      assert a[0] < b[0] <==> da < db;
      assert a[0] == b[0] <==> da == db;
    }
  }

  /** Two numbers written with the same number of digits compare by their leading digit first. */
  lemma LeadingDigitDecides(da: nat, db: nat, va: nat, vb: nat, p: nat)
    requires va < p && vb < p
    ensures da < db ==> da * p + va < db * p + vb
    ensures da == db ==> (da * p + va < db * p + vb <==> va < vb)
  {
    if da < db {
      MulMonotone(da + 1, db, p);
      assert (da + 1) * p == da * p + p;
    }
  }

  lemma MulMonotone(x: nat, y: nat, p: nat)
    requires x <= y
    ensures x * p <= y * p
  {
  }
}
