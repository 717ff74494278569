/** Decimal digit strings: the fixed-width fields of an ISO date and the
    rendering of an `Int` by `toString()`. */
module Digits {
  import opened Maybe
  import opened Text

  function Pow10(n: nat): (r: nat)
    ensures r >= 1
  {
    if n == 0 then 1 else 10 * Pow10(n - 1)
  }

  predicate IsDigit(c: char) {
    '0' <= c <= '9'
  }

  predicate AllDigits(s: string) {
    forall i :: 0 <= i < |s| ==> IsDigit(s[i])
  }

  function DigitValue(c: char): (v: nat)
    requires IsDigit(c)
    ensures v < 10
  {
    c as int - '0' as int
  }

  function Digit(v: nat): (c: char)
    requires v < 10
    ensures IsDigit(c) && DigitValue(c) == v
  {
    ('0' as int + v) as char
  }

  /** The number a digit string denotes, most significant digit first. */
  function Value(s: string): nat
    requires AllDigits(s)
  {
    if |s| == 0 then 0 else DigitValue(s[0]) * Pow10(|s| - 1) + Value(s[1..])
  }

  lemma MulLe(a: int, b: int, c: nat)
    requires a <= b
    ensures a * c <= b * c
  {
  }

  lemma {:induction false} ValueBound(s: string)
    requires AllDigits(s)
    ensures Value(s) < Pow10(|s|)
    decreases |s|
  {
    if |s| > 0 {
      ValueBound(s[1..]);
      MulLe(DigitValue(s[0]), 9, Pow10(|s| - 1));
    }
  }

  /** Quotient and remainder are determined by `v == q * p + r` with `0 <= r < p`. */
  lemma DivModUnique(v: int, p: int, q: int, r: int)
    requires p > 0 && 0 <= r < p && v == q * p + r
    ensures v / p == q && v % p == r
  {
    var q', r' := v / p, v % p;
    assert v == q' * p + r';
    if q' < q {
      MulLe(q' + 1, q, p);
    } else if q < q' {
      MulLe(q + 1, q', p);
    }
  }

  /** Splitting `v < 10 * p` into its leading digit `q` and the remainder `r` below `p`. */
  lemma LeadingDigit(v: nat, p: nat)
    requires p > 0 && v < 10 * p
    ensures 0 <= v / p < 10 && v % p < p && v == (v / p) * p + v % p
  {
    var q, r := v / p, v % p;
    DivModUnique(v, p, q, r);
    if q >= 10 {
      MulLe(10, q, p);
    }
  }

  /** A block with a smaller leading digit is smaller, whatever the lower digits are. */
  lemma LeadingDigitDecides(ds: nat, dt: nat, p: nat, vs: nat, vt: nat)
    requires ds < dt && vs < p
    ensures ds * p + vs < dt * p + vt
  {
    MulLe(ds + 1, dt, p);
    assert (ds + 1) * p == ds * p + p;
  }

  /** `v` written with exactly `width` digits, padded with leading zeros. */
  function Pad(v: nat, width: nat): (r: string)
    requires v < Pow10(width)
    ensures |r| == width && AllDigits(r)
    ensures Value(r) == v
    decreases width
  {
    if width == 0 then []
    else
      var p := Pow10(width - 1);
      LeadingDigit(v, p);
      var q, m := v / p, v % p;
      var rest := Pad(m, width - 1);
      var r := [Digit(q)] + rest;
      assert r[1..] == rest;
      assert Value(r) == q * p + Value(rest);
      r
  }

  /** Padding inverts `Value` on digit strings of the same width. */
  lemma {:induction false} PadValue(s: string)
    requires AllDigits(s)
    ensures Value(s) < Pow10(|s|)
    ensures Pad(Value(s), |s|) == s
    decreases |s|
  {
    ValueBound(s);
    if |s| > 0 {
      var p := Pow10(|s| - 1);
      ValueBound(s[1..]);
      DivModUnique(Value(s), p, DigitValue(s[0]), Value(s[1..]));
      PadValue(s[1..]);
      assert s == [s[0]] + s[1..];
    }
  }

  /** For digit strings of equal length, string order is numeric order. */
  lemma {:induction false} LexLeDigits(s: string, t: string)
    requires AllDigits(s) && AllDigits(t) && |s| == |t|
    ensures LexLe(s, t) <==> Value(s) <= Value(t)
    decreases |s|
  {
    if |s| > 0 {
      var p := Pow10(|s| - 1);
      var ds, dt := DigitValue(s[0]), DigitValue(t[0]);
      var vs, vt := Value(s[1..]), Value(t[1..]);
      assert Value(s) == ds * p + vs;
      assert Value(t) == dt * p + vt;
      ValueBound(s[1..]);
      ValueBound(t[1..]);
      if ds < dt {
        LeadingDigitDecides(ds, dt, p, vs, vt);
      } else if dt < ds {
        LeadingDigitDecides(dt, ds, p, vt, vs);
      } else {
        LexLeDigits(s[1..], t[1..]);
      }
    }
  }

  /** Kotlin's `Int.toString()` for a non-negative value: no leading zeros, "0" for zero. */
  function NatToString(n: nat): (r: string)
    ensures |r| > 0 && AllDigits(r)
  {
    if n < 10 then [Digit(n)] else NatToString(n / 10) + [Digit(n % 10)]
  }

  /** Kotlin's `Int.toString()`: a minus sign before the digits of a negative value. */
  function IntToString(i: int): (r: string)
    ensures |r| > 0
  {
    if i < 0 then "-" + NatToString(-i) else NatToString(i)
  }

  /** Reading a decimal back: an optional minus sign followed by at least one digit. */
  function ParseInt(s: string): Option<int>
  {
    if |s| > 1 && s[0] == '-' && AllDigits(s[1..]) then Some(0 - Value(s[1..]) as int)
    else if |s| > 0 && AllDigits(s) then Some(Value(s))
    else None
  }

  lemma {:induction false} ValueSnoc(s: string, c: char)
    requires AllDigits(s) && IsDigit(c)
    ensures AllDigits(s + [c]) && Value(s + [c]) == 10 * Value(s) + DigitValue(c)
    decreases |s|
  {
    assert AllDigits(s + [c]);
    if |s| > 0 {
      assert (s + [c])[1..] == s[1..] + [c];
      ValueSnoc(s[1..], c);
      var d, p := DigitValue(s[0]), Pow10(|s| - 1);
      assert d * (10 * p) == 10 * (d * p);
    }
  }

  lemma {:induction false} NatToStringValue(n: nat)
    ensures Value(NatToString(n)) == n
    decreases n
  {
    if n >= 10 {
      NatToStringValue(n / 10);
      ValueSnoc(NatToString(n / 10), Digit(n % 10));
    }
  }

  /** Rendering an integer and reading it back gives the same integer; in particular
      two integers render to the same text only when they are equal. */
  lemma IntToStringRoundTrip(i: int)
    ensures ParseInt(IntToString(i)) == Some(i)
  {
    if i < 0 {
      NatToStringValue(-i);
      assert ("-" + NatToString(-i))[1..] == NatToString(-i);
    } else {
      NatToStringValue(i);
      assert NatToString(i)[0] != '-';
    }
  }
}
