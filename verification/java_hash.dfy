/** Java's `String.hashCode()`: the polynomial hash over UTF-16 code units in
    32-bit two's-complement arithmetic. */
module JavaHash {

  const TwoTo31: int := 0x8000_0000
  const TwoTo32: int := 0x1_0000_0000

  /** Java `int` arithmetic: the value congruent to `x` modulo 2^32 in [-2^31, 2^31). */
  function Int32(x: int): (r: int)
    ensures -TwoTo31 <= r < TwoTo31
    ensures (x - r) % TwoTo32 == 0
  {
    var m := x % TwoTo32;
    if m >= TwoTo31 then m - TwoTo32 else m
  }

  /** Values that agree modulo 2^32 wrap to the same `int`. */
  lemma Int32Congruent(a: int, b: int)
    requires (a - b) % TwoTo32 == 0
    ensures Int32(a) == Int32(b)
  {
    assert a % TwoTo32 == b % TwoTo32;
  }

  /** Multiplying by 31 and adding the same unit keeps two values congruent. */
  lemma HornerCongruent(h: int, p: int, c: int)
    requires (p - h) % TwoTo32 == 0
    ensures ((31 * p + c) - (31 * h + c)) % TwoTo32 == 0
  {
    var k := (p - h) / TwoTo32;
    assert p - h == k * TwoTo32;
    assert (31 * p + c) - (31 * h + c) == (31 * k) * TwoTo32;
  }

  /** The UTF-16 code units of one character: itself below U+10000, else a surrogate pair. */
  function CodeUnits(c: char): (u: seq<int>)
    ensures 1 <= |u| <= 2
    ensures forall i :: 0 <= i < |u| ==> 0 <= u[i] < 0x10000
  {
    var v := c as int;
    if v < 0x10000 then [v]
    else [0xD800 + (v - 0x10000) / 0x400, 0xDC00 + (v - 0x10000) % 0x400]
  }

  /** The UTF-16 code units a Java `String` holds for `s`. */
  function Utf16(s: string): (u: seq<int>)
    ensures |s| <= |u| <= 2 * |s|
    ensures forall i :: 0 <= i < |u| ==> 0 <= u[i] < 0x10000
  {
    if |s| == 0 then [] else CodeUnits(s[0]) + Utf16(s[1..])
  }

  function Pow31(n: nat): nat
  {
    if n == 0 then 1 else 31 * Pow31(n - 1)
  }

  /** u[0]*31^(n-1) + u[1]*31^(n-2) + ... + u[n-1], without overflow. */
  function PolynomialSum(u: seq<int>): int
  {
    if |u| == 0 then 0 else u[0] * Pow31(|u| - 1) + PolynomialSum(u[1..])
  }

  /** `String.hashCode()` as the Java platform documents it: the polynomial sum of the
      code units, computed in `int` arithmetic. */
  function HashCode(s: string): (h: int)
    ensures -TwoTo31 <= h < TwoTo31
  {
    Int32(PolynomialSum(Utf16(s)))
  }

  /** Extending the code units by one multiplies the sum so far by 31 and adds the unit. */
  lemma {:induction false} HornerStep(u: seq<int>, c: int)
    ensures PolynomialSum(u + [c]) == 31 * PolynomialSum(u) + c
    decreases |u|
  {
    if |u| == 0 {
      assert u + [c] == [c];
    } else {
      assert (u + [c])[1..] == u[1..] + [c];
      HornerStep(u[1..], c);
      var d, p := u[0], Pow31(|u| - 1);
      assert d * (31 * p) == 31 * (d * p);
    }
  }

  /** The loop `String.hashCode()` runs, `h = 31 * h + c` wrapping at every step,
      computes the documented polynomial hash. */
  method ComputeHashCode(s: string) returns (h: int)
    ensures h == HashCode(s)
  {
    var u := Utf16(s);
    h := 0;
    var i := 0;
    while i < |u|
      invariant 0 <= i <= |u|
      invariant h == Int32(PolynomialSum(u[..i]))
    {
      var p := PolynomialSum(u[..i]);
      HornerStep(u[..i], u[i]);
      assert u[..i + 1] == u[..i] + [u[i]];
      HornerCongruent(h, p, u[i]);
      Int32Congruent(31 * p + u[i], 31 * h + u[i]);
      h := Int32(31 * h + u[i]);
      i := i + 1;
    }
    assert u[..|u|] == u;
  }
}
