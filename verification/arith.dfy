/** Integer arithmetic shared by the simulator and the dashboard:
    `Math.max(min, Math.min(max, v))` and `Math.round` of a quotient. */
module Arith {

  function Max(a: int, b: int): int { if a >= b then a else b }

  function Min(a: int, b: int): int { if a <= b then a else b }

  /** `clamp(v, min, max)`, including its behaviour on an empty range
      (`lo > hi`), where the outer `Math.max` makes `lo` win. */
  function Clamp(v: int, lo: int, hi: int): (r: int)
    ensures lo <= hi ==> lo <= r <= hi
    ensures lo <= v <= hi ==> r == v
    ensures v <= lo ==> r == lo
    ensures lo <= hi <= v ==> r == hi
    ensures hi < lo ==> r == lo
  {
    Max(lo, Min(hi, v))
  }

  /** Clamping is the nearest point of `[lo, hi]`: no point of the range
      is strictly closer to `v`. */
  lemma ClampIsNearest(v: int, lo: int, hi: int, w: int)
    requires lo <= w <= hi
    ensures Abs(Clamp(v, lo, hi) - v) <= Abs(w - v)
  {
  }

  /** Clamping is monotone in the clamped value. */
  lemma ClampMonotone(v: int, w: int, lo: int, hi: int)
    requires v <= w
    ensures Clamp(v, lo, hi) <= Clamp(w, lo, hi)
  {
  }

  function Abs(x: int): nat { if x < 0 then -x else x }

  /** JavaScript's `Math.round` on a real: the nearest integer, halves
      rounded towards positive infinity, i.e. `floor(x + 1/2)`. */
  function Round(x: real): (k: int)
    ensures k as real - 0.5 <= x < k as real + 0.5
  {
    (x + 0.5).Floor
  }

  /** `Math.round(num / den)` computed exactly on integers. */
  function RoundDiv(num: int, den: int): (k: int)
    requires den > 0
    ensures 2 * den * k - den <= 2 * num < 2 * den * k + den
  {
    (2 * num + den) / (2 * den)
  }

  /** A positive number times a positive count is at least the number. */
  lemma {:induction false} TimesAtLeast(m: int, c: int)
    requires m > 0
    requires c >= 1
    ensures m * c >= m
    decreases c
  {
    if c > 1 {
      TimesAtLeast(m, c - 1);
      assert m * c == m * (c - 1) + m;
    }
  }

  /** Multiples of a positive `m` at distinct indices are at least `m` apart. */
  lemma MultiplesApart(m: int, a: int, b: int)
    requires m > 0
    requires a < b
    ensures m * a + m <= m * b
  {
    var c := b - a;
    assert m * b == m * a + m * c;
    TimesAtLeast(m, c);
  }

  /** The rounding window determines the result: exactly one integer lies
      within half a unit (halves up) of `num / den`. */
  lemma RoundDivUnique(num: int, den: int, k: int)
    requires den > 0
    requires 2 * den * k - den <= 2 * num < 2 * den * k + den
    ensures RoundDiv(num, den) == k
  {
    var m := 2 * den;
    var r := RoundDiv(num, den);
    assert m * r <= 2 * num + den < m * r + m;
    assert m * k <= 2 * num + den < m * k + m;
    if r < k {
      MultiplesApart(m, r, k);
    } else if r > k {
      MultiplesApart(m, k, r);
    }
  }

  /** The integer computation agrees with `Math.round` applied to the exact
      quotient. */
  lemma RoundDivIsRound(num: int, den: int)
    requires den > 0
    ensures RoundDiv(num, den) == Round(num as real / den as real)
  {
    var x := num as real / den as real;
    assert x * den as real == num as real;
    RoundOfQuotient(x, num, den);
  }

  /** `Math.round(x)` for any real `x` with `x * den == num`. */
  lemma RoundOfQuotient(x: real, num: int, den: int)
    requires den > 0
    requires x * den as real == num as real
    ensures RoundDiv(num, den) == Round(x)
  {
    var k := Round(x);
    CastProduct(k, den);
    ScaleWindow(x, den as real, k as real, num as real, (k * den) as real);
    assert 2 * den * k == 2 * (k * den);
    RoundDivUnique(num, den, k);
  }

  /** Scaling the rounding window `kr - 1/2 <= x < kr + 1/2` by a positive
      `d`, where `n == x * d` and `p == kr * d`. */
  lemma ScaleWindow(x: real, d: real, kr: real, n: real, p: real)
    requires d > 0.0
    requires kr - 0.5 <= x < kr + 0.5
    requires n == x * d
    requires p == kr * d
    ensures 2.0 * p - d <= 2.0 * n < 2.0 * p + d
  {
    var below := x - (kr - 0.5);
    var above := (kr + 0.5) - x;
    assert below * d >= 0.0;
    assert above * d > 0.0;
    assert below * d == n - p + 0.5 * d;
    assert above * d == p + 0.5 * d - n;
  }

  /** Converting to a real commutes with multiplication. */
  lemma CastProduct(a: int, b: int)
    ensures (a * b) as real == a as real * b as real
  {
  }

  /** Rounding a quotient is monotone in the numerator. */
  lemma RoundDivMonotone(a: int, b: int, den: int)
    requires den > 0
    requires a <= b
    ensures RoundDiv(a, den) <= RoundDiv(b, den)
  {
    var m := 2 * den;
    var ra, rb := RoundDiv(a, den), RoundDiv(b, den);
    assert m * ra <= 2 * a + den;
    assert 2 * b + den < m * rb + m;
    if ra > rb {
      MultiplesApart(m, rb, ra);
    }
  }

  /** A quotient that is already an integer rounds to itself. */
  lemma RoundDivExact(k: int, den: int)
    requires den > 0
    ensures RoundDiv(k * den, den) == k
  {
    RoundDivUnique(k * den, den, k);
  }
}
