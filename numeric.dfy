/** Real-number helpers shared by the server and both browser clients.
    JavaScript numbers are modelled as `real`; the few library functions the
    code relies on (Math.round, Math.pow, p5's constrain/lerp/random) are
    written out here with the rounding and ordering they use. */
module Numeric {

  /** A draw of `Math.random()` (or of p5's `random()` without arguments). */
  predicate Unit(u: real) { 0.0 <= u < 1.0 }

  function Min(a: real, b: real): (r: real)
    ensures r <= a && r <= b && (r == a || r == b)
  {
    if a <= b then a else b
  }

  function Max(a: real, b: real): (r: real)
    ensures r >= a && r >= b && (r == a || r == b)
  {
    if a >= b then a else b
  }

  function IMax(a: int, b: int): (r: int)
    ensures r >= a && r >= b && (r == a || r == b)
  {
    if a >= b then a else b
  }

  function IMin(a: int, b: int): (r: int)
    ensures r <= a && r <= b && (r == a || r == b)
  {
    if a <= b then a else b
  }

  /** p5's `constrain(n, low, high)`, which is `Math.max(Math.min(n, high), low)`. */
  function Constrain(n: real, low: real, high: real): (r: real)
    requires low <= high
    ensures low <= r <= high
    ensures low <= n <= high ==> r == n
    ensures n < low ==> r == low
    ensures n > high ==> r == high
  {
    Max(Min(n, high), low)
  }

  /** p5's `lerp(start, stop, amt)`, computed as `amt * (stop - start) + start`. */
  function Lerp(start: real, stop: real, amt: real): real
  {
    amt * (stop - start) + start
  }

  /** p5's `random(low, high)`, computed from a unit draw `u` as
      `u * (high - low) + low`. */
  function Random(low: real, high: real, u: real): real
  {
    u * (high - low) + low
  }

  /** `Math.floor`. */
  function Floor(x: real): (r: int)
    ensures r as real <= x < r as real + 1.0
  {
    x.Floor
  }

  /** `Math.round`: the nearest integer, halves rounded towards +infinity. */
  function Round(x: real): (r: int)
    ensures x - 0.5 < r as real <= x + 0.5
  {
    (x + 0.5).Floor
  }

  lemma RoundMonotone(x: real, y: real)
    requires x <= y
    ensures Round(x) <= Round(y)
  {
  }

  lemma RoundOfInt(n: int)
    ensures Round(n as real) == n
  {
  }

  /** `Math.pow(b, n)` for a natural exponent. */
  function Pow(b: real, n: nat): real
  {
    if n == 0 then 1.0 else b * Pow(b, n - 1)
  }

  lemma {:induction false} PowPositive(b: real, n: nat)
    requires b > 0.0
    ensures Pow(b, n) > 0.0
  {
    if n > 0 {
      PowPositive(b, n - 1);
    }
  }

  /** For a base of at least one the powers never decrease. */
  lemma {:induction false} PowGrows(b: real, m: nat, n: nat)
    requires b >= 1.0 && m <= n
    ensures 1.0 <= Pow(b, m) <= Pow(b, n)
  {
    if n > m {
      PowGrows(b, m, n - 1);
      assert Pow(b, n) == b * Pow(b, n - 1);
    } else if m > 0 {
      PowGrows(b, 0, m);
    }
  }

  lemma MulPositive(a: real, c: real)
    requires a > 0.0 && c > 0.0
    ensures a * c > 0.0
  {
  }

  lemma MulMono(a: real, x: real, y: real)
    requires a >= 0.0 && 0.0 <= x <= y
    ensures 0.0 <= a * x <= a * y
  {
  }

  lemma MulLe(a: real, x: real, y: real)
    requires a >= 0.0 && x <= y
    ensures a * x <= a * y
  {
    MulMono(a, 0.0, y - x);
    assert a * (y - x) == a * y - a * x;
  }

  lemma MulStrict(a: real, x: real, y: real)
    requires a > 0.0 && x < y
    ensures a * x < a * y
  {
    MulPositive(a, y - x);
    assert a * (y - x) == a * y - a * x;
  }

  /** Multiplying a positive number by a factor strictly between zero and
      one makes it strictly smaller and keeps it positive. */
  lemma ScaleDown(b: real, p: real, q: real)
    requires 0.0 < b < 1.0
    requires p > 0.0
    requires q == b * p
    ensures 0.0 < q < p
  {
    MulPositive(b, p);
    assert b * p > 0.0;
    MulPositive(1.0 - b, p);
    assert (1.0 - b) * p == p - q;
    assert p - q > 0.0;
  }

  lemma {:induction false} PowAtMostOne(b: real, n: nat)
    requires 0.0 < b < 1.0
    ensures 0.0 < Pow(b, n) <= 1.0
  {
    if n > 0 {
      PowAtMostOne(b, n - 1);
      ScaleDown(b, Pow(b, n - 1), Pow(b, n));
    }
  }

  /** For a base strictly between zero and one the powers strictly decrease. */
  lemma {:induction false} PowShrinks(b: real, m: nat, n: nat)
    requires 0.0 < b < 1.0 && m < n
    ensures 0.0 < Pow(b, n) < Pow(b, m) <= 1.0
    decreases n - m
  {
    PowAtMostOne(b, m);
    ScaleDown(b, Pow(b, m), Pow(b, m + 1));
    if m + 1 < n {
      PowShrinks(b, m + 1, n);
    }
  }
}
