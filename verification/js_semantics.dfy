/** The few pieces of JavaScript's number and string semantics that the
    application's logic depends on, written out over unbounded reals. */
module JsSemantics {

  import opened Outcomes

  /** `Math.trunc`: rounds toward zero. */
  function Trunc(y: real): (q: int)
    ensures y >= 0.0 ==> q as real <= y < q as real + 1.0
    ensures y < 0.0 ==> q as real - 1.0 < y <= q as real
  {
    if y >= 0.0 then y.Floor else -((-y).Floor)
  }

  /** The `%` operator on numbers: the remainder of a division truncated
      toward zero, so it takes the sign of the dividend (unlike Dafny's `%`).
      A zero divisor yields NaN in JavaScript; every use here divides by a
      positive duration or by 60. */
  function JsRem(x: real, d: real): (r: real)
    requires d > 0.0
    ensures x >= 0.0 ==> 0.0 <= r < d
    ensures x < 0.0 ==> -d < r <= 0.0
    ensures x == d * Trunc(x / d) as real + r
  {
    var q := Trunc(x / d);
    RemainderFacts(x, d, q);
    x - d * q as real
  }

  /** With `y = x / d` and `q` the truncation of `y`, the remainder
      `x - d * q` is `d * (y - q)`, and `y - q` lies in `[0, 1)` or `(-1, 0]`. */
  lemma RemainderFacts(x: real, d: real, q: int)
    requires d > 0.0
    requires q == Trunc(x / d)
    ensures x >= 0.0 ==> 0.0 <= x - d * q as real < d
    ensures x < 0.0 ==> -d < x - d * q as real <= 0.0
  {
    QuotientFacts(x, d);
    RemainderBounds(x, d, x / d, q as real);
  }

  /** The remainder `x - d * q` for `x = d * y` and `q` within one of `y`.
      Every product is given a name so that each step is linear. */
  lemma RemainderBounds(x: real, d: real, y: real, q: real)
    requires d > 0.0 && d * y == x
    ensures q <= y < q + 1.0 ==> 0.0 <= x - d * q < d
    ensures q - 1.0 < y <= q ==> -d < x - d * q <= 0.0
  {
    var a, b, m := d * y, d * q, d * (y - q);
    Distribute(d, y, q, a, b, m);
    if q <= y < q + 1.0 {
      ScaleBelow(d, y - q, m);
    }
    if q - 1.0 < y <= q {
      ScaleAbove(d, y - q, m);
    }
  }

  lemma Distribute(d: real, y: real, q: real, a: real, b: real, m: real)
    requires a == d * y && b == d * q && m == d * (y - q)
    ensures a - b == m
  {
  }

  lemma ScaleBelow(d: real, t: real, m: real)
    requires d > 0.0 && m == d * t && 0.0 <= t < 1.0
    ensures 0.0 <= m < d
  {
  }

  lemma ScaleAbove(d: real, t: real, m: real)
    requires d > 0.0 && m == d * t && -1.0 < t <= 0.0
    ensures -d < m <= 0.0
  {
  }

  lemma ScaleNegative(d: real, t: real, m: real)
    requires d > 0.0 && m == d * t && t < 0.0
    ensures m < 0.0
  {
  }

  lemma ScaleAtLeastOne(d: real, t: real, m: real)
    requires d > 0.0 && m == d * t && t >= 1.0
    ensures m >= d
  {
  }

  /** Division by a positive number undoes multiplication and keeps the sign. */
  lemma QuotientFacts(x: real, d: real)
    requires d > 0.0
    ensures d * (x / d) == x
    ensures x >= 0.0 <==> x / d >= 0.0
  {
    var y := x / d;
    if y < 0.0 {
      ScaleNegative(d, y, d * y);
    }
  }

  /** A remainder of a non-negative dividend that is already below the
      divisor is the dividend itself; a dividend equal to the divisor wraps
      to zero. */
  lemma JsRemBelowDivisor(x: real, d: real)
    requires d > 0.0
    ensures 0.0 <= x < d ==> JsRem(x, d) == x
  {
    if 0.0 <= x < d {
      QuotientFacts(x, d);
      var y := x / d;
      if y >= 1.0 {
        ScaleAtLeastOne(d, y, d * y);
      }
      assert Trunc(y) == 0;
    }
  }

  lemma JsRemOfDivisor(d: real)
    requires d > 0.0
    ensures JsRem(d, d) == 0.0
  {
    assert d / d == 1.0;
  }

  /** `Math.min` on two numbers. */
  function Min(a: real, b: real): (m: real)
    ensures m <= a && m <= b
    ensures m == a || m == b
  {
    if a <= b then a else b
  }

  /** `Math.max(lo, Math.min(hi, x))`: clamps `x` into `[lo, hi]`. */
  function Clamp(x: real, lo: real, hi: real): (c: real)
    requires lo <= hi
    ensures lo <= c <= hi
    ensures lo <= x <= hi ==> c == x
    ensures x < lo ==> c == lo
    ensures x > hi ==> c == hi
  {
    if x < lo then lo else if x > hi then hi else x
  }

  /** JavaScript truthiness of an optional string: `undefined`, `null` and
      the empty string are falsy. */
  predicate Truthy(s: Option<string>) {
    s.Some? && s.value != ""
  }

  /** `a || b` where `a` is an optional string and `b` a string. */
  function OrElse(a: Option<string>, b: string): (r: string)
    ensures Truthy(a) ==> r == a.value
    ensures !Truthy(a) ==> r == b
  {
    if Truthy(a) then a.value else b
  }

  /** A template literal `${v}` of an optional string: `undefined` prints as
      the word "undefined". */
  function Interpolate(v: Option<string>): (r: string)
    ensures v.Some? ==> r == v.value
    ensures v.None? ==> r == "undefined"
  {
    match v
    case Some(s) => s
    case None => "undefined"
  }
}
