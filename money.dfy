/** Monetary amounts. The C# code keeps amounts in `double` and rounds them
    with `Math.Round(x, 2)`, whose default midpoint rule is round-half-to-even.
    Here an amount is an exact `real` and `Round2` is that rounding rule
    applied exactly. */
module Money {

  /** The flat transfer commission of both revisions (2%). */
  const CommissionPercent: real := 0.02

  /** An amount that is a whole number of hundredths. */
  predicate IsCents(x: real) {
    (x * 100.0).Floor as real == x * 100.0
  }

  /** Nearest integer, ties to the even neighbour. */
  function RoundHalfToEven(y: real): (n: int)
    ensures y - 0.5 <= n as real <= y + 0.5
    ensures y.Floor <= n <= y.Floor + 1
    ensures y - n as real == 0.5 || n as real - y == 0.5 ==> n % 2 == 0
  {
    var f := y.Floor;
    var frac := y - f as real;
    if frac < 0.5 then f
    else if frac > 0.5 then f + 1
    else if f % 2 == 0 then f
    else f + 1
  }

  /** `Math.Round(x, 2)`: the nearest whole number of cents, and at a
      midpoint the one with an even number of cents. */
  function Round2(x: real): (r: real)
    ensures IsCents(r)
    ensures x - 0.005 <= r <= x + 0.005
    ensures x - r == 0.005 || r - x == 0.005 ==> (r * 100.0).Floor % 2 == 0
  {
    var n := RoundHalfToEven(x * 100.0);
    assert (n as real / 100.0) * 100.0 == n as real;
    assert ((n as real / 100.0) * 100.0).Floor == n;
    n as real / 100.0
  }

  /** The contract of `Round2` leaves no choice: any whole number of cents
      within half a cent of `x`, even at a midpoint, is `Round2(x)`. */
  lemma {:induction false} Round2Unique(x: real, c: real)
    requires IsCents(c) && x - 0.005 <= c <= x + 0.005
    requires x - c == 0.005 || c - x == 0.005 ==> (c * 100.0).Floor % 2 == 0
    ensures c == Round2(x)
  {
    var r := Round2(x);
    var n, m := (r * 100.0).Floor, (c * 100.0).Floor;
    assert r * 100.0 == n as real && c * 100.0 == m as real;
    assert -1.0 <= (n - m) as real <= 1.0;
    assert r == n as real / 100.0 && c == m as real / 100.0;
  }

  lemma {:induction false} RoundHalfToEvenMonotonic(x: real, y: real)
    requires x <= y
    ensures RoundHalfToEven(x) <= RoundHalfToEven(y)
  {
    if x.Floor < y.Floor {
    } else {
      assert x.Floor == y.Floor;
    }
  }

  /** Rounding never reverses the order of two amounts. */
  lemma {:induction false} Round2Monotonic(x: real, y: real)
    requires x <= y
    ensures Round2(x) <= Round2(y)
  {
    RoundHalfToEvenMonotonic(x * 100.0, y * 100.0);
  }

  /** An amount that already is a whole number of cents is left as it is. */
  lemma {:induction false} Round2OfCents(x: real)
    requires IsCents(x)
    ensures Round2(x) == x
  {
    var y := x * 100.0;
    assert y - y.Floor as real == 0.0;
    assert RoundHalfToEven(y) == y.Floor;
  }

  /** Rounding twice is rounding once. */
  lemma Round2Idempotent(x: real)
    ensures Round2(Round2(x)) == Round2(x)
  {
    Round2OfCents(Round2(x));
  }

  /** A non-negative amount rounds to a non-negative amount. */
  lemma Round2NonNegative(x: real)
    requires x >= 0.0
    ensures Round2(x) >= 0.0
  {
    Round2Monotonic(0.0, x);
    Round2OfCents(0.0);
  }

  /** Below half a cent, a non-negative amount rounds to zero. */
  lemma {:induction false} Round2OfLessThanHalfCent(x: real)
    requires 0.0 <= x < 0.005
    ensures Round2(x) == 0.0
  {
    var y := x * 100.0;
    assert 0.0 <= y < 0.5;
    assert y.Floor == 0;
  }

  /** Sums and differences of whole cents are whole cents. */
  lemma {:induction false} CentsClosed(x: real, y: real)
    requires IsCents(x) && IsCents(y)
    ensures IsCents(x + y) && IsCents(x - y)
  {
    var a, b := (x * 100.0).Floor, (y * 100.0).Floor;
    assert x * 100.0 == a as real && y * 100.0 == b as real;
    assert (x + y) * 100.0 == x * 100.0 + y * 100.0;
    assert (x - y) * 100.0 == x * 100.0 - y * 100.0;
    assert ((a + b) as real).Floor == a + b && ((a - b) as real).Floor == a - b;
  }

  /** The example of the test suite: 10.123 is recorded as 10.12. */
  lemma Round2Example()
    ensures Round2(10.123) == 10.12
  {
    assert (10.123 * 100.0).Floor == 1012;
  }
}
