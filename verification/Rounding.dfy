// Rounding to one, two, four or six decimals, ties to the even neighbour, on exact reals.
module Rounding {
  function Floor(x: real): (n: int)
    ensures n as real <= x < n as real + 1.0
  {
    x.Floor
  }

  // n is nearest to x; of two that are equally near it is the even one.
  ghost predicate NearestEven(x: real, n: int) {
    && n as real - 0.5 <= x <= n as real + 0.5
    && (x == n as real - 0.5 || x == n as real + 0.5 ==> n % 2 == 0)
  }

  ghost predicate NearestInteger(x: real, y: real) {
    y == y.Floor as real && NearestEven(x, y.Floor)
  }

  // y is the multiple of 1/scale nearest to x, ties to even.
  ghost predicate Rounds(x: real, scale: real, y: real) {
    NearestInteger(x * scale, y * scale)
  }

  lemma {:induction false} OneNearest(x: real, n: int, m: int)
    requires NearestEven(x, n) && NearestEven(x, m)
    ensures n == m
  {
  }

  lemma {:induction false} OneRounding(x: real, scale: real, y: real, z: real)
    requires scale > 0.0 && Rounds(x, scale, y) && Rounds(x, scale, z)
    ensures y == z
  {
    OneNearest(x * scale, (y * scale).Floor, (z * scale).Floor);
    assert (y - z) * scale == 0.0;
  }

  function Nearest(x: real): (n: int)
    ensures NearestEven(x, n)
  {
    var low := Floor(x);
    var part := x - low as real;
    if part < 0.5 || (part == 0.5 && low % 2 == 0) then low else low + 1
  }

  function Round1(x: real): (y: real)
    ensures Rounds(x, 10.0, y)
  {
    var n := Nearest(x * 10.0);
    assert n as real / 10.0 * 10.0 == n as real;
    n as real / 10.0
  }

  function Round2(x: real): (y: real)
    ensures Rounds(x, 100.0, y)
  {
    var n := Nearest(x * 100.0);
    assert n as real / 100.0 * 100.0 == n as real;
    n as real / 100.0
  }

  function Round4(x: real): (y: real)
    ensures Rounds(x, 10000.0, y)
  {
    var n := Nearest(x * 10000.0);
    assert n as real / 10000.0 * 10000.0 == n as real;
    n as real / 10000.0
  }

  function Round6(x: real): (y: real)
    ensures Rounds(x, 1000000.0, y)
  {
    var n := Nearest(x * 1000000.0);
    assert n as real / 1000000.0 * 1000000.0 == n as real;
    n as real / 1000000.0
  }

  lemma {:induction false} NearestMonotone(x: real, y: real)
    requires x <= y
    ensures Nearest(x) <= Nearest(y)
  {
    var a, b := Floor(x), Floor(y);
    assert (a as real) < b as real + 1.0;
  }

  lemma {:induction false} NearestOfInteger(n: int)
    ensures Nearest(n as real) == n
  {
    assert Floor(n as real) == n;
  }

  lemma {:induction false} RoundMonotone(x: real, y: real)
    requires x <= y
    ensures Round1(x) <= Round1(y) && Round2(x) <= Round2(y)
  {
    NearestMonotone(x * 10.0, y * 10.0);
    NearestMonotone(x * 100.0, y * 100.0);
  }
}
