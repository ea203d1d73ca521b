/** `Math.Round(decimal, 2)` on exact reals: to the nearest cent, a tie going to
    the even cent (the default `MidpointRounding.ToEven`). */
module Money {

  /** `x` is a whole number of cents. */
  predicate IsCents(x: real) {
    (x * 100.0).Floor as real == x * 100.0
  }

  /** The integer nearest to `y`; a tie goes to the even neighbour. */
  function RoundHalfEven(y: real): (n: int)
    ensures -0.5 <= n as real - y <= 0.5
    ensures (n as real - y == 0.5 || y - n as real == 0.5) ==> n % 2 == 0
    ensures y.Floor as real == y ==> n == y.Floor
  {
    var f := y.Floor;
    var frac := y - f as real;
    if frac < 0.5 then f
    else if frac > 0.5 then f + 1
    else if f % 2 == 0 then f
    else f + 1
  }

  /** `Math.Round(x, 2)`. */
  function RoundCents(x: real): (r: real)
    ensures IsCents(r)
    ensures -0.005 <= r - x <= 0.005
  {
    var y := x * 100.0;
    var n := RoundHalfEven(y);
    var r := n as real / 100.0;
    assert r * 100.0 == n as real;
    assert (n as real).Floor == n;
    assert r - x == (n as real - y) / 100.0;
    r
  }

  /** Rounding a whole number of cents leaves it as it is, so rounding twice is
      rounding once. */
  lemma RoundCentsKeepsCents(x: real)
    requires IsCents(x)
    ensures RoundCents(x) == x
  {
    var n := RoundHalfEven(x * 100.0);
    assert n as real == x * 100.0;
  }

  /** A value exactly half-way between two cents goes to the even one. */
  lemma RoundCentsTieToEven(x: real)
    requires ((x * 100.0) - (x * 100.0).Floor as real) == 0.5
    ensures (RoundCents(x) * 100.0).Floor % 2 == 0
  {
    var n := RoundHalfEven(x * 100.0);
    assert RoundCents(x) * 100.0 == n as real;
  }
}
