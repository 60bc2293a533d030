/**
 * The parts of JavaScript's number semantics that the chart code relies on:
 * the truncating remainder `%`, the floor-based normalisation of degrees and
 * the 32-bit integer conversion applied by the bitwise operators.
 */
module JsNumbers {

  /** Rounding toward zero (Math.trunc), which the remainder operator uses. */
  function Trunc(y: real): (t: int)
    ensures 0.0 <= y ==> t as real <= y < t as real + 1.0
    ensures y < 0.0 ==> t as real - 1.0 < y <= t as real
  {
    if y >= 0.0 then y.Floor else -((-y).Floor)
  }

  /** The divisors that the chart code applies `%` to: a whole turn and one sign. */
  predicate IsDegreeModulus(m: real) {
    m == 360.0 || m == 30.0
  }

  /**
   * JavaScript's `x % m` on degrees: the remainder after truncating division,
   * so it takes the sign of `x`.
   */
  function JsRem(x: real, m: real): (r: real)
    requires IsDegreeModulus(m)
    ensures 0.0 <= x ==> 0.0 <= r < m
    ensures x < 0.0 ==> -m < r <= 0.0
    ensures exists k: int :: x - r == Turns(m, k)
  {
    var k := Trunc(x / m);
    assert x - (x - Turns(m, k)) == Turns(m, k);
    x - Turns(m, k)
  }

  /** `k` whole multiples of the modulus `m`. */
  function Turns(m: real, k: int): real {
    m * (k as real)
  }

  /** The representative of `x` modulo 360 in [0, 360), written with Floor. */
  function Normalize(x: real): (r: real)
    ensures 0.0 <= r < 360.0
  {
    x - 360.0 * ((x / 360.0).Floor as real)
  }

  /** Two values in [0, 360) that differ from `x` by whole turns are equal. */
  lemma TurnsUnique(x: real, k1: int, k2: int)
    requires 0.0 <= x - 360.0 * (k1 as real) < 360.0
    requires 0.0 <= x - 360.0 * (k2 as real) < 360.0
    ensures k1 == k2
  {
  }

  /** `Normalize(x)` is the one value in [0, 360) that differs from `x` by whole turns. */
  lemma NormalizeCharacterised(x: real, k: int)
    requires 0.0 <= x - 360.0 * (k as real) < 360.0
    ensures Normalize(x) == x - 360.0 * (k as real)
  {
    TurnsUnique(x, (x / 360.0).Floor, k);
  }

  /** The floor form agrees with the expression `((x % 360) + 360) % 360` that the source writes. */
  lemma NormalizeMatchesJs(x: real)
    ensures Normalize(x) == JsRem(JsRem(x, 360.0) + 360.0, 360.0)
  {
    var k1 := Trunc(x / 360.0);
    var a := JsRem(x, 360.0);
    var k2 := Trunc((a + 360.0) / 360.0);
    NormalizeCharacterised(x, k1 + k2 - 1);
  }

  /** Shifting by whole turns does not change the normalised value. */
  lemma NormalizePeriodic(x: real, n: int)
    ensures Normalize(x + 360.0 * (n as real)) == Normalize(x)
  {
    var k := (x / 360.0).Floor;
    NormalizeCharacterised(x + 360.0 * (n as real), k + n);
  }

  /** Values already in [0, 360) are left alone. */
  lemma NormalizeIdentity(x: real)
    requires 0.0 <= x < 360.0
    ensures Normalize(x) == x
  {
    NormalizeCharacterised(x, 0);
  }

  /** For a non-negative dividend the remainder is the floor remainder. */
  lemma JsRemNonNegative(x: real, m: real)
    requires IsDegreeModulus(m) && 0.0 <= x
    ensures JsRem(x, m) == x - m * ((x / m).Floor as real)
  {
  }

  /** Absolute value of an integer (Math.abs). */
  function Abs(n: int): (r: int)
    ensures 0 <= r && (r == n || r == -n)
  {
    if n < 0 then -n else n
  }

  /** JavaScript's `a % d` on integers: the magnitude of the floor remainder, with the sign of `a`. */
  function JsIntRem(a: int, d: int): (r: int)
    requires d != 0
    ensures 0 <= a ==> 0 <= r < Abs(d)
    ensures a < 0 ==> -Abs(d) < r <= 0
    ensures Abs(r) == Abs(a) % Abs(d)
  {
    if a >= 0 then a % Abs(d) else -((-a) % Abs(d))
  }

  const TwoTo31: int := 0x8000_0000
  const TwoTo32: int := 0x1_0000_0000

  /** ToInt32: the wrap-around to a signed 32-bit integer that `&`, `|` and `<<` apply. */
  function ToInt32(x: int): (r: int)
    ensures -TwoTo31 <= r < TwoTo31
    ensures (x - r) % TwoTo32 == 0
  {
    var m := x % TwoTo32;
    if m >= TwoTo31 then m - TwoTo32 else m
  }

  /** Adding whole multiples of 2^32 leaves the remainder modulo 2^32 as it was. */
  lemma {:induction false} ModShift(y: int, q: int)
    ensures (y + TwoTo32 * q) % TwoTo32 == y % TwoTo32
  {
    var r := y % TwoTo32;
    var d := y / TwoTo32;
    assert y == TwoTo32 * d + r;
    assert y + TwoTo32 * q == TwoTo32 * (d + q) + r;
  }

  /** ToInt32 depends only on its argument modulo 2^32. */
  lemma {:induction false} ToInt32Congruent(x: int, y: int)
    requires (x - y) % TwoTo32 == 0
    ensures ToInt32(x) == ToInt32(y)
  {
    var q := (x - y) / TwoTo32;
    assert x == y + TwoTo32 * q;
    ModShift(y, q);
  }

  /** ToInt32 leaves values that already fit in 32 bits unchanged. */
  lemma ToInt32Identity(x: int)
    requires -TwoTo31 <= x < TwoTo31
    ensures ToInt32(x) == x
  {
  }
}
