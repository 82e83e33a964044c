/**
 * Numeric helpers shared by the model: the mathematical library as a parameter,
 * float-to-int truncation, the two remainder operators used to wrap angles, and
 * the integer rectangle type of the graphics frameworks.
 */
module Geometry {
  import opened Config

  /**
   * The platform's transcendental functions. The model never computes them; every
   * operation that calls Math.Cos, Math.Sin, Math.Sqrt or Math.Atan2 receives them here.
   */
  datatype Trig = Trig(cos: real -> real, sin: real -> real, sqrt: real -> real, atan2: (real, real) -> real)

  /** The square root the platform supplies really is one (on non-negative arguments). */
  ghost predicate SqrtSound(t: Trig) {
    forall q: real {:trigger t.sqrt(q)} :: 0.0 <= q ==> 0.0 <= t.sqrt(q) && t.sqrt(q) * t.sqrt(q) == q
  }

  /** A cast `(int)v` in C# and `int(v)` in Python: truncation toward zero. */
  function Trunc(v: real): (t: int)
    ensures 0.0 <= v ==> 0 <= t && t as real <= v < t as real + 1.0
    ensures v < 0.0 ==> t <= 0 && t as real - 1.0 < v <= t as real
  {
    if 0.0 <= v then v.Floor else -((-v).Floor)
  }


  /** A product of a positive and a non-negative real is non-negative, and positive when both are. */
  lemma MulNonNegative(x: real, y: real)
    requires 0.0 < x && 0.0 <= y
    ensures 0.0 <= x * y
    ensures 0.0 < y ==> 0.0 < x * y
  {
  }

  /** Scaling a vector by k scales its squared length by k * k. */
  lemma ScaledSquares(x: real, y: real, k: real)
    ensures (x * k) * (x * k) + (y * k) * (y * k) == (x * x + y * y) * (k * k)
  {
    assert (x * k) * (x * k) == (x * x) * (k * k);
    assert (y * k) * (y * k) == (y * y) * (k * k);
  }

  /** Squares are non-negative. */
  lemma MulSelf(x: real)
    ensures 0.0 <= x * x
  {
    if x < 0.0 {
      MulNonNegative(-x, -x);
    } else if 0.0 < x {
      MulNonNegative(x, x);
    }
  }

  /** The squared length of (x, y), the argument every Math.Sqrt call of the core receives. */
  function SquaredLength(x: real, y: real): (q: real)
    ensures 0.0 <= q
  {
    MulSelf(x);
    MulSelf(y);
    x * x + y * y
  }

  /** For non-negative d, comparing d with a positive bound is comparing squares. */
  lemma SquareBelow(q: real, d: real, r: real)
    requires 0.0 <= d && d * d == q && 0.0 < r
    ensures d < r <==> q < r * r
  {
    assert (r - d) * (r + d) == r * r - d * d;
    assert (d - r) * (d + r) == d * d - r * r;
    if d < r {
      MulNonNegative(r - d, r + d);
    } else {
      MulNonNegative(d + r, d - r);
      assert (d + r) * (d - r) == (d - r) * (d + r);
    }
  }

  /** Dividing by a positive number keeps a strict bound of one. */
  lemma QuotientBounds(a: real, m: real)
    requires 0.0 < m
    ensures a < m ==> a / m < 1.0
    ensures -m < a ==> -1.0 < a / m
  {
  }

  /** Facts about `a - m * k` when `k` is an integer next to the quotient `a / m`. */
  lemma FractionBounds(m: real, a: real, k: real)
    requires 0.0 < m
    ensures -m < a < m ==> -1.0 < a / m < 1.0
    ensures k <= a / m < k + 1.0 ==> 0.0 <= a - m * k < m
    ensures k - 1.0 < a / m <= k ==> -m < a - m * k <= 0.0
  {
    QuotientBounds(a, m);
    var q := a / m;
    var f := q - k;
    assert m * q == a;
    assert a - m * k == m * f;
    assert m * (1.0 - f) == m - m * f;
    assert m * (1.0 + f) == m + m * f;
    assert m * (-f) == -(m * f);
    if 0.0 <= f {
      MulNonNegative(m, f);
    }
    if f < 1.0 {
      MulNonNegative(m, 1.0 - f);
    }
    if f <= 0.0 {
      MulNonNegative(m, -f);
    }
    if -1.0 < f {
      MulNonNegative(m, 1.0 + f);
    }
  }

  /** C#'s `%` on floating-point numbers: the remainder takes the sign of the dividend. */
  function CsRem(a: real, m: real): (r: real)
    requires 0.0 < m
    ensures -m < r < m
    ensures 0.0 <= a ==> 0.0 <= r
    ensures a <= 0.0 ==> r <= 0.0
    ensures -m < a < m ==> r == a
  {
    var k := Trunc(a / m);
    FractionBounds(m, a, k as real);
    a - m * k as real
  }

  /** Python's `%` on floats: the remainder takes the sign of the (positive) divisor. */
  function PyMod(a: real, m: real): (r: real)
    requires 0.0 < m
    ensures 0.0 <= r < m
    ensures 0.0 <= a < m ==> r == a
  {
    var k := (a / m).Floor;
    FractionBounds(m, a, k as real);
    a - m * k as real
  }

  /** The two remainders agree on non-negative angles ... */
  lemma RemaindersAgreeOnNonNegative(a: real, m: real)
    requires 0.0 < m && 0.0 <= a
    ensures CsRem(a, m) == PyMod(a, m)
  {
  }

  /** ... and differ on every negative angle that is not a multiple of the modulus. */
  lemma RemaindersDifferOnNegative(a: real, m: real)
    requires 0.0 < m && a < 0.0 && CsRem(a, m) != 0.0
    ensures CsRem(a, m) < 0.0 <= PyMod(a, m)
    ensures PyMod(a, m) == CsRem(a, m) + m
  {
    var q := a / m;
    var lo, t := q.Floor, Trunc(q);
    assert lo == t || lo + 1 == t;
    assert lo != t;
    assert m * (t as real) == m * (lo as real) + m;
  }

  /** The time covered by a series of frames. */
  function Elapsed(dts: seq<real>): real
    decreases |dts|
  {
    if dts == [] then 0.0 else dts[0] + Elapsed(dts[1..])
  }

  lemma {:induction false} ElapsedOfPositive(dts: seq<real>)
    requires forall i :: 0 <= i < |dts| ==> 0.0 < dts[i]
    ensures 0.0 <= Elapsed(dts)
    ensures dts != [] ==> dts[0] <= Elapsed(dts)
    decreases |dts|
  {
    if dts != [] {
      ElapsedOfPositive(dts[1..]);
    }
  }

  /** An integer rectangle (XNA Rectangle / pygame.Rect). */
  datatype Rect = Rect(x: int, y: int, width: int, height: int) {
    /** Rectangle.Contains / Rect.collidepoint: the half-open box [x, x+w) x [y, y+h). */
    predicate Contains(px: int, py: int) {
      x <= px < x + width && y <= py < y + height
    }
  }
}
