/** Exact real-valued models of the built-in common functions of the OpenGL ES
    Shading Language 3.00 (section 8.3, Common Functions) that the line-screen
    fragment shader uses.  Shader floats are modelled as mathematical reals. */
module Glsl {

  /** A `vec3`; for colours x, y, z are the red, green and blue channels. */
  datatype Vec3 = Vec3(x: real, y: real, z: real)

  /** Every channel lies in [0, 1]. */
  predicate InUnitCube(c: Vec3) {
    0.0 <= c.x <= 1.0 && 0.0 <= c.y <= 1.0 && 0.0 <= c.z <= 1.0
  }

  /** `v` lies between `a` and `b`, whichever of the two is smaller. */
  predicate Between(v: real, a: real, b: real) {
    (a <= v <= b) || (b <= v <= a)
  }

  /** abs(x) */
  function Abs(x: real): (r: real)
    ensures r >= 0.0
    ensures r == x || r == -x
  {
    if x < 0.0 then -x else x
  }

  /** max(x, y): y when x < y, otherwise x. */
  function Max(x: real, y: real): (r: real)
    ensures r >= x && r >= y
    ensures r == x || r == y
  {
    if x < y then y else x
  }

  /** clamp(x, minVal, maxVal) = min(max(x, minVal), maxVal) on floats.
      The result is undefined in GLSL when minVal > maxVal. */
  function Clamp(x: real, lo: real, hi: real): (r: real)
    requires lo <= hi
    ensures lo <= r <= hi
    ensures lo <= x <= hi ==> r == x
    ensures x < lo ==> r == lo
    ensures x > hi ==> r == hi
  {
    if x < lo then lo else if x > hi then hi else x
  }

  /** clamp(x, minVal, maxVal) on ints. */
  function ClampInt(x: int, lo: int, hi: int): (r: int)
    requires lo <= hi
    ensures lo <= r <= hi
    ensures lo <= x <= hi ==> r == x
    ensures x < lo ==> r == lo
    ensures x > hi ==> r == hi
  {
    if x < lo then lo else if x > hi then hi else x
  }

  /** The real `z` is a whole number. */
  predicate IsWhole(z: real) {
    z.Floor as real == z
  }

  /** A product of a factor in [0, 1] and a non-negative factor is at most that factor. */
  lemma ScaleBelow(y: real, t: real)
    requires y >= 0.0 && 0.0 <= t <= 1.0
    ensures 0.0 <= y * t
    ensures y * t <= y
  {
  }

  /** A product of a factor in [0, 1] and a non-positive factor is at least that factor. */
  lemma ScaleAbove(y: real, t: real)
    requires y <= 0.0 && 0.0 <= t <= 1.0
    ensures y <= y * t
    ensures y * t <= 0.0
  {
  }

  /** A product of two non-negative reals is non-negative. */
  lemma MulNonneg(a: real, b: real)
    requires a >= 0.0 && b >= 0.0
    ensures a * b >= 0.0
  {
  }

  /** Division undoes multiplication by a non-zero real. */
  lemma DivUnique(w: real, y: real, z: real)
    requires y != 0.0 && w == z * y
    ensures w / y == z
  {
  }

  /** Multiplication undoes division by a non-zero real. */
  lemma MulDiv(x: real, y: real)
    requires y != 0.0
    ensures x == (x / y) * y
  {
  }

  /** Division by a positive real keeps the order. */
  lemma DivMonotone(a: real, b: real, w: real)
    requires w > 0.0 && a <= b
    ensures a / w <= b / w
  {
  }

  /** mod(x, y) = x - y * floor(x / y); undefined in GLSL when y == 0.
      The result has the sign of y, is smaller than y in magnitude, and
      differs from x by a whole multiple of y. */
  function Mod(x: real, y: real): (r: real)
    requires y != 0.0
    ensures y > 0.0 ==> 0.0 <= r < y
    ensures y < 0.0 ==> y < r <= 0.0
    ensures IsWhole((x - r) / y)
  {
    var f := (x / y).Floor;
    var r := x - y * f as real;
    assert 0.0 <= x / y - f as real < 1.0;
    ModFacts(x, y, f as real, r);
    DivUnique(x - r, y, f as real);
    assert IsWhole(f as real);
    r
  }

  /** The range of x - y * g when g is at most x / y and less than one below. */
  lemma ModFacts(x: real, y: real, g: real, r: real)
    requires y != 0.0 && 0.0 <= x / y - g < 1.0 && r == x - y * g
    ensures y > 0.0 ==> 0.0 <= r < y
    ensures y < 0.0 ==> y < r <= 0.0
  {
    var t := x / y - g;
    ResidueIsFraction(x, y, g, t, r);
    FractionOf(y, t, r);
  }

  /** x - y * g is y times t, the part of x / y above g. */
  lemma ResidueIsFraction(x: real, y: real, g: real, t: real, r: real)
    requires y != 0.0 && t == x / y - g && r == x - y * g
    ensures r == y * t
  {
    var q := x / y;
    MulDiv(x, y);
    assert y * (q - g) == y * q - y * g;
  }

  /** A fraction p = y * t, t in [0, 1), of y lies between 0 and y, y excluded. */
  lemma FractionOf(y: real, t: real, p: real)
    requires 0.0 <= t < 1.0 && p == y * t
    ensures y > 0.0 ==> 0.0 <= p < y
    ensures y < 0.0 ==> y < p <= 0.0
  {
    assert y - p == y * (1.0 - t);
  }

  /** Shifting the dividend by the divisor does not change mod. */
  lemma {:induction false} ModPeriodic(x: real, y: real)
    requires y != 0.0
    ensures Mod(x + y, y) == Mod(x, y)
  {
    var q := x / y;
    MulDiv(x, y);
    DivUnique(x + y, y, q + 1.0);
    assert (q + 1.0).Floor == q.Floor + 1;
  }

  /** mix(x, y, a) = x * (1 - a) + y * a. */
  function Mix(x: real, y: real, a: real): (r: real)
    ensures a == 0.0 ==> r == x
    ensures a == 1.0 ==> r == y
    ensures 0.0 <= a <= 1.0 ==> Between(r, x, y)
    ensures a == 0.5 ==> r == (x + y) / 2.0
  {
    MixBetween(x, y, a);
    x * (1.0 - a) + y * a
  }

  /** The facts behind Mix's contract for a weight in [0, 1]. */
  lemma MixBetween(x: real, y: real, a: real)
    ensures 0.0 <= a <= 1.0 ==> Between(x * (1.0 - a) + y * a, x, y)
  {
    var r := x * (1.0 - a) + y * a;
    var e := y - x;
    assert r == x + e * a;
    if 0.0 <= a <= 1.0 {
      if x <= y {
        ScaleBelow(e, a);
        assert x <= r <= y;
      } else {
        ScaleAbove(e, a);
        assert y <= r <= x;
      }
    }
  }

  /** mix on vec3: channel by channel. */
  function MixVec3(x: Vec3, y: Vec3, a: real): (r: Vec3)
    ensures a == 0.0 ==> r == x
    ensures a == 1.0 ==> r == y
    ensures 0.0 <= a <= 1.0 ==> Between(r.x, x.x, y.x) && Between(r.y, x.y, y.y) && Between(r.z, x.z, y.z)
    ensures a == 0.5 ==> r == Vec3((x.x + y.x) / 2.0, (x.y + y.y) / 2.0, (x.z + y.z) / 2.0)
  {
    Vec3(Mix(x.x, y.x, a), Mix(x.y, y.y, a), Mix(x.z, y.z, a))
  }

  /** The cubic Hermite ramp t * t * (3 - 2 * t). */
  function Hermite(t: real): real {
    t * t * (3.0 - 2.0 * t)
  }

  /** On [0, 1] the Hermite ramp stays in [0, 1]. */
  lemma HermiteBounds(t: real)
    requires 0.0 <= t <= 1.0
    ensures 0.0 <= Hermite(t) <= 1.0
  {
    var u := 1.0 - t;
    assert 1.0 - Hermite(t) == (u * u) * (1.0 + 2.0 * t);
    MulNonneg(u * u, 1.0 + 2.0 * t);
    MulNonneg(t * t, 3.0 - 2.0 * t);
  }

  /** On [0, 1] the Hermite ramp is non-decreasing. */
  lemma HermiteMonotone(s: real, t: real)
    requires 0.0 <= s <= t <= 1.0
    ensures Hermite(s) <= Hermite(t)
  {
    var ss, st, tt := s * s, s * t, t * t;
    var k := 3.0 * (s + t) - 2.0 * (ss + st + tt);
    assert Hermite(t) - Hermite(s) == (t - s) * k;
    ScaleBelow(s, s);
    ScaleBelow(t, t);
    ScaleBelow(s, t);
    assert ss <= s && tt <= t && st <= s;
    assert k >= 0.0;
    MulNonneg(t - s, k);
  }

  /** smoothstep(edge0, edge1, x): the Hermite ramp of
      clamp((x - edge0) / (edge1 - edge0), 0, 1); undefined in GLSL when
      edge0 >= edge1.  It is 0 up to edge0, 1 from edge1 on and in [0, 1]
      everywhere. */
  function SmoothStep(edge0: real, edge1: real, x: real): (r: real)
    requires edge0 < edge1
    ensures 0.0 <= r <= 1.0
    ensures x <= edge0 ==> r == 0.0
    ensures x >= edge1 ==> r == 1.0
  {
    var w := edge1 - edge0;
    var t := Clamp((x - edge0) / w, 0.0, 1.0);
    assert x <= edge0 ==> t == 0.0 by {
      if x <= edge0 { DivMonotone(x - edge0, 0.0, w); }
    }
    assert x >= edge1 ==> t == 1.0 by {
      if x >= edge1 { DivMonotone(w, x - edge0, w); DivUnique(w, w, 1.0); }
    }
    HermiteBounds(t);
    Hermite(t)
  }

  /** smoothstep is non-decreasing in x. */
  lemma SmoothStepMonotone(edge0: real, edge1: real, x1: real, x2: real)
    requires edge0 < edge1 && x1 <= x2
    ensures SmoothStep(edge0, edge1, x1) <= SmoothStep(edge0, edge1, x2)
  {
    var w := edge1 - edge0;
    DivMonotone(x1 - edge0, x2 - edge0, w);
    var t1 := Clamp((x1 - edge0) / w, 0.0, 1.0);
    var t2 := Clamp((x2 - edge0) / w, 0.0, 1.0);
    HermiteMonotone(t1, t2);
  }
}
