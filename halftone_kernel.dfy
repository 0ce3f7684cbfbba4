/** The per-fragment kernel of the halftone line-screen shader in sketch.js:
    luminance, the rotated and distorted line phase, the fold to the nearest
    line centre, the anti-aliased line edge, the brightness balance, the
    multi-level loop and the final colour mix.  Shader floats are reals; the
    transcendental and screen-space built-ins come in as a `Builtins` value. */
module HalftoneKernel {
  import opened Glsl

  /** `#define PI 3.14159265359` */
  const PI: real := 3.14159265359

  /** Floor of the per-level contrast exponent in the multi-level loop. */
  const MinLevelContrast: real := 0.0001

  /** Floor of the rendered half-width of a line, in pixels. */
  const MinHalfWidth: real := 0.25

  /** The fixed bound of the multi-level loop. */
  const MaxLevels: int := 8

  type Positive = r: real | r > 0.0 witness 1.0

  /** The built-ins whose values the model does not compute, for the fragment
      being shaded: sin, cos, pow, the simplex noise of the shader's prelude,
      and `fwidthPhase(a)`, the value of `fwidth(phase)` at this fragment
      when the pattern is rotated by `a`.  The latter is taken positive:
      GLSL leaves smoothstep undefined when its two edges coincide. */
  datatype Builtins = Builtins(
    sin: real -> real,
    cos: real -> real,
    pow: (real, real) -> real,
    simplex: (real, real, real) -> real,
    fwidthPhase: real -> Positive)

  /** The uniforms the kernel reads (blend, alias, useRGB and color are
      declared by the shader but never read). */
  datatype Uniforms = Uniforms(
    levels: real,
    angle: real,
    frequency: real,
    height: real,
    spacing: real,
    bright: real,
    contrast: real,
    useNoise: bool,
    useLevels: bool,
    levelsAngle: real,
    levelsContrast: real,
    lineWidth: real,
    colorA: Vec3,
    colorB: Vec3)

  /** What the kernel reads of the fragment: `gl_FragCoord.xy` and the
      texel `texture(tex, vertCoord).rgb` under it. */
  datatype Fragment = Fragment(coordX: real, coordY: real, texel: Vec3)

  /** The shader's output `fragColor`. */
  datatype Rgba = Rgba(rgb: Vec3, alpha: real)

  /** Every division the kernel performs by a uniform has a non-zero divisor:
      the line spacing in `mod`, and the distortion frequency (offset by 360
      in noise mode). */
  predicate WellDefined(u: Uniforms) {
    && u.spacing != 0.0
    && (if u.useNoise then u.frequency + 360.0 != 0.0 else u.frequency != 0.0)
  }

  // ---------------------------------------------------------------- luma

  /** Perceptual luminance with weights 0.299, 0.587, 0.114, which sum to one:
      a colour in the unit cube has a luminance in [0, 1], and a grey keeps
      its level. */
  function Luma(c: Vec3): (r: real)
    ensures InUnitCube(c) ==> 0.0 <= r <= 1.0
    ensures c.x == c.y == c.z ==> r == c.x
  {
    c.x * 0.299 + c.y * 0.587 + c.z * 0.114
  }

  /** Luma is monotone in every channel. */
  lemma LumaMonotone(c: Vec3, d: Vec3)
    requires c.x <= d.x && c.y <= d.y && c.z <= d.z
    ensures Luma(c) <= Luma(d)
  {
  }

  // ---------------------------------------------------------------- phase

  /** `pixel *= rotate2d(a)` for the row vector `pixel`, where
      `rotate2d(a) = mat2(cos a, -sin a, sin a, cos a)` (column-major) and
      s, c stand for sin a, cos a.  The angle 0 leaves the point in place;
      a quarter turn takes (x, y) to (-y, x). */
  function Rotate(px: real, py: real, s: real, c: real): (r: (real, real))
    ensures s == 0.0 && c == 1.0 ==> r.0 == px && r.1 == py
    ensures s == 1.0 && c == 0.0 ==> r.0 == -py && r.1 == px
  {
    (px * c - py * s, px * s + py * c)
  }

  /** With s and c on the unit circle, the rotation keeps lengths. */
  lemma RotateKeepsLength(px: real, py: real, s: real, c: real)
    requires s * s + c * c == 1.0
    ensures var (rx, ry) := Rotate(px, py, s, c);
      rx * rx + ry * ry == px * px + py * py
  {
    var (rx, ry) := Rotate(px, py, s, c);
    assert rx * rx + ry * ry == (px * px + py * py) * (s * s + c * c);
  }

  /** `distort(nuv)`: simplex noise of `nuv.xxy / (frequency + 360)` scaled by
      `2 * height` in noise mode, `sin(nuv.x / frequency) * height` otherwise.
      A zero height switches the distortion off. */
  function Distort(b: Builtins, u: Uniforms, x: real, y: real): (r: real)
    requires WellDefined(u)
    ensures u.height == 0.0 ==> r == 0.0
  {
    if u.useNoise then
      var k := u.frequency + 360.0;
      b.simplex(x / k, x / k, y / k) * u.height * 2.0
    else
      b.sin(x / u.frequency) * u.height
  }

  /** `phase = pixel.y + distort(pixel)` for `pixel = floor(gl_FragCoord.xy)`
      rotated by `angle`. */
  function Phase(b: Builtins, u: Uniforms, f: Fragment, angle: real): real
    requires WellDefined(u)
  {
    var (rx, ry) := Rotate(f.coordX.Floor as real, f.coordY.Floor as real, b.sin(angle), b.cos(angle));
    ry + Distort(b, u, rx, ry)
  }

  // ---------------------------------------------------------------- line

  /** The centre of line k of the screen: phase (k + 1/2) * spacing. */
  function LineCentre(k: int, spacing: real): real {
    (k as real + 0.5) * spacing
  }

  /** `d = abs(mod(phase, spacing) - spacing * 0.5)`: at most half a spacing,
      and unchanged when the phase moves by whole spacings. */
  function FoldDistance(phase: real, spacing: real): (r: real)
    requires spacing != 0.0
    ensures 0.0 <= r <= Abs(spacing) / 2.0
  {
    Abs(Mod(phase, spacing) - spacing * 0.5)
  }

  /** The fold distance is periodic in the phase with period `spacing`. */
  lemma {:induction false} FoldDistancePeriodic(phase: real, spacing: real)
    requires spacing != 0.0
    ensures FoldDistance(phase + spacing, spacing) == FoldDistance(phase, spacing)
  {
    ModPeriodic(phase, spacing);
  }

  /** A positive real times a factor at least one is at least that real. */
  lemma MulAtLeast(s: real, t: real)
    requires s > 0.0 && t >= 1.0
    ensures s * t >= s
  {
    MulNonneg(s, t - 1.0);
    assert s * t == s + s * (t - 1.0);
  }

  /** At least one whole spacing away, in either direction. */
  lemma WholeSpacingsAway(s: real, t: real)
    requires s > 0.0 && (t >= 1.0 || t <= -1.0)
    ensures s * t >= s || s * t <= -s
  {
    if t >= 1.0 {
      MulAtLeast(s, t);
    } else {
      MulAtLeast(s, -t);
      assert s * (-t) == -(s * t);
    }
  }

  /** An offset e within half a spacing of a centre stays at least half a
      spacing away from a centre p that is a spacing or more off. */
  lemma OtherCentreFarther(e: real, s: real, p: real)
    requires s > 0.0 && -s / 2.0 <= e < s / 2.0 && (p >= s || p <= -s)
    ensures Abs(e + p) >= s / 2.0
  {
  }

  /** For a positive spacing, the fold distance is the distance from the phase
      to the nearest line centre: line floor(phase / spacing) attains it, and
      no line centre is closer. */
  lemma {:induction false} FoldDistanceIsNearestCentre(phase: real, spacing: real, k: int)
    requires spacing > 0.0
    ensures FoldDistance(phase, spacing) == Abs(phase - LineCentre((phase / spacing).Floor, spacing))
    ensures FoldDistance(phase, spacing) <= Abs(phase - LineCentre(k, spacing))
  {
    var s := spacing;
    var f := (phase / s).Floor;
    NearestCentreOffset(phase, s);
    if k != f {
      FartherCentre(phase, s, f, k);
    }
  }

  /** The phase sits Mod(phase, s) - s / 2 from the centre of line
      floor(phase / s). */
  lemma NearestCentreOffset(phase: real, s: real)
    requires s > 0.0
    ensures phase - LineCentre((phase / s).Floor, s) == Mod(phase, s) - s * 0.5
  {
    CentreOffset((phase / s).Floor as real, s);
  }

  /** Within half a spacing of the centre of line f, the phase is at least
      half a spacing from the centre of any other line k. */
  lemma FartherCentre(phase: real, s: real, f: int, k: int)
    requires s > 0.0 && k != f
    requires -s / 2.0 <= phase - LineCentre(f, s) < s / 2.0
    ensures Abs(phase - LineCentre(k, s)) >= s / 2.0
  {
    var t := (f - k) as real;
    var e := phase - LineCentre(f, s);
    var p := s * t;
    CentreShift(phase, s, f as real, k as real, t);
    assert phase - LineCentre(k, s) == e + p;
    WholeSpacingsAway(s, t);
    assert p >= s || p <= -s;
    OtherCentreFarther(e, s, p);
  }

  /** The centre of line a lies half a spacing above a spacings. */
  lemma CentreOffset(a: real, s: real)
    ensures (a + 0.5) * s == s * a + s * 0.5
  {
  }

  /** Moving from the centre of line a to that of line b, t = a - b lines
      down, moves the offset of a phase by t spacings. */
  lemma CentreShift(phase: real, s: real, a: real, b: real, t: real)
    requires t == a - b
    ensures phase - (b + 0.5) * s == (phase - (a + 0.5) * s) + s * t
  {
  }

  /** `halfWidth = max(0.25, lineWidth * 0.5)`: a quarter pixel below half a
      pixel of line width, exactly half the line width from there on. */
  function HalfWidth(lineWidth: real): (r: real)
    ensures r >= MinHalfWidth
    ensures r >= lineWidth / 2.0
    ensures lineWidth >= 2.0 * MinHalfWidth ==> r == lineWidth / 2.0
    ensures lineWidth < 2.0 * MinHalfWidth ==> r == MinHalfWidth
  {
    Max(MinHalfWidth, lineWidth * 0.5)
  }

  /** `smoothstep(halfWidth - aa, halfWidth + aa, d)`: 0 on the line (d at most
      halfWidth - aa), 1 off it (d at least halfWidth + aa), and a ramp of
      width 2 * aa in between. */
  function EdgeCoverage(d: real, halfWidth: real, aa: Positive): (r: real)
    ensures 0.0 <= r <= 1.0
    ensures d <= halfWidth - aa ==> r == 0.0
    ensures d >= halfWidth + aa ==> r == 1.0
  {
    SmoothStep(halfWidth - aa, halfWidth + aa, d)
  }

  /** The edge coverage grows with the distance from the line centre. */
  lemma EdgeCoverageMonotone(d1: real, d2: real, halfWidth: real, aa: Positive)
    requires d1 <= d2
    ensures EdgeCoverage(d1, halfWidth, aa) <= EdgeCoverage(d2, halfWidth, aa)
  {
    SmoothStepMonotone(halfWidth - aa, halfWidth + aa, d1, d2);
  }

  /** `balance(sampled, weight, width)`: a weight below one is raised by the
      image sample, then `smoothstep(0, 1, pow(weight, bright))`.  Whatever
      pow returns, the result lies in [0, 1]. The `width` argument of the
      source is unused and left out. */
  function Balance(b: Builtins, bright: real, sampled: real, weight: real): (r: real)
    ensures 0.0 <= r <= 1.0
  {
    var w := if weight < 1.0 then sampled + weight else weight;
    SmoothStep(0.0, 1.0, b.pow(w, bright))
  }

  /** Off the line (weight at least one) the image sample plays no part. */
  lemma BalanceIgnoresSampleOffLine(b: Builtins, bright: real, s1: real, s2: real, weight: real)
    requires weight >= 1.0
    ensures Balance(b, bright, s1, weight) == Balance(b, bright, s2, weight)
  {
  }

  /** The coverage of the line screen at a given phase and anti-aliasing width. */
  function LineCoverage(b: Builtins, u: Uniforms, sampled: real, phase: real, aa: Positive): (r: real)
    requires WellDefined(u)
    ensures 0.0 <= r <= 1.0
  {
    var d := FoldDistance(phase, u.spacing);
    Balance(b, u.bright, sampled, EdgeCoverage(d, HalfWidth(u.lineWidth), aa))
  }

  /** The line screen repeats with period `spacing` in the phase. */
  lemma {:induction false} LineCoveragePeriodic(b: Builtins, u: Uniforms, sampled: real, phase: real, aa: Positive)
    requires WellDefined(u)
    ensures LineCoverage(b, u, sampled, phase + u.spacing, aa) == LineCoverage(b, u, sampled, phase, aa)
  {
    FoldDistancePeriodic(phase, u.spacing);
  }

  /** `waves(sampled)` and `wavesWithAngle(sampled, angle)`: the line screen
      rotated by `angle` at this fragment, always in [0, 1]. */
  function Waves(b: Builtins, u: Uniforms, f: Fragment, sampled: real, angle: real): (r: real)
    requires WellDefined(u)
    ensures 0.0 <= r <= 1.0
  {
    LineCoverage(b, u, sampled, Phase(b, u, f, angle), b.fwidthPhase(angle))
  }

  /** Without distortion and rotation (sin angle == 0, cos angle == 1) the
      lines are horizontal: the value depends on the fragment's row only.
      One Builtins value serves both fragments, so `fwidth(phase)` is taken
      to agree at the two; it does, since the phase is then floor(y), whose
      screen-space change is 1 at every fragment. */
  lemma HorizontalStripes(b: Builtins, u: Uniforms, f1: Fragment, f2: Fragment, sampled: real)
    requires WellDefined(u) && u.height == 0.0
    requires b.sin(u.angle) == 0.0 && b.cos(u.angle) == 1.0
    requires f1.coordY == f2.coordY
    ensures Waves(b, u, f1, sampled, u.angle) == Waves(b, u, f2, sampled, u.angle)
    ensures Phase(b, u, f1, u.angle) == f1.coordY.Floor as real
  {
  }

  // ---------------------------------------------------------------- levels

  /** `n = clamp(int(floor(levels + 0.5)), 1, 8)`: `levels` rounded to the
      nearest whole number (halves up), then kept within 1..8. */
  function LevelCount(levels: real): (n: int)
    ensures 1 <= n <= MaxLevels
    ensures 0.5 <= levels < MaxLevels as real + 0.5 ==> n as real - 0.5 <= levels < n as real + 0.5
    ensures levels < 0.5 ==> n == 1
    ensures levels >= MaxLevels as real + 0.5 ==> n == MaxLevels
  {
    ClampInt((levels + 0.5).Floor, 1, MaxLevels)
  }

  /** `angle + float(i) * (levelsAngle == 0 ? 0 : PI / levelsAngle)`: a zero
      `levelsAngle` gives every level the base angle and divides by nothing;
      otherwise level i is turned by i times PI / levelsAngle. */
  function LevelAngle(angle: real, levelsAngle: real, i: nat): (r: real)
    ensures levelsAngle == 0.0 ==> r == angle
    ensures levelsAngle != 0.0 ==> (r - angle) * levelsAngle == i as real * PI
  {
    var step := if levelsAngle == 0.0 then 0.0 else PI / levelsAngle;
    assert levelsAngle != 0.0 ==> step * levelsAngle == PI by {
      if levelsAngle != 0.0 { MulDiv(PI, levelsAngle); }
    }
    angle + i as real * step
  }

  /** `max(0.0001, contrast + float(i) * levelsContrast)`: always a positive
      exponent, and the plain offset contrast whenever that is not below
      the floor. */
  function LevelContrast(contrast: real, levelsContrast: real, i: nat): (r: real)
    ensures r >= MinLevelContrast > 0.0
    ensures r >= contrast + i as real * levelsContrast
    ensures contrast + i as real * levelsContrast >= MinLevelContrast ==> r == contrast + i as real * levelsContrast
    ensures contrast + i as real * levelsContrast < MinLevelContrast ==> r == MinLevelContrast
  {
    Max(MinLevelContrast, contrast + i as real * levelsContrast)
  }

  /** `r_i`: the line screen of level i, on the sample raised to the level's
      contrast, at the level's angle. */
  function LevelValue(b: Builtins, u: Uniforms, f: Fragment, i: nat): (r: real)
    requires WellDefined(u)
    ensures 0.0 <= r <= 1.0
  {
    var sampled := b.pow(Luma(f.texel), LevelContrast(u.contrast, u.levelsContrast, i));
    Waves(b, u, f, sampled, LevelAngle(u.angle, u.levelsAngle, i))
  }

  /** Level i's value for every level index i, each in [0, 1]. */
  function LevelValues(b: Builtins, u: Uniforms, f: Fragment): (v: nat -> real)
    requires WellDefined(u)
    ensures forall i: nat :: 0.0 <= v(i) <= 1.0
  {
    (i: nat) => LevelValue(b, u, f, i)
  }

  /** The sum v(0) + ... + v(k - 1) of the first k values, accumulated in
      index order as the shader's loop does. */
  function Sum(v: nat -> real, k: nat): real {
    if k == 0 then 0.0 else Sum(v, k - 1) + v(k - 1)
  }

  /** k values in [0, 1] sum to a value in [0, k]. */
  lemma {:induction false} SumBounds(v: nat -> real, k: nat)
    requires forall i: nat :: 0.0 <= v(i) <= 1.0
    ensures 0.0 <= Sum(v, k) <= k as real
  {
    if k > 0 {
      SumBounds(v, k - 1);
    }
  }

  /** k copies of the same value c sum to k * c. */
  lemma {:induction false} SumOfEqual(v: nat -> real, k: nat, c: real)
    requires forall i: nat :: v(i) == c
    ensures Sum(v, k) == k as real * c
  {
    if k > 0 {
      SumOfEqual(v, k - 1, c);
      assert Sum(v, k) == (k - 1) as real * c + c;
    }
  }

  /** The multi-level coverage: the mean of the n level values, in [0, 1]. */
  function MultiLevelCoverage(b: Builtins, u: Uniforms, f: Fragment): (r: real)
    requires WellDefined(u)
    ensures 0.0 <= r <= 1.0
  {
    var n := LevelCount(u.levels);
    var total := Sum(LevelValues(b, u, f), n);
    SumBounds(LevelValues(b, u, f), n);
    MeanBounds(total, n as real);
    total / n as real
  }

  /** A total in [0, n] divided by a positive n lies in [0, 1]. */
  lemma MeanBounds(total: real, n: real)
    requires n > 0.0 && 0.0 <= total <= n
    ensures 0.0 <= total / n <= 1.0
  {
    DivMonotone(0.0, total, n);
    DivMonotone(total, n, n);
    DivUnique(n, n, 1.0);
  }

  /** The single-level coverage: `waves(pow(luma(texel), contrast))`. */
  function SingleLevelCoverage(b: Builtins, u: Uniforms, f: Fragment): (r: real)
    requires WellDefined(u)
    ensures 0.0 <= r <= 1.0
  {
    Waves(b, u, f, b.pow(Luma(f.texel), u.contrast), u.angle)
  }

  /** The coverage `result` that the kernel hands to the final mix. */
  function Coverage(b: Builtins, u: Uniforms, f: Fragment): (r: real)
    requires WellDefined(u)
    ensures 0.0 <= r <= 1.0
  {
    if u.useLevels then MultiLevelCoverage(b, u, f) else SingleLevelCoverage(b, u, f)
  }

  /** `fragColor = vec4(mix(colorB, colorA, result), 1.0)`. */
  function FragmentColor(b: Builtins, u: Uniforms, f: Fragment): Rgba
    requires WellDefined(u)
  {
    Rgba(MixVec3(u.colorB, u.colorA, Coverage(b, u, f)), 1.0)
  }

  /** The loop of the shader's `main`: at most eight iterations, stopping
      after the first n, adding up the level values `r_i` in `accum`. */
  method SumLevels(v: nat -> real, n: int) returns (accum: real)
    requires 1 <= n <= MaxLevels
    ensures accum == Sum(v, n)
  {
    accum := 0.0;
    var i := 0;
    while i < MaxLevels
      invariant 0 <= i <= n
      invariant accum == Sum(v, i)
    {
      if i >= n {
        break;
      }
      var rI := v(i);
      accum := accum + rI;
      i := i + 1;
    }
  }

  /** The shader's `main`: in multi-level mode the mean of the n level
      values, otherwise one line screen at the base angle and contrast,
      mixes colorB into colorA. */
  method ShadeFragment(b: Builtins, u: Uniforms, f: Fragment) returns (fragColor: Rgba)
    requires WellDefined(u)
    ensures fragColor == FragmentColor(b, u, f)
  {
    var colored: Vec3;
    if u.useLevels {
      var n := LevelCount(u.levels);
      var accum := SumLevels(LevelValues(b, u, f), n);
      var result := accum / n as real;
      colored := MixVec3(u.colorB, u.colorA, result);
    } else {
      var sampled := b.pow(Luma(f.texel), u.contrast);
      var result := Waves(b, u, f, sampled, u.angle);
      colored := MixVec3(u.colorB, u.colorA, result);
    }
    fragColor := Rgba(colored, 1.0);
  }

  // ---------------------------------------------------------------- lemmas

  /** The output colour is opaque and each of its channels lies between the
      corresponding channels of colorB and colorA. */
  lemma FragmentColorBetweenColors(b: Builtins, u: Uniforms, f: Fragment)
    requires WellDefined(u)
    ensures FragmentColor(b, u, f).alpha == 1.0
    ensures var c := FragmentColor(b, u, f).rgb;
      Between(c.x, u.colorB.x, u.colorA.x) && Between(c.y, u.colorB.y, u.colorA.y) && Between(c.z, u.colorB.z, u.colorA.z)
  {
  }

  /** With a single level, the mean is that level's value. */
  lemma {:induction false} OneLevelMean(b: Builtins, u: Uniforms, f: Fragment)
    requires WellDefined(u) && LevelCount(u.levels) == 1
    ensures MultiLevelCoverage(b, u, f) == LevelValue(b, u, f, 0)
  {
    assert Sum(LevelValues(b, u, f), 1) == LevelValue(b, u, f, 0);
  }

  /** Level 0 is drawn at the base angle; with a contrast not below the
      floor it is also drawn at the base contrast, so it is the single-level
      screen. */
  lemma LevelZeroIsSingleLevel(b: Builtins, u: Uniforms, f: Fragment)
    requires WellDefined(u) && u.contrast >= MinLevelContrast
    ensures LevelValue(b, u, f, 0) == SingleLevelCoverage(b, u, f)
  {
    assert LevelAngle(u.angle, u.levelsAngle, 0) == u.angle;
    assert LevelContrast(u.contrast, u.levelsContrast, 0) == u.contrast;
  }

  /** With a single level and a contrast not below the floor, the multi-level
      coverage is exactly the single-level coverage. */
  lemma {:induction false} OneLevelIsSingleLevel(b: Builtins, u: Uniforms, f: Fragment)
    requires WellDefined(u) && LevelCount(u.levels) == 1 && u.contrast >= MinLevelContrast
    ensures MultiLevelCoverage(b, u, f) == SingleLevelCoverage(b, u, f)
  {
    OneLevelMean(b, u, f);
    LevelZeroIsSingleLevel(b, u, f);
  }

  /** With no angle step and no contrast step, and a contrast not below the
      floor, every level draws the single-level screen. */
  lemma SameLevels(b: Builtins, u: Uniforms, f: Fragment)
    requires WellDefined(u) && u.levelsAngle == 0.0 && u.levelsContrast == 0.0
    requires u.contrast >= MinLevelContrast
    ensures forall i: nat :: LevelValues(b, u, f)(i) == SingleLevelCoverage(b, u, f)
  {
    forall i: nat
      ensures LevelValues(b, u, f)(i) == SingleLevelCoverage(b, u, f)
    {
      assert LevelAngle(u.angle, u.levelsAngle, i) == u.angle;
      assert LevelContrast(u.contrast, u.levelsContrast, i) == u.contrast;
    }
  }

  /** With no angle step and no contrast step every level draws the same
      screen, so multi-level mode renders exactly what single-level mode
      renders, whatever the level count. */
  lemma {:induction false} UniformLevelsAreSingleLevel(b: Builtins, u: Uniforms, f: Fragment)
    requires WellDefined(u) && u.levelsAngle == 0.0 && u.levelsContrast == 0.0
    requires u.contrast >= MinLevelContrast
    ensures MultiLevelCoverage(b, u, f) == SingleLevelCoverage(b, u, f)
  {
    var n := LevelCount(u.levels);
    var v := SingleLevelCoverage(b, u, f);
    SameLevels(b, u, f);
    MeanOfEqual(LevelValues(b, u, f), n, v);
  }

  /** n >= 1 values all equal to c have mean c. */
  lemma MeanOfEqual(v: nat -> real, n: nat, c: real)
    requires n >= 1 && forall i: nat :: v(i) == c
    ensures Sum(v, n) / n as real == c
  {
    SumOfEqual(v, n, c);
    DivUnique(Sum(v, n), n as real, c);
  }
}
