# Halftone line-screen sketch, modelled in Dafny

The sketch `sketch.js` renders an image as a halftone line screen: a WebGL
fragment shader turns the luminance of each texel into the thickness of
periodic, rotated and optionally distorted lines, optionally layered over up
to eight levels at stepped angles and contrasts, and mixes two colours by the
resulting coverage. The host side turns the colour pickers' hex values into
shader colours (`hexToVec3`) and sizes the canvas to the image
(`fitCanvasToImage`).

This project models:

- `glsl.dfy`, module `Glsl`: the GLSL ES 3.00 common functions the shader
  uses (section 8.3 of the OpenGL ES Shading Language 3.00 specification):
  `abs`, `max`, `clamp`, `mod`, `mix`, `smoothstep`, over mathematical reals.
- `halftone_kernel.dfy`, module `HalftoneKernel`: the fragment shader's
  kernel: `luma`, `rotate2d`, `distort`, the fold of the phase to the nearest
  line centre, the half-width floor, the anti-aliased edge, `balance`,
  `waves`/`wavesWithAngle`, and `main` as the imperative method
  `ShadeFragment`, proved equal to the functional specification
  `FragmentColor`; its multi-level loop is the method `SumLevels`, proved to
  compute the sum of the first n level values. `sin`, `cos`, `pow`, the
  simplex noise and `fwidth(phase)` are not computed: they come in as the
  fields of a `Builtins` value. The results hold whatever those built-ins
  return, with three stated exceptions: `fwidth(phase)` is taken positive
  (its type is `Positive`), `HorizontalStripes` assumes sin 0 and cos 1 at
  the base angle, and `RotateKeepsLength` assumes s * s + c * c == 1.
- `hex_color.dfy`, module `HexColor`: `hexToVec3`, including JavaScript's
  `String.prototype.replace` with `/^#/` and `/./g`, `slice` and
  `parseInt(_, 16)` (white space, sign, `0x` prefix, longest digit run, NaN as
  `None`), proved against the 3- and 6-digit hex colour notation of section
  5.2 of CSS Color Module Level 4, with a format/parse round trip.
- `canvas_fit.dfy`, module `CanvasFit`: the size `fitCanvasToImage`
  computes before rounding, proved branch-independent, inside the window
  margin, of the image's aspect ratio and the largest such size.

Two properties of multi-level mode hold only under extra conditions:

- A zero `levelsAngle` alone does not make all levels identical: level i
  still uses contrast `max(0.0001, contrast + i * levelsContrast)`, and the
  slider keeps `levelsContrast` at 1 or more. `UniformLevelsAreSingleLevel`
  needs `levelsContrast == 0` as well.
- One level equals the single-level path when `contrast >= 0.0001`; the
  multi-level path floors the exponent at 0.0001 and the single-level path
  does not (`OneLevelIsSingleLevel`).

## Model

| member | source | states |
|---|---|---|
| Glsl.Abs | sketch.js:120 | abs is non-negative and is x or -x |
| Glsl.Max | sketch.js:122 | max is at least both arguments and is one of them |
| Glsl.Clamp | sketch.js:123 | the clamp inside smoothstep lies in [lo, hi], keeps values inside, and maps values below/above to lo/hi |
| Glsl.ClampInt | sketch.js:144 | integer clamp lies in [lo, hi], keeps values inside, maps values below/above to lo/hi |
| Glsl.Mod | sketch.js:120 | mod(x, y) has the sign of y, is smaller than y in magnitude, and differs from x by a whole multiple of y |
| Glsl.ModPeriodic | sketch.js:120 | mod(x + y, y) == mod(x, y) |
| Glsl.Mix | sketch.js:155 | mix gives x at weight 0, y at weight 1, the midpoint at 0.5, and a value between x and y for weights in [0, 1] |
| Glsl.MixVec3 | sketch.js:155-159 | the colour mix does the same channel by channel |
| Glsl.HermiteBounds | sketch.js:123 | the smoothstep ramp t*t*(3-2t) stays in [0, 1] on [0, 1] |
| Glsl.HermiteMonotone | sketch.js:123 | the smoothstep ramp is non-decreasing on [0, 1] |
| Glsl.SmoothStep | sketch.js:123 | smoothstep lies in [0, 1], is 0 up to edge0 and 1 from edge1 on |
| Glsl.SmoothStepMonotone | sketch.js:123 | smoothstep is non-decreasing in x |
| HalftoneKernel.Luma | sketch.js:90-92 | a colour in the unit cube has luma in [0, 1]; a grey keeps its level |
| HalftoneKernel.LumaMonotone | sketch.js:90-92 | luma is monotone in every channel |
| HalftoneKernel.Rotate | sketch.js:94-97 | `pixel *= rotate2d(a)` leaves the pixel in place at angle 0 (sin 0, cos 1) and takes (x, y) to (-y, x) at a quarter turn; lengths are kept by RotateKeepsLength |
| HalftoneKernel.RotateKeepsLength | sketch.js:94-97 | `pixel *= rotate2d(a)` keeps the length of pixel when sin and cos lie on the unit circle |
| HalftoneKernel.Distort | sketch.js:107-113 | a zero height gives no distortion in either mode |
| HalftoneKernel.Phase | sketch.js:116-118 | no contract of its own (the phase is built-in dependent); HorizontalStripes states it is the pixel row when unrotated and undistorted, and Waves and LineCoveragePeriodic state what the screen does with any phase |
| HalftoneKernel.FoldDistance | sketch.js:119-120 | the distance d to the line centre lies in [0, spacing/2] |
| HalftoneKernel.FoldDistancePeriodic | sketch.js:119-120 | d is unchanged when the phase moves by one spacing |
| HalftoneKernel.FoldDistanceIsNearestCentre | sketch.js:119-120 | for positive spacing, d is the distance to the centre of line floor(phase/spacing) and no line centre is closer |
| HalftoneKernel.NearestCentreOffset | sketch.js:119-120 | the phase lies mod(phase, spacing) - spacing/2 from the centre of line floor(phase/spacing) |
| HalftoneKernel.FartherCentre | sketch.js:119-120 | a phase within half a spacing of one line centre is at least half a spacing from every other line centre |
| HalftoneKernel.HalfWidth | sketch.js:122 | halfWidth is at least 0.25 and at least lineWidth/2; it equals 0.25 when lineWidth < 0.5 and lineWidth/2 otherwise |
| HalftoneKernel.EdgeCoverage | sketch.js:123 | the edge value is in [0, 1], 0 within halfWidth - aa of the centre, 1 beyond halfWidth + aa |
| HalftoneKernel.EdgeCoverageMonotone | sketch.js:123 | the edge value grows with the distance from the centre |
| HalftoneKernel.Balance | sketch.js:102-105 | balance lies in [0, 1] whatever pow returns |
| HalftoneKernel.BalanceIgnoresSampleOffLine | sketch.js:102-105 | for a weight of 1 or more the image sample does not change balance |
| HalftoneKernel.LineCoverage | sketch.js:119-124 | the line screen at a phase lies in [0, 1] |
| HalftoneKernel.LineCoveragePeriodic | sketch.js:119-124 | the line screen repeats with period spacing in the phase |
| HalftoneKernel.Waves | sketch.js:115-137 | waves and wavesWithAngle lie in [0, 1] |
| HalftoneKernel.HorizontalStripes | sketch.js:115-118 | unrotated and undistorted, the phase is the pixel row and fragments of one row get the same value |
| HalftoneKernel.LevelCount | sketch.js:143-144 | n lies in 1..8, is levels rounded half up when that is in range, 1 below and 8 above |
| HalftoneKernel.LevelAngle | sketch.js:148 | a zero levelsAngle keeps the base angle; otherwise level i is turned by i * PI / levelsAngle |
| HalftoneKernel.LevelContrast | sketch.js:149 | the level contrast is at least 0.0001 and at least contrast + i*levelsContrast; it equals contrast + i*levelsContrast when that is not below 0.0001, and 0.0001 when it is |
| HalftoneKernel.LevelValue | sketch.js:148-151 | each level's value lies in [0, 1] |
| HalftoneKernel.LevelValues | sketch.js:145-152 | the value r_i of every level i lies in [0, 1] |
| HalftoneKernel.SumBounds | sketch.js:145-153 | k values in [0, 1] add up to a value in [0, k] |
| HalftoneKernel.SumOfEqual | sketch.js:145-153 | k values all equal to c add up to k * c |
| HalftoneKernel.MeanOfEqual | sketch.js:145-154 | the mean accum / n of n >= 1 equal values c is c |
| HalftoneKernel.MeanBounds | sketch.js:154 | a total in [0, n] over a positive n lies in [0, 1] |
| HalftoneKernel.MultiLevelCoverage | sketch.js:143-154 | the mean of the n level values lies in [0, 1] |
| HalftoneKernel.SingleLevelCoverage | sketch.js:157-158 | the single-level value lies in [0, 1] |
| HalftoneKernel.Coverage | sketch.js:142-160 | the value handed to the final mix lies in [0, 1] in both modes |
| HalftoneKernel.SumLevels | sketch.js:145-153 | the loop of at most 8 iterations that breaks at n leaves accum equal to the sum of the first n level values, in index order |
| HalftoneKernel.ShadeFragment | sketch.js:139-165 | the loop of at most 8 iterations that stops at n computes exactly FragmentColor: the mix of colorB and colorA by the mean of the n level values, or by the single-level value |
| HalftoneKernel.FragmentColor | sketch.js:142-161 | no contract of its own: it is the functional specification that ShadeFragment is proved equal to; FragmentColorBetweenColors states its range |
| HalftoneKernel.FragmentColorBetweenColors | sketch.js:155-161 | the output is opaque and every channel lies between colorB's and colorA's |
| HalftoneKernel.OneLevelMean | sketch.js:143-154 | with n == 1 the mean is level 0's value |
| HalftoneKernel.LevelZeroIsSingleLevel | sketch.js:148-151 | with contrast >= 0.0001, level 0 draws exactly the single-level screen |
| HalftoneKernel.OneLevelIsSingleLevel | sketch.js:142-160 | with n == 1 and contrast >= 0.0001 the multi-level value equals the single-level value |
| HalftoneKernel.SameLevels | sketch.js:148-151 | with no angle or contrast step (and contrast >= 0.0001) every level draws the single-level screen |
| HalftoneKernel.UniformLevelsAreSingleLevel | sketch.js:142-160 | with no angle or contrast step (and contrast >= 0.0001) multi-level mode renders what single-level mode renders, for any level count |
| HexColor.DigitValue | sketch.js:341 | a hex digit's value is below 16 and follows the digit ranges 0-9, a-f, A-F |
| HexColor.StripHash | sketch.js:339 | one leading '#' is removed and nothing else changes |
| HexColor.LowerDigit | sketch.js:341 | the digit for a value below 16 is a hex digit that parses back to that value, and is not an upper-case letter |
| HexColor.DoubleEach | sketch.js:340 | no contract of its own; DoubleEachDoubles states what it does to a string without line terminators |
| HexColor.DoubleEachDoubles | sketch.js:340 | without line terminators every character is doubled in place: twice the length, character i at 2i and 2i+1 |
| HexColor.ExpandShorthand | sketch.js:340 | only a 3-character value is expanded, to each character twice |
| HexColor.Slice | sketch.js:341 | slice is the substring within bounds, the rest of the string when only end is past it, empty from the end on, and at most end - start long |
| HexColor.HexPrefix | sketch.js:341 | parseInt reads the longest leading run of hex digits |
| HexColor.HexPrefixOfDigits | sketch.js:341 | a string of hex digits is its own digit run |
| HexColor.LeadingWhiteSpace | sketch.js:341 | parseInt skips exactly the leading white space: the n characters it skips are white space and the next one is not |
| HexColor.ParseIntHex | sketch.js:341 | no contract of its own; ParseHexDigits, ParseTwoDigits and ParseHashIsNaN state its results |
| HexColor.ParseHexDigits | sketch.js:341 | parseInt of a nonempty string of hex digits is their value |
| HexColor.TwoDigitsUntrimmed | sketch.js:341 | parseInt trims nothing before a leading hex digit |
| HexColor.TwoDigitsPrefix | sketch.js:341 | the digit run of two hex digits is both of them |
| HexColor.TwoDigitsValue | sketch.js:341 | two hex digits have the value 16*first + second |
| HexColor.ParseTwoDigits | sketch.js:341 | parseInt of two hex digits is 16*first + second, a byte |
| HexColor.ParseHashIsNaN | sketch.js:341 | parseInt of a string starting with '#' is NaN |
| HexColor.PairAt | sketch.js:341 | no contract of its own; PairSlice, PairOfTwo and ChannelParses state what pair i parses to |
| HexColor.PairSlice | sketch.js:341 | within the string, `slice(2i, 2i + 2)` is the two characters at 2i and 2i+1 |
| HexColor.PairOfTwo | sketch.js:341 | a pair whose slice is two hex digits parses to their value |
| HexColor.HexToBytes | sketch.js:338-342 | `[0, 2, 4].map` yields exactly three parsed pairs |
| HexColor.Channel | sketch.js:341 | a channel is NaN exactly when its byte is, and otherwise 255 times it is the byte |
| HexColor.HexToVec3 | sketch.js:338-342 | three channels; for a 3- or 6-digit colour, with or without '#', channel i is CSS channel i scaled as a byte by Channel (so 255 times it is the CSS value) |
| HexColor.ExpandedPairs | sketch.js:340 | a well-formed 3- or 6-digit body expands to six digits whose pair i has the CSS channel value |
| HexColor.ChannelParses | sketch.js:338-342 | pair i of a well-formed colour body, after expansion, parses to its CSS value, a byte |
| HexColor.BytesOfWellFormed | sketch.js:338-342 | the three parsed pairs of a well-formed colour are its three CSS channel values |
| HexColor.WellFormedColour | sketch.js:338-342 | every channel of a well-formed colour, with or without '#', is its CSS value and lies in [0, 1] after division |
| HexColor.CssBytes | sketch.js:341 | the three CSS channel values of a well-formed body are bytes, held at their index |
| HexColor.CssUnitChannels | sketch.js:341 | the CSS channel values scaled by Channel lie in [0, 1] |
| HexColor.ShorthandIsDoubled | sketch.js:340 | "#abc" reads as "#aabbcc" |
| HexColor.OnlyOneHashStripped | sketch.js:339 | after "##" the first channel is NaN |
| HexColor.DefaultBytesB | sketch.js:305 | "#000" parses to the bytes 0, 0, 0 |
| HexColor.DefaultBytesA | sketch.js:306 | "#fff" parses to the bytes 255, 255, 255 |
| HexColor.DefaultColorB | sketch.js:305 | the colorB default "#000" is black |
| HexColor.DefaultColorA | sketch.js:306 | the colorA default "#fff" is white |
| HexColor.ByteToHex | sketch.js:400-402 | a byte formats as two hex digits that parse back to it |
| HexColor.FormatHexColour | sketch.js:400-402 | the "#rrggbb" value a colour picker reports is '#' and six hex digits |
| HexColor.ParseFormatRoundTrip | sketch.js:400-402 | parsing "#rrggbb" gives back the bytes it was formatted from |
| CanvasFit.FitCanvasToImage | sketch.js:344-367 | both branches end at FitWidth by FitHeight, and width * img.height == height * img.width |
| CanvasFit.WidthBound | sketch.js:351-358 | when the full width fits the height, the canvas is the full width by width/aspect |
| CanvasFit.HeightBound | sketch.js:359-366 | when the full height fits the width, the canvas is height*aspect by the full height |
| CanvasFit.AspectCross | sketch.js:349 | a height times the aspect ratio iw/ih, times ih, is the height times iw |
| CanvasFit.FitInsideBox | sketch.js:344-367 | in a window larger than the margin the canvas is positive, inside vw-64 by vh-64, and touches one side |
| CanvasFit.FitIsLargest | sketch.js:344-367 | no box of the image's aspect ratio inside the window is wider |

## Left out

- Floating point: shader `mediump` floats and JavaScript doubles are modelled as exact reals; rounding errors are not captured.
- The simplex noise and its hash (`hash33`, `simplex`), `sin`, `cos`, `pow` and `fwidth` are not computed; they are the fields of `Builtins`. `fwidth(phase)` is taken positive, since GLSL leaves `smoothstep` undefined when its edges coincide.
- `smoothRepeatStart` and `smoothRepeatEnd` are never called by the shader and are left out.
- The vertex shader, the texture lookup (the texel is a parameter), `gl_FragCoord` (a parameter) and the unused uniforms `alias`, `blend`, `useRGB`, `resolution` and the constant `color`.
- HalftoneKernel.SumLevels: the loop body's per-level computation (`angle_i`, `contrast_i`, `pow`, `wavesWithAngle`) is the function LevelValue, handed to the loop as the level-value function LevelValues; the method itself keeps the loop, its break at n and the accumulation.
- HalftoneKernel.Balance: the unused `width` argument of `balance` is dropped.
- HalftoneKernel.LevelCount: `int(floor(levels + 0.5))` is modelled without the overflow of the int conversion for huge `levels`.
- HalftoneKernel.WellDefined: divisions by zero (`spacing == 0`, `frequency == 0`, `frequency == -360`) are excluded by this precondition instead of being modelled, since GLSL leaves them undefined.
- HalftoneKernel.Distort: its contract states only the zero-height case; the distortion is otherwise given by the opaque built-ins.
- `preload`, `setup`, `draw`, `createUniforms` and `windowResized`: image loading, the slider and button panel, the per-frame uniform upload and the redraw flag are UI glue.
- CanvasFit.FitCanvasToImage: `window.innerWidth`/`innerHeight` and the image size are parameters; `Math.round` and the two `resizeCanvas` calls are left out, so sizes are reals; image sizes are required positive.
- HexColor: strings are sequences of Unicode scalar values, not UTF-16 code units, so `h.length` differs from the model for characters outside the Basic Multilingual Plane.
- HexColor.ParseIntHex: `parseInt("-0", 16)` gives -0 in JavaScript and 0 here.
- HexColor.HexToBytes: its own contract states only the count; what each entry is, is stated by WellFormedColour, ShorthandIsDoubled, OnlyOneHashStripped and ParseFormatRoundTrip.
