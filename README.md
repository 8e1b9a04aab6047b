# A verified model of the discrete core of a small ray tracer

The renderer traces rays through a scene of spheres, fills a frame buffer and
shows it in a window. Its floating-point heart is not modelled here: the
sphere quadratic, the camera, vector algebra, HSV conversion and sampling.
This project models the exactly specifiable logic around it:

- **Closest-hit fold** (`HitTesting`). The scene is scanned in order. Each
  member is tested on the window `(tMin, closest so far)`, and the best hit is
  kept. A member is abstracted as a strictly increasing list of candidate ray
  parameters. Its hit is the first candidate strictly inside the window, which
  is what a sphere does with its two roots. The scan is an imperative method
  proved against a recursive reference `ClosestHit`, which tests every member
  on the whole window. Lemmas prove the nearest-hit, miss, tie-break,
  window-narrowing and order-independence properties.
- **Frame buffer** (`FrameBuffers`). A class over an array of `width * height`
  packed pixels. `Set` writes through the vertically flipped index
  `(height - y - 1) * width + x`.
- **Colours** (`Colors`, `Util`). These cover:
  - the inclusive range check;
  - the `[0, 1]` component invariant;
  - the `#RRGGBB` parser with its ordered error checks, and a reference
    encoder for the round trip;
  - byte-to-colour construction;
  - the gradient and the conversion from a vector;
  - packing into a `0x00RRGGBB` pixel.

  Single-precision floats are idealised as reals.
- **Option decoders** (`IntParse`, `Config`, `World`, `Args`). These cover:
  - Rust's `usize::from_str`, which the decoders rely on;
  - the scale table and the string-to-scale pipeline;
  - the case-insensitive scene-name parser, in both of its declarations;
  - the first-error-wins assembly of the render configuration from the
    matched option values.

Errors mirror the renderer's error kinds (`Errors.Error`), and fallible
operations return `Errors.Result`.

## Model

| member | source | states |
|---|---|---|
| Util.RangeCheck | src/util.rs:3-9 | succeeds exactly when `min <= val <= max`, so both ends are inclusive; a value below `min` or above `max` is reported as `OutOfRange(val, min, max)` |
| Util.EmptyRangeRejects | src/util.rs:4 | when `min > max`, every value is rejected with `OutOfRange` |
| Strings.DropPrefix | src/color.rs:22 | one leading copy of the character is dropped when present, and the string is otherwise unchanged; `from_hex` uses it with '#', and the `usize` decoder of src/config.rs:81 with '+' |
| Colors.New | src/color.rs:13-19 | succeeds exactly when all three components lie in [0, 1], and the colour then holds them unchanged and satisfies the component invariant; otherwise the error is `OutOfRange` for the first component out of range, in the order r, g, b |
| Colors.FromRgb | src/color.rs:46-48 | never fails, and yields the colour `(r/255, g/255, b/255)`, which satisfies the component invariant |
| Colors.White | src/color.rs:67-69 | the `unwrap` cannot fail; the result is `(1, 1, 1)` and valid |
| Colors.Black | src/color.rs:71-73 | the `unwrap` cannot fail; the result is `(0, 0, 0)` and valid |
| Colors.FromHex | src/color.rs:21-44 | succeeds exactly when the string, minus one optional leading '#', is six hex digits; any non-hex character is reported with the digit message even if the length is also wrong; all-hex digits of another length get the six-digit message; a success is a valid colour |
| Colors.FromHexRoundTrip | src/color.rs:39-43 | the `#RRGGBB` spelling of any three bytes, with each digit in either letter case independently and with or without the '#', decodes to `from_rgb` of those bytes; so the digits decode pairwise into r, g, b |
| Colors.HexSpellingComplete | src/color.rs:24-43 | every string of six hex digits, in any mixture of case, is the encoder's spelling of the three bytes its digit pairs denote, so the round trip fixes the decoded colour for every accepted input |
| Colors.FromHexMixedCase | src/color.rs:39-41 | `"#Ff0000"`, whose digits mix cases, decodes to pure red `(1, 0, 0)` |
| Colors.FromHexRed | src/color.rs:39-43 | `"#FF0000"` and `"ff0000"` both decode to pure red `(1, 0, 0)`, which packs to `0xFF0000` |
| Colors.FromHexDoubleHash | src/color.rs:22-30 | only one '#' is stripped, so `"##FF0000"` fails with the digit message and keeps the input as given |
| Colors.FromHexErrorOrder | src/color.rs:24-36 | `"#12G"` is a digit error although its length is also wrong; `"#"`, `""` and `"#1234567"` are six-digit errors |
| Colors.FromVec | src/color.rs:96-100 | for components in [0, 1] the `unwrap` cannot fail, and the colour has exactly the vector's components |
| Colors.MixBetween | src/color.rs:83-85 | the blend `(1 - t) * a + t * b` with t in [0, 1] lies between a and b, and equals a at t = 0 and b at t = 1 |
| Colors.Gradient | src/color.rs:80-86 | for t in [0, 1] and valid ends, each component is the blend `(1 - t) * l + t * r` of the ends' components; so it is the left colour at t = 0 and the right at t = 1, every component lies between the ends' components, the result is valid and the final conversion cannot fail |
| Colors.Channel | src/color.rs:90-92 | for a component in [0, 1], `(255.99 * x) as u32` is a byte v with `v <= 255.99 * x < v + 1` |
| Colors.ToPixel | src/color.rs:88-94 | a valid colour packs into 24 bits; red is read back as bits 16-23, green as bits 8-15 and blue as bits 0-7 |
| Colors.ChannelOfByte | src/color.rs:88-94 | a byte scaled into [0, 1] by `from_rgb` converts back to the same byte |
| Colors.PixelFromRgb | src/color.rs:88-94 | a colour built from bytes (r, g, b) packs to exactly `r * 65536 + g * 256 + b` |
| FrameBuffers.FlippedIndexInBounds | src/fb.rs:21 | for `x < width` and `y < height` the written cell lies inside the `width * height` buffer |
| FrameBuffers.FlippedIndexDecode | src/fb.rs:21 | the cell's remainder by `width` is x and its quotient is `height - 1 - y`, so image row 0 is stored in the last buffer row |
| FrameBuffers.FlippedIndexInjective | src/fb.rs:21 | distinct in-range pixels are written to distinct cells |
| FrameBuffers.FlippedIndexOverrun | src/fb.rs:21 | because x is not checked, `x + width` on row y writes the cell of x on row `y - 1`, which is why `x < width` is a precondition of `Set` |
| FrameBuffers.FrameBuffer.constructor | src/fb.rs:11-14 | the buffer is fresh and holds exactly `width * height` cells, all zero; `Width()` and `Height()` return the arguments |
| FrameBuffers.FrameBuffer.Set | src/fb.rs:20-22 | requires `y < height` (the source's `usize` subtraction underflows otherwise) and `x < width`; the new buffer is the old one with only the flipped cell of (x, y) replaced by the packed colour; that pixel reads back the colour; every other in-range pixel, the length and both dimensions are unchanged |
| HitTesting.FirstInside | src/sphere.rs:36-61 | the first candidate strictly inside `(tMin, tMax)`, trying the nearer root first: it is a candidate and inside the window; it is absent exactly when no candidate is inside; it is no larger than any candidate above tMin |
| HitTesting.SurfaceHit | src/sphere.rs:30-62 | a member's hit lies strictly inside the window it is tested on and belongs to that member |
| HitTesting.SurfaceHitNarrowed | src/hittest.rs:19 | testing a member on a narrower window `(tMin, c)` keeps its hit when that hit lies below c, and otherwise finds none; no new hit appears |
| HitTesting.ClosestHit | src/hittest.rs:15-25 | the reference closest hit, left-recursive over the members: any hit it returns lies strictly inside `(tMin, tMax)` |
| HitTesting.ScanStep | src/hittest.rs:18-22 | one step of the scan: testing the next member on `(tMin, bound so far)` and keeping its hit if there is one yields the reference closest hit of the longer prefix; the bound does not increase |
| HitTesting.BoundStep | src/hittest.rs:19-21 | the bound after one more member is no larger than before |
| HitTesting.BoundPrefixes | src/hittest.rs:17-21 | along the scan, a longer prefix leaves a bound no larger than a shorter one |
| HitTesting.WindowsExtend | src/hittest.rs:18-19 | the windows of a prefix extended by one member are the old windows followed by the current bound |
| HitTesting.WindowsNonIncreasing | src/hittest.rs:17-21 | the upper bound each member is tested with starts at tMax and never increases along the scan |
| HitTesting.HitTest | src/hittest.rs:15-25 | the in-order scan returns exactly the reference closest hit; the ghost `windows` records each member's window bound, which is the bound left by the members before it |
| HitTesting.ClosestHitNoneIff | src/hittest.rs:16-24 | there is no hit exactly when every member misses on the whole window `(tMin, tMax)`; in particular an empty scene has none |
| HitTesting.ClosestHitNearest | src/hittest.rs:17-22 | whenever some member hits on the whole window there is a result, and it is no farther than that member's hit |
| HitTesting.ClosestHitFirstWins | src/hittest.rs:19-21 | the result is the hit of some member k on the whole window; every member before k misses or hits strictly farther, so ties go to the earliest member |
| HitTesting.ClosestHitIsNearestCandidate | src/hittest.rs:15-25 | with no hit, no candidate of any member lies in the window; with a hit, no candidate of any member lies in `(tMin, t)` |
| HitTesting.ClosestHitSuperset | src/hittest.rs:18-22 | a scene containing every member of another finds a hit whenever the other does, and one no farther |
| HitTesting.ClosestHitOrderIndependent | src/hittest.rs:15-25 | reordering the members changes neither whether there is a hit nor its parameter |
| IntParse.ParseUsize | src/config.rs:81 | succeeds exactly when, after one optional '+', the string is a non-empty run of decimal digits whose value fits in 64 bits, and yields that value; every failure is a `ParseIntError` |
| IntParse.DecimalValueOfToDecimal | src/config.rs:81 | the decimal spelling of n denotes n |
| IntParse.ParseUsizeRoundTrip | src/config.rs:81 | every `usize` spelled in decimal, with or without a '+', parses back to itself |
| IntParse.ParseUsizeRejects | src/config.rs:81 | the empty string, a lone '+', a '-' sign, a doubled '+' and a leading blank are rejected |
| Config.NumToScale | src/config.rs:63-78 | succeeds exactly on 0, 1, 2, 4, 8, 16 and 32, and the scale found is the one that number selects, so distinct numbers give distinct scales; every other number is `InvalidParam` carrying that number and the scale message |
| Config.NumToScaleOnto | src/config.rs:64-71 | every scale is selected by its own number |
| Config.StringToScale | src/config.rs:80-83 | a string that does not parse as a `usize` fails with the integer-parse error before any scale check; otherwise the number decides through `num_to_scale` |
| Config.StringToScaleRoundTrip | src/config.rs:80-83 | the decimal spelling of each scale's number decodes to that scale |
| Config.StringToScaleExamples | src/config.rs:39-83 | the default `"1"` is `X1`; `"3"` parses but is `InvalidParam(3)`; `"x"` is a parse error |
| World.FromStr | src/world.rs:21-31 | succeeds exactly when the lower-cased input is one scene's name, and yields that scene; anything else is `ParseError` carrying the input as given, not lower-cased |
| World.FromStrAnyCase | src/world.rs:22-24 | each scene's name in any mixture of letter case parses to that scene |
| World.FromStrUpper | src/world.rs:22-24 | in particular, the all-capitals name parses to its scene |
| World.FromStrExamples | src/world.rs:21-31 | `"threeballs"`, `"random"` and `"RaNdOm"` are accepted; `""` and `" random"` are rejected with the input kept |
| Args.WorldsFromStr | src/args.rs:27-37 | the copy in the argument module: succeeds exactly on the two lower-cased names, yields the named scene, and otherwise reports `ParseError` with the input as given |
| Args.WorldsFromStrAgrees | src/args.rs:27-37 | both declarations of `Worlds::from_str` give the same result for every input |
| Args.NumToScale | src/args.rs:73-88 | the copy in the argument module: succeeds exactly on {0, 1, 2, 4, 8, 16, 32}, each selecting its own scale; otherwise `InvalidParam` carrying the number |
| Args.NumToScaleAgrees | src/args.rs:73-88 | both scale tables agree on every number |
| Args.ParsedValue | src/args.rs:101-110 | an option without a value is `MissingParam` naming that option; otherwise its value string is decoded by the field type's `from_str` |
| Args.ParsedScale | src/args.rs:64 | a missing or non-numeric scale value fails as its `usize` decoding does, before any scale check; otherwise the number goes through the scale table; a success is what `string_to_scale` of src/config.rs gives for the same value string |
| Args.Assemble | src/args.rs:62-69 | the `?` chain succeeds exactly when all six fields decoded, and then holds the six values in their fields |
| Args.AssembleFirstErrorWins | src/args.rs:62-69 | the chain fails exactly when some field failed, and then with the error of the first failing field, in the order the fields are written |
| Args.TryFrom | src/args.rs:61-70 | a successful configuration holds, in each field, the value that the field's option decodes to |
| Args.TryFromFirstErrorWins | src/args.rs:61-70 | `try_from` succeeds exactly when all six options decode; otherwise its error is that of the first failing option, in the order max_depth, scale, screen_width, screen_height, num_samples, world |
| Args.ParsedDecimal | src/args.rs:101-110 | a `usize` option whose value is the decimal spelling of n decodes to n |
| Args.DefaultFieldsDecode | src/args.rs:12-17 | every default value string decodes: depth 50, scale `X1`, width 320, height 240, 5 samples, the three-ball scene |
| Args.DefaultsDecode | src/args.rs:12-17 | with every option at its default, the configuration is depth 50, scale 1, a 320 x 240 screen, 5 samples and the three-ball scene |
| Args.NothingMatched | src/args.rs:106-108 | with no option values at all, the error is `MissingParam("max_depth")`, the first field's |
| Args.ScaleBeforeWorld | src/args.rs:63-68 | with a good depth, scale `"3"` and no later values, the scale's `InvalidParam(3)` is reported, not the missing width |

## Left out

- src/vec3.rs, src/ray.rs and src/camera.rs are not part of this model. They are `f32` vector arithmetic with `sqrt` and `tan`.
- The sphere quadratic (src/sphere.rs:31-35, 37, 48) is not modelled. A member is represented by its candidate roots, nearer first, and only the window test that picks among them is modelled. The hit's point and normal are abstracted to the member's `id`.
- `Sphere::new` and its `radius > 0` guard are not modelled. The geometry it guards is itself abstracted.
- `Color::from_hsv` is not modelled: `f32` arithmetic with truncating casts.
- `load_world`, `three_balls` and `random_scene` in src/world.rs are not modelled. They depend on a random number generator and on material types that do not exist in this revision (src/material.rs is commented out).
- src/unit_random.rs, src/screen.rs, src/main.rs, src/pg.rs and src/tracer.rs are not modelled: randomness, windowing, terminal output, clocks, and setters without logic.
- `parse_from` and `Args::parse` in src/args.rs are not modelled, nor the command-line derive on the `Config` of src/config.rs. The option parser's output is a parameter: a map from option name to its value string. That map has the defaults filled in when an option is not given, and `value_of_lossy`'s lossy conversion is not modelled.
- `FrameBuffer::buffer` is not modelled as an accessor. The model reads the `buffer` field directly.
- Floats are idealised as reals throughout. A NaN would pass `range_check` in the source (both comparisons are false), and rounding in `255.99 * x` and in `num as f32` is not modelled.
- FrameBuffers.FrameBuffer.constructor: does not model `usize` overflow of `width * height`.
- FrameBuffers.FrameBuffer.Set: requires `x < width`, which the source does not check; an out-of-range x writes into the next image row (`FlippedIndexOverrun`) or panics past the end of the buffer.
- IntParse.ParseUsize: reports every failure as the same `ParseIntError`, without the kind (empty, invalid digit, overflow) that Rust attaches. It assumes a 64-bit `usize`.
- World.FromStr: lower-cases ASCII letters only. For the two accepted names this accepts the same strings as Unicode lower-casing. The only non-ASCII character that Unicode lower-cases to a single ASCII letter is the KELVIN SIGN, which becomes 'k', and neither name contains a 'k'.
- src/args.rs:19-22 declares its own `Worlds` enum, with the same two variants as the one in src/world.rs:13-16. The model merges the two into `World.Worlds`, so `Args.WorldsFromStrAgrees` can compare the two parsers' results directly.
- `MissingParam`, used at src/args.rs:108, is not among the error kinds declared in src/lib.rs:15-33. It is kept as a variant of `Errors.Error`.
- The configuration built by `try_from` decodes every option before the `?` chain picks the first failure, whereas the source decodes one field at a time. The decoders are pure, so the outcome is the same.
- The window test is strict at both ends (`t_min < t < t_max`, src/sphere.rs:38,49). A root exactly at either end is not a hit, in the model as in the code.
- The sphere's tangent-ray policy (discriminant ≤ 0 means no hit) belongs to the quadratic and is not modelled. A tangent sphere is a member with no candidates.
