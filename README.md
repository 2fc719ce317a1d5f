# ascii-image: a verified model of the braille renderer

`ascii-image` prints a picture as text. It decodes an image and applies an
on/off rule to every pixel, which gives a boolean matrix. It then reads the
matrix in cells of 2 columns by 4 rows and turns each cell into one character
of the Unicode braille block (U+2800..U+28FF). Each of the eight dots of a
character stands for one pixel.

This project models everything in `src/main.rs` except its I/O:

- **Images** (`image.dfy`). The decoded image is a `width` x `height` grid of
  RGBA byte pixels. It comes with the channel sum, `to_rgb` and `absdiff`, and
  with the largest channel distance between two pixels.
- **Numeric** (`numeric.dfy`). Machine integers: `u8`, `i32` and `u32`. The
  border rule's neighbour coordinates use two's-complement wrap-around and
  `u32::try_from(..).unwrap_or(0)`, and both are written out here.
- **Rules** (`rules.dfy`). `OnOffRule` and `is_on`: the threshold rule, the
  inverted threshold rule, and the border rule. The border rule searches four
  directions and steps `1..=distance`.
- **BorderClamp** (`clamp.dfy`). What the clamp to 0 of a negative neighbour
  coordinate changes:
  - nothing when the threshold is positive and both sides of the image are
    at most 2^30 pixels. On wider or taller images, a step past `i32::MAX`
    wraps to a negative value and is clamped onto coordinate 0, as
    `Numeric.NeighbourCoordClamp` states, so the bound is needed;
  - a visible difference, on a one-pixel image, when the threshold is 0.
- **Braille** (`braille.dfy`). `region_braille` and `OFF_0`: eight samples
  packed into a code point.
- **Strings** (`strings.dfy`) and **IntParsing** (`parse_int.dfy`).
  `str::split` on one character, and the decimal `from_str` of `u32` and
  `i32`.
- **SizeParsing** (`size.dfy`) and **RuleParsing** (`rule_parse.dfy`). The
  `--size` and `--rule` parsers, with their error values. The three anchored
  regular expressions are written out as the grammars they accept.
- **Pipeline** (`pipeline.dfy`). The matrix build, and the two nested loops
  that emit one line per cell row and one character per cell column.

The parsers and the render stage are methods, as in the source, which steps
through them with early returns and loops:
- `SizeParsing.ParseSize` scans for the two `x` separators with loops and loop
  invariants.
- `RuleParsing.ParseRule` tries the three grammars in turn and returns
  early. It has no loop.
- `Pipeline.Render` is the two nested loops, with invariants on what has been
  emitted so far.

Everything else is a function, with lemmas that state what the source
promises of it.

The render loops run over `0..=height/4` and `0..=width/2`, inclusive. So an
image with an even width, or with a height that is a multiple of 4, gets an
extra column or row of blank cells. For example, under `Threshold(0)`,
which every pixel meets, a 2 x 4 image renders as two lines of two
characters: the full cell, then three blank ones. This is what
`Pipeline.RenderTwoByFour` proves. Under another rule the first cell shows
whichever of its pixels are on, and the three blank cells are the same. A single character, which one might expect for an image exactly one
cell in size, is not what the code produces, and the model follows the code.

## Model

| member | source | states |
|---|---|---|
| `Numeric.NeighbourCoord` | src/main.rs:131-132 | `u32::try_from(x as i32 + dx).unwrap_or(0)` with wrapping `i32` arithmetic (for `x > i32::MAX` the cast itself wraps); no contract of its own, its meaning is stated by `Numeric.NeighbourCoordClamp` and `BorderClamp.NeighbourCoordClamped` |
| `Numeric.WrapI32Congruent` | src/main.rs:131-132 | wrapping `i32` arithmetic keeps a value that fits and otherwise yields the one `i32` congruent to it modulo 2^32 |
| `Numeric.NeighbourCoordClamp` | src/main.rs:131-132 | for a coordinate `c <= i32::MAX`: a neighbour coordinate that stays in the `i32` range is the sum clamped below at 0; one past `i32::MAX` wraps negative and becomes 0 |
| `Images.ChannelSum` | src/main.rs:111 | the channel sum of a pixel lies between 0 and 255 per channel, so the `i32` sum never overflows |
| `Images.ChannelSumMonotone` | src/main.rs:111 | raising channels never lowers the sum |
| `Images.ToRgb` | src/main.rs:117 | `to_rgb` keeps red, green and blue, in order, and drops alpha |
| `Images.AbsDiff` | src/main.rs:96-102 | `absdiff(a, b)` is the distance between `a` and `b` (it bounds both differences and equals one of them), so it is symmetric and never leaves `u8` |
| `Images.MaxAbsDiff` | src/main.rs:137-144 | the `zip`/`map(absdiff)`/`max().unwrap_or(0)` chain; no contract of its own, its meaning is stated by `Images.MaxAbsDiffIsMax` and `Images.MaxAbsDiffSelf` |
| `Images.MaxAbsDiffIsMax` | src/main.rs:137-144 | the `max` over the zipped channels bounds every channel distance and is attained by one, or is 0 (`unwrap_or(0)`) when there is none |
| `Images.MaxAbsDiffSelf` | src/main.rs:137-144 | a pixel differs from itself by 0 |
| `Rules.IsOn` | src/main.rs:105-150 | `is_on`; no contract of its own, its meaning is stated by `Rules.OffOutsideImage`, `Rules.ThresholdOnIff`, `Rules.ThresholdMonotone`, `Rules.InvertedIgnoresAlpha`, `Rules.BorderOnIff`, `Rules.BorderNeedsDistance` and `Rules.BorderOffOnUniformImage` |
| `Rules.NeighbourHit` | src/main.rs:131-146 | the closure passed to `any`, for one direction and step; no contract of its own, it is the body of the existential that `Rules.BorderOnIff` ties the rule to |
| `Rules.AnyDirection` | src/main.rs:126-147 | the `any` over the cartesian product of directions and steps; no contract of its own, its meaning is stated by `Rules.AnyDirectionSound` and `Rules.AnyDirectionComplete` |
| `Rules.StepOffsetScales` | src/main.rs:126-129 | the offset at step `k` is the direction's unit vector times `k` |
| `Rules.AnyInRangeSound` | src/main.rs:128-130 | a successful `any` over `lo..=hi` names an element that passes |
| `Rules.AnyInRangeComplete` | src/main.rs:128-130 | `any` over `lo..=hi` succeeds whenever some element passes |
| `Rules.AnyDirectionSound` | src/main.rs:126-147 | a successful search over the cartesian product names a direction and a step in `1..=distance` whose neighbour exists and differs by at least the threshold |
| `Rules.AnyDirectionComplete` | src/main.rs:126-147 | the search finds every such direction and step |
| `Rules.BorderOnIff` | src/main.rs:123-147 | `Border(t, d)` is on exactly when some neighbour within `d` steps in one of the four directions (clamped coordinates) differs by at least `t` in some channel |
| `Rules.OffOutsideImage` | src/main.rs:105-108 | every rule is off outside the image |
| `Rules.ThresholdOnIff` | src/main.rs:110-112 | inside the image, the threshold rule is on exactly when the channel sum reaches `t`, so a pixel with a channel sum at least as large keeps it on |
| `Rules.ThresholdMonotone` | src/main.rs:110-112 | raising every channel of the pixel never turns the threshold rule from on to off |
| `Rules.InvertedIgnoresAlpha` | src/main.rs:113-122 | the inverted rule is on exactly when red + green + blue is at most `t`, whatever alpha holds |
| `Rules.BorderNeedsDistance` | src/main.rs:128 | with `distance <= 0`, the range `1..=distance` is empty and the border rule is never on |
| `Rules.BorderOffOnUniformImage` | src/main.rs:123-147 | on an image of identical pixels, the border rule with threshold at least 1 is never on |
| `BorderClamp.NeighbourCoordClamped` | src/main.rs:131-132 | on sides up to 2^30, a neighbour coordinate is the plain sum, or 0 from a step longer than the coordinate |
| `BorderClamp.HorizontalHitIsSkipHit` | src/main.rs:131-146 | with threshold at least 1 and both sides up to 2^30: a left or right hit of the rule as written at step `k <= d` is also a hit within `d` steps in some direction of a real in-image neighbour (to the left when the coordinate was clamped) |
| `BorderClamp.VerticalHitIsSkipHit` | src/main.rs:131-146 | with threshold at least 1 and both sides up to 2^30: an up or down hit of the rule as written at step `k <= d` is also a hit within `d` steps in some direction of a real in-image neighbour (upwards when the coordinate was clamped) |
| `BorderClamp.SkipHitIsHit` | src/main.rs:131-146 | with both sides up to 2^30: every real in-image neighbour hit within `d` steps is a hit of the rule as written |
| `BorderClamp.BorderClampInvisible` | src/main.rs:126-147 | with threshold at least 1 and sides up to 2^30, the rule as written (negative coordinates clamped to 0) agrees with the reading that skips out-of-image neighbours |
| `BorderClamp.BorderClampVisible` | src/main.rs:131-135 | on a 1 x 1 image, `Border(0, 1)` is on, because the left neighbour is clamped onto the pixel itself, although no neighbour exists |
| `BorderClamp.SinglePixelClampedHit` | src/main.rs:131-146 | the step left of pixel (0, 0) lands on (0, 0) and counts as a hit with threshold 0 |
| `Braille.RegionBraille` | src/main.rs:64-87 | `region_braille`; no contract of its own, its meaning is stated by `Braille.RegionBrailleRange`, `Braille.RegionBrailleBit`, `Braille.RegionBrailleAllOff`, `Braille.RegionBrailleAllOn`, `Braille.RegionBrailleDependsOnDots` and `Braille.RegionBrailleFlip` |
| `Braille.SumFromIsShiftedBinary` | src/main.rs:82-86 | the sum of the terms `(dot as u8) << i` is the number whose binary digits are the dots |
| `Braille.RegionBrailleRange` | src/main.rs:64-87 | every cell is a code point in `0x2800..=0x28FF` |
| `Braille.RegionBrailleBit` | src/main.rs:68-86 | bit `i` of the code point minus `OFF_0` is set exactly when the sampler returns `Some(true)` at `(y*4+dy_i, x*2+dx_i)`; `None` and `Some(false)` both leave it clear |
| `Braille.RegionBrailleAllOff` | src/main.rs:68-86 | no dot on (all off or absent) gives `0x2800` |
| `Braille.RegionBrailleAllOn` | src/main.rs:68-86 | all eight dots on gives `0x28FF` |
| `Braille.RegionBrailleDependsOnDots` | src/main.rs:80-86 | two samplers that agree on whether each of the eight dot pixels is `Some(true)` give the same code point, whatever they return elsewhere |
| `Braille.RegionBrailleFlip` | src/main.rs:80-86 | two samplers that differ only in dot `i` give code points exactly `2^i` apart, the one with the dot on being larger |
| `Braille.CharFromU32` | src/main.rs:237 | `char::from_u32` fails exactly on surrogates and values past U+10FFFF, and otherwise keeps the value |
| `Braille.BrailleIsChar` | src/main.rs:237 | every code point of the braille block `0x2800..=0x28FF` is a `char`, so the `unwrap` in the render loop never fails |
| `Strings.IndexOf` | src/main.rs:35-37 | the position of the first separator, or the end |
| `Strings.Split` | src/main.rs:35 | `s.split("x")` always yields at least one piece; its meaning is stated by `Strings.JoinSplit` and `Strings.SplitJoin` |
| `Strings.JoinSplit` | src/main.rs:35 | the pieces of `split` contain no separator, and joining them gives back the text |
| `Strings.SplitJoin` | src/main.rs:35 | `split` undoes joining separator-free pieces |
| `IntParsing.Accumulate` | src/main.rs:39-40 | the digit loop of `from_str` never reports `Empty`; its meaning is stated by `IntParsing.AccumulateMeaning` |
| `IntParsing.AccumulateMeaning` | src/main.rs:39-40 | the digit loop succeeds exactly on digit strings whose value fits, with that value, and reports overflow on digit strings that do not fit |
| `IntParsing.IntFromStr` | src/main.rs:39-40 | `from_str` gives `Empty` exactly on the empty text, and succeeds exactly on an optional `+` followed by digits whose value fits, returning that value |
| `IntParsing.DigitsFromStr` | src/main.rs:171 | a non-empty digit string parses to its value, or to `PosOverflow` when the value does not fit |
| `IntParsing.IntFromStrDecimal` | src/main.rs:39-40 | `from_str` reads back the decimal numeral of every value that fits |
| `IntParsing.DecimalRoundTrip` | src/main.rs:171 | the value of the shortest decimal numeral of `n` is `n` |
| `SizeParsing.ParseSize` | src/main.rs:31-46 | `_` gives `Default`; text without `x` gives `UnknownSizeFormat(s)`; otherwise the first two split pieces are parsed as `u32`, width first, the first parse error is returned, and further pieces are ignored |
| `SizeParsing.SplitPieces` | src/main.rs:35-37 | the first two `it.next()` calls return the text before the first `x` and the text between it and the next `x` |
| `SizeParsing.ParseWrittenSize` | src/main.rs:31-46 | the text `Decimal(W) + "x" + Decimal(H) + tail`, with `tail` empty or starting with `x`, is returned and parses to `Sized { W, H }`, for every pair of `u32` values |
| `RuleParsing.OneArgument` | src/main.rs:166-177 | a match of `^name\((\d+)\)$` captures a non-empty digit string, and the text is exactly `name(digits)` |
| `RuleParsing.OneArgumentComplete` | src/main.rs:166-177 | every text `name(digits)` matches and captures the digits |
| `RuleParsing.TwoArguments` | src/main.rs:182-188 | a match of `^Border\((\d+),(\d+)\)$` captures two non-empty digit strings, and the text is exactly `Border(a,b)` |
| `RuleParsing.TwoArgumentsComplete` | src/main.rs:182-188 | every text `Border(a,b)` with digit strings `a` and `b` matches and captures both |
| `RuleParsing.GrammarsDisjoint` | src/main.rs:166-188 | no text matches two of the three grammars |
| `RuleParsing.ParseRule` | src/main.rs:165-197 | `Threshold(n)`, `InvertedThreshold(n)` and `Border(a,b)` parse to their rules with the numbers' values; a number past `i32::MAX` gives `ParseIntError(PosOverflow)`; any other text gives `UnknownFormat(s)`; no parsed rule holds a negative number |
| `RuleParsing.ThresholdTextMatches` | src/main.rs:166-171 | the written text of a threshold rule matches the first grammar and captures its number |
| `RuleParsing.InvertedTextMatches` | src/main.rs:174-179 | the written text of an inverted rule matches the second grammar only |
| `RuleParsing.BorderTextMatches` | src/main.rs:182-193 | the written text of a border rule matches the third grammar only, capturing both numbers |
| `RuleParsing.ParseWrittenRule` | src/main.rs:165-197 | every rule with non-negative numbers parses back from its text, which is returned and is `RuleText(rule)` |
| `RuleParsing.ParseDefaultRule` | src/main.rs:57 | the default `--rule` text, returned as `"Threshold(100)"`, parses to `PxThreshold(100)` |
| `Pipeline.BuildMatrix` | src/main.rs:218-225 | the matrix has `height` rows of `width` entries, and `mat[y][x] == is_on(img, x, y)` |
| `Pipeline.MatrixSampler` | src/main.rs:229-235 | the closure handed to `region_braille`: `None` outside the image, the matrix entry inside; no contract of its own, its meaning is stated by `Pipeline.CellDot` |
| `Pipeline.CellInU32` | src/main.rs:80 | the pixel coordinates of every rendered cell fit in `u32` |
| `Pipeline.Render` | src/main.rs:227-242 | the output has `height/4 + 1` lines of `width/2 + 1` characters, and each character is the code point `region_braille` computes for its cell with the sampler, so `from_u32(..).unwrap()` never fails |
| `Pipeline.CellDot` | src/main.rs:229-235 | a dot of a rendered cell is raised exactly when its pixel is in the image and its matrix entry is true |
| `Pipeline.CellDotIsRule` | src/main.rs:218-235 | over the rule's matrix, a dot is raised exactly when the rule is on at its pixel |
| `Pipeline.CellPastEdgeBlank` | src/main.rs:227-235 | a cell wholly past the right or bottom edge is the empty cell `0x2800` |
| `Pipeline.RenderedDots` | src/main.rs:227-242 | every rendered character is a braille character, and each of its dots reports the rule at one pixel |
| `Pipeline.RenderImage` | src/main.rs:214-242 | the whole stage: `height/4 + 1` lines of `width/2 + 1` braille characters, whose dot `i` in cell `(cx, cy)` is set exactly when the rule is on at pixel `(cx*2+dx_i, cy*4+dy_i)` |
| `Pipeline.TwoByFourCells` | src/main.rs:227-235 | under `Threshold(0)`, a 2 x 4 image has the full cell at the origin and blank cells beside and below it |
| `Pipeline.RenderTwoByFour` | src/main.rs:227-242 | the 2 x 4 image of one repeated pixel, returned, renders under `Threshold(0)` as two lines of two characters: `U+28FF U+2800`, then `U+2800 U+2800` |
| `Pipeline.RenderDarkPixel` | src/main.rs:227-242 | the 1 x 1 image, returned, whose pixel's channels sum below 100 renders under the default rule as one line holding `U+2800` |

## Left out

- Command-line parsing with `clap` (`Opts`, src/main.rs:49-59, 201) is library plumbing. Only the two option parsers it calls and the default rule text are modelled.
- `image::open` and `resize` with the `Triangle` filter (src/main.rs:202-213) are left out: they are file I/O and floating-point library code. The image is an abstract `width` x `height` grid of RGBA byte pixels, and `ImageSize` is only parsed.
- The `rayon` parallel iteration over columns (src/main.rs:221) is left out. It only affects speed, and the matrix is built as a sequence comprehension.
- The regex engine is left out. The three anchored patterns are modelled as the grammars they accept over characters.
- `RuleParsing.ParseRule`: `\d` is read as an ASCII digit. Rust's `\d` also matches other Unicode decimal digits, which `i32::from_str` would then reject with `InvalidDigit`. For such text the model gives `UnknownFormat` where the program gives `ParseIntError(InvalidDigit)`.
- `to_rgb()` for pixel formats other than 8-bit RGBA is left out. `get_pixel` is taken to give four bytes, and `to_rgb` keeps the first three.
- `print!` and `println!` are left out. The output is returned as a sequence of lines of characters rather than written to stdout.
- A debug build panics on `i32` overflow in `x as i32 + dx`. This is left out: the model follows the release build, which wraps.
- `Pipeline.Render` takes the sampler closure of src/main.rs:229-235 as a parameter, `Pipeline.MatrixSampler`, rather than building it inside the loop. `Pipeline.RenderImage` passes it the closure over the rule's matrix.
