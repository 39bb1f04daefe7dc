# CHESS checkerboard-to-alpha converter, modelled in Dafny

CHESS is meant to turn sprites whose shadows are drawn as a checkerboard
dither (fully opaque and fully transparent pixels alternating) into sprites
with a semi-transparent shadow. It does so in one row-major pass over the
buffer that classifies each pixel against the buffer as the earlier visits
left it, so a dense checkerboard is only partly converted: the cells faded
by an earlier visit stop counting as transparent, and some opaque cells of
the pattern keep alpha 255 (see "## Findings"). This project models the
pixel core of `chess.py`:

- the colour-key pre-pass, which makes every pixel matching a key colour
  (within a tolerance) fully transparent;
- the axis-neighbour test and the shadow classifier with its corner rule;
- the fade step, which blends a quarter of a shadow pixel's colour into a
  transparent neighbour;
- the row-major scan that classifies and rewrites the buffer in place, so
  that later pixels see what earlier visits wrote.

Layout:

- `pixels.dfy` (module `Pixels`): 8-bit channels (`byte`), `Pixel`, the
  buffer value `Image` (rows of pixels, `rows[y][x]`), `ALPHA_LIMIT` = 128.
- `color_key.dfy` (`ColorKey`): unpacking the key colour, the match mask,
  the pass as a function of the buffer.
- `classifier.dfy` (`Classifier`): the two neighbour tests and
  `IsShadowPixel`, written branch for branch, beside `ShadowRule`, an
  independent statement of the same rule in terms of sides and corners.
- `fade.dfy` (`Fade`): channel arithmetic, the faded pixel, the fade of a
  buffer.
- `conversion.dfy` (`Conversion`): one visit of the scan, the scan as a
  recursive function over positions, and the properties of the whole pass
  (each pixel changes at most once and only to alpha 128, classification
  only ever weakens along the scan, one pass is a fixpoint).
- `canvas.dfy` (`Chess.Canvas`): the buffer as the program holds it, a
  class over an `array2<Pixel>`; the key pass, the fade, one visit and the
  scan are methods that mutate it, each proved to leave it equal to the
  pure function of the buffer it started from.
- `scenarios.dfy` (`Scenarios`): fixed 3 x 3 buffers showing the corner
  rule, the conversion of an isolated opaque pixel and the partial
  conversion of a dense checkerboard.

Choices made where the code could be read more than one way:

- Corner rule. The comment at chess.py:139-140 says that a transparent side
  whose two flanking corners are solid marks a sprite edge, not a shadow.
  The code at chess.py:141-148 returns "shadow" in exactly that case. The
  model follows the code. It is also what a real checkerboard needs: the
  diagonal cells of a checkerboard cell are opaque cells of the same
  pattern (`Scenarios.CheckerboardCellAboveSprite`), while the tip of a thin
  sprite spike has transparent corners and is left alone
  (`Scenarios.SpriteTipIsNotShadow`).
- Fade arithmetic. At chess.py:177-179 the channels are numpy `uint8`
  values, so `dest + source // 4` wraps modulo 256 before `min(255, ...)`
  sees it, and the clamp never changes anything. The model computes the
  wrap explicitly (`Fade.FadeChannel`). The wrap needs a half-transparent
  target (alpha 1..127) with a channel above 224; a fully transparent target
  is blackened first, and a darkened source channel is at most 127, so the
  targets the scan normally meets get exactly a quarter of the source.
- No accumulation. A faded pixel gets alpha 128, which fails the `< 128`
  guard of chess.py:169 and the `== 255` test of chess.py:110, so a pixel
  next to two shadow pixels takes colour from the first one only.
  `Conversion.ShadowAlphaFinal` states this for the rest of the scan from
  any buffer, in particular the one right after the first fade.
- The shadow alpha written at chess.py:180 and chess.py:213 is
  `ALPHA_LIMIT` itself; the model uses the same constant for both roles.
- Default arguments. The key colour defaults to white, `0xFFFFFF`, and the
  tolerance to 0 (chess.py:27, chess.py:183); `Conversion.ConvertImage` and
  the `Chess.Canvas` methods carry the same defaults, with `None` for "no key
  pass".

## Model

| member | source | states |
|---|---|---|
| `ColorKey.Unpack` | chess.py:52-54 | each unpacked key channel lies in 0..255, for any integer key value |
| `ColorKey.UnpackPack` | chess.py:52-54 | unpacking the 24-bit packing of an 8-bit colour gives the colour back |
| `ColorKey.PackUnpack` | chess.py:52-54 | every 24-bit key value is the packing of its three unpacked channels |
| `ColorKey.UnpackIgnoresHighBits` | chess.py:52-54 | bits above bit 23 of the key value do not change the key colour |
| `ColorKey.KeyMatches` | chess.py:56-67 | a pixel is in the mask only if every channel lies within the tolerance of the key colour |
| `ColorKey.KeyPixel` | chess.py:70 | the masked assignment keeps R, G and B and either sets alpha to 0 or leaves the pixel unchanged |
| `ColorKey.KeyMatchesIsDistanceTest` | chess.py:57-67 | the exact-match branch used at tolerance 0 agrees with the per-channel distance test, so the mask is the distance test for every tolerance |
| `ColorKey.NegativeToleranceMatchesNothing` | chess.py:63-67 | a negative tolerance matches no pixel |
| `ColorKey.KeyMatchesMonotone` | chess.py:63-67 | a pixel matched at some tolerance is matched at every larger one |
| `ColorKey.KeyPass` | chess.py:56-70 | the pass keeps the dimensions and maps every pixel through the per-pixel masked assignment |
| `ColorKey.KeyPassEffect` | chess.py:56-70 | R, G and B are kept; alpha becomes 0 exactly where every channel is within the tolerance of the key colour and is kept elsewhere |
| `ColorKey.KeyPassIdempotent` | chess.py:69-70 | running the key pass twice equals running it once |
| `Classifier.IsTransparentLike` | chess.py:76-90 | the axis-neighbour test; every coordinate it accepts (off canvas or alpha below 128) is also accepted by the corner test |
| `Classifier.CornerTransparent` | chess.py:128-132 | the corner test; a coordinate it rejects (a solid corner) is always on the canvas |
| `Classifier.IsShadowPixel` | chess.py:93-150 | the classifier; a shadow pixel is fully opaque and has at least three transparent-like axis neighbours |
| `Classifier.TransparentNeighbourCount` | chess.py:114-119 | the number of transparent-like axis neighbours is at most 4 (its meaning, side by side, is `Classifier.CountMeaning`) |
| `Classifier.CountMeaning` | chess.py:114-119 | the neighbour count is at most 4; it is 4 iff every side is transparent-like and 3 iff exactly one side is not |
| `Classifier.CornerBranches` | chess.py:124-148 | with three transparent-like sides, the branch chain fires iff some transparent side has both flanking corners on canvas and fully opaque |
| `Classifier.ShadowIff` | chess.py:109-150 | the classifier decides exactly the side-and-corner rule: opaque, and either surrounded on four sides or with one solid side and a transparent side backed by two solid corners; the order of the branches never changes the answer |
| `Classifier.NotOpaqueNeverShadow` | chess.py:109-111 | a pixel whose alpha is not 255 is never a shadow pixel, whatever its neighbours |
| `Classifier.SurroundRules` | chess.py:113-150 | an opaque pixel with four transparent-like neighbours is a shadow pixel whatever its corners hold; one with two or fewer is not |
| `Classifier.TransparentLikeIsCornerTransparent` | chess.py:128-132 | every transparent-like coordinate (off canvas or alpha below 128) also passes the corner test; the corner test alone also passes alpha 128..254 |
| `Classifier.CanvasCornerNeedsFullSurround` | chess.py:128-148 | off-canvas corners are never solid, so a pixel in a corner of the canvas is a shadow pixel iff it is opaque with four transparent-like neighbours |
| `Fade.FadeChannel` | chess.py:177-179 | a faded channel is congruent, modulo 256, to the base channel plus a quarter of the source channel |
| `Fade.FadedPixel` | chess.py:169-180 | a faded pixel has alpha 128, and a fully transparent one holds exactly a quarter of the source colour |
| `Fade.Faded` | chess.py:163-180 | the fade keeps the dimensions, changes nothing when the target is off canvas, and leaves an on-canvas target with alpha 128 or more |
| `Fade.FadeChannelArithmetic` | chess.py:177-179 | a faded channel gains exactly a quarter of the source channel when the sum fits in a byte, and wraps round to a smaller value when it does not |
| `Fade.FadeChannelWraps` | chess.py:177 | the wrap is reachable: channel 250 faded from source channel 40 becomes 4 |
| `Fade.FadedPixelColour` | chess.py:169-180 | a faded pixel has alpha 128; a fully transparent one holds exactly a quarter of the source colour, a half-transparent one its own colour plus a quarter of the source's when that fits |
| `Fade.FadeEffect` | chess.py:163-180 | the fade changes nothing off canvas or at an alpha of 128 or more; otherwise only the target changes, to its faded value |
| `Conversion.Darken` | chess.py:213-216 | a darkened pixel has alpha 128 and each colour channel is half the original, rounded down |
| `Conversion.Visit` | chess.py:210-225 | one visit keeps the buffer's dimensions |
| `Conversion.ScanFrom` | chess.py:208-210 | the rest of the row-major scan keeps the buffer's dimensions |
| `Conversion.ConvertCheckerboard` | chess.py:207-225 | the converter keeps the buffer's dimensions |
| `Conversion.ConvertImage` | chess.py:195-225 | the key pass followed by the converter keeps the buffer's dimensions |
| `Conversion.VisitShadowEffect` | chess.py:210-225 | a shadow pixel ends its visit with its colour halved and alpha 128; each axis neighbour on canvas that was transparent-like when the visit began is faded from the darkened colour; every other pixel is untouched |
| `Conversion.Shade` | chess.py:213-225 | the darken-and-fade rewrite of one pixel keeps the buffer's dimensions |
| `Conversion.ShadeEffect` | chess.py:213-225 | the rewrite darkens the pixel, fades each axis neighbour on canvas that was transparent-like, and touches nothing else |
| `Conversion.SettledTransitive` | chess.py:169-180 | a pixel that has changed to the shadow alpha is never changed again, so settled changes compose |
| `Conversion.VisitSettles` | chess.py:210-225 | a visit changes only opaque or transparent-like pixels, and each to alpha 128 |
| `Conversion.ScanSettles` | chess.py:208-225 | the rest of the scan changes only opaque or transparent-like pixels, and each to alpha 128 |
| `Conversion.ShadowAlphaFinal` | chess.py:169-180 | a pixel at alpha 128 (one that has been faded or darkened) is never changed by the rest of the scan, so it keeps the colour of its first fade and never accumulates a second one |
| `Conversion.ConvertSettles` | chess.py:208-225 | after the scan the dimensions are unchanged, every changed pixel was opaque or transparent-like and now has alpha exactly 128, and pixels with alpha 128..254 are untouched |
| `Conversion.SettledReflectsTests` | chess.py:76-90 | in a buffer settled from another, a transparent-like neighbour or a solid corner was already one before |
| `Conversion.ClassificationMonotone` | chess.py:93-150 | a pixel that is a shadow pixel in a settled buffer was a shadow pixel before, so the scan never creates new shadow pixels |
| `Conversion.VisitedNotShadow` | chess.py:210-216 | the visited pixel is not a shadow pixel after its own visit |
| `Conversion.VisitExtendsShadowFree` | chess.py:208-225 | if no pixel already visited is a shadow pixel, the same holds after the next visit, including the visited one |
| `Conversion.ScanLeavesNoShadow` | chess.py:208-225 | after the scan no pixel of the buffer is a shadow pixel |
| `Conversion.ShadowFreeScanIsIdentity` | chess.py:208-210 | the scan over positions none of which holds a shadow pixel leaves the buffer unchanged |
| `Conversion.ShadowFreeUnchanged` | chess.py:208-210 | a buffer with no shadow pixel comes out of the converter unchanged |
| `Conversion.ConvertIdempotent` | chess.py:207-225 | converting a converted buffer again changes nothing: one pass is a fixpoint |
| `Conversion.PassedPixelFinal` | chess.py:208-225 | a pixel the scan has already passed and whose alpha is 128 or more is not changed by the rest of the scan |
| `Conversion.SnapshotScanFrom` | chess.py:208-225 | the scan classifying against the input buffer keeps the dimensions |
| `Conversion.ConvertFromSnapshot` | chess.py:207-225 | the converter classifying against the input buffer keeps the dimensions |
| `Conversion.SnapshotStep` | chess.py:210-225 | one visit of that scan darkens the visited shadow pixel of the input and leaves every other shadow pixel of the input as it was |
| `Conversion.SnapshotScanDarkens` | chess.py:208-225 | the rest of that scan darkens every shadow pixel of the input |
| `Conversion.ConvertFromSnapshotDarkens` | chess.py:184-225 | classified against the input, every shadow pixel of the input ends darkened with alpha 128 |
| `Chess.Canvas.constructor` | chess.py:204-205 | the array holds the given buffer with its width and height |
| `Chess.Canvas.ConvertColorToTransparent` | chess.py:51-70 | the in-place masked assignment leaves the array equal to the key pass of the old buffer |
| `Chess.Canvas.FadePixel` | chess.py:153-180 | the in-place fade leaves the array equal to the fade of the old buffer |
| `Chess.Canvas.VisitPixel` | chess.py:210-225 | classifying against the current array and darkening and fading in place leaves the array equal to one visit of the old buffer |
| `Chess.Canvas.ScanShadows` | chess.py:207-225 | the nested row-major loops leave the array equal to the converter applied to the old buffer |
| `Chess.Canvas.ConvertCheckerboardToAlpha` | chess.py:195-225 | the optional exact colour-key pass then the scan leave the array equal to the full conversion of the old buffer |
| `Scenarios.CheckerboardCellAboveSprite` | chess.py:139-142 | a checkerboard cell above a solid sprite row, whose top side is backed by two opaque checkerboard cells, is a shadow pixel |
| `Scenarios.SpriteTipIsNotShadow` | chess.py:141-150 | the tip of a one-pixel sprite spike, with transparent corners, is not a shadow pixel |
| `Scenarios.IsolatedPixel` | chess.py:208-225 | an isolated opaque pixel on a transparent 3 x 3 canvas is halved to alpha 128, its four axis neighbours get a quarter of the darkened colour at alpha 128, and the corners stay transparent |
| `Scenarios.CheckerboardShadows` | chess.py:93-150 | in a dense 3 x 3 checkerboard the top-left cell and the centre are shadow pixels |
| `Scenarios.CheckerboardCornerVisit` | chess.py:208-225 | the first visit of that checkerboard darkens the top-left cell and fades the cells right of and below it |
| `Scenarios.TopRightNotShadowAfterCorner` | chess.py:93-150 | after that visit the top-right cell, a canvas corner whose left neighbour is faded, is no longer a shadow pixel |
| `Scenarios.CentreNotShadowAfterCorner` | chess.py:93-150 | after that visit the centre has two transparent-like sides and is no longer a shadow pixel |
| `Scenarios.CheckerboardCentreSkipped` | chess.py:208-225 | the visits from the second cell up to the centre therefore change nothing |
| `Scenarios.CheckerboardCentreSurvives` | chess.py:184-225 | the centre of a dense checkerboard is a shadow pixel of the input, yet the converter leaves it fully opaque |
| `Scenarios.CheckerboardCentreFromSnapshot` | chess.py:184-225 | classified against the input, the same centre is converted to alpha 128 |

## Findings

| source | as written | input that shows it | evidently intended | confidence | as-written member | corrected member |
|---|---|---|---|---|---|---|
| chess.py:208-225 | each pixel is classified against the buffer as the earlier visits left it, and a faded neighbour (alpha 128) no longer counts as transparent-like | the 3 x 3 checkerboard with opaque corners and centre: every opaque cell is a shadow pixel of the input, but after the top-left visit the centre has two transparent-like sides and keeps alpha 255 | the docstring at chess.py:184-185 promises to convert the checkerboard pattern, which needs every shadow pixel of the input converted | medium; not executed; the in-place order may be deliberate | `Scenarios.CheckerboardCentreSurvives` | `Conversion.ConvertFromSnapshotDarkens` |

The scan that `Chess.Canvas` runs stays the program's own in-place scan,
since that is what the program does; `Conversion.ConvertFromSnapshot`
classifies every pixel against the input and is proved to darken every
shadow pixel of it (`Conversion.ConvertFromSnapshotDarkens`,
`Scenarios.CheckerboardCentreFromSnapshot`).

## Left out


- Image mode conversion and the conversions between image objects and
  numpy arrays (chess.py:44-48, 73, 199-205, 228) are library calls; the
  model starts from the RGBA buffer itself.
- `convert_file` (chess.py:231-266): path checks, file-not-found errors,
  image decoding, PNG encoding and console output are file I/O.
- `main` (chess.py:269-301): argument parsing, the white/black/none choice
  of key colour and the process exit status are the command surface.
- demo_usage.py: a demo that builds fixtures with floating-point geometry
  and writes files; it imports a module that is not part of this model.
- The classifier requires its own coordinate to be on canvas; the only
  caller, the scan, always passes one, and Python's negative indexing is
  therefore never reached.
