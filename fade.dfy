/** The fade step: a transparent-like pixel next to a shadow pixel takes a
    quarter of the shadow's colour and the shadow alpha. */
module Fade {
  import opened Pixels

  /** One colour channel of a faded pixel. The channels are unsigned 8-bit
      values and `base + source // 4` is computed in that width, so the sum
      wraps modulo 256 before `min(255, ...)` is applied; the clamp
      therefore never changes the value. */
  function FadeChannel(base: byte, source: byte): (c: byte)
    ensures (c as int - base as int - source as int / 4) % 256 == 0
  {
    var sum := (base as int + source as int / 4) % 256;
    (if sum < 255 then sum else 255) as byte
  }

  /** Without overflow a channel gains exactly a quarter of the source
      channel; with overflow it wraps round to a smaller value. */
  lemma FadeChannelArithmetic(base: byte, source: byte)
    ensures base as int + source as int / 4 <= 255 ==>
              FadeChannel(base, source) as int == base as int + source as int / 4 &&
              FadeChannel(base, source) >= base
    ensures base as int + source as int / 4 > 255 ==>
              FadeChannel(base, source) as int == base as int + source as int / 4 - 256 &&
              FadeChannel(base, source) < base
  {
  }

  /** The wrap is reachable: a half-transparent bright channel of 250 faded
      from a source channel of 40 becomes 4, not 255. */
  lemma FadeChannelWraps()
    ensures FadeChannel(250, 40) == 4
  {
  }

  /** The faded value of a transparent-like pixel: a fully transparent pixel
      is first blackened, then each channel gains a quarter of the source's,
      and the alpha becomes the shadow alpha. */
  function FadedPixel(dest: Pixel, source: Pixel): (q: Pixel)
    ensures q.a == ALPHA_LIMIT
    ensures dest.a == 0 ==> q.r == source.r / 4 && q.g == source.g / 4 && q.b == source.b / 4
  {
    var base := if dest.a == 0 then Pixel(0, 0, 0, 0) else dest;
    Pixel(FadeChannel(base.r, source.r), FadeChannel(base.g, source.g),
          FadeChannel(base.b, source.b), ALPHA_LIMIT)
  }

  /** What a faded pixel holds: the shadow alpha, and on a fully transparent
      pixel exactly a quarter of the source colour; on a half-transparent one
      its own colour plus a quarter of the source's when that fits in a byte. */
  lemma FadedPixelColour(dest: Pixel, source: Pixel)
    ensures var q := FadedPixel(dest, source);
      q.a == ALPHA_LIMIT &&
      (dest.a == 0 ==> q.r == source.r / 4 && q.g == source.g / 4 && q.b == source.b / 4) &&
      (dest.a != 0 && dest.r as int + source.r as int / 4 <= 255 ==> q.r as int == dest.r as int + source.r as int / 4) &&
      (dest.a != 0 && dest.g as int + source.g as int / 4 <= 255 ==> q.g as int == dest.g as int + source.g as int / 4) &&
      (dest.a != 0 && dest.b as int + source.b as int / 4 <= 255 ==> q.b as int == dest.b as int + source.b as int / 4)
  {
    FadeChannelArithmetic(0, source.r);
    FadeChannelArithmetic(0, source.g);
    FadeChannelArithmetic(0, source.b);
    FadeChannelArithmetic(dest.r, source.r);
    FadeChannelArithmetic(dest.g, source.g);
    FadeChannelArithmetic(dest.b, source.b);
  }

  /** The buffer after fading the pixel at (x, y) from `source`: nothing
      happens off canvas or when the target's alpha is at least the limit. */
  function Faded(img: Image, x: int, y: int, source: Pixel): (r: Image)
    requires WellFormed(img)
    ensures WellFormed(r) && r.width == img.width && r.height == img.height
    ensures !OnCanvas(img, x, y) ==> r == img
    ensures OnCanvas(img, x, y) ==> At(r, x, y).a >= ALPHA_LIMIT
  {
    if !OnCanvas(img, x, y) || At(img, x, y).a >= ALPHA_LIMIT then img
    else Set(img, x, y, FadedPixel(At(img, x, y), source))
  }

  /** The fade, pixel by pixel: only a transparent-like target on canvas
      changes, to its faded value; every other pixel is left as it was. */
  lemma FadeEffect(img: Image, x: int, y: int, source: Pixel, q: int, s: int)
    requires WellFormed(img) && OnCanvas(img, q, s)
    ensures At(Faded(img, x, y, source), q, s) ==
              if q == x && s == y && At(img, q, s).a < ALPHA_LIMIT
              then FadedPixel(At(img, q, s), source)
              else At(img, q, s)
  {
  }
}
