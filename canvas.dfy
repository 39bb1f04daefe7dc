/** The converter as the program runs it: one RGBA buffer, mutated in place
    by the colour-key pass, the fade step and the row-major scan. Each
    method is proved to leave the buffer equal to the pure specification of
    its effect applied to the buffer it started from. */
module Chess {
  import opened Pixels
  import opened Classifier
  import opened Fade
  import opened ColorKey
  import opened Conversion

  class Canvas {
    const width: nat
    const height: nat
    /** The pixel array, indexed `[y, x]`. */
    const pixels: array2<Pixel>

    ghost predicate Valid()
      reads this
    {
      pixels.Length0 == height && pixels.Length1 == width
    }

    /** The current buffer as a value. */
    function Contents(): (img: Image)
      reads this, pixels
      requires Valid()
      ensures WellFormed(img) && img.width == width && img.height == height
      ensures forall x, y :: OnCanvas(img, x, y) ==> At(img, x, y) == pixels[y, x]
    {
      Image(width, height,
            seq(height, (y: int) requires 0 <= y < height reads pixels =>
              seq(width, (x: int) requires 0 <= x < width reads pixels => pixels[y, x])))
    }

    constructor (img: Image)
      requires WellFormed(img)
      ensures Valid() && fresh(pixels) && Contents() == img
    {
      width, height := img.width, img.height;
      pixels := new Pixel[img.height, img.width]((y: nat, x: nat)
                  requires y < img.height && x < img.width => img.rows[y][x]);
      new;
      Extensionality(Contents(), img);
    }

    /** Overwrites one pixel. */
    method Put(x: int, y: int, p: Pixel)
      requires Valid() && 0 <= x < width && 0 <= y < height
      modifies pixels
      ensures Contents() == Set(old(Contents()), x, y, p)
    {
      pixels[y, x] := p;
      Extensionality(Contents(), Set(old(Contents()), x, y, p));
    }

    /** The colour-key pass: a masked assignment of alpha 0 to every pixel
        whose colour matches the key. */
    method ConvertColorToTransparent(hex: int := 0xFF_FFFF, tolerance: int := 0)
      requires Valid()
      modifies pixels
      ensures Contents() == KeyPass(old(Contents()), hex, tolerance)
    {
      forall y, x | 0 <= y < height && 0 <= x < width {
        pixels[y, x] := KeyPixel(pixels[y, x], hex, tolerance);
      }
      Extensionality(Contents(), KeyPass(old(Contents()), hex, tolerance));
    }

    /** The fade step, writing through the target pixel: off canvas or at an
        alpha of at least the limit nothing happens; a fully transparent
        target is blackened first; then each colour channel gains a quarter
        of the source's and the alpha becomes the limit. */
    method FadePixel(x: int, y: int, source: Pixel)
      requires Valid()
      modifies pixels
      ensures Contents() == Faded(old(Contents()), x, y, source)
    {
      if x < 0 || x >= width || y < 0 || y >= height {
        return;
      }
      var dest := pixels[y, x];
      if dest.a < ALPHA_LIMIT {
        if dest.a == 0 {
          dest := dest.(r := 0, g := 0, b := 0);
        }
        dest := dest.(r := FadeChannel(dest.r, source.r), g := FadeChannel(dest.g, source.g),
                      b := FadeChannel(dest.b, source.b), a := ALPHA_LIMIT);
        Put(x, y, dest);
      }
    }

    /** One visit of the scan: a shadow pixel is darkened (shadow alpha,
        colour channels halved) and its top, left, bottom and right
        neighbours are faded from the darkened colour; any other pixel is
        left alone. */
    method VisitPixel(x: int, y: int)
      requires Valid() && 0 <= x < width && 0 <= y < height
      modifies pixels
      ensures Contents() == Visit(old(Contents()), x, y)
    {
      if IsShadowPixel(Contents(), x, y) {
        var source := Darken(pixels[y, x]);
        Put(x, y, source);
        FadePixel(x, y - 1, source);
        FadePixel(x - 1, y, source);
        FadePixel(x, y + 1, source);
        FadePixel(x + 1, y, source);
      }
    }

    /** The scan: every pixel in row-major order, each classified against the
        buffer as the earlier visits left it. */
    method ScanShadows()
      requires Valid()
      modifies pixels
      ensures Contents() == ConvertCheckerboard(old(Contents()))
    {
      var y := 0;
      while y < height
        invariant 0 <= y <= height
        invariant ScanFrom(Contents(), 0, y) == ConvertCheckerboard(old(Contents()))
      {
        var x := 0;
        while x < width
          invariant 0 <= x <= width
          invariant ScanFrom(Contents(), x, y) == ConvertCheckerboard(old(Contents()))
        {
          VisitPixel(x, y);
          x := x + 1;
        }
        y := y + 1;
      }
    }

    /** The whole conversion: the exact colour-key pass when a key colour is
        given, then the scan. */
    method ConvertCheckerboardToAlpha(transparencyColor: Option<int> := Some(0xFF_FFFF))
      requires Valid()
      modifies pixels
      ensures Contents() == ConvertImage(old(Contents()), transparencyColor)
    {
      if transparencyColor.Some? {
        ConvertColorToTransparent(transparencyColor.value, 0);
      }
      ScanShadows();
    }
  }
}
