/** The RGBA pixel buffer the converter works on: a grid of `height` rows of
    `width` pixels, each channel an unsigned 8-bit value, addressed as
    `rows[y][x]` with the origin at the top left. */
module Pixels {

  /** One unsigned 8-bit channel value. */
  newtype byte = x: int | 0 <= x < 256

  /** Pixels whose alpha is below this value are transparent-like; it is also
      the alpha every shadow and faded pixel is given. */
  const ALPHA_LIMIT: byte := 128

  /** The alpha of a fully opaque ("solid") pixel. */
  const OPAQUE: byte := 255

  datatype Pixel = Pixel(r: byte, g: byte, b: byte, a: byte)

  datatype Image = Image(width: nat, height: nat, rows: seq<seq<Pixel>>)

  /** The buffer really has the dimensions it claims. */
  ghost predicate WellFormed(img: Image) {
    |img.rows| == img.height &&
    forall y :: 0 <= y < |img.rows| ==> |img.rows[y]| == img.width
  }

  predicate OnCanvas(img: Image, x: int, y: int) {
    0 <= x < img.width && 0 <= y < img.height
  }

  function At(img: Image, x: int, y: int): Pixel
    requires WellFormed(img) && OnCanvas(img, x, y)
  {
    img.rows[y][x]
  }

  /** The buffer with the pixel at (x, y) replaced by `p` and every other
      pixel and both dimensions kept. */
  function Set(img: Image, x: int, y: int, p: Pixel): (r: Image)
    requires WellFormed(img) && OnCanvas(img, x, y)
    ensures WellFormed(r) && r.width == img.width && r.height == img.height
    ensures At(r, x, y) == p
    ensures forall q, s :: OnCanvas(img, q, s) && (q != x || s != y) ==> At(r, q, s) == At(img, q, s)
  {
    img.(rows := img.rows[y := img.rows[y][x := p]])
  }

  /** Two well-formed buffers of the same dimensions that agree on every
      pixel are the same buffer. */
  lemma {:induction false} Extensionality(a: Image, b: Image)
    requires WellFormed(a) && WellFormed(b)
    requires a.width == b.width && a.height == b.height
    requires forall x, y :: OnCanvas(a, x, y) ==> At(a, x, y) == At(b, x, y)
    ensures a == b
  {
    forall y | 0 <= y < a.height
      ensures a.rows[y] == b.rows[y]
    {
      assert forall x :: 0 <= x < a.width ==> a.rows[y][x] == At(a, x, y) == At(b, x, y) == b.rows[y][x];
      assert |a.rows[y]| == a.width == |b.rows[y]|;
    }
    assert a.rows == b.rows;
  }
}
