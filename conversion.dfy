/** The checkerboard-to-alpha conversion as a function of the buffer: one
    row-major scan that classifies and rewrites pixel by pixel, so that later
    pixels see the writes of earlier ones. */
module Conversion {
  import opened Pixels
  import opened Classifier
  import opened Fade
  import opened ColorKey

  datatype Option<T> = None | Some(value: T)

  /** A shadow pixel after its visit: shadow alpha and each colour channel
      halved, rounding down. */
  function Darken(p: Pixel): (d: Pixel)
    ensures d.a == ALPHA_LIMIT
    ensures 2 * d.r as int <= p.r as int <= 2 * d.r as int + 1
    ensures 2 * d.g as int <= p.g as int <= 2 * d.g as int + 1
    ensures 2 * d.b as int <= p.b as int <= 2 * d.b as int + 1
  {
    Pixel(p.r / 2, p.g / 2, p.b / 2, ALPHA_LIMIT)
  }

  predicate IsAxisNeighbour(x: int, y: int, q: int, s: int) {
    (q == x && (s == y - 1 || s == y + 1)) || (s == y && (q == x - 1 || q == x + 1))
  }

  /** The buffer after the scan visits (x, y): a shadow pixel is darkened and
      then its top, left, bottom and right neighbours are faded, in that
      order, from the darkened colour; any other pixel leaves the buffer as
      it is. */
  function Visit(img: Image, x: int, y: int): (r: Image)
    requires WellFormed(img) && OnCanvas(img, x, y)
    ensures WellFormed(r) && r.width == img.width && r.height == img.height
  {
    if IsShadowPixel(img, x, y) then Shade(img, x, y) else img
  }

  /** The rewrite of a shadow pixel: the pixel is darkened and then its top,
      left, bottom and right neighbours are faded, in that order, from the
      darkened colour. */
  function Shade(img: Image, x: int, y: int): (r: Image)
    requires WellFormed(img) && OnCanvas(img, x, y)
    ensures WellFormed(r) && r.width == img.width && r.height == img.height
  {
    var source := Darken(At(img, x, y));
    var darkened := Set(img, x, y, source);
    Faded(Faded(Faded(Faded(darkened, x, y - 1, source), x - 1, y, source), x, y + 1, source), x + 1, y, source)
  }

  /** The rest of the scan, from (x, y) on in row-major order. */
  function ScanFrom(img: Image, x: nat, y: nat): (r: Image)
    requires WellFormed(img)
    ensures WellFormed(r) && r.width == img.width && r.height == img.height
    decreases img.height - y, img.width - x
  {
    if y >= img.height then img
    else if x >= img.width then ScanFrom(img, 0, y + 1)
    else ScanFrom(Visit(img, x, y), x + 1, y)
  }

  /** The checkerboard converter: the whole scan from the top-left pixel. */
  function ConvertCheckerboard(img: Image): (r: Image)
    requires WellFormed(img)
    ensures WellFormed(r) && r.width == img.width && r.height == img.height
  {
    ScanFrom(img, 0, 0)
  }

  /** The full conversion: the optional exact colour-key pass, then the
      checkerboard converter. */
  function ConvertImage(img: Image, key: Option<int> := Some(0xFF_FFFF)): (r: Image)
    requires WellFormed(img)
    ensures WellFormed(r) && r.width == img.width && r.height == img.height
  {
    var keyed := if key.Some? then KeyPass(img, key.value, 0) else img;
    ConvertCheckerboard(keyed)
  }

  /** What one visit does to a shadow pixel and its surroundings: the pixel
      ends darkened with the shadow alpha, every axis neighbour on canvas
      that was transparent-like when the visit began is faded from the
      darkened colour, and every other pixel is untouched. */
  lemma VisitShadowEffect(img: Image, x: int, y: int, q: int, s: int)
    requires WellFormed(img) && OnCanvas(img, x, y) && OnCanvas(img, q, s)
    requires IsShadowPixel(img, x, y)
    ensures At(Visit(img, x, y), q, s) ==
              if q == x && s == y then Darken(At(img, x, y))
              else if IsAxisNeighbour(x, y, q, s) && At(img, q, s).a < ALPHA_LIMIT
              then FadedPixel(At(img, q, s), Darken(At(img, x, y)))
              else At(img, q, s)
  {
    ShadeEffect(img, x, y, q, s);
  }

  /** The rewrite, pixel by pixel, whatever the classification. */
  lemma ShadeEffect(img: Image, x: int, y: int, q: int, s: int)
    requires WellFormed(img) && OnCanvas(img, x, y) && OnCanvas(img, q, s)
    ensures At(Shade(img, x, y), q, s) ==
              if q == x && s == y then Darken(At(img, x, y))
              else if IsAxisNeighbour(x, y, q, s) && At(img, q, s).a < ALPHA_LIMIT
              then FadedPixel(At(img, q, s), Darken(At(img, x, y)))
              else At(img, q, s)
  {
    var source := Darken(At(img, x, y));
    var i0 := Set(img, x, y, source);
    var i1 := Faded(i0, x, y - 1, source);
    var i2 := Faded(i1, x - 1, y, source);
    var i3 := Faded(i2, x, y + 1, source);
    FadeEffect(i0, x, y - 1, source, q, s);
    FadeEffect(i1, x - 1, y, source, q, s);
    FadeEffect(i2, x, y + 1, source, q, s);
    FadeEffect(i3, x + 1, y, source, q, s);
  }

  /** A pixel either keeps its value, or it was opaque or transparent-like
      and now holds the shadow alpha. */
  predicate PixelSettled(before: Pixel, after: Pixel) {
    after == before ||
    (after.a == ALPHA_LIMIT && (before.a == OPAQUE || before.a < ALPHA_LIMIT))
  }

  /** Every pixel of `after` is settled with respect to `before`, and the
      dimensions agree. */
  ghost predicate Settled(before: Image, after: Image) {
    WellFormed(before) && WellFormed(after) &&
    before.width == after.width && before.height == after.height &&
    forall x, y :: OnCanvas(before, x, y) ==> PixelSettled(At(before, x, y), At(after, x, y))
  }

  /** A pixel that has changed is never changed again: a settled change of a
      settled change is a settled change of the original. */
  lemma SettledTransitive(a: Image, b: Image, c: Image)
    requires Settled(a, b) && Settled(b, c)
    ensures Settled(a, c)
  {
    forall x, y | OnCanvas(a, x, y)
      ensures PixelSettled(At(a, x, y), At(c, x, y))
    {
      assert PixelSettled(At(a, x, y), At(b, x, y));
      assert PixelSettled(At(b, x, y), At(c, x, y));
    }
  }

  lemma VisitSettles(img: Image, x: int, y: int)
    requires WellFormed(img) && OnCanvas(img, x, y)
    ensures Settled(img, Visit(img, x, y))
  {
    if IsShadowPixel(img, x, y) {
      forall q, s | OnCanvas(img, q, s)
        ensures PixelSettled(At(img, q, s), At(Visit(img, x, y), q, s))
      {
        VisitShadowEffect(img, x, y, q, s);
      }
    }
  }

  lemma {:induction false} ScanSettles(img: Image, x: nat, y: nat)
    requires WellFormed(img)
    ensures Settled(img, ScanFrom(img, x, y))
    decreases img.height - y, img.width - x
  {
    if y >= img.height {
    } else if x >= img.width {
      ScanSettles(img, 0, y + 1);
    } else {
      var next := Visit(img, x, y);
      VisitSettles(img, x, y);
      ScanSettles(next, x + 1, y);
      SettledTransitive(img, next, ScanFrom(next, x + 1, y));
    }
  }

  /** A pixel at the shadow alpha is final: the rest of the scan never
      rewrites it, so a faded pixel keeps the colour of the first fade and
      never accumulates colour from a second shadow pixel. */
  lemma ShadowAlphaFinal(img: Image, x: nat, y: nat, q: int, s: int)
    requires WellFormed(img) && OnCanvas(img, q, s) && At(img, q, s).a == ALPHA_LIMIT
    ensures At(ScanFrom(img, x, y), q, s) == At(img, q, s)
  {
    ScanSettles(img, x, y);
  }

  /** The scan's global invariant: the dimensions are kept, every pixel whose
      value changed was opaque or transparent-like and now has exactly the
      shadow alpha, so alpha values in 128..254 are never touched and a pixel
      at the shadow alpha (a faded or darkened one) is never rewritten. */
  lemma ConvertSettles(img: Image, x: int, y: int)
    requires WellFormed(img) && OnCanvas(img, x, y)
    ensures var r := ConvertCheckerboard(img);
      r.width == img.width && r.height == img.height &&
      (At(r, x, y) != At(img, x, y) ==>
         At(r, x, y).a == ALPHA_LIMIT && (At(img, x, y).a == OPAQUE || At(img, x, y).a < ALPHA_LIMIT)) &&
      (ALPHA_LIMIT <= At(img, x, y).a < OPAQUE ==> At(r, x, y) == At(img, x, y))
  {
    ScanSettles(img, 0, 0);
  }

  /** Each axis-neighbour fact and corner fact of a settled buffer also held
      before: transparent-like pixels and solid pixels are never produced. */
  lemma SettledReflectsTests(before: Image, after: Image, x: int, y: int)
    requires Settled(before, after)
    ensures IsTransparentLike(after, x, y) ==> IsTransparentLike(before, x, y)
    ensures Solid(after, x, y) ==> Solid(before, x, y)
  {
    if OnCanvas(before, x, y) {
      assert PixelSettled(At(before, x, y), At(after, x, y));
    }
  }

  /** Classification is monotone along the scan: a pixel that is a shadow
      pixel in a settled buffer was already one before. */
  lemma ClassificationMonotone(before: Image, after: Image, x: int, y: int)
    requires Settled(before, after) && OnCanvas(before, x, y)
    requires IsShadowPixel(after, x, y)
    ensures IsShadowPixel(before, x, y)
  {
    ShadowIff(after, x, y);
    ShadowIff(before, x, y);
    assert PixelSettled(At(before, x, y), At(after, x, y));
    forall side
      ensures SideTransparent(after, x, y, side) ==> SideTransparent(before, x, y, side)
      ensures Backed(after, x, y, side) ==> Backed(before, x, y, side)
    {
      SettledReflectsTests(before, after, NeighbourX(side, x), NeighbourY(side, y));
      SettledReflectsTests(before, after, FlankX(side, x, true), FlankY(side, y, true));
      SettledReflectsTests(before, after, FlankX(side, x, false), FlankY(side, y, false));
    }
    if !(forall side :: SideTransparent(after, x, y, side)) {
      var s0, s :| OnlySolidSide(after, x, y, s0) && s != s0 && Backed(after, x, y, s);
      if !SideTransparent(before, x, y, s0) {
        assert OnlySolidSide(before, x, y, s0);
      }
    }
  }

  /** `(q, s)` comes before `(x, y)` in row-major order. */
  predicate Before(x: int, y: int, q: int, s: int) {
    s < y || (s == y && q < x)
  }

  /** The visited pixel is not a shadow pixel after its own visit. */
  lemma VisitedNotShadow(img: Image, x: int, y: int)
    requires WellFormed(img) && OnCanvas(img, x, y)
    ensures !IsShadowPixel(Visit(img, x, y), x, y)
  {
    if IsShadowPixel(img, x, y) {
      VisitShadowEffect(img, x, y, x, y);
    }
  }

  /** One visit extends the shadow-free prefix of the scan by the visited
      pixel. */
  lemma VisitExtendsShadowFree(img: Image, x: int, y: int)
    requires WellFormed(img) && OnCanvas(img, x, y)
    requires forall q, s :: OnCanvas(img, q, s) && Before(x, y, q, s) ==> !IsShadowPixel(img, q, s)
    ensures forall q, s :: OnCanvas(img, q, s) && Before(x + 1, y, q, s) ==> !IsShadowPixel(Visit(img, x, y), q, s)
  {
    var next := Visit(img, x, y);
    VisitSettles(img, x, y);
    VisitedNotShadow(img, x, y);
    forall q, s | OnCanvas(img, q, s) && Before(x + 1, y, q, s)
      ensures !IsShadowPixel(next, q, s)
    {
      if !(q == x && s == y) && IsShadowPixel(next, q, s) {
        ClassificationMonotone(img, next, q, s);
      }
    }
  }

  /** After the scan from (x, y), no pixel at all is a shadow pixel, provided
      none of those already visited is one. */
  lemma {:induction false} ScanLeavesNoShadow(img: Image, x: nat, y: nat)
    requires WellFormed(img)
    requires forall q, s :: OnCanvas(img, q, s) && Before(x, y, q, s) ==> !IsShadowPixel(img, q, s)
    ensures forall q, s :: OnCanvas(img, q, s) ==> !IsShadowPixel(ScanFrom(img, x, y), q, s)
    decreases img.height - y, img.width - x
  {
    if y >= img.height {
      assert forall q, s :: OnCanvas(img, q, s) ==> Before(x, y, q, s);
    } else if x >= img.width {
      assert forall q, s :: OnCanvas(img, q, s) && Before(0, y + 1, q, s) ==> Before(x, y, q, s);
      ScanLeavesNoShadow(img, 0, y + 1);
    } else {
      VisitExtendsShadowFree(img, x, y);
      ScanLeavesNoShadow(Visit(img, x, y), x + 1, y);
    }
  }

  /** A scan over a buffer in which no remaining pixel is a shadow pixel
      changes nothing. */
  lemma {:induction false} ShadowFreeScanIsIdentity(img: Image, x: nat, y: nat)
    requires WellFormed(img)
    requires forall q, s :: OnCanvas(img, q, s) && !Before(x, y, q, s) ==> !IsShadowPixel(img, q, s)
    ensures ScanFrom(img, x, y) == img
    decreases img.height - y, img.width - x
  {
    if y >= img.height {
    } else if x >= img.width {
      ShadowFreeScanIsIdentity(img, 0, y + 1);
    } else {
      assert !Before(x, y, x, y);
      ShadowFreeScanIsIdentity(img, x + 1, y);
    }
  }

  /** A buffer without any shadow pixel comes out of the converter unchanged. */
  lemma ShadowFreeUnchanged(img: Image)
    requires WellFormed(img)
    requires forall x, y :: OnCanvas(img, x, y) ==> !IsShadowPixel(img, x, y)
    ensures ConvertCheckerboard(img) == img
  {
    ShadowFreeScanIsIdentity(img, 0, 0);
  }

  /** One pass reaches a fixpoint: converting a converted buffer again
      changes nothing. */
  lemma ConvertIdempotent(img: Image)
    requires WellFormed(img)
    ensures ConvertCheckerboard(ConvertCheckerboard(img)) == ConvertCheckerboard(img)
  {
    ScanLeavesNoShadow(img, 0, 0);
    ShadowFreeUnchanged(ConvertCheckerboard(img));
  }

  /** A pixel the scan has already passed is final once its alpha is 128 or
      more: later visits darken only their own pixel and fade only
      transparent-like ones. In particular an opaque pixel that was not a
      shadow pixel when its turn came stays opaque, even if it was a shadow
      pixel of the buffer the scan started from. */
  lemma {:induction false} PassedPixelFinal(img: Image, x: nat, y: nat, q: int, s: int)
    requires WellFormed(img) && OnCanvas(img, q, s) && Before(x, y, q, s)
    requires At(img, q, s).a >= ALPHA_LIMIT
    ensures At(ScanFrom(img, x, y), q, s) == At(img, q, s)
    decreases img.height - y, img.width - x
  {
    if y >= img.height {
    } else if x >= img.width {
      PassedPixelFinal(img, 0, y + 1, q, s);
    } else {
      if IsShadowPixel(img, x, y) {
        VisitShadowEffect(img, x, y, q, s);
      }
      PassedPixelFinal(Visit(img, x, y), x + 1, y, q, s);
    }
  }

  /** The scan with every pixel classified against the buffer the scan
      started from (`orig`), while darkening and fading still write into the
      current buffer. */
  function SnapshotScanFrom(orig: Image, img: Image, x: nat, y: nat): (r: Image)
    requires WellFormed(orig) && WellFormed(img)
    requires img.width == orig.width && img.height == orig.height
    ensures WellFormed(r) && r.width == img.width && r.height == img.height
    decreases img.height - y, img.width - x
  {
    if y >= img.height then img
    else if x >= img.width then SnapshotScanFrom(orig, img, 0, y + 1)
    else
      var next := if IsShadowPixel(orig, x, y) then Shade(img, x, y) else img;
      SnapshotScanFrom(orig, next, x + 1, y)
  }

  /** The converter with classification against the unmodified input. */
  function ConvertFromSnapshot(img: Image): (r: Image)
    requires WellFormed(img)
    ensures WellFormed(r) && r.width == img.width && r.height == img.height
  {
    SnapshotScanFrom(img, img, 0, 0)
  }

  /** Every shadow pixel of `orig` already visited holds its darkened value,
      and every one not yet visited still holds its original value. */
  ghost predicate ShadowsDarkenedBefore(orig: Image, img: Image, x: int, y: int)
    requires WellFormed(orig) && WellFormed(img)
    requires img.width == orig.width && img.height == orig.height
  {
    forall q, s :: OnCanvas(orig, q, s) && IsShadowPixel(orig, q, s) ==>
      At(img, q, s) == if Before(x, y, q, s) then Darken(At(orig, q, s)) else At(orig, q, s)
  }

  lemma SnapshotStep(orig: Image, img: Image, x: int, y: int)
    requires WellFormed(orig) && WellFormed(img)
    requires img.width == orig.width && img.height == orig.height && OnCanvas(orig, x, y)
    requires ShadowsDarkenedBefore(orig, img, x, y)
    ensures ShadowsDarkenedBefore(orig, if IsShadowPixel(orig, x, y) then Shade(img, x, y) else img, x + 1, y)
  {
    if IsShadowPixel(orig, x, y) {
      var next := Shade(img, x, y);
      forall q, s | OnCanvas(orig, q, s) && IsShadowPixel(orig, q, s)
        ensures At(next, q, s) == if Before(x + 1, y, q, s) then Darken(At(orig, q, s)) else At(orig, q, s)
      {
        ShadeEffect(img, x, y, q, s);
      }
    }
  }

  lemma {:induction false} SnapshotScanDarkens(orig: Image, img: Image, x: nat, y: nat)
    requires WellFormed(orig) && WellFormed(img)
    requires img.width == orig.width && img.height == orig.height
    requires ShadowsDarkenedBefore(orig, img, x, y)
    ensures forall q, s :: OnCanvas(orig, q, s) && IsShadowPixel(orig, q, s) ==>
              At(SnapshotScanFrom(orig, img, x, y), q, s) == Darken(At(orig, q, s))
    decreases img.height - y, img.width - x
  {
    if y >= img.height {
      assert forall q, s :: OnCanvas(orig, q, s) ==> Before(x, y, q, s);
    } else if x >= img.width {
      assert forall q, s :: OnCanvas(orig, q, s) ==> (Before(0, y + 1, q, s) <==> Before(x, y, q, s));
      SnapshotScanDarkens(orig, img, 0, y + 1);
    } else {
      SnapshotStep(orig, img, x, y);
      var next := if IsShadowPixel(orig, x, y) then Shade(img, x, y) else img;
      SnapshotScanDarkens(orig, next, x + 1, y);
    }
  }

  /** With classification against the input, every shadow pixel of the input
      ends darkened with the shadow alpha: a dense checkerboard is converted
      cell by cell. */
  lemma ConvertFromSnapshotDarkens(img: Image, x: int, y: int)
    requires WellFormed(img) && OnCanvas(img, x, y) && IsShadowPixel(img, x, y)
    ensures At(ConvertFromSnapshot(img), x, y) == Darken(At(img, x, y))
    ensures At(ConvertFromSnapshot(img), x, y).a == ALPHA_LIMIT
  {
    SnapshotScanDarkens(img, img, 0, 0);
  }
}
