/** Small fixed buffers that show the classifier's corner rule and the
    conversion of an isolated opaque pixel. `O` is an opaque black pixel,
    `T` a fully transparent one. */
module Scenarios {
  import opened Pixels
  import opened Classifier
  import opened Conversion

  const O: Pixel := Pixel(0, 0, 0, 255)
  const T: Pixel := Pixel(0, 0, 0, 0)

  /** The last checkerboard cell above a solid sprite row: three transparent
      sides, and the top side is backed by the two opaque checkerboard cells
      on its diagonals, so the corner rule makes it a shadow pixel. */
  lemma CheckerboardCellAboveSprite()
    ensures var img := Image(3, 3, [[O, T, O], [T, O, T], [O, O, O]]);
      WellFormed(img) && IsShadowPixel(img, 1, 1)
  {
    var img := Image(3, 3, [[O, T, O], [T, O, T], [O, O, O]]);
    assert !IsTransparentLike(img, 1, 2) && Solid(img, 0, 0) && Solid(img, 2, 0);
  }

  /** The tip of a one-pixel-wide sprite spike: also three transparent sides,
      but no transparent side is backed by two solid corners, so it is not a
      shadow pixel. */
  lemma SpriteTipIsNotShadow()
    ensures var img := Image(3, 3, [[T, T, T], [T, O, T], [O, O, O]]);
      WellFormed(img) && !IsShadowPixel(img, 1, 1)
  {
    var img := Image(3, 3, [[T, T, T], [T, O, T], [O, O, O]]);
    assert !IsTransparentLike(img, 1, 2) && !Solid(img, 0, 0) && !Solid(img, 2, 0);
  }

  function Lone(): Image {
    Image(3, 3, [[T, T, T], [T, Pixel(200, 100, 50, 255), T], [T, T, T]])
  }

  function LoneConverted(): Image {
    var n := Pixel(25, 12, 6, 128);
    Image(3, 3, [[T, n, T], [n, Pixel(100, 50, 25, 128), n], [T, n, T]])
  }

  /** The visits before the centre pixel change nothing. */
  lemma LonePrefix()
    ensures WellFormed(Lone()) && ScanFrom(Lone(), 0, 0) == ScanFrom(Lone(), 1, 1)
  {
    var img := Lone();
    assert WellFormed(img);
    assert Visit(img, 0, 0) == img && Visit(img, 1, 0) == img && Visit(img, 2, 0) == img;
    assert Visit(img, 0, 1) == img;
    assert ScanFrom(img, 0, 0) == ScanFrom(img, 1, 0) == ScanFrom(img, 2, 0) == ScanFrom(img, 3, 0);
    assert ScanFrom(img, 3, 0) == ScanFrom(img, 0, 1) == ScanFrom(img, 1, 1);
  }

  /** The visit of the centre pixel writes the whole expected result. */
  lemma LoneVisit()
    ensures WellFormed(Lone()) && Visit(Lone(), 1, 1) == LoneConverted()
  {
    var img := Lone();
    assert WellFormed(img) && WellFormed(LoneConverted());
    assert IsShadowPixel(img, 1, 1) by {
      SurroundRules(img, 1, 1);
      assert forall s :: SideTransparent(img, 1, 1, s);
    }
    forall q, s | OnCanvas(img, q, s)
      ensures At(Visit(img, 1, 1), q, s) == At(LoneConverted(), q, s)
    {
      VisitShadowEffect(img, 1, 1, q, s);
    }
    Extensionality(Visit(img, 1, 1), LoneConverted());
  }

  /** A single opaque pixel on a transparent 3 x 3 canvas: it is darkened to
      half its colour at the shadow alpha, its four axis neighbours take a
      quarter of the darkened colour at the shadow alpha, and the corners stay
      transparent. */
  lemma IsolatedPixel()
    ensures WellFormed(Lone()) && ConvertCheckerboard(Lone()) == LoneConverted()
  {
    LonePrefix();
    LoneVisit();
    assert WellFormed(LoneConverted());
    ShadowFreeScanIsIdentity(LoneConverted(), 2, 1);
  }

  /** A dense 3 x 3 checkerboard: every opaque cell is a shadow pixel of it. */
  function Checkerboard(): Image {
    Image(3, 3, [[O, T, O], [T, O, T], [O, T, O]])
  }

  /** The checkerboard after the visit of its top-left cell; `F` is the
      darkened or faded black at the shadow alpha. */
  function CheckerboardAfterCorner(): Image {
    var f := Pixel(0, 0, 0, 128);
    Image(3, 3, [[f, f, O], [f, O, T], [O, T, O]])
  }

  /** The top-left cell and the centre are shadow pixels of the input: each
      has four transparent-like sides. */
  lemma CheckerboardShadows()
    ensures WellFormed(Checkerboard()) && IsShadowPixel(Checkerboard(), 0, 0)
    ensures IsShadowPixel(Checkerboard(), 1, 1)
  {
    var img := Checkerboard();
    assert WellFormed(img);
    assert IsShadowPixel(img, 0, 0) by {
      SurroundRules(img, 0, 0);
      assert forall s :: SideTransparent(img, 0, 0, s);
    }
    assert IsShadowPixel(img, 1, 1) by {
      SurroundRules(img, 1, 1);
      assert forall s :: SideTransparent(img, 1, 1, s);
    }
  }

  /** The visit of the top-left cell fades the cells right of and below it. */
  lemma CheckerboardCornerVisit()
    ensures WellFormed(Checkerboard()) && IsShadowPixel(Checkerboard(), 1, 1)
    ensures Visit(Checkerboard(), 0, 0) == CheckerboardAfterCorner()
  {
    var img := Checkerboard();
    CheckerboardShadows();
    assert WellFormed(CheckerboardAfterCorner());
    forall q, s | OnCanvas(img, q, s)
      ensures At(Visit(img, 0, 0), q, s) == At(CheckerboardAfterCorner(), q, s)
    {
      VisitShadowEffect(img, 0, 0, q, s);
    }
    Extensionality(Visit(img, 0, 0), CheckerboardAfterCorner());
  }

  /** After that visit the top-right cell is not a shadow pixel: it sits in
      a corner of the canvas, where only four transparent-like sides make a
      shadow pixel, and its left neighbour has been faded. */
  lemma TopRightNotShadowAfterCorner()
    ensures WellFormed(CheckerboardAfterCorner())
    ensures !IsShadowPixel(CheckerboardAfterCorner(), 2, 0)
  {
    var img := CheckerboardAfterCorner();
    assert WellFormed(img);
    CanvasCornerNeedsFullSurround(img, 2, 0);
    assert !IsTransparentLike(img, 1, 0);
  }

  /** After that visit the centre is not a shadow pixel: its top and left
      neighbours have been faded, leaving two transparent-like sides. */
  lemma CentreNotShadowAfterCorner()
    ensures WellFormed(CheckerboardAfterCorner())
    ensures !IsShadowPixel(CheckerboardAfterCorner(), 1, 1)
  {
    var img := CheckerboardAfterCorner();
    assert WellFormed(img);
    SurroundRules(img, 1, 1);
  }

  /** So the visits from the second cell up to the centre change nothing. */
  lemma CheckerboardCentreSkipped()
    ensures WellFormed(CheckerboardAfterCorner())
    ensures ScanFrom(CheckerboardAfterCorner(), 1, 0) == ScanFrom(CheckerboardAfterCorner(), 2, 1)
  {
    var img := CheckerboardAfterCorner();
    TopRightNotShadowAfterCorner();
    CentreNotShadowAfterCorner();
    assert Visit(img, 1, 0) == img && Visit(img, 2, 0) == img;
    assert Visit(img, 0, 1) == img && Visit(img, 1, 1) == img;
    assert ScanFrom(img, 1, 0) == ScanFrom(img, 2, 0) == ScanFrom(img, 3, 0) == ScanFrom(img, 0, 1);
    assert ScanFrom(img, 0, 1) == ScanFrom(img, 1, 1) == ScanFrom(img, 2, 1);
  }

  /** The centre of a dense checkerboard is a shadow pixel of the input, yet
      the in-place scan leaves it fully opaque: by its turn its top and left
      neighbours have been faded to the shadow alpha, so it has only two
      transparent-like neighbours. */
  lemma CheckerboardCentreSurvives()
    ensures WellFormed(Checkerboard()) && IsShadowPixel(Checkerboard(), 1, 1)
    ensures At(ConvertCheckerboard(Checkerboard()), 1, 1) == O
  {
    CheckerboardCornerVisit();
    CheckerboardCentreSkipped();
    assert ConvertCheckerboard(Checkerboard()) == ScanFrom(CheckerboardAfterCorner(), 1, 0);
    PassedPixelFinal(CheckerboardAfterCorner(), 2, 1, 1, 1);
  }

  /** Classified against the input instead, the centre is converted. */
  lemma CheckerboardCentreFromSnapshot()
    ensures WellFormed(Checkerboard())
    ensures At(ConvertFromSnapshot(Checkerboard()), 1, 1) == Pixel(0, 0, 0, 128)
  {
    var img := Checkerboard();
    CheckerboardShadows();
    ConvertFromSnapshotDarkens(img, 1, 1);
  }
}
