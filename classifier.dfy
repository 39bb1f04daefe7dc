/** Which opaque pixels belong to a checkerboard shadow: the axis-neighbour
    test, the corner test and the shadow classifier built from them. All of
    them only read the buffer. */
module Classifier {
  import opened Pixels

  /** Axis-neighbour test: an off-canvas coordinate counts as transparent,
      an on-canvas one is transparent-like when its alpha is below the
      limit. */
  predicate IsTransparentLike(img: Image, x: int, y: int): (t: bool)
    requires WellFormed(img)
    ensures t ==> CornerTransparent(img, x, y)
  {
    !OnCanvas(img, x, y) || At(img, x, y).a < ALPHA_LIMIT
  }

  /** Corner test: an off-canvas corner, or one whose alpha is anything but
      fully opaque, counts as transparent. */
  predicate CornerTransparent(img: Image, x: int, y: int): (t: bool)
    requires WellFormed(img)
    ensures !t ==> OnCanvas(img, x, y)
  {
    !OnCanvas(img, x, y) || At(img, x, y).a != OPAQUE
  }

  function Indicator(b: bool): nat {
    if b then 1 else 0
  }

  /** How many of the four axis neighbours (top, left, bottom, right) are
      transparent-like. */
  function TransparentNeighbourCount(img: Image, x: int, y: int): (n: nat)
    requires WellFormed(img)
    ensures n <= 4
  {
    Indicator(IsTransparentLike(img, x, y - 1)) + Indicator(IsTransparentLike(img, x - 1, y)) +
    Indicator(IsTransparentLike(img, x, y + 1)) + Indicator(IsTransparentLike(img, x + 1, y))
  }

  /** The shadow classifier, branch for branch: the pixel must be fully
      opaque; four transparent-like neighbours make it a shadow pixel;
      three send it to the corner rule, which fires for a transparent side
      whose two flanking corners are both solid (on canvas and opaque),
      sides tried in the order top, left, right, bottom; anything else is
      not a shadow pixel. */
  predicate IsShadowPixel(img: Image, x: int, y: int): (shadow: bool)
    requires WellFormed(img) && OnCanvas(img, x, y)
    ensures shadow ==> At(img, x, y).a == OPAQUE && TransparentNeighbourCount(img, x, y) >= 3
  {
    if At(img, x, y).a != OPAQUE then false
    else
      var top := IsTransparentLike(img, x, y - 1);
      var left := IsTransparentLike(img, x - 1, y);
      var bottom := IsTransparentLike(img, x, y + 1);
      var right := IsTransparentLike(img, x + 1, y);
      var count := TransparentNeighbourCount(img, x, y);
      if count == 4 then true
      else if count == 3 then
        var topLeft := CornerTransparent(img, x - 1, y - 1);
        var topRight := CornerTransparent(img, x + 1, y - 1);
        var bottomLeft := CornerTransparent(img, x - 1, y + 1);
        var bottomRight := CornerTransparent(img, x + 1, y + 1);
        if top && !topLeft && !topRight then true
        else if left && !topLeft && !bottomLeft then true
        else if right && !topRight && !bottomRight then true
        else if bottom && !bottomLeft && !bottomRight then true
        else false
      else false
  }

  // An independent statement of the rule, side by side.

  datatype Side = Top | Left | Right | Bottom

  /** The axis neighbour of (x, y) on side `s`. */
  function NeighbourX(s: Side, x: int): int {
    match s
    case Left => x - 1
    case Right => x + 1
    case _ => x
  }

  function NeighbourY(s: Side, y: int): int {
    match s
    case Top => y - 1
    case Bottom => y + 1
    case _ => y
  }

  /** The two diagonal corners that flank side `s`: they share its row for
      top and bottom and its column for left and right. */
  function FlankX(s: Side, x: int, first: bool): int {
    match s
    case Left => x - 1
    case Right => x + 1
    case _ => if first then x - 1 else x + 1
  }

  function FlankY(s: Side, y: int, first: bool): int {
    match s
    case Top => y - 1
    case Bottom => y + 1
    case _ => if first then y - 1 else y + 1
  }

  predicate SideTransparent(img: Image, x: int, y: int, s: Side)
    requires WellFormed(img)
  {
    IsTransparentLike(img, NeighbourX(s, x), NeighbourY(s, y))
  }

  /** A solid corner: on canvas and fully opaque. */
  predicate Solid(img: Image, x: int, y: int)
    requires WellFormed(img)
  {
    OnCanvas(img, x, y) && At(img, x, y).a == OPAQUE
  }

  /** Both corners flanking side `s` are solid. */
  predicate Backed(img: Image, x: int, y: int, s: Side)
    requires WellFormed(img)
  {
    Solid(img, FlankX(s, x, true), FlankY(s, y, true)) &&
    Solid(img, FlankX(s, x, false), FlankY(s, y, false))
  }

  /** Exactly one axis neighbour, the one on side `s0`, is not transparent-like. */
  predicate OnlySolidSide(img: Image, x: int, y: int, s0: Side)
    requires WellFormed(img)
  {
    !SideTransparent(img, x, y, s0) &&
    forall s :: s != s0 ==> SideTransparent(img, x, y, s)
  }

  /** The rule as a property rather than a branch chain: an opaque pixel is
      a shadow pixel when it is surrounded on all four sides, or when it has
      exactly one solid side and one of its three transparent sides is
      backed by two solid corners. */
  predicate ShadowRule(img: Image, x: int, y: int)
    requires WellFormed(img) && OnCanvas(img, x, y)
  {
    At(img, x, y).a == OPAQUE &&
    ((forall s :: SideTransparent(img, x, y, s)) ||
     exists s0, s :: OnlySolidSide(img, x, y, s0) && s != s0 && Backed(img, x, y, s))
  }

  /** The count of transparent-like neighbours is 4 exactly when every side
      is transparent-like, and 3 exactly when one side alone is solid. */
  lemma CountMeaning(img: Image, x: int, y: int)
    requires WellFormed(img)
    ensures TransparentNeighbourCount(img, x, y) <= 4
    ensures TransparentNeighbourCount(img, x, y) == 4 <==> forall s :: SideTransparent(img, x, y, s)
    ensures TransparentNeighbourCount(img, x, y) == 3 <==> exists s0 :: OnlySolidSide(img, x, y, s0)
  {
    var t, l, r, b := SideTransparent(img, x, y, Top), SideTransparent(img, x, y, Left),
                      SideTransparent(img, x, y, Right), SideTransparent(img, x, y, Bottom);
    if TransparentNeighbourCount(img, x, y) == 3 {
      var s0 := if !t then Top else if !l then Left else if !r then Right else Bottom;
      assert OnlySolidSide(img, x, y, s0);
    }
    if exists s0 :: OnlySolidSide(img, x, y, s0) {
      var s0 :| OnlySolidSide(img, x, y, s0);
      assert s0 != Top ==> t;
      assert s0 != Left ==> l;
      assert s0 != Right ==> r;
      assert s0 != Bottom ==> b;
    }
    if forall s :: SideTransparent(img, x, y, s) {
      assert t && l && r && b;
    }
  }

  /** With exactly three transparent-like neighbours, the branch chain fires
      exactly when some transparent side is backed by two solid corners. */
  lemma CornerBranches(img: Image, x: int, y: int)
    requires WellFormed(img) && OnCanvas(img, x, y)
    requires At(img, x, y).a == OPAQUE && TransparentNeighbourCount(img, x, y) == 3
    ensures IsShadowPixel(img, x, y) <==>
              (SideTransparent(img, x, y, Top) && Backed(img, x, y, Top)) ||
              (SideTransparent(img, x, y, Left) && Backed(img, x, y, Left)) ||
              (SideTransparent(img, x, y, Right) && Backed(img, x, y, Right)) ||
              (SideTransparent(img, x, y, Bottom) && Backed(img, x, y, Bottom))
  {
    assert Solid(img, x - 1, y - 1) == !CornerTransparent(img, x - 1, y - 1);
    assert Solid(img, x + 1, y - 1) == !CornerTransparent(img, x + 1, y - 1);
    assert Solid(img, x - 1, y + 1) == !CornerTransparent(img, x - 1, y + 1);
    assert Solid(img, x + 1, y + 1) == !CornerTransparent(img, x + 1, y + 1);
  }

  /** The branch chain decides exactly the rule: the order in which the
      sides are tried changes which branch fires, never the answer. */
  lemma ShadowIff(img: Image, x: int, y: int)
    requires WellFormed(img) && OnCanvas(img, x, y)
    ensures IsShadowPixel(img, x, y) <==> ShadowRule(img, x, y)
  {
    CountMeaning(img, x, y);
    if At(img, x, y).a == OPAQUE && TransparentNeighbourCount(img, x, y) == 3 {
      CornerBranches(img, x, y);
      var s0 :| OnlySolidSide(img, x, y, s0);
      if IsShadowPixel(img, x, y) {
        var s :| SideTransparent(img, x, y, s) && Backed(img, x, y, s);
        assert s != s0;
      }
      if ShadowRule(img, x, y) {
        var t0, s :| OnlySolidSide(img, x, y, t0) && s != t0 && Backed(img, x, y, s);
        assert SideTransparent(img, x, y, s);
      }
    }
  }

  /** A pixel whose alpha is not exactly 255 is never a shadow pixel, whatever
      surrounds it. */
  lemma NotOpaqueNeverShadow(img: Image, x: int, y: int)
    requires WellFormed(img) && OnCanvas(img, x, y)
    requires At(img, x, y).a != OPAQUE
    ensures !IsShadowPixel(img, x, y)
  {
  }

  /** An opaque pixel whose four axis neighbours are all transparent-like is a
      shadow pixel, whatever its corners hold; one with two or fewer is not. */
  lemma SurroundRules(img: Image, x: int, y: int)
    requires WellFormed(img) && OnCanvas(img, x, y)
    requires At(img, x, y).a == OPAQUE
    ensures (forall s :: SideTransparent(img, x, y, s)) ==> IsShadowPixel(img, x, y)
    ensures TransparentNeighbourCount(img, x, y) <= 2 ==> !IsShadowPixel(img, x, y)
  {
    CountMeaning(img, x, y);
  }

  /** Every transparent-like coordinate also passes the corner test, but not
      conversely: a half-transparent pixel (alpha 128..254) is a transparent
      corner yet not a transparent-like neighbour. */
  lemma TransparentLikeIsCornerTransparent(img: Image, x: int, y: int)
    requires WellFormed(img)
    ensures IsTransparentLike(img, x, y) ==> CornerTransparent(img, x, y)
    ensures CornerTransparent(img, x, y) && !IsTransparentLike(img, x, y) ==>
              OnCanvas(img, x, y) && ALPHA_LIMIT <= At(img, x, y).a < OPAQUE
  {
  }

  /** An off-canvas corner is never solid, so a pixel in a corner of the
      canvas can never be backed on a transparent side: it is a shadow pixel
      only when all four axis neighbours are transparent-like. */
  lemma CanvasCornerNeedsFullSurround(img: Image, x: int, y: int)
    requires WellFormed(img) && OnCanvas(img, x, y)
    requires x == 0 || x == img.width - 1
    requires y == 0 || y == img.height - 1
    ensures IsShadowPixel(img, x, y) <==>
              At(img, x, y).a == OPAQUE && TransparentNeighbourCount(img, x, y) == 4
  {
    ShadowIff(img, x, y);
    CountMeaning(img, x, y);
    forall s ensures !Backed(img, x, y, s) {
      if x == 0 {
        assert !Solid(img, x - 1, FlankY(s, y, true)) && !Solid(img, x - 1, FlankY(s, y, false));
      } else {
        assert !Solid(img, x + 1, FlankY(s, y, true)) && !Solid(img, x + 1, FlankY(s, y, false));
      }
    }
  }
}
