/** The colour-key pre-pass: every pixel whose R, G and B lie within a
    tolerance of a key colour becomes fully transparent (alpha 0). */
module ColorKey {
  import opened Pixels

  datatype Rgb = Rgb(r: int, g: int, b: int)

  /** The key colour's channels, taken from bits 16..23, 8..15 and 0..7 of a
      hex value. Python's `>>` floors and its `& 0xFF` keeps the low eight
      bits of the two's complement form, which for a positive divisor are
      Dafny's `/` and `% 256` on any integer, negative ones included. */
  function Unpack(hex: int): (c: Rgb)
    ensures 0 <= c.r < 256 && 0 <= c.g < 256 && 0 <= c.b < 256
  {
    Rgb((hex / 0x1_0000) % 0x100, (hex / 0x100) % 0x100, hex % 0x100)
  }

  /** The 24-bit hex value of a colour, the inverse of Unpack. */
  function Pack(c: Rgb): int {
    c.r * 0x1_0000 + c.g * 0x100 + c.b
  }

  /** Unpacking the packed form of any 8-bit colour gives the colour back. */
  lemma UnpackPack(c: Rgb)
    requires 0 <= c.r < 256 && 0 <= c.g < 256 && 0 <= c.b < 256
    ensures Unpack(Pack(c)) == c
  {
    var hex := Pack(c);
    assert hex / 0x100 == c.r * 0x100 + c.g;
    assert hex / 0x1_0000 == c.r;
  }

  /** Every 24-bit value is the packed form of its unpacked channels. */
  lemma PackUnpack(hex: int)
    requires 0 <= hex < 0x100_0000
    ensures Pack(Unpack(hex)) == hex
  {
    var c := Unpack(hex);
    assert hex / 0x1_0000 < 0x100;
    assert hex / 0x100 == (hex / 0x1_0000) * 0x100 + c.g;
    assert hex == (hex / 0x100) * 0x100 + c.b;
  }

  /** Adding a multiple of 256 changes neither the low byte nor, beyond the
      added multiple, the quotient by 256. */
  lemma ShiftByteMultiple(a: int, m: int)
    ensures (a + m * 0x100) / 0x100 == a / 0x100 + m
    ensures (a + m * 0x100) % 0x100 == a % 0x100
  {
  }

  /** Bits above the 24th do not change the key colour. */
  lemma UnpackIgnoresHighBits(hex: int, k: int)
    ensures Unpack(hex + k * 0x100_0000) == Unpack(hex)
  {
    var h := hex + k * 0x100_0000;
    ShiftByteMultiple(hex, k * 0x1_0000);
    ShiftByteMultiple(hex / 0x100, k * 0x100);
    ShiftByteMultiple(hex / 0x1_0000, k);
    assert h / 0x1_0000 == (h / 0x100) / 0x100;
    assert hex / 0x1_0000 == (hex / 0x100) / 0x100;
  }

  function Abs(n: int): nat {
    if n < 0 then -n else n
  }

  /** The pixel's colour is the key colour: the exact test used when the
      tolerance is 0. */
  predicate ExactMatch(p: Pixel, key: Rgb) {
    p.r as int == key.r && p.g as int == key.g && p.b as int == key.b
  }

  /** Every channel differs from the key colour by at most `tolerance`. */
  predicate WithinTolerance(p: Pixel, key: Rgb, tolerance: int) {
    Abs(p.r as int - key.r) <= tolerance &&
    Abs(p.g as int - key.g) <= tolerance &&
    Abs(p.b as int - key.b) <= tolerance
  }

  /** The mask of the key pass: exact comparison for tolerance 0, the
      per-channel distance test otherwise. */
  predicate KeyMatches(p: Pixel, hex: int, tolerance: int): (m: bool)
    ensures m ==> WithinTolerance(p, Unpack(hex), tolerance)
  {
    if tolerance == 0 then ExactMatch(p, Unpack(hex))
    else WithinTolerance(p, Unpack(hex), tolerance)
  }

  /** The exact-match branch is the distance test at tolerance 0, so the
      mask is the distance test for every tolerance. */
  lemma KeyMatchesIsDistanceTest(p: Pixel, hex: int, tolerance: int)
    ensures KeyMatches(p, hex, tolerance) <==> WithinTolerance(p, Unpack(hex), tolerance)
  {
    if tolerance == 0 {
      var key := Unpack(hex);
      assert Abs(p.r as int - key.r) <= 0 <==> p.r as int == key.r;
      assert Abs(p.g as int - key.g) <= 0 <==> p.g as int == key.g;
      assert Abs(p.b as int - key.b) <= 0 <==> p.b as int == key.b;
    }
  }

  /** A negative tolerance matches no pixel at all. */
  lemma NegativeToleranceMatchesNothing(p: Pixel, hex: int, tolerance: int)
    requires tolerance < 0
    ensures !KeyMatches(p, hex, tolerance)
  {
  }

  /** Raising the tolerance only ever adds pixels to the mask. */
  lemma KeyMatchesMonotone(p: Pixel, hex: int, t1: int, t2: int)
    requires t1 <= t2
    requires KeyMatches(p, hex, t1)
    ensures KeyMatches(p, hex, t2)
  {
    KeyMatchesIsDistanceTest(p, hex, t1);
    KeyMatchesIsDistanceTest(p, hex, t2);
  }

  /** One pixel after the masked assignment: alpha 0 where the mask holds. */
  function KeyPixel(p: Pixel, hex: int, tolerance: int): (q: Pixel)
    ensures q.r == p.r && q.g == p.g && q.b == p.b
    ensures q.a == 0 || q == p
  {
    if KeyMatches(p, hex, tolerance) then p.(a := 0) else p
  }

  /** The whole buffer after the key pass. */
  function KeyPass(img: Image, hex: int, tolerance: int): (r: Image)
    requires WellFormed(img)
    ensures WellFormed(r) && r.width == img.width && r.height == img.height
    ensures forall x, y :: OnCanvas(img, x, y) ==> At(r, x, y) == KeyPixel(At(img, x, y), hex, tolerance)
  {
    img.(rows := seq(img.height, (y: int) requires 0 <= y < img.height =>
           seq(img.width, (x: int) requires 0 <= x < img.width =>
             KeyPixel(img.rows[y][x], hex, tolerance))))
  }

  /** What the key pass promises, pixel by pixel: R, G and B are kept, and the
      alpha becomes 0 exactly where every channel lies within the tolerance
      of the key colour; elsewhere the alpha is kept. */
  lemma KeyPassEffect(img: Image, hex: int, tolerance: int, x: int, y: int)
    requires WellFormed(img) && OnCanvas(img, x, y)
    ensures var p, q := At(img, x, y), At(KeyPass(img, hex, tolerance), x, y);
      q.r == p.r && q.g == p.g && q.b == p.b &&
      (WithinTolerance(p, Unpack(hex), tolerance) ==> q.a == 0) &&
      (!WithinTolerance(p, Unpack(hex), tolerance) ==> q.a == p.a)
  {
    KeyMatchesIsDistanceTest(At(img, x, y), hex, tolerance);
  }

  /** Running the key pass a second time changes nothing. */
  lemma {:induction false} KeyPassIdempotent(img: Image, hex: int, tolerance: int)
    requires WellFormed(img)
    ensures KeyPass(KeyPass(img, hex, tolerance), hex, tolerance) == KeyPass(img, hex, tolerance)
  {
    var once := KeyPass(img, hex, tolerance);
    var twice := KeyPass(once, hex, tolerance);
    forall x, y | OnCanvas(once, x, y)
      ensures At(twice, x, y) == At(once, x, y)
    {
    }
    Extensionality(twice, once);
  }
}
