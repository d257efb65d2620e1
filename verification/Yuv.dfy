// Colour conversion from 32-bit pixels to YUV 4:2:2 samples.

module Yuv {
  import opened Bits
  import opened Raster

  /** Two horizontally adjacent pixels share one chroma sample; bytes in wire order. */
  datatype Pair = Pair(u: byte, y0: byte, v: byte, y1: byte)

  type PairGrid = Grid<Pair>

  /** The source's CHAR_RANGE. */
  function Clamp(a: int): byte {
    if a < 0 then 0 else if a > 255 then 255 else a
  }

  // `>> 10` on a signed int rounds down, as does Dafny's `/` by a positive number.

  function LumaOf(p: Pixel): int {
    (263 * p.r + 516 * p.g + 97 * p.b) / 1024 + 16
  }

  function ChromaU(p: Pixel): int {
    (-152 * p.r - 298 * p.g + 450 * p.b) / 1024 + 128
  }

  function ChromaV(p: Pixel): int {
    (450 * p.r - 377 * p.g - 73 * p.b) / 1024 + 128
  }

  function ConvertPair(p: Pixel, q: Pixel): Pair {
    Pair(Clamp((ChromaU(p) + ChromaU(q)) / 2), Clamp(LumaOf(p)),
         Clamp((ChromaV(p) + ChromaV(q)) / 2), Clamp(LumaOf(q)))
  }

  /** Every sample lies in 15..240, so the clamp never changes one. */
  lemma ClampNeverFires(p: Pixel, q: Pixel)
    ensures 16 <= LumaOf(p) <= 234
    ensures 15 <= (ChromaU(p) + ChromaU(q)) / 2 <= 240
    ensures 15 <= (ChromaV(p) + ChromaV(q)) / 2 <= 240
    ensures ConvertPair(p, q) ==
            Pair((ChromaU(p) + ChromaU(q)) / 2, LumaOf(p), (ChromaV(p) + ChromaV(q)) / 2, LumaOf(q))
  {
  }

  // ITU-R BT.601 for 8-bit studio range: Y is 16 plus 0.257 R + 0.504 G + 0.098 B,
  // U and V are 128 plus the weighted differences below.

  /** The driver's luma is the standard's, rounded down, and less than two steps below it. */
  lemma LumaIsStandard(p: Pixel)
    ensures var e := 1000 * (LumaOf(p) - 16) - (257 * p.r + 504 * p.g + 98 * p.b); -1900 <= e <= 0
  {
  }

  /** So are its chroma values, within an eighth of a step above. */
  lemma ChromaIsStandard(p: Pixel)
    ensures var e := 1000 * (ChromaU(p) - 128) - (-148 * p.r - 291 * p.g + 439 * p.b); -1120 <= e <= 120
    ensures var e := 1000 * (ChromaV(p) - 128) - (439 * p.r - 368 * p.g - 71 * p.b); -1120 <= e <= 120
  {
  }

  /** A pair has the luma of its first and of its second pixel, and the mean chroma of the two. */
  lemma PairIsStandard(p: Pixel, q: Pixel)
    ensures var c := ConvertPair(p, q);
            && -1900 <= 1000 * (c.y0 - 16) - (257 * p.r + 504 * p.g + 98 * p.b) <= 0
            && -1900 <= 1000 * (c.y1 - 16) - (257 * q.r + 504 * q.g + 98 * q.b) <= 0
            && -1620 <= 1000 * (c.u - 128) - (-148 * (p.r + q.r) - 291 * (p.g + q.g) + 439 * (p.b + q.b)) / 2 <= 121
            && -1620 <= 1000 * (c.v - 128) - (439 * (p.r + q.r) - 368 * (p.g + q.g) - 71 * (p.b + q.b)) / 2 <= 121
  {
    ClampNeverFires(p, q);
    LumaIsStandard(p);
    LumaIsStandard(q);
    ChromaIsStandard(p);
    ChromaIsStandard(q);
  }

  /** The rectangle of pairs that covers the same area as a pair-aligned pixel rectangle. */
  function PairRect(rect: Rect): Rect {
    Rect(rect.left / 2, rect.right / 2, rect.top, rect.bottom)
  }

  // The frame-level facts hold for any conversion of pixel pairs.

  type Conversion = (Pixel, Pixel) -> Pair

  ghost predicate IsConverted(f: Conversion, g: PairGrid, img: Image, w: nat, h: nat)
    requires w % 2 == 0 && HasDims(img, w, h)
  {
    HasDims(g, w / 2, h) &&
    forall r, k :: 0 <= r < h && 0 <= k < w / 2 ==> g[r][k] == f(img[r][2 * k], img[r][2 * k + 1])
  }

  lemma ConvertedExists(f: Conversion, img: Image, w: nat, h: nat)
    requires w % 2 == 0 && HasDims(img, w, h)
    ensures exists g :: IsConverted(f, g, img, w, h)
  {
    var g := seq(h, r requires 0 <= r < h =>
      seq(w / 2, k requires 0 <= k < w / 2 => f(img[r][2 * k], img[r][2 * k + 1])));
    assert IsConverted(f, g, img, w, h);
  }

  ghost function Converted(f: Conversion, img: Image, w: nat, h: nat): (g: PairGrid)
    requires w % 2 == 0 && HasDims(img, w, h)
    ensures IsConverted(f, g, img, w, h)
  {
    ConvertedExists(f, img, w, h);
    var g :| IsConverted(f, g, img, w, h);
    g
  }

  /** The whole frame converted, pair by pair. */
  ghost function FullYuv(img: Image, w: nat, h: nat): (g: PairGrid)
    requires w % 2 == 0 && HasDims(img, w, h)
    ensures HasDims(g, w / 2, h)
  {
    Converted(ConvertPair, img, w, h)
  }

  /** A converted pair depends on its two pixels only. */
  lemma PairFromPixels(f: Conversion, a: Image, b: Image, w: nat, h: nat, r: nat, k: nat)
    requires w % 2 == 0 && HasDims(a, w, h) && HasDims(b, w, h) && r < h && k < w / 2
    requires a[r][2 * k] == b[r][2 * k] && a[r][2 * k + 1] == b[r][2 * k + 1]
    ensures Converted(f, a, w, h)[r][k] == Converted(f, b, w, h)[r][k]
  {
  }

  /** Every pair of a converted frame is the standard's for the two pixels it covers. */
  lemma FrameIsStandard(img: Image, w: nat, h: nat, r: nat, k: nat)
    requires w % 2 == 0 && HasDims(img, w, h) && r < h && k < w / 2
    ensures var c, p, q := FullYuv(img, w, h)[r][k], img[r][2 * k], img[r][2 * k + 1];
            && -1900 <= 1000 * (c.y0 - 16) - (257 * p.r + 504 * p.g + 98 * p.b) <= 0
            && -1900 <= 1000 * (c.y1 - 16) - (257 * q.r + 504 * q.g + 98 * q.b) <= 0
            && -1620 <= 1000 * (c.u - 128) - (-148 * (p.r + q.r) - 291 * (p.g + q.g) + 439 * (p.b + q.b)) / 2 <= 121
            && -1620 <= 1000 * (c.v - 128) - (439 * (p.r + q.r) - 368 * (p.g + q.g) - 71 * (p.b + q.b)) / 2 <= 121
  {
    PairIsStandard(img[r][2 * k], img[r][2 * k + 1]);
    assert FullYuv(img, w, h)[r][k] == ConvertPair(img[r][2 * k], img[r][2 * k + 1]);
  }

  /** A luma sample is the standard's, rounded down, of a pixel's channels. */
  predicate IsLuma(y: int, red: int, green: int, blue: int) {
    -1900 <= 1000 * (y - 16) - (257 * red + 504 * green + 98 * blue) <= 0
  }

  ghost predicate KeepsLuma(f: Conversion) {
    forall p, q :: IsLuma(f(p, q).y0, p.r, p.g, p.b) && IsLuma(f(p, q).y1, q.r, q.g, q.b)
  }

  lemma ConvertKeepsLuma()
    ensures KeepsLuma(ConvertPair)
  {
    forall p, q ensures IsLuma(ConvertPair(p, q).y0, p.r, p.g, p.b) && IsLuma(ConvertPair(p, q).y1, q.r, q.g, q.b) {
      PairIsStandard(p, q);
    }
  }

  lemma LumaOfPixel(f: Conversion, img: Image, w: nat, h: nat, r: nat, c: nat)
    requires w % 2 == 0 && HasDims(img, w, h) && r < h && c < w && KeepsLuma(f)
    ensures var pair, p := Converted(f, img, w, h)[r][c / 2], img[r][c];
            IsLuma(if c % 2 == 0 then pair.y0 else pair.y1, p.r, p.g, p.b)
  {
    assert c == if c % 2 == 0 then 2 * (c / 2) else 2 * (c / 2) + 1;
  }
}
