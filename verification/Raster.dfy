// Images, rectangles and the flat row-major buffers that hold images.

module Raster {
  import opened Bits

  /** One 32-bit pixel, in memory order. */
  datatype Pixel = Pixel(b: byte, g: byte, r: byte, a: byte)

  /** Rows of samples. */
  type Grid<T> = seq<seq<T>>
  type Image = Grid<Pixel>

  /** A half-open rectangle; empty when `left >= right`. */
  datatype Rect = Rect(left: nat, right: nat, top: nat, bottom: nat) {
    predicate Empty() {
      left >= right
    }

    predicate Has(r: int, c: int) {
      top <= r < bottom && left <= c < right
    }
  }

  ghost predicate HasDims<T>(g: Grid<T>, w: nat, h: nat) {
    |g| == h && forall r :: 0 <= r < h ==> |g[r]| == w
  }

  /** Two grids of the same size are equal when all their samples are. */
  lemma GridEq<T>(a: Grid<T>, b: Grid<T>, w: nat, h: nat)
    requires HasDims(a, w, h) && HasDims(b, w, h)
    requires forall r, c :: 0 <= r < h && 0 <= c < w ==> a[r][c] == b[r][c]
    ensures a == b
  {
    forall r | 0 <= r < h
      ensures a[r] == b[r]
    {
      assert |a[r]| == |b[r]| == w;
    }
  }

  /** `dst` with the samples inside `rect` taken from `src`. */
  ghost function Patch<T>(dst: Grid<T>, src: Grid<T>, rect: Rect, w: nat, h: nat): (g: Grid<T>)
    requires HasDims(dst, w, h) && HasDims(src, w, h)
    ensures HasDims(g, w, h)
    ensures forall r, c :: 0 <= r < h && 0 <= c < w ==>
              g[r][c] == if rect.Has(r, c) then src[r][c] else dst[r][c]
  {
    seq(h, r requires 0 <= r < h =>
      seq(w, c requires 0 <= c < w => if rect.Has(r, c) then src[r][c] else dst[r][c]))
  }

  // ----- Flat buffers -------------------------------------------------------

  /** Index of the first sample of row `r` in a buffer of rows of `w` samples. */
  function RowStart(w: nat, r: nat): nat {
    if r == 0 then 0 else RowStart(w, r - 1) + w
  }

  /** It is the product that the source's row pointers are computed from. */
  lemma {:induction false} RowStartIsProduct(w: nat, r: nat)
    ensures RowStart(w, r) == r * w
  {
    if r > 0 {
      RowStartIsProduct(w, r - 1);
      assert r * w == (r - 1) * w + w;
    }
  }

  lemma {:induction false} RowStartAdd(w: nat, r: nat, k: nat)
    ensures RowStart(w, r + k) == RowStart(w, r) + RowStart(w, k)
  {
    if k > 0 {
      RowStartAdd(w, r, k - 1);
    }
  }

  lemma RowStartMonotone(w: nat, r: nat, s: nat)
    requires r <= s
    ensures RowStart(w, r) <= RowStart(w, s)
  {
    RowStartAdd(w, r, s - r);
  }

  lemma {:induction false} RowStartWider(v: nat, w: nat, r: nat)
    requires v <= w
    ensures RowStart(v, r) <= RowStart(w, r)
  {
    if r > 0 {
      RowStartWider(v, w, r - 1);
    }
  }

  lemma {:induction false} RowStartOne(r: nat)
    ensures RowStart(1, r) == r
  {
    if r > 0 {
      RowStartOne(r - 1);
    }
  }

  lemma RowFits(w: nat, h: nat, r: nat)
    requires r < h
    ensures RowStart(w, r) + w <= RowStart(w, h)
  {
    RowStartMonotone(w, r + 1, h);
  }

  /** Row `r` shares no index with the other rows of an `h`-row buffer, and fits it. */
  lemma RowsApart(w: nat, h: nat, r: nat)
    requires r < h
    ensures forall s :: 0 <= s < r ==> RowStart(w, s) + w <= RowStart(w, r)
    ensures forall s :: r < s < h ==> RowStart(w, r) + w <= RowStart(w, s)
    ensures RowStart(w, r) + w <= RowStart(w, h)
  {
    forall s | 0 <= s < r
      ensures RowStart(w, s) + w <= RowStart(w, r)
    {
      RowStartMonotone(w, s + 1, r);
    }
    forall s | r < s < h
      ensures RowStart(w, r) + w <= RowStart(w, s)
    {
      RowStartMonotone(w, r + 1, s);
    }
    RowStartMonotone(w, r + 1, h);
  }

  lemma RowsFit(w: nat, h: nat)
    ensures forall r :: 0 <= r < h ==> RowStart(w, r) + w <= RowStart(w, h)
  {
    forall r | 0 <= r < h
      ensures RowStart(w, r) + w <= RowStart(w, h)
    {
      RowsApart(w, h, r);
    }
  }

  ghost predicate IsRows<T>(g: Grid<T>, s: seq<T>, w: nat, h: nat) {
    HasDims(g, w, h) &&
    forall r, c :: 0 <= r < h && 0 <= c < w ==>
      0 <= RowStart(w, r) + c < |s| && g[r][c] == s[RowStart(w, r) + c]
  }

  lemma RowsExist<T>(s: seq<T>, w: nat, h: nat)
    requires RowStart(w, h) <= |s|
    ensures exists g :: IsRows(g, s, w, h)
  {
    RowsFit(w, h);
    var g := seq(h, r requires 0 <= r < h =>
      seq(w, c requires 0 <= c < w => s[RowStart(w, r) + c]));
    assert IsRows(g, s, w, h);
  }

  /** The image held by the first `h` rows of a flat buffer. */
  ghost function Rows<T>(s: seq<T>, w: nat, h: nat): (g: Grid<T>)
    requires RowStart(w, h) <= |s|
    ensures IsRows(g, s, w, h)
  {
    RowsExist(s, w, h);
    var g :| IsRows(g, s, w, h);
    g
  }

  lemma PixelAt<T>(s: seq<T>, w: nat, h: nat, r: nat, c: nat, j: int)
    requires RowStart(w, h) <= |s| && r < h && c < w && j == RowStart(w, r) + c
    ensures 0 <= j < RowStart(w, h) && Rows(s, w, h)[r][c] == s[j]
  {
    RowFits(w, h, r);
  }

  /** memcpy of `n` samples between two different buffers. */
  method CopySamples<T>(dst: array<T>, di: nat, src: array<T>, si: nat, n: nat)
    requires dst != src
    requires di + n <= dst.Length && si + n <= src.Length
    modifies dst
    ensures forall i :: di <= i < di + n ==> dst[i] == src[si + (i - di)]
    ensures forall i :: 0 <= i < di || di + n <= i < dst.Length ==> dst[i] == old(dst[i])
  {
    for i := 0 to n
      invariant forall j :: di <= j < di + i ==> dst[j] == src[si + (j - di)]
      invariant forall j :: 0 <= j < di || di + i <= j < dst.Length ==> dst[j] == old(dst[j])
    {
      dst[di + i] := src[si + i];
    }
  }
}
