// The cursor bitmap and how it is blended over the desktop.

module Cursor {
  import opened Raster

  const CURSOR_SIZE := 64

  /** The cursor as set by the compositor; hidden when `shown` is false. */
  datatype Pointer = Pointer(shown: bool, bitmap: Image, x: int, y: int) {
    ghost predicate Valid() {
      HasDims(bitmap, CURSOR_SIZE, CURSOR_SIZE)
    }
  }

  /** Visible pixels are those with at least a quarter of full alpha. */
  predicate Visible(m: Pixel) {
    m.a >= 64
  }

  /** One cursor pixel over one desktop pixel; shifts of bytes, and the alpha byte stays. */
  function Blend(m: Pixel, p: Pixel): Pixel {
    if m.a >= 192 then
      Pixel(m.b, m.g, m.r, p.a)
    else if m.a >= 128 then
      Pixel(m.b / 4 + p.b / 4 + p.b / 2, m.g / 4 + p.g / 4 + p.g / 2, m.r / 4 + p.r / 4 + p.r / 2, p.a)
    else if m.a >= 64 then
      Pixel(m.b / 4 + m.b / 2 + p.b / 4, m.g / 4 + m.g / 2 + p.g / 4, m.r / 4 + m.r / 2 + p.r / 4, p.a)
    else
      p
  }

  /** One channel: `share` quarters of the cursor's and the rest of the desktop's, at most two steps too dark. */
  predicate Mixed(out: int, cursor: int, desktop: int, share: nat) {
    -8 <= 4 * out - (share * cursor + (4 - share) * desktop) <= 0
  }

  predicate PixelMixed(out: Pixel, m: Pixel, p: Pixel, share: nat) {
    && Mixed(out.b, m.b, p.b, share) && Mixed(out.g, m.g, p.g, share) && Mixed(out.r, m.r, p.r, share)
    && out.a == p.a
  }

  /** Each quarter of the alpha range has its own share of the cursor; at the ends it is exact. */
  lemma BlendShares(m: Pixel, p: Pixel)
    ensures m.a < 64 ==> Blend(m, p) == p
    ensures 64 <= m.a < 128 ==> PixelMixed(Blend(m, p), m, p, 3)
    ensures 128 <= m.a < 192 ==> PixelMixed(Blend(m, p), m, p, 1)
    ensures 192 <= m.a ==> Blend(m, p) == Pixel(m.b, m.g, m.r, p.a)
  {
  }

  /** A cursor pixel is visible exactly when there is a desktop pixel it would change. */
  lemma VisibleIff(m: Pixel)
    ensures Visible(m) <==> exists p :: Blend(m, p) != p
  {
    if Visible(m) {
      var p := Pixel(if m.b < 128 then 255 else 0, 0, 0, 0);
      assert Blend(m, p) != p;
    } else {
      forall p ensures Blend(m, p) == p {
        BlendShares(m, p);
      }
    }
  }

  /** The desktop pixel at (r, c) with the whole bitmap blended over it at (x, y). */
  ghost function BlendedAt(frame: Image, p: Pointer, r: int, c: int): Pixel
    requires p.Valid() && 0 <= r < |frame| && 0 <= c < |frame[r]|
  {
    if 0 <= r - p.y < CURSOR_SIZE && 0 <= c - p.x < CURSOR_SIZE
    then Blend(p.bitmap[r - p.y][c - p.x], frame[r][c])
    else frame[r][c]
  }

  ghost predicate IsOverlay(g: Image, frame: Image, p: Pointer, w: nat, h: nat)
    requires HasDims(frame, w, h) && p.Valid()
  {
    HasDims(g, w, h) &&
    forall r, c {:trigger BlendedAt(frame, p, r, c)} :: 0 <= r < h && 0 <= c < w ==>
      g[r][c] == BlendedAt(frame, p, r, c)
  }

  lemma OverlayExists(frame: Image, p: Pointer, w: nat, h: nat)
    requires HasDims(frame, w, h) && p.Valid()
    ensures exists g :: IsOverlay(g, frame, p, w, h)
  {
    var g := seq(h, r requires 0 <= r < h =>
      seq(w, c requires 0 <= c < w => BlendedAt(frame, p, r, c)));
    assert IsOverlay(g, frame, p, w, h);
  }

  /** The frame with the whole 64 by 64 bitmap blended over it, clipped to the screen. */
  ghost function Overlay(frame: Image, p: Pointer, w: nat, h: nat): (g: Image)
    requires HasDims(frame, w, h) && p.Valid()
    ensures IsOverlay(g, frame, p, w, h)
  {
    OverlayExists(frame, p, w, h);
    var g :| IsOverlay(g, frame, p, w, h);
    g
  }

  /** What the screen should show: the frame with the pointer, if shown, over it. */
  ghost function Composite(frame: Image, p: Pointer, w: nat, h: nat): (g: Image)
    requires HasDims(frame, w, h) && p.Valid()
    ensures HasDims(g, w, h)
  {
    if p.shown then Overlay(frame, p, w, h) else frame
  }

  /** A shown cursor changes the 64 by 64 pixels from (x, y) on, as far as they are on the screen, and nothing else. */
  lemma CompositePixel(frame: Image, p: Pointer, w: nat, h: nat, r: nat, c: nat)
    requires HasDims(frame, w, h) && p.Valid() && r < h && c < w
    ensures Composite(frame, p, w, h)[r][c] ==
            if p.shown && p.y <= r < p.y + 64 && p.x <= c < p.x + 64
            then Blend(p.bitmap[r - p.y][c - p.x], frame[r][c]) else frame[r][c]
  {
    if p.shown {
      assert Overlay(frame, p, w, h)[r][c] == BlendedAt(frame, p, r, c);
    }
  }

  // ----- Cropping -----------------------------------------------------------

  /** `box` contains every visible pixel of the bitmap. */
  ghost predicate BoxHolds(bitmap: Image, box: Rect) {
    HasDims(bitmap, CURSOR_SIZE, CURSOR_SIZE) &&
    forall r, c :: 0 <= r < CURSOR_SIZE && 0 <= c < CURSOR_SIZE && Visible(bitmap[r][c]) ==> box.Has(r, c)
  }

  /** The screen pixel (r, c) lies under the box of the pointer's bitmap. */
  ghost predicate Under(box: Rect, p: Pointer, r: int, c: int) {
    box.Has(r - p.y, c - p.x)
  }

  /** `region` is `box` moved to the pointer's place and clipped to the screen, and not empty. */
  ghost predicate IsClip(region: Rect, box: Rect, p: Pointer, w: nat, h: nat) {
    && region.left < region.right <= w && region.top < region.bottom <= h
    && forall r, c :: 0 <= r < h && 0 <= c < w ==> (region.Has(r, c) <==> Under(box, p, r, c))
  }

  lemma InvisibleKeeps(m: Pixel, p: Pixel)
    requires !Visible(m)
    ensures Blend(m, p) == p
  {
  }

  /** Outside the box nothing is blended. */
  lemma OutsideBoxKeeps(frame: Image, p: Pointer, box: Rect, r: int, c: int)
    requires p.Valid() && BoxHolds(p.bitmap, box) && 0 <= r < |frame| && 0 <= c < |frame[r]|
    requires !Under(box, p, r, c)
    ensures BlendedAt(frame, p, r, c) == frame[r][c]
  {
    if 0 <= r - p.y < CURSOR_SIZE && 0 <= c - p.x < CURSOR_SIZE {
      InvisibleKeeps(p.bitmap[r - p.y][c - p.x], frame[r][c]);
    }
  }

  /** Blending only the clipped box gives the same desktop as blending the whole bitmap. */
  lemma CroppingIsLossless(frame: Image, p: Pointer, box: Rect, region: Rect, w: nat, h: nat)
    requires HasDims(frame, w, h) && p.Valid() && BoxHolds(p.bitmap, box) && IsClip(region, box, p, w, h)
    ensures Patch(frame, Overlay(frame, p, w, h), region, w, h) == Overlay(frame, p, w, h)
  {
    var all := Overlay(frame, p, w, h);
    forall r, c | 0 <= r < h && 0 <= c < w
      ensures Patch(frame, all, region, w, h)[r][c] == all[r][c]
    {
      if !region.Has(r, c) {
        OutsideBoxKeeps(frame, p, box, r, c);
        assert all[r][c] == BlendedAt(frame, p, r, c);
      }
    }
    GridEq(Patch(frame, all, region, w, h), all, w, h);
  }

  /** A box that misses the screen leaves the frame as it is. */
  lemma OffScreenKeeps(frame: Image, p: Pointer, box: Rect, w: nat, h: nat)
    requires HasDims(frame, w, h) && p.Valid() && BoxHolds(p.bitmap, box)
    requires forall r, c :: 0 <= r < h && 0 <= c < w ==> !Under(box, p, r, c)
    ensures Overlay(frame, p, w, h) == frame
  {
    var all := Overlay(frame, p, w, h);
    forall r, c | 0 <= r < h && 0 <= c < w
      ensures all[r][c] == frame[r][c]
    {
      OutsideBoxKeeps(frame, p, box, r, c);
      assert all[r][c] == BlendedAt(frame, p, r, c);
    }
    GridEq(all, frame, w, h);
  }

  // ----- The saved region ---------------------------------------------------

  /** The saved pixel for (r, c): the save area holds the region's rows back to back. */
  ghost function SavedAt(saved: seq<Pixel>, region: Rect, r: int, c: int): Pixel
    requires region.Has(r, c) && RowStart(region.right - region.left, region.bottom - region.top) <= |saved|
  {
    RowFits(region.right - region.left, region.bottom - region.top, r - region.top);
    saved[RowStart(region.right - region.left, r - region.top) + (c - region.left)]
  }

  ghost predicate RegionFits(saved: seq<Pixel>, region: Rect, w: nat, h: nat) {
    && region.left < region.right <= w && region.top < region.bottom <= h
    && RowStart(region.right - region.left, region.bottom - region.top) <= |saved|
  }

  ghost predicate IsRestored(g: Image, img: Image, saved: seq<Pixel>, region: Rect, w: nat, h: nat)
    requires HasDims(img, w, h) && RegionFits(saved, region, w, h)
  {
    HasDims(g, w, h) &&
    forall r, c :: 0 <= r < h && 0 <= c < w ==>
      g[r][c] == if region.Has(r, c) then SavedAt(saved, region, r, c) else img[r][c]
  }

  lemma RestoredExists(img: Image, saved: seq<Pixel>, region: Rect, w: nat, h: nat)
    requires HasDims(img, w, h) && RegionFits(saved, region, w, h)
    ensures exists g :: IsRestored(g, img, saved, region, w, h)
  {
    var g := seq(h, r requires 0 <= r < h =>
      seq(w, c requires 0 <= c < w => if region.Has(r, c) then SavedAt(saved, region, r, c) else img[r][c]));
    assert IsRestored(g, img, saved, region, w, h);
  }

  /** The image with the saved pixels put back. */
  ghost function Restored(img: Image, saved: seq<Pixel>, region: Rect, w: nat, h: nat): (g: Image)
    requires HasDims(img, w, h) && RegionFits(saved, region, w, h)
    ensures IsRestored(g, img, saved, region, w, h)
  {
    RestoredExists(img, saved, region, w, h);
    var g :| IsRestored(g, img, saved, region, w, h);
    g
  }

  ghost predicate Saves(saved: seq<Pixel>, base: Image, region: Rect, w: nat, h: nat)
    requires HasDims(base, w, h)
  {
    RegionFits(saved, region, w, h) &&
    forall r, c :: region.Has(r, c) ==> SavedAt(saved, region, r, c) == base[r][c]
  }

  /** Putting the saved pixels back undoes any drawing inside the region. */
  lemma RestoreUndoes(base: Image, drawn: Image, saved: seq<Pixel>, region: Rect, w: nat, h: nat)
    requires HasDims(base, w, h) && HasDims(drawn, w, h) && Saves(saved, base, region, w, h)
    ensures Restored(Patch(base, drawn, region, w, h), saved, region, w, h) == base
  {
    GridEq(Restored(Patch(base, drawn, region, w, h), saved, region, w, h), base, w, h);
  }
}
