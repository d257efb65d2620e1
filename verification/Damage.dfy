// Damage rectangles: the tight box of a change, and how it is merged and aligned.

module Damage {
  import opened Bits
  import opened Raster

  /** Masks with 0xFFC and 0xFFE: keep 12 bits, clear the low two or the low one. */
  function AndFFC(x: nat): (m: nat)
    ensures m <= x
  {
    x % 0x1000 / 4 * 4
  }

  function AndFFE(x: nat): (m: nat)
    ensures m <= x
  {
    x % 0x1000 / 2 * 2
  }

  /** The rectangle a buffer has when nothing is pending for it. */
  function Cleared(w: nat, h: nat): Rect {
    Rect(w, 0, h, 0)
  }

  function FullRect(w: nat, h: nat): Rect {
    Rect(0, w, 0, h)
  }

  /** One pass of usb_hal_combine_rects: join with `box`, then align and clip. */
  function Grow(r: Rect, box: Rect, w: nat, h: nat): Rect {
    Rect(AndFFC(Min(r.left, box.left)),
         Min(AndFFC(Max(r.right, box.right) + 3), w),
         AndFFE(Min(r.top, box.top)),
         Min(AndFFE(Max(r.bottom, box.bottom) + 1), h))
  }

  ghost predicate Covers(outer: Rect, inner: Rect) {
    outer.left <= inner.left && inner.right <= outer.right &&
    outer.top <= inner.top && inner.bottom <= outer.bottom
  }

  /** The even-edged rectangles inside the frame that the driver keeps. */
  ghost predicate RectOk(r: Rect, w: nat, h: nat) {
    && r.left % 2 == 0 && r.right % 2 == 0
    && r.left <= w && r.right <= w && r.top <= h && r.bottom <= h
    && (!r.Empty() ==> r.top < r.bottom)
  }

  /** The modes the 12-bit masks can handle. */
  ghost predicate ModeOk(w: nat, h: nat) {
    && 0 < w <= 4092 && w % 2 == 0
    && 0 < h <= 4094
  }

  // Facts about the masks, one edge at a time.

  lemma MaskDown(x: nat, y: nat)
    requires x <= y < 0x1000
    ensures AndFFC(x) % 4 == 0 && AndFFE(x) % 2 == 0
    ensures AndFFC(x) <= AndFFC(y) && AndFFE(x) <= AndFFE(y)
  {
  }

  lemma MaskUp(x: nat)
    ensures AndFFC(x + 3) % 4 == 0 && AndFFE(x + 1) % 2 == 0
    ensures AndFFC(x + 3) >= x <==> x <= 4092
    ensures AndFFE(x + 1) >= x <==> x <= 4094
  {
    if x <= 4092 {
      assert (x + 3) % 0x1000 == x + 3;
    }
    if x <= 4094 {
      assert (x + 1) % 0x1000 == x + 1;
    }
  }

  lemma MaskUpMonotone(x: nat, y: nat)
    requires x <= y
    ensures y <= 4092 ==> AndFFC(x + 3) <= AndFFC(y + 3)
    ensures y <= 4094 ==> AndFFE(x + 1) <= AndFFE(y + 1)
  {
  }

  /**
    Merging and aligning never loses damage exactly when the right edge is at
    most 4092 and the bottom edge at most 4094: the masks drop bit 12.
   */
  lemma GrowCoversIff(r: Rect, box: Rect, w: nat, h: nat)
    requires Max(r.right, box.right) <= w && Max(r.bottom, box.bottom) <= h
    ensures Covers(Grow(r, box, w, h), box) && Covers(Grow(r, box, w, h), r)
            <==> Max(r.right, box.right) <= 4092 && Max(r.bottom, box.bottom) <= 4094
  {
    MaskUp(Max(r.right, box.right));
    MaskUp(Max(r.bottom, box.bottom));
  }

  /** Damage in column 4092 of a wider frame is lost. */
  lemma ColumnLost()
    ensures var box := Rect(4092, 4093, 0, 2); !Covers(Grow(box, box, 4096, 4096), box)
  {
  }

  /** In a supported mode the grown rectangle covers both, and keeps even edges inside the frame. */
  lemma GrowOk(r: Rect, box: Rect, w: nat, h: nat)
    requires ModeOk(w, h) && RectOk(r, w, h)
    requires box.left < box.right <= w && box.top < box.bottom <= h
    ensures RectOk(Grow(r, box, w, h), w, h) && !Grow(r, box, w, h).Empty()
    ensures Covers(Grow(r, box, w, h), box) && Covers(Grow(r, box, w, h), r)
  {
    var g := Grow(r, box, w, h);
    assert Covers(g, box) && Covers(g, r) by {
      GrowCoversIff(r, box, w, h);
    }
    assert g.left % 2 == 0 by {
      Even(Min(r.left, box.left), w);
    }
    assert g.right % 2 == 0 by {
      Even(Max(r.right, box.right) + 3, w);
    }
  }

  /** The two rectangles joined: each edge at most 3 columns or one row further out, on a multiple of 4 or 2 or at the end. */
  ghost predicate Joins(g: Rect, r: Rect, box: Rect, w: nat, h: nat) {
    && g.left % 4 == 0 && 0 <= Min(r.left, box.left) - g.left <= 3
    && (g.right % 4 == 0 || g.right == w) && 0 <= g.right - Max(r.right, box.right) <= 3
    && g.top % 2 == 0 && 0 <= Min(r.top, box.top) - g.top <= 1
    && (g.bottom % 2 == 0 || g.bottom == h) && 0 <= g.bottom - Max(r.bottom, box.bottom) <= 1
  }

  /** Nothing more than alignment is added. */
  lemma GrowTight(r: Rect, box: Rect, w: nat, h: nat)
    requires ModeOk(w, h) && r.left <= w && r.right <= w && r.top <= h && r.bottom <= h
    requires box.left < box.right <= w && box.top < box.bottom <= h
    ensures Joins(Grow(r, box, w, h), r, box, w, h)
  {
    MaskUp(Max(r.right, box.right));
    MaskUp(Max(r.bottom, box.bottom));
    MaskTight(Min(r.left, box.left));
    MaskTight(Min(r.top, box.top));
    MaskTight(Max(r.right, box.right) + 3);
    MaskTight(Max(r.bottom, box.bottom) + 1);
  }

  lemma MaskTight(x: nat)
    requires x < 0x1000
    ensures AndFFC(x) % 4 == 0 && x - 3 <= AndFFC(x) <= x
    ensures AndFFE(x) % 2 == 0 && x - 1 <= AndFFE(x) <= x
  {
    assert AndFFC(x) == x / 4 * 4 && AndFFE(x) == x / 2 * 2 by {
      assert x % 0x1000 == x;
    }
  }

  /** With nothing pending before, what is pending afterwards is the damage alone, aligned. */
  lemma ClearedGrowsTight(box: Rect, w: nat, h: nat)
    requires ModeOk(w, h) && box.left < box.right <= w && box.top < box.bottom <= h
    ensures var g := Grow(Cleared(w, h), box, w, h);
            && box.left - 3 <= g.left <= box.left && box.right <= g.right <= box.right + 3
            && box.top - 1 <= g.top <= box.top && box.bottom <= g.bottom <= box.bottom + 1
  {
    GrowTight(Cleared(w, h), box, w, h);
  }

  lemma Even(x: nat, w: nat)
    requires w % 2 == 0
    ensures AndFFC(x) % 2 == 0 && Min(AndFFC(x), w) % 2 == 0
  {
  }

  /** Growing two nested rectangles by the same box keeps them nested. */
  lemma GrowNested(outer: Rect, inner: Rect, box: Rect, w: nat, h: nat)
    requires ModeOk(w, h) && RectOk(outer, w, h) && RectOk(inner, w, h) && Covers(outer, inner)
    requires box.left < box.right <= w && box.top < box.bottom <= h
    ensures Covers(Grow(outer, box, w, h), Grow(inner, box, w, h))
  {
    var g, k := Grow(outer, box, w, h), Grow(inner, box, w, h);
    assert g.left <= k.left by {
      MaskDown(Min(outer.left, box.left), Min(inner.left, box.left));
    }
    assert g.top <= k.top by {
      MaskDown(Min(outer.top, box.top), Min(inner.top, box.top));
    }
    assert k.right <= g.right by {
      MaskUpMonotone(Max(inner.right, box.right), Max(outer.right, box.right));
    }
    assert k.bottom <= g.bottom by {
      MaskUpMonotone(Max(inner.bottom, box.bottom), Max(outer.bottom, box.bottom));
    }
  }

  // ----- The tight box of a change ------------------------------------------

  ghost predicate Differs<T>(a: Grid<T>, b: Grid<T>, w: nat, h: nat, r: int, c: int)
    requires HasDims(a, w, h) && HasDims(b, w, h)
  {
    0 <= r < h && 0 <= c < w && a[r][c] != b[r][c]
  }

  ghost predicate RowDiffers<T>(a: Grid<T>, b: Grid<T>, w: nat, h: nat, r: int)
    requires HasDims(a, w, h) && HasDims(b, w, h)
  {
    exists c :: Differs(a, b, w, h, r, c)
  }

  ghost predicate ColumnDiffers<T>(a: Grid<T>, b: Grid<T>, w: nat, h: nat, c: int)
    requires HasDims(a, w, h) && HasDims(b, w, h)
  {
    exists r :: Differs(a, b, w, h, r, c)
  }

  /** `box` contains every difference and each of its four edges touches one. */
  ghost predicate IsDiffBox<T>(a: Grid<T>, b: Grid<T>, w: nat, h: nat, box: Rect)
    requires HasDims(a, w, h) && HasDims(b, w, h)
  {
    && box.left < box.right <= w && box.top < box.bottom <= h
    && (forall r, c :: Differs(a, b, w, h, r, c) ==> box.Has(r, c))
    && RowDiffers(a, b, w, h, box.top) && RowDiffers(a, b, w, h, box.bottom - 1)
    && ColumnDiffers(a, b, w, h, box.left) && ColumnDiffers(a, b, w, h, box.right - 1)
  }

  lemma DiffBoxUnique<T>(a: Grid<T>, b: Grid<T>, w: nat, h: nat, x: Rect, y: Rect)
    requires HasDims(a, w, h) && HasDims(b, w, h)
    requires IsDiffBox(a, b, w, h, x) && IsDiffBox(a, b, w, h, y)
    ensures x == y
  {
  }

  /** The least and greatest element of a set of numbers that has the element `x`. */
  lemma {:induction false} Extremes(s: set<int>, x: int) returns (lo: int, hi: int)
    requires x in s
    ensures lo in s && hi in s
    ensures forall y :: y in s ==> lo <= y <= hi
    decreases s
  {
    var rest := s - {x};
    lo, hi := x, x;
    if z :| z in rest {
      lo, hi := Extremes(rest, z);
      lo, hi := Min(lo, x), Max(hi, x);
    }
    forall y | y in s
      ensures lo <= y <= hi
    {
      assert y == x || y in rest;
    }
  }

  lemma SomeDifference<T>(a: Grid<T>, b: Grid<T>, w: nat, h: nat) returns (r: int, c: int)
    requires HasDims(a, w, h) && HasDims(b, w, h) && a != b
    ensures Differs(a, b, w, h, r, c)
  {
    if forall r, c :: !Differs(a, b, w, h, r, c) {
      forall r, c | 0 <= r < h && 0 <= c < w
        ensures a[r][c] == b[r][c]
      {
        assert !Differs(a, b, w, h, r, c);
      }
      GridEq(a, b, w, h);
      assert false;
    }
    r, c :| Differs(a, b, w, h, r, c);
  }

  lemma DiffBoxExists<T>(a: Grid<T>, b: Grid<T>, w: nat, h: nat)
    requires HasDims(a, w, h) && HasDims(b, w, h) && a != b
    ensures exists box :: IsDiffBox(a, b, w, h, box)
  {
    var r0, c0 := SomeDifference(a, b, w, h);
    var rows := set r | 0 <= r < h && RowDiffers(a, b, w, h, r);
    var cols := set c | 0 <= c < w && ColumnDiffers(a, b, w, h, c);
    assert r0 in rows && c0 in cols;
    var top, last := Extremes(rows, r0);
    var left, end := Extremes(cols, c0);
    var box := Rect(left, end + 1, top, last + 1);
    forall r, c | Differs(a, b, w, h, r, c)
      ensures box.Has(r, c)
    {
      assert r in rows && c in cols;
    }
    assert IsDiffBox(a, b, w, h, box);
  }

  ghost function DiffBox<T>(a: Grid<T>, b: Grid<T>, w: nat, h: nat): (box: Rect)
    requires HasDims(a, w, h) && HasDims(b, w, h) && a != b
    ensures IsDiffBox(a, b, w, h, box)
  {
    DiffBoxExists(a, b, w, h);
    var box :| IsDiffBox(a, b, w, h, box);
    box
  }
}
