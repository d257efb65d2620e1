// Drawing the save-under cursor into the desktop buffer, and boxing its bitmap.

module CursorPaint {
  import opened Bits
  import opened Raster
  import opened Cursor

  // ----- Putting the saved region back --------------------------------------

  /** `e` differs from `d` by a run of `n` samples of `s` copied from `si` to `di`. */
  ghost predicate Copied(d: seq<Pixel>, e: seq<Pixel>, di: nat, s: seq<Pixel>, si: nat, n: nat) {
    && |d| == |e| && di + n <= |e| && si + n <= |s|
    && (forall i :: di <= i < di + n ==> e[i] == s[si + (i - di)])
    && (forall i :: 0 <= i < di || di + n <= i < |e| ==> e[i] == d[i])
  }

  /** The first rows of the region are restored. */
  ghost predicate RestoredTo(g: Image, was: Image, saved: seq<Pixel>, region: Rect, w: nat, h: nat, row: int)
    requires HasDims(was, w, h) && RegionFits(saved, region, w, h)
  {
    HasDims(g, w, h) &&
    forall r, c :: 0 <= r < h && 0 <= c < w ==>
      g[r][c] == if region.Has(r, c) && r < row then SavedAt(saved, region, r, c) else was[r][c]
  }

  lemma RestoreStep(d: seq<Pixel>, e: seq<Pixel>, was: Image, saved: seq<Pixel>, region: Rect,
                    w: nat, h: nat, row: nat, p: nat, q: nat)
    requires RowStart(w, h) <= |d| && HasDims(was, w, h) && RegionFits(saved, region, w, h)
    requires region.top <= row < region.bottom
    requires p == RowStart(w, row) + region.left && q == RowStart(region.right - region.left, row - region.top)
    requires Copied(d, e, p, saved, q, region.right - region.left)
    requires RestoredTo(Rows(d, w, h), was, saved, region, w, h, row)
    ensures RestoredTo(Rows(e, w, h), was, saved, region, w, h, row + 1)
  {
    RowsApart(w, h, row);
  }

  /** Copies the saved rows back over the desktop. */
  method RestoreRegion(desktop: array<Pixel>, saved: array<Pixel>, w: nat, h: nat, region: Rect)
    requires desktop != saved && RowStart(w, h) <= desktop.Length && RegionFits(saved[..], region, w, h)
    modifies desktop
    ensures Rows(desktop[..], w, h) == Restored(old(Rows(desktop[..], w, h)), saved[..], region, w, h)
  {
    ghost var was := Rows(desktop[..], w, h);
    var n := region.right - region.left;
    RowStartIsProduct(w, region.top);
    var pimage := region.top * w + region.left;
    var pold := 0;
    var row := region.top;
    while row < region.bottom
      invariant region.top <= row <= region.bottom
      invariant pimage == RowStart(w, row) + region.left && pold == RowStart(n, row - region.top)
      invariant RestoredTo(Rows(desktop[..], w, h), was, saved[..], region, w, h, row)
    {
      RestoreLine(desktop, saved, w, h, row, region, pimage, pold, was);
      pimage := pimage + w;
      pold := pold + n;
      row := row + 1;
    }
    GridEq(Rows(desktop[..], w, h), Restored(was, saved[..], region, w, h), w, h);
  }

  method RestoreLine(desktop: array<Pixel>, saved: array<Pixel>, w: nat, h: nat, row: nat, region: Rect,
                     pimage: nat, pold: nat, ghost was: Image)
    requires desktop != saved && RowStart(w, h) <= desktop.Length && RegionFits(saved[..], region, w, h)
    requires HasDims(was, w, h) && region.top <= row < region.bottom
    requires pimage == RowStart(w, row) + region.left
    requires pold == RowStart(region.right - region.left, row - region.top)
    requires RestoredTo(Rows(desktop[..], w, h), was, saved[..], region, w, h, row)
    modifies desktop
    ensures RestoredTo(Rows(desktop[..], w, h), was, saved[..], region, w, h, row + 1)
  {
    ghost var d := desktop[..];
    var n := region.right - region.left;
    RowFits(w, h, row);
    RowFits(n, region.bottom - region.top, row - region.top);
    CopySamples(desktop, pimage, saved, pold, n);
    RestoreStep(d, desktop[..], was, saved[..], region, w, h, row, pimage, pold);
  }

  // ----- Saving and blending ------------------------------------------------

  /** `Blend`, by index: the run of `n` cursor pixels from `mi` on meets the run from `di` on. */
  ghost function BlendRun(d: seq<Pixel>, di: nat, bits: seq<Pixel>, mi: nat, k: nat): Pixel
    requires di + k < |d| && mi + k < |bits|
  {
    Blend(bits[mi + k], d[di + k])
  }

  ghost predicate BlendedRun(d: seq<Pixel>, e: seq<Pixel>, di: nat, bits: seq<Pixel>, mi: nat, n: nat) {
    && |d| == |e| && di + n <= |e| && mi + n <= |bits|
    && (forall k {:trigger BlendRun(d, di, bits, mi, k)} :: 0 <= k < n ==> e[di + k] == BlendRun(d, di, bits, mi, k))
    && (forall i :: 0 <= i < di || di + n <= i < |e| ==> e[i] == d[i])
  }

  /** Blends one row of cursor pixels over the desktop, in place. */
  method BlendRow(desktop: array<Pixel>, di: nat, bits: array<Pixel>, mi: nat, n: nat)
    requires desktop != bits && di + n <= desktop.Length && mi + n <= bits.Length
    modifies desktop
    ensures BlendedRun(old(desktop[..]), desktop[..], di, bits[..], mi, n)
  {
    ghost var d := desktop[..];
    for col := 0 to n
      invariant forall k {:trigger BlendRun(d, di, bits[..], mi, k)} :: 0 <= k < col ==>
                  desktop[di + k] == BlendRun(d, di, bits[..], mi, k)
      invariant forall i :: 0 <= i < di || di + col <= i < desktop.Length ==> desktop[i] == d[i]
    {
      assert desktop[di + col] == d[di + col];
      assert Blend(bits[mi + col], desktop[di + col]) == BlendRun(d, di, bits[..], mi, col);
      desktop[di + col] := Blend(bits[mi + col], desktop[di + col]);
    }
  }

  /** The first rows of the region are drawn. */
  ghost predicate DrawnTo(g: Image, base: Image, all: Image, region: Rect, w: nat, h: nat, row: int)
    requires HasDims(base, w, h) && HasDims(all, w, h)
  {
    HasDims(g, w, h) &&
    forall r, c :: 0 <= r < h && 0 <= c < w ==>
      g[r][c] == if region.Has(r, c) && r < row then all[r][c] else base[r][c]
  }

  /** The first rows of the region are saved. */
  ghost predicate SavedTo(saved: seq<Pixel>, base: Image, region: Rect, w: nat, h: nat, row: int)
    requires HasDims(base, w, h)
  {
    RegionFits(saved, region, w, h) &&
    forall r, c :: region.Has(r, c) && r < row ==> SavedAt(saved, region, r, c) == base[r][c]
  }

  /** A row saved before keeps its place. */
  lemma SavedStays(s: seq<Pixel>, t: seq<Pixel>, d: seq<Pixel>, region: Rect, r: nat, c: nat, row: nat, q: nat, p: nat)
    requires region.Has(r, c) && r < row < region.bottom
    requires RowStart(region.right - region.left, region.bottom - region.top) <= |s|
    requires q == RowStart(region.right - region.left, row - region.top)
    requires Copied(s, t, q, d, p, region.right - region.left)
    ensures SavedAt(t, region, r, c) == SavedAt(s, region, r, c)
  {
    RowFits(region.right - region.left, region.bottom - region.top, r - region.top);
    RowStartMonotone(region.right - region.left, r - region.top + 1, row - region.top);
  }

  lemma SaveStep(s: seq<Pixel>, t: seq<Pixel>, d: seq<Pixel>, base: Image, all: Image, region: Rect,
                 w: nat, h: nat, row: nat, p: nat, q: nat)
    requires RowStart(w, h) <= |d| && HasDims(base, w, h) && HasDims(all, w, h)
    requires region.top <= row < region.bottom
    requires SavedTo(s, base, region, w, h, row) && DrawnTo(Rows(d, w, h), base, all, region, w, h, row)
    requires p == RowStart(w, row) + region.left && q == RowStart(region.right - region.left, row - region.top)
    requires Copied(s, t, q, d, p, region.right - region.left)
    ensures SavedTo(t, base, region, w, h, row + 1)
  {
    var n, m := region.right - region.left, region.bottom - region.top;
    forall r, c | region.Has(r, c) && r < row + 1
      ensures SavedAt(t, region, r, c) == base[r][c]
    {
      if r == row {
        RowFits(n, m, row - region.top);
        PixelAt(d, w, h, r, c, p + (c - region.left));
        assert Rows(d, w, h)[r][c] == base[r][c];
      } else {
        SavedStays(s, t, d, region, r, c, row, q, p);
      }
    }
  }

  /** One drawn pixel of the row is the pixel of the overlay. */
  lemma BlendsToOverlay(d: seq<Pixel>, base: Image, p: Pointer, bits: seq<Pixel>, w: nat, h: nat,
                        row: nat, c: nat, di: nat, mi: nat, k: nat)
    requires RowStart(w, h) <= |d| && HasDims(base, w, h) && p.Valid() && row < h && c < w
    requires RowStart(CURSOR_SIZE, CURSOR_SIZE) <= |bits| && p.bitmap == Rows(bits, CURSOR_SIZE, CURSOR_SIZE)
    requires 0 <= row - p.y < CURSOR_SIZE && 0 <= c - p.x < CURSOR_SIZE
    requires di + k == RowStart(w, row) + c && mi + k == RowStart(CURSOR_SIZE, row - p.y) + (c - p.x)
    requires Rows(d, w, h)[row][c] == base[row][c]
    ensures di + k < |d| && mi + k < |bits|
    ensures BlendRun(d, di, bits, mi, k) == Overlay(base, p, w, h)[row][c]
  {
    PixelAt(d, w, h, row, c, di + k);
    PixelAt(bits, CURSOR_SIZE, CURSOR_SIZE, row - p.y, c - p.x, mi + k);
    assert Overlay(base, p, w, h)[row][c] == BlendedAt(base, p, row, c);
  }

  lemma DrawStep(d: seq<Pixel>, e: seq<Pixel>, base: Image, p: Pointer, bits: seq<Pixel>, region: Rect,
                 w: nat, h: nat, row: nat, di: nat, mi: nat)
    requires RowStart(w, h) <= |d| && HasDims(base, w, h) && p.Valid()
    requires RowStart(CURSOR_SIZE, CURSOR_SIZE) <= |bits| && p.bitmap == Rows(bits, CURSOR_SIZE, CURSOR_SIZE)
    requires region.left < region.right <= w && region.top <= row < region.bottom <= h
    requires 0 <= row - p.y < CURSOR_SIZE && 0 <= region.left - p.x && region.right - p.x <= CURSOR_SIZE
    requires di == RowStart(w, row) + region.left && mi == RowStart(CURSOR_SIZE, row - p.y) + (region.left - p.x)
    requires BlendedRun(d, e, di, bits, mi, region.right - region.left)
    requires DrawnTo(Rows(d, w, h), base, Overlay(base, p, w, h), region, w, h, row)
    ensures DrawnTo(Rows(e, w, h), base, Overlay(base, p, w, h), region, w, h, row + 1)
  {
    var all := Overlay(base, p, w, h);
    RowsApart(w, h, row);
    forall r, c | 0 <= r < h && 0 <= c < w
      ensures Rows(e, w, h)[r][c] == if region.Has(r, c) && r < row + 1 then all[r][c] else base[r][c]
    {
      assert Rows(d, w, h)[r][c] == if region.Has(r, c) && r < row then all[r][c] else base[r][c];
      if r == row && region.Has(r, c) {
        BlendsToOverlay(d, base, p, bits, w, h, row, c, di, mi, c - region.left);
      }
    }
  }

  /** The three running offsets of row `row`: in the desktop, in the save area and in the bitmap at (x, y). */
  ghost predicate AtRow(region: Rect, w: nat, x: int, y: int, row: nat, pimage: int, pold: int, pmouse: int) {
    && region.left < region.right && region.top <= row && y <= row
    && pimage == RowStart(w, row) + region.left && pold == RowStart(region.right - region.left, row - region.top)
    && pmouse == RowStart(CURSOR_SIZE, row - y) + (region.left - x)
  }

  lemma FirstRow(region: Rect, w: nat, x: int, y: int)
    requires region.left < region.right && 0 <= region.top - y
    ensures AtRow(region, w, x, y, region.top, region.top * w + region.left, 0,
                  (region.top - y) * CURSOR_SIZE + (region.left - x))
  {
    RowStartIsProduct(w, region.top);
    RowStartIsProduct(CURSOR_SIZE, region.top - y);
  }

  lemma NextRow(region: Rect, w: nat, x: int, y: int, row: nat, pimage: int, pold: int, pmouse: int)
    requires AtRow(region, w, x, y, row, pimage, pold, pmouse)
    ensures AtRow(region, w, x, y, row + 1, pimage + w, pold + (region.right - region.left), pmouse + CURSOR_SIZE)
  {
  }

  /** Saves the region row by row and blends the bitmap over it. */
  method DrawRegion(desktop: array<Pixel>, saved: array<Pixel>, bits: array<Pixel>, w: nat, h: nat,
                    x: int, y: int, region: Rect, ghost p: Pointer)
    requires desktop != saved && desktop != bits && saved != bits
    requires RowStart(w, h) <= desktop.Length && RegionFits(saved[..], region, w, h)
    requires RowStart(CURSOR_SIZE, CURSOR_SIZE) <= bits.Length
    requires p.x == x && p.y == y && p.bitmap == Rows(bits[..], CURSOR_SIZE, CURSOR_SIZE)
    requires 0 <= region.top - y && region.bottom - y <= CURSOR_SIZE
    requires 0 <= region.left - x && region.right - x <= CURSOR_SIZE
    modifies desktop, saved
    ensures var base := old(Rows(desktop[..], w, h));
            && Rows(desktop[..], w, h) == Patch(base, Overlay(base, p, w, h), region, w, h)
            && Saves(saved[..], base, region, w, h)
  {
    ghost var base := Rows(desktop[..], w, h);
    ghost var all := Overlay(base, p, w, h);
    var n := region.right - region.left;
    FirstRow(region, w, x, y);
    var pimage := region.top * w + region.left;
    var pmouse := (region.top - y) * CURSOR_SIZE + (region.left - x);
    var pold := 0;
    var row := region.top;
    while row < region.bottom
      invariant region.top <= row <= region.bottom
      invariant AtRow(region, w, x, y, row, pimage, pold, pmouse)
      invariant DrawnTo(Rows(desktop[..], w, h), base, all, region, w, h, row)
      invariant SavedTo(saved[..], base, region, w, h, row)
    {
      DrawLine(desktop, saved, bits, w, h, row, region, p, pimage, pold, pmouse, base);
      NextRow(region, w, x, y, row, pimage, pold, pmouse);
      pimage := pimage + w;
      pmouse := pmouse + CURSOR_SIZE;
      pold := pold + n;
      row := row + 1;
    }
    GridEq(Rows(desktop[..], w, h), Patch(base, all, region, w, h), w, h);
  }

  /** One row: save it, then blend over it. */
  method DrawLine(desktop: array<Pixel>, saved: array<Pixel>, bits: array<Pixel>, w: nat, h: nat, row: nat,
                  region: Rect, ghost p: Pointer, pimage: nat, pold: nat, pmouse: nat, ghost base: Image)
    requires desktop != saved && desktop != bits && saved != bits
    requires RowStart(w, h) <= desktop.Length && RowStart(CURSOR_SIZE, CURSOR_SIZE) <= bits.Length
    requires HasDims(base, w, h) && p.bitmap == Rows(bits[..], CURSOR_SIZE, CURSOR_SIZE)
    requires region.left < region.right <= w && region.top <= row < region.bottom <= h
    requires 0 <= row - p.y < CURSOR_SIZE && 0 <= region.left - p.x && region.right - p.x <= CURSOR_SIZE
    requires AtRow(region, w, p.x, p.y, row, pimage, pold, pmouse)
    requires SavedTo(saved[..], base, region, w, h, row)
    requires DrawnTo(Rows(desktop[..], w, h), base, Overlay(base, p, w, h), region, w, h, row)
    modifies desktop, saved
    ensures SavedTo(saved[..], base, region, w, h, row + 1)
    ensures DrawnTo(Rows(desktop[..], w, h), base, Overlay(base, p, w, h), region, w, h, row + 1)
  {
    var n := region.right - region.left;
    ghost var d, s := desktop[..], saved[..];
    RowFits(w, h, row);
    RowFits(n, region.bottom - region.top, row - region.top);
    RowFits(CURSOR_SIZE, CURSOR_SIZE, row - p.y);
    CopySamples(saved, pold, desktop, pimage, n);
    assert desktop[..] == d;
    SaveStep(s, saved[..], d, base, Overlay(base, p, w, h), region, w, h, row, pimage, pold);
    ghost var t := saved[..];
    BlendRow(desktop, pimage, bits, pmouse, n);
    assert saved[..] == t;
    DrawStep(d, desktop[..], base, p, bits[..], region, w, h, row, pimage, pmouse);
  }

  /** The box at the pointer's place, clipped to the screen; false when nothing of it is on screen. */
  method ClipBox(x: int, y: int, box: Rect, w: nat, h: nat, ghost p: Pointer) returns (onScreen: bool, region: Rect)
    requires p.x == x && p.y == y && box.left < box.right && box.top < box.bottom
    ensures onScreen ==> IsClip(region, box, p, w, h)
    ensures onScreen ==> region.left - x >= box.left && region.right - x <= box.right
    ensures onScreen ==> region.top - y >= box.top && region.bottom - y <= box.bottom
    ensures !onScreen ==> forall r, c :: 0 <= r < h && 0 <= c < w ==> !Under(box, p, r, c)
  {
    region := Rect(0, 0, 0, 0);
    var startRow := y + box.top;
    if startRow < 0 {
      startRow := 0;
    }
    var startCol := x + box.left;
    if startCol < 0 {
      startCol := 0;
    }
    var endRow := y + box.bottom;
    if endRow > h {
      endRow := h;
    }
    var endCol := x + box.right;
    if endCol > w {
      endCol := w;
    }
    onScreen := startRow < endRow && startCol < endCol;
    if onScreen {
      region := Rect(startCol, endCol, startRow, endRow);
    }
  }

  // ----- Boxing the bitmap --------------------------------------------------

  ghost predicate VisibleAt(bits: seq<Pixel>, start: nat, stride: nat, i: nat) {
    start + RowStart(stride, i) < |bits| && Visible(bits[start + RowStart(stride, i)])
  }

  /** Is one of `len` pixels, `stride` apart, visible? */
  method FindVisible(bits: seq<Pixel>, start: nat, stride: nat, len: nat) returns (found: bool)
    requires len > 0 ==> start + RowStart(stride, len - 1) < |bits|
    ensures found <==> exists i :: 0 <= i < len && VisibleAt(bits, start, stride, i)
  {
    var p := start;
    for index := 0 to len
      invariant p == start + RowStart(stride, index)
      invariant forall i :: 0 <= i < index ==> !VisibleAt(bits, start, stride, i)
    {
      RowStartMonotone(stride, index, len - 1);
      if bits[p].a >= 64 {
        assert VisibleAt(bits, start, stride, index);
        return true;
      }
      p := p + stride;
    }
    return false;
  }

  ghost predicate ColumnVisible(bitmap: Image, c: int, top: int, bottom: int)
    requires HasDims(bitmap, CURSOR_SIZE, CURSOR_SIZE) && 0 <= top <= bottom <= CURSOR_SIZE
  {
    0 <= c < CURSOR_SIZE && exists r :: top <= r < bottom && Visible(bitmap[r][c])
  }

  ghost predicate RowVisible(bitmap: Image, r: int, left: int, right: int)
    requires HasDims(bitmap, CURSOR_SIZE, CURSOR_SIZE) && 0 <= left <= right <= CURSOR_SIZE
  {
    0 <= r < CURSOR_SIZE && exists c :: left <= c < right && Visible(bitmap[r][c])
  }

  method FindVisibleColumn(bits: seq<Pixel>, c: nat, ghost bitmap: Image) returns (found: bool)
    requires RowStart(CURSOR_SIZE, CURSOR_SIZE) <= |bits| && c < CURSOR_SIZE
    requires bitmap == Rows(bits, CURSOR_SIZE, CURSOR_SIZE)
    ensures found <==> ColumnVisible(bitmap, c, 0, CURSOR_SIZE)
  {
    RowFits(CURSOR_SIZE, CURSOR_SIZE, CURSOR_SIZE - 1);
    found := FindVisible(bits, c, CURSOR_SIZE, CURSOR_SIZE);
    forall r | 0 <= r < CURSOR_SIZE
      ensures VisibleAt(bits, c, CURSOR_SIZE, r) <==> Visible(bitmap[r][c])
    {
      PixelAt(bits, CURSOR_SIZE, CURSOR_SIZE, r, c, c + RowStart(CURSOR_SIZE, r));
    }
  }

  method FindVisibleRow(bits: seq<Pixel>, r: nat, left: nat, right: nat, ghost bitmap: Image) returns (found: bool)
    requires RowStart(CURSOR_SIZE, CURSOR_SIZE) <= |bits| && r < CURSOR_SIZE && left <= right <= CURSOR_SIZE
    requires bitmap == Rows(bits, CURSOR_SIZE, CURSOR_SIZE)
    ensures found <==> RowVisible(bitmap, r, left, right)
  {
    RowStartIsProduct(CURSOR_SIZE, r);
    var start := r * CURSOR_SIZE + left;
    if left < right {
      RowFits(CURSOR_SIZE, CURSOR_SIZE, r);
      RowStartOne(right - left - 1);
    }
    found := FindVisible(bits, start, 1, right - left);
    if found {
      ghost var i :| 0 <= i < right - left && VisibleAt(bits, start, 1, i);
      VisiblePixel(bits, r, left + i, start, i, bitmap);
    } else {
      forall c | left <= c < right ensures !Visible(bitmap[r][c]) {
        VisiblePixel(bits, r, c, start, c - left, bitmap);
      }
    }
  }

  /** Pixel `i` of the line that starts in row `r`. */
  lemma VisiblePixel(bits: seq<Pixel>, r: nat, c: nat, start: nat, i: nat, bitmap: Image)
    requires RowStart(CURSOR_SIZE, CURSOR_SIZE) <= |bits| && r < CURSOR_SIZE && c < CURSOR_SIZE
    requires bitmap == Rows(bits, CURSOR_SIZE, CURSOR_SIZE) && start + i == RowStart(CURSOR_SIZE, r) + c
    ensures VisibleAt(bits, start, 1, i) <==> Visible(bitmap[r][c])
  {
    RowStartOne(i);
    PixelAt(bits, CURSOR_SIZE, CURSOR_SIZE, r, c, start + i);
  }

  /** The columns that hold visible pixels, the right edge with one column of slack. */
  method FindColumns(bits: seq<Pixel>, ghost bitmap: Image) returns (x1: nat, x2: nat)
    requires RowStart(CURSOR_SIZE, CURSOR_SIZE) <= |bits| && bitmap == Rows(bits, CURSOR_SIZE, CURSOR_SIZE)
    ensures x1 < x2 <= CURSOR_SIZE
    ensures forall c :: ColumnVisible(bitmap, c, 0, CURSOR_SIZE) ==> x1 <= c < x2
    ensures x1 > 0 ==> ColumnVisible(bitmap, x1, 0, CURSOR_SIZE)
    ensures x2 < CURSOR_SIZE ==> ColumnVisible(bitmap, x2 - 2, 0, CURSOR_SIZE)
  {
    x1, x2 := 0, CURSOR_SIZE;
    var x := 0;
    while x < CURSOR_SIZE
      invariant 0 <= x <= CURSOR_SIZE && x1 == 0
      invariant forall c :: c < x ==> !ColumnVisible(bitmap, c, 0, CURSOR_SIZE)
    {
      var found := FindVisibleColumn(bits, x, bitmap);
      if found {
        x1 := x;
        break;
      }
      x := x + 1;
    }
    x := CURSOR_SIZE;
    while x > x1
      invariant x1 <= x <= CURSOR_SIZE && x2 == CURSOR_SIZE
      invariant forall c :: c >= x ==> !ColumnVisible(bitmap, c, 0, CURSOR_SIZE)
    {
      var found := FindVisibleColumn(bits, x - 1, bitmap);
      if found {
        x2 := Min(x + 1, CURSOR_SIZE);
        break;
      }
      x := x - 1;
    }
  }

  /** The rows that hold visible pixels between two columns, the bottom edge with one row of slack. */
  method FindRows(bits: seq<Pixel>, x1: nat, x2: nat, ghost bitmap: Image) returns (y1: nat, y2: nat)
    requires RowStart(CURSOR_SIZE, CURSOR_SIZE) <= |bits| && bitmap == Rows(bits, CURSOR_SIZE, CURSOR_SIZE)
    requires x1 < x2 <= CURSOR_SIZE
    ensures y1 < y2 <= CURSOR_SIZE
    ensures forall r :: RowVisible(bitmap, r, x1, x2) ==> y1 <= r < y2
    ensures y1 > 0 ==> RowVisible(bitmap, y1, x1, x2)
    ensures y2 < CURSOR_SIZE ==> RowVisible(bitmap, y2 - 2, x1, x2)
  {
    y1, y2 := 0, CURSOR_SIZE;
    var y := 0;
    while y < CURSOR_SIZE
      invariant 0 <= y <= CURSOR_SIZE && y1 == 0
      invariant forall r :: r < y ==> !RowVisible(bitmap, r, x1, x2)
    {
      var found := FindVisibleRow(bits, y, x1, x2, bitmap);
      if found {
        y1 := y;
        break;
      }
      y := y + 1;
    }
    y := CURSOR_SIZE;
    while y > y1
      invariant y1 <= y <= CURSOR_SIZE && y2 == CURSOR_SIZE
      invariant forall r :: r >= y ==> !RowVisible(bitmap, r, x1, x2)
    {
      var found := FindVisibleRow(bits, y - 1, x1, x2, bitmap);
      if found {
        y2 := Min(y + 1, CURSOR_SIZE);
        break;
      }
      y := y - 1;
    }
  }

  /** The box of a cursor bitmap: it holds every visible pixel. */
  method FindBox(bits: seq<Pixel>) returns (box: Rect)
    requires RowStart(CURSOR_SIZE, CURSOR_SIZE) <= |bits|
    ensures box.left < box.right <= CURSOR_SIZE && box.top < box.bottom <= CURSOR_SIZE
    ensures BoxHolds(Rows(bits, CURSOR_SIZE, CURSOR_SIZE), box)
    ensures var bitmap := Rows(bits, CURSOR_SIZE, CURSOR_SIZE);
            && (box.left > 0 ==> ColumnVisible(bitmap, box.left, 0, CURSOR_SIZE))
            && (box.right < CURSOR_SIZE ==> ColumnVisible(bitmap, box.right - 2, 0, CURSOR_SIZE))
            && (box.top > 0 ==> RowVisible(bitmap, box.top, box.left, box.right))
            && (box.bottom < CURSOR_SIZE ==> RowVisible(bitmap, box.bottom - 2, box.left, box.right))
  {
    ghost var bitmap := Rows(bits, CURSOR_SIZE, CURSOR_SIZE);
    var x1, x2 := FindColumns(bits, bitmap);
    var y1, y2 := FindRows(bits, x1, x2, bitmap);
    box := Rect(x1, x2, y1, y2);
    forall r, c | 0 <= r < CURSOR_SIZE && 0 <= c < CURSOR_SIZE && Visible(bitmap[r][c])
      ensures box.Has(r, c)
    {
      assert ColumnVisible(bitmap, c, 0, CURSOR_SIZE);
      assert RowVisible(bitmap, r, x1, x2);
    }
  }
}
