// In-place loops over flat pixel buffers: comparing, finding and copying damage.

module Scan {
  import opened Raster
  import opened Damage

  /** Pixel `i` of the line that starts at `start` and goes on in steps of `step`. */
  ghost predicate LineFits(start: nat, step: nat, i: nat, n: nat) {
    start + RowStart(step, i) < n
  }

  ghost predicate DiffersAt(s: seq<Pixel>, t: seq<Pixel>, start: nat, step: nat, i: nat) {
    LineFits(start, step, i, |s|) && LineFits(start, step, i, |t|) &&
    s[start + RowStart(step, i)] != t[start + RowStart(step, i)]
  }

  /**
    Compares `len` pixels of two buffers, starting at the same index and `step`
    apart: a row with step 1, a column with step the row length.
   */
  method CompareLine(a: array<Pixel>, b: array<Pixel>, start: nat, step: nat, len: nat) returns (differs: bool)
    requires forall i :: 0 <= i < len ==> LineFits(start, step, i, a.Length) && LineFits(start, step, i, b.Length)
    ensures differs <==> exists i :: 0 <= i < len && DiffersAt(a[..], b[..], start, step, i)
  {
    var p := start;
    var i := 0;
    while i < len
      invariant 0 <= i <= len
      invariant p == start + RowStart(step, i)
      invariant forall j :: 0 <= j < i ==> !DiffersAt(a[..], b[..], start, step, j)
    {
      assert LineFits(start, step, i, a.Length) && LineFits(start, step, i, b.Length);
      if a[p] != b[p] {
        assert DiffersAt(a[..], b[..], start, step, i);
        return true;
      }
      assert !DiffersAt(a[..], b[..], start, step, i);
      p := p + step;
      i := i + 1;
    }
    return false;
  }

  /** The pixel (r, c) of a buffer, at index `j`, as pixel `i` of a line. */
  lemma LinePixel(s: seq<Pixel>, t: seq<Pixel>, w: nat, h: nat, r: nat, c: nat, start: nat, step: nat, i: nat)
    requires RowStart(w, h) <= |s| && RowStart(w, h) <= |t| && r < h && c < w
    requires start + RowStart(step, i) == RowStart(w, r) + c
    ensures LineFits(start, step, i, |s|) && LineFits(start, step, i, |t|)
    ensures DiffersAt(s, t, start, step, i) <==> Differs(Rows(s, w, h), Rows(t, w, h), w, h, r, c)
  {
    PixelAt(s, w, h, r, c, start + RowStart(step, i));
    PixelAt(t, w, h, r, c, start + RowStart(step, i));
  }

  /** A line with step 1 from the start of row `r` is that row. */
  lemma RowLine(s: seq<Pixel>, t: seq<Pixel>, w: nat, h: nat, r: nat)
    requires RowStart(w, h) <= |s| && RowStart(w, h) <= |t| && r < h
    ensures forall i :: 0 <= i < w ==>
              && LineFits(RowStart(w, r), 1, i, |s|) && LineFits(RowStart(w, r), 1, i, |t|)
              && (DiffersAt(s, t, RowStart(w, r), 1, i) <==>
                  Differs(Rows(s, w, h), Rows(t, w, h), w, h, r, i))
  {
    forall i | 0 <= i < w
      ensures && LineFits(RowStart(w, r), 1, i, |s|) && LineFits(RowStart(w, r), 1, i, |t|)
              && (DiffersAt(s, t, RowStart(w, r), 1, i) <==>
                  Differs(Rows(s, w, h), Rows(t, w, h), w, h, r, i))
    {
      RowStartOne(i);
      LinePixel(s, t, w, h, r, i, RowStart(w, r), 1, i);
    }
  }

  /** A line with the row length as its step is a column. */
  lemma ColumnLine(s: seq<Pixel>, t: seq<Pixel>, w: nat, h: nat, c: nat, top: nat, i: nat)
    requires RowStart(w, h) <= |s| && RowStart(w, h) <= |t| && c < w && top + i < h
    ensures LineFits(RowStart(w, top) + c, w, i, |s|) && LineFits(RowStart(w, top) + c, w, i, |t|)
    ensures DiffersAt(s, t, RowStart(w, top) + c, w, i) <==>
            Differs(Rows(s, w, h), Rows(t, w, h), w, h, top + i, c)
  {
    assert RowStart(w, top) + c + RowStart(w, i) == RowStart(w, top + i) + c by {
      RowStartAdd(w, top, i);
    }
    LinePixel(s, t, w, h, top + i, c, RowStart(w, top) + c, w, i);
  }

  ghost predicate ColumnDiffersIn(x: Image, y: Image, w: nat, h: nat, c: int, top: nat, bottom: nat)
    requires HasDims(x, w, h) && HasDims(y, w, h)
  {
    exists r :: top <= r < bottom && Differs(x, y, w, h, r, c)
  }

  /** Do the two buffers differ in row `r`? */
  method CompareRow(a: array<Pixel>, b: array<Pixel>, w: nat, h: nat, r: nat) returns (differs: bool)
    requires RowStart(w, h) <= a.Length && RowStart(w, h) <= b.Length && r < h
    ensures differs <==> RowDiffers(Rows(a[..], w, h), Rows(b[..], w, h), w, h, r)
  {
    RowLine(a[..], b[..], w, h, r);
    RowStartIsProduct(w, r);
    differs := CompareLine(a, b, r * w, 1, w);
  }

  /** Do the two buffers differ in column `c` between rows `top` and `bottom`? */
  method CompareColumn(a: array<Pixel>, b: array<Pixel>, w: nat, h: nat, c: nat, top: nat, bottom: nat)
    returns (differs: bool)
    requires RowStart(w, h) <= a.Length && RowStart(w, h) <= b.Length && c < w && top <= bottom <= h
    ensures differs <==> ColumnDiffersIn(Rows(a[..], w, h), Rows(b[..], w, h), w, h, c, top, bottom)
  {
    ghost var x, y := Rows(a[..], w, h), Rows(b[..], w, h);
    RowStartIsProduct(w, top);
    var start := top * w + c;
    forall i | 0 <= i < bottom - top
      ensures LineFits(start, w, i, a.Length) && LineFits(start, w, i, b.Length)
    {
      ColumnLine(a[..], b[..], w, h, c, top, i);
    }
    differs := CompareLine(a, b, start, w, bottom - top);
    if differs {
      ghost var i :| 0 <= i < bottom - top && DiffersAt(a[..], b[..], start, w, i);
      ColumnLine(a[..], b[..], w, h, c, top, i);
    } else {
      forall r | top <= r < bottom
        ensures !Differs(x, y, w, h, r, c)
      {
        ColumnLine(a[..], b[..], w, h, c, top, r - top);
      }
    }
  }

  /** The first and last differing rows, if any. */
  method ScanRows(a: array<Pixel>, b: array<Pixel>, w: nat, h: nat) returns (top: nat, bottom: nat)
    requires RowStart(w, h) <= a.Length && RowStart(w, h) <= b.Length
    ensures top <= h
    ensures top == h <==> Rows(a[..], w, h) == Rows(b[..], w, h)
    ensures top < h ==>
              var x, y := Rows(a[..], w, h), Rows(b[..], w, h);
              && top < bottom <= h
              && RowDiffers(x, y, w, h, top) && RowDiffers(x, y, w, h, bottom - 1)
              && forall r :: RowDiffers(x, y, w, h, r) ==> top <= r < bottom
  {
    ghost var x, y := Rows(a[..], w, h), Rows(b[..], w, h);
    top, bottom := h, 0;
    var row := 0;
    while row < h
      invariant 0 <= row <= h && top == h
      invariant forall r :: r < row ==> !RowDiffers(x, y, w, h, r)
    {
      var d := CompareRow(a, b, w, h, row);
      if d {
        top, bottom := row, row + 1;
        break;
      }
      row := row + 1;
    }
    if top == h {
      if x != y {
        var r, c := SomeDifference(x, y, w, h);
        assert RowDiffers(x, y, w, h, r);
      }
      return;
    }
    row := h - 1;
    while row >= bottom
      invariant bottom - 1 <= row < h && bottom == top + 1
      invariant forall r :: r > row ==> !RowDiffers(x, y, w, h, r)
    {
      var d := CompareRow(a, b, w, h, row);
      if d {
        bottom := row + 1;
        break;
      }
      row := row - 1;
    }
  }

  /** The first column that differs between `top` and `bottom`, `w` if none does. */
  method FirstColumn(a: array<Pixel>, b: array<Pixel>, w: nat, h: nat, top: nat, bottom: nat) returns (left: nat)
    requires RowStart(w, h) <= a.Length && RowStart(w, h) <= b.Length && top < bottom <= h
    ensures var x, y := Rows(a[..], w, h), Rows(b[..], w, h);
            && left <= w
            && (left < w ==> ColumnDiffersIn(x, y, w, h, left, top, bottom))
            && forall c :: c < left ==> !ColumnDiffersIn(x, y, w, h, c, top, bottom)
  {
    left := 0;
    while left < w
      invariant 0 <= left <= w
      invariant forall c :: c < left ==> !ColumnDiffersIn(Rows(a[..], w, h), Rows(b[..], w, h), w, h, c, top, bottom)
    {
      var d := CompareColumn(a, b, w, h, left, top, bottom);
      if d {
        return;
      }
      left := left + 1;
    }
  }

  /** One past the last column from `right` on that differs between `top` and `bottom`, `right` if none does. */
  method LastColumn(a: array<Pixel>, b: array<Pixel>, w: nat, h: nat, right: nat, top: nat, bottom: nat)
    returns (end: nat)
    requires RowStart(w, h) <= a.Length && RowStart(w, h) <= b.Length && top < bottom <= h && right <= w
    ensures var x, y := Rows(a[..], w, h), Rows(b[..], w, h);
            && right <= end <= w
            && (end > right ==> ColumnDiffersIn(x, y, w, h, end - 1, top, bottom))
            && forall c :: end <= c ==> !ColumnDiffersIn(x, y, w, h, c, top, bottom)
  {
    var col := w - 1;
    while col >= right
      invariant right - 1 <= col < w
      invariant forall c :: c > col ==> !ColumnDiffersIn(Rows(a[..], w, h), Rows(b[..], w, h), w, h, c, top, bottom)
    {
      var d := CompareColumn(a, b, w, h, col, top, bottom);
      if d {
        return col + 1;
      }
      col := col - 1;
    }
    return right;
  }

  /** Some column differs between the first and the last differing row. */
  lemma SomeColumn(x: Image, y: Image, w: nat, h: nat, top: nat, bottom: nat)
    requires HasDims(x, w, h) && HasDims(y, w, h) && top < bottom
    requires RowDiffers(x, y, w, h, top)
    ensures exists c :: 0 <= c < w && ColumnDiffersIn(x, y, w, h, c, top, bottom)
  {
    var c :| Differs(x, y, w, h, top, c);
    assert ColumnDiffersIn(x, y, w, h, c, top, bottom);
  }

  /** The box that the row and column scans delimit is the difference box. */
  lemma ScannedBox(x: Image, y: Image, w: nat, h: nat, box: Rect)
    requires HasDims(x, w, h) && HasDims(y, w, h)
    requires box.left < box.right <= w && box.top < box.bottom <= h
    requires RowDiffers(x, y, w, h, box.top) && RowDiffers(x, y, w, h, box.bottom - 1)
    requires forall r :: RowDiffers(x, y, w, h, r) ==> box.top <= r < box.bottom
    requires ColumnDiffersIn(x, y, w, h, box.left, box.top, box.bottom)
    requires ColumnDiffersIn(x, y, w, h, box.right - 1, box.top, box.bottom)
    requires forall c :: ColumnDiffersIn(x, y, w, h, c, box.top, box.bottom) ==> box.left <= c < box.right
    ensures x != y && DiffBox(x, y, w, h) == box
  {
    var c0 :| Differs(x, y, w, h, box.top, c0);
    forall r, c | Differs(x, y, w, h, r, c)
      ensures box.Has(r, c)
    {
      assert RowDiffers(x, y, w, h, r);
      assert ColumnDiffersIn(x, y, w, h, c, box.top, box.bottom);
    }
    assert IsDiffBox(x, y, w, h, box);
    DiffBoxUnique(x, y, w, h, box, DiffBox(x, y, w, h));
  }

  /** The four scans: an empty result when the buffers agree, else their tight difference box. */
  method FindDamage(a: array<Pixel>, b: array<Pixel>, w: nat, h: nat) returns (changed: bool, box: Rect)
    requires RowStart(w, h) <= a.Length && RowStart(w, h) <= b.Length
    ensures changed <==> Rows(a[..], w, h) != Rows(b[..], w, h)
    ensures changed ==> box == DiffBox(Rows(a[..], w, h), Rows(b[..], w, h), w, h)
  {
    var top, bottom := ScanRows(a, b, w, h);
    if top == h {
      return false, Cleared(w, h);
    }
    SomeColumn(Rows(a[..], w, h), Rows(b[..], w, h), w, h, top, bottom);
    var left := FirstColumn(a, b, w, h, top, bottom);
    var right := LastColumn(a, b, w, h, left + 1, top, bottom);
    changed, box := true, Rect(left, right, top, bottom);
    ScannedBox(Rows(a[..], w, h), Rows(b[..], w, h), w, h, box);
  }

  /** Copies a rectangle of pixels; a full-width band is one copy. */
  method CopyRect(dst: array<Pixel>, src: array<Pixel>, w: nat, h: nat, box: Rect)
    requires dst != src && RowStart(w, h) <= dst.Length && RowStart(w, h) <= src.Length
    requires box.left < box.right <= w && box.top < box.bottom <= h
    modifies dst
    ensures Rows(dst[..], w, h) == Patch(old(Rows(dst[..], w, h)), Rows(src[..], w, h), box, w, h)
  {
    if box.left == 0 && box.right == w {
      CopyBand(dst, src, w, h, box);
    } else {
      CopyRowByRow(dst, src, w, h, box);
    }
  }

  method CopyBand(dst: array<Pixel>, src: array<Pixel>, w: nat, h: nat, box: Rect)
    requires dst != src && RowStart(w, h) <= dst.Length && RowStart(w, h) <= src.Length
    requires box.left == 0 && box.right == w && 0 < w && box.top < box.bottom <= h
    modifies dst
    ensures Rows(dst[..], w, h) == Patch(old(Rows(dst[..], w, h)), Rows(src[..], w, h), box, w, h)
  {
    ghost var want := Patch(Rows(dst[..], w, h), Rows(src[..], w, h), box, w, h);
    RowStartAdd(w, box.top, box.bottom - box.top);
    RowStartMonotone(w, box.bottom, h);
    CopySamples(dst, RowStart(w, box.top), src, RowStart(w, box.top), RowStart(w, box.bottom - box.top));
    forall r, c | 0 <= r < h && 0 <= c < w
      ensures Rows(dst[..], w, h)[r][c] == want[r][c]
    {
      if r < box.top {
        RowStartMonotone(w, r + 1, box.top);
      } else if r < box.bottom {
        RowStartMonotone(w, box.top, r);
        RowStartMonotone(w, r + 1, box.bottom);
      } else {
        RowStartMonotone(w, box.bottom, r);
      }
    }
    GridEq(Rows(dst[..], w, h), want, w, h);
  }

  method CopyRowByRow(dst: array<Pixel>, src: array<Pixel>, w: nat, h: nat, box: Rect)
    requires dst != src && RowStart(w, h) <= dst.Length && RowStart(w, h) <= src.Length
    requires box.left < box.right <= w && box.top < box.bottom <= h
    modifies dst
    ensures Rows(dst[..], w, h) == Patch(old(Rows(dst[..], w, h)), Rows(src[..], w, h), box, w, h)
  {
    ghost var was, from := Rows(dst[..], w, h), Rows(src[..], w, h);
    var n := box.right - box.left;
    RowStartIsProduct(w, box.top);
    var p := box.top * w + box.left;
    var row := box.top;
    while row < box.bottom
      invariant box.top <= row <= box.bottom && p == RowStart(w, row) + box.left
      invariant forall r, c :: 0 <= r < h && 0 <= c < w ==>
                  Rows(dst[..], w, h)[r][c] == if box.Has(r, c) && r < row then from[r][c] else was[r][c]
    {
      RowsApart(w, h, row);
      CopySamples(dst, p, src, p, n);
      p := p + w;
      row := row + 1;
    }
    GridEq(Rows(dst[..], w, h), Patch(was, from, box, w, h), w, h);
  }
}
