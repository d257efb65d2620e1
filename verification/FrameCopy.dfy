// Copying an accepted framebuffer, of any pitch, into the desktop buffer.

module FrameCopy {
  import opened Bits
  import opened Raster

  /** The pixel whose four bytes start at `i`. */
  function PixelFrom(buf: seq<byte>, i: nat): Pixel
    requires i + 4 <= |buf|
  {
    Pixel(buf[i], buf[i + 1], buf[i + 2], buf[i + 3])
  }

  /** The frame fits the buffer: rows of `w` pixels every `pitch` bytes. */
  predicate FrameFits(len: nat, pitch: int, w: nat, h: nat) {
    0 < w && 0 < h && 4 * w <= pitch && RowStart(pitch, h - 1) + 4 * w <= len
  }

  /** The driver's guard, with the last row's offset as a product. */
  lemma FitsByProduct(len: nat, pitch: int, w: nat, h: nat)
    requires w > 0 && h > 0
    ensures FrameFits(len, pitch, w, h) <==> !(pitch <= 0 || pitch < 4 * w || len < pitch * (h - 1) + 4 * w)
  {
    if pitch > 0 {
      RowStartIsProduct(pitch, h - 1);
      assert (h - 1) * pitch == pitch * (h - 1);
    }
  }

  /** The `w` pixels whose bytes start at `pos`. */
  ghost predicate IsLine(line: seq<Pixel>, buf: seq<byte>, pos: nat, w: nat) {
    |line| == w && pos + 4 * w <= |buf| && forall c :: 0 <= c < w ==> line[c] == PixelFrom(buf, pos + 4 * c)
  }

  ghost predicate IsFrame(g: Image, buf: seq<byte>, pitch: int, w: nat, h: nat)
    requires FrameFits(|buf|, pitch, w, h)
  {
    HasDims(g, w, h) && forall r :: 0 <= r < h ==> IsLine(g[r], buf, RowStart(pitch, r), w)
  }

  lemma FrameInside(len: nat, pitch: int, w: nat, h: nat, r: nat)
    requires FrameFits(len, pitch, w, h) && r < h
    ensures RowStart(pitch, r) + 4 * w <= len
  {
    RowStartMonotone(pitch, r, h - 1);
  }

  ghost function FrameLine(buf: seq<byte>, pitch: int, w: nat, h: nat, r: nat): (line: seq<Pixel>)
    requires FrameFits(|buf|, pitch, w, h) && r < h
    ensures IsLine(line, buf, RowStart(pitch, r), w)
  {
    FrameInside(|buf|, pitch, w, h, r);
    var pos := RowStart(pitch, r);
    seq(w, c requires 0 <= c < w => PixelFrom(buf, pos + 4 * c))
  }

  /** The image a framebuffer holds, whatever its pitch. */
  ghost function Frame(buf: seq<byte>, pitch: int, w: nat, h: nat): (g: Image)
    requires FrameFits(|buf|, pitch, w, h)
    ensures IsFrame(g, buf, pitch, w, h)
  {
    seq(h, r requires 0 <= r < h => FrameLine(buf, pitch, w, h, r))
  }

  /** A framebuffer holds blue, green, red and alpha of row `r`, column `c` in the four bytes from `pitch * r + 4 * c` on. */
  lemma FrameBytes(buf: seq<byte>, pitch: int, w: nat, h: nat, r: nat, c: nat)
    requires FrameFits(|buf|, pitch, w, h) && r < h && c < w
    ensures pitch * r + 4 * c >= 0 && pitch * r + 4 * c + 4 <= |buf|
    ensures var p, i := Frame(buf, pitch, w, h)[r][c], pitch * r + 4 * c;
            p.b == buf[i] && p.g == buf[i + 1] && p.r == buf[i + 2] && p.a == buf[i + 3]
  {
    RowStartIsProduct(pitch, r);
    assert r * pitch == pitch * r;
    FrameInside(|buf|, pitch, w, h, r);
    assert IsLine(Frame(buf, pitch, w, h)[r], buf, RowStart(pitch, r), w);
  }

  /** memcpy of `n` pixels from a byte buffer. */
  method CopyPixels(dst: array<Pixel>, di: nat, buf: seq<byte>, si: nat, n: nat)
    requires di + n <= dst.Length && si + 4 * n <= |buf|
    modifies dst
    ensures forall i :: di <= i < di + n ==> dst[i] == PixelFrom(buf, si + 4 * (i - di))
    ensures forall i :: 0 <= i < di || di + n <= i < dst.Length ==> dst[i] == old(dst[i])
  {
    for i := 0 to n
      invariant forall j :: di <= j < di + i ==> dst[j] == PixelFrom(buf, si + 4 * (j - di))
      invariant forall j :: 0 <= j < di || di + i <= j < dst.Length ==> dst[j] == old(dst[j])
    {
      dst[di + i] := PixelFrom(buf, si + 4 * i);
    }
  }

  lemma {:induction false} RowStartFour(w: nat, r: nat)
    ensures RowStart(4 * w, r) == 4 * RowStart(w, r)
  {
    if r > 0 {
      RowStartFour(w, r - 1);
    }
  }

  /** With no padding one copy moves the whole frame. */
  method CopyPacked(dst: array<Pixel>, buf: seq<byte>, w: nat, h: nat)
    requires FrameFits(|buf|, 4 * w, w, h) && RowStart(w, h) <= dst.Length
    modifies dst
    ensures Rows(dst[..], w, h) == Frame(buf, 4 * w, w, h)
  {
    RowStartFour(w, h);
    RowStartFour(w, h - 1);
    CopyPixels(dst, 0, buf, 0, RowStart(w, h));
    ghost var d, f := dst[..], Frame(buf, 4 * w, w, h);
    forall r, c | 0 <= r < h && 0 <= c < w
      ensures Rows(d, w, h)[r][c] == f[r][c]
    {
      RowStartFour(w, r);
      PixelAt(d, w, h, r, c, RowStart(w, r) + c);
      assert IsLine(f[r], buf, RowStart(4 * w, r), w);
      assert d[RowStart(w, r) + c] == PixelFrom(buf, 4 * (RowStart(w, r) + c));
    }
    GridEq(Rows(d, w, h), f, w, h);
  }

  /** Rows above `row` are copied. */
  ghost predicate CopiedTo(g: Image, f: Image, w: nat, h: nat, row: int) {
    HasDims(g, w, h) && HasDims(f, w, h) &&
    forall r, c :: 0 <= r < row && r < h && 0 <= c < w ==> g[r][c] == f[r][c]
  }

  /** The pixels of `line` lie in `e` from `p` on. */
  ghost predicate Holds(e: seq<Pixel>, p: nat, line: seq<Pixel>) {
    p + |line| <= |e| && forall c :: 0 <= c < |line| ==> e[p + c] == line[c]
  }

  method CopyFrameRow(dst: array<Pixel>, p: nat, buf: seq<byte>, pos: nat, pitch: int, w: nat, h: nat, row: nat)
    requires FrameFits(|buf|, pitch, w, h) && RowStart(w, h) <= dst.Length && row < h
    requires p == RowStart(w, row) && pos == RowStart(pitch, row)
    requires CopiedTo(Rows(dst[..], w, h), Frame(buf, pitch, w, h), w, h, row)
    modifies dst
    ensures CopiedTo(Rows(dst[..], w, h), Frame(buf, pitch, w, h), w, h, row + 1)
  {
    ghost var d, f := dst[..], Frame(buf, pitch, w, h);
    RowFits(w, h, row);
    FrameInside(|buf|, pitch, w, h, row);
    CopyPixels(dst, p, buf, pos, w);
    assert Holds(dst[..], p, f[row]) by {
      LineArrives(dst[..], f[row], buf, w, p, pos);
    }
    CopyFrameStep(d, dst[..], f, w, h, row, p);
  }

  lemma LineArrives(e: seq<Pixel>, line: seq<Pixel>, buf: seq<byte>, w: nat, p: nat, pos: nat)
    requires IsLine(line, buf, pos, w) && p + w <= |e|
    requires forall i :: p <= i < p + w ==> e[i] == PixelFrom(buf, pos + 4 * (i - p))
    ensures Holds(e, p, line)
  {
    forall c | 0 <= c < |line|
      ensures e[p + c] == line[c]
    {
      assert e[p + c] == PixelFrom(buf, pos + 4 * (p + c - p));
    }
  }

  lemma OldPixel(d: seq<Pixel>, e: seq<Pixel>, w: nat, h: nat, r: nat, row: nat, c: nat)
    requires RowStart(w, h) <= |d| == |e| && r < row < h && c < w && RowStart(w, row) <= |d|
    requires forall i :: 0 <= i < RowStart(w, row) ==> e[i] == d[i]
    ensures Rows(e, w, h)[r][c] == Rows(d, w, h)[r][c]
  {
    RowStartMonotone(w, r + 1, row);
    PixelAt(d, w, h, r, c, RowStart(w, r) + c);
    PixelAt(e, w, h, r, c, RowStart(w, r) + c);
  }

  lemma CopyFrameStep(d: seq<Pixel>, e: seq<Pixel>, f: Image, w: nat, h: nat, row: nat, p: nat)
    requires RowStart(w, h) <= |d| == |e| && row < h && p == RowStart(w, row) <= |d|
    requires CopiedTo(Rows(d, w, h), f, w, h, row) && Holds(e, p, f[row])
    requires forall i :: 0 <= i < p ==> e[i] == d[i]
    ensures CopiedTo(Rows(e, w, h), f, w, h, row + 1)
  {
    forall r, c | 0 <= r < row + 1 && 0 <= c < w
      ensures Rows(e, w, h)[r][c] == f[r][c]
    {
      if r < row {
        OldPixel(d, e, w, h, r, row, c);
      } else {
        PixelAt(e, w, h, row, c, p + c);
      }
    }
  }

  /** With padding the rows are copied one by one. */
  method CopyPadded(dst: array<Pixel>, buf: seq<byte>, pitch: int, w: nat, h: nat)
    requires FrameFits(|buf|, pitch, w, h) && RowStart(w, h) <= dst.Length
    modifies dst
    ensures Rows(dst[..], w, h) == Frame(buf, pitch, w, h)
  {
    var p, pos := 0, 0;
    for row := 0 to h
      invariant p == RowStart(w, row) && pos == RowStart(pitch, row)
      invariant CopiedTo(Rows(dst[..], w, h), Frame(buf, pitch, w, h), w, h, row)
    {
      CopyFrameRow(dst, p, buf, pos, pitch, w, h, row);
      p := p + w;
      pos := pos + pitch;
    }
    GridEq(Rows(dst[..], w, h), Frame(buf, pitch, w, h), w, h);
  }

  /** One copy when the rows are packed, else row by row. */
  method CopyFrame(dst: array<Pixel>, buf: seq<byte>, pitch: int, w: nat, h: nat)
    requires FrameFits(|buf|, pitch, w, h) && RowStart(w, h) <= dst.Length
    modifies dst
    ensures Rows(dst[..], w, h) == Frame(buf, pitch, w, h)
  {
    if pitch == 4 * w {
      CopyPacked(dst, buf, w, h);
    } else {
      CopyPadded(dst, buf, pitch, w, h);
    }
  }
}
