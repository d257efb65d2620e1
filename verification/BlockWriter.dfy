// Converting the pending rectangle into the transfer buffer and framing it.

module BlockWriter {
  import opened Bits
  import opened Raster
  import opened Yuv
  import opened Packet

  ghost function PairAt(f: Conversion, src: seq<Pixel>, p: nat, k: nat): Pair
    requires p + 2 * k + 2 <= |src|
  {
    f(src[p + 2 * k], src[p + 2 * k + 1])
  }

  /** `row` is the conversion of the pixels of `src` from index `p` on. */
  ghost predicate Converts(f: Conversion, src: seq<Pixel>, p: nat, row: seq<Pair>) {
    p + 2 * |row| <= |src| &&
    forall k {:trigger PairAt(f, src, p, k)} :: 0 <= k < |row| ==> row[k] == PairAt(f, src, p, k)
  }

  // Everything is written from the front: what a step says is what the buffer
  // then begins with.

  lemma Assoc<T>(a: seq<T>, b: seq<T>, c: seq<T>)
    ensures (a + b) + c == a + (b + c)
  {
  }

  /** The two pixels' samples, computed as the driver does. */
  method ConvertTwo(p: Pixel, q: Pixel) returns (c: Pair)
    ensures c == ConvertPair(p, q)
  {
    var y0, u0, v0 := LumaOf(p), ChromaU(p), ChromaV(p);
    var y1 := LumaOf(q);
    u0 := u0 + ChromaU(q);
    v0 := v0 + ChromaV(q);
    u0, v0 := u0 / 2, v0 / 2;
    c := Pair(Clamp(u0), Clamp(y0), Clamp(v0), Clamp(y1));
  }

  /** Stores the four bytes of a pair, in wire order. */
  method StorePair(dst: array<byte>, at: nat, c: Pair)
    requires at + 4 <= dst.Length
    modifies dst
    ensures dst[..at + 4] == old(dst[..at]) + PairBytes(c) && dst[at + 4..] == old(dst[at + 4..])
  {
    dst[at], dst[at + 1], dst[at + 2], dst[at + 3] := c.u, c.y0, c.v, c.y1;
  }

  /** Converts two pixels and stores their four bytes. */
  method WritePair(dst: array<byte>, at: nat, p: Pixel, q: Pixel)
    requires at + 4 <= dst.Length
    modifies dst
    ensures dst[..at + 4] == old(dst[..at]) + PairBytes(ConvertPair(p, q)) && dst[at + 4..] == old(dst[at + 4..])
  {
    var c := ConvertTwo(p, q);
    StorePair(dst, at, c);
  }

  /** Writes the `k`-th pair of a converted row at `at`. */
  method WriteNth(src: array<Pixel>, p: nat, dst: array<byte>, at: nat, k: nat, ghost row: seq<Pair>)
    requires Converts(ConvertPair, src[..], p, row) && k < |row| && at + 4 <= dst.Length
    modifies dst
    ensures dst[..at + 4] == old(dst[..at]) + PairBytes(row[k])
  {
    assert row[k] == PairAt(ConvertPair, src[..], p, k);
    WritePair(dst, at, src[p + 2 * k], src[p + 2 * k + 1]);
  }

  /** Converts the `bw` pixels from index `p` of `src` to bytes from `at` on. */
  method ConvertRow(src: array<Pixel>, p: nat, dst: array<byte>, at: nat, bw: nat, ghost row: seq<Pair>)
    requires bw == 2 * |row| && Converts(ConvertPair, src[..], p, row)
    requires at + 2 * bw <= dst.Length
    modifies dst
    ensures dst[..at + 2 * bw] == old(dst[..at]) + ToBytes(row)
  {
    ghost var front := dst[..at];
    var i := 0;
    ghost var k := 0;
    while i < bw
      invariant 0 <= k <= |row| && i == 2 * k
      invariant dst[..at + 4 * k] == front + FirstBytes(row, k)
    {
      WriteNth(src, p, dst, at + 2 * i, i / 2, row);
      Assoc(front, FirstBytes(row, k), PairBytes(row[k]));
      i := i + 2;
      k := k + 1;
    }
  }

  lemma PairConverts(f: Conversion, src: seq<Pixel>, g: PairGrid, w: nat, h: nat, r: nat, q: nat, p: nat, k: nat)
    requires w % 2 == 0 && RowStart(w, h) <= |src| && r < h && q < w / 2
    requires g == Converted(f, Rows(src, w, h), w, h) && p + 2 * k == RowStart(w, r) + 2 * q
    ensures p + 2 * k + 2 <= |src|
    ensures g[r][q] == PairAt(f, src, p, k)
  {
    PixelAt(src, w, h, r, 2 * q, p + 2 * k);
    PixelAt(src, w, h, r, 2 * q + 1, p + 2 * k + 1);
  }

  lemma RectFits(bw: nat, n: nat, w: nat, h: nat)
    requires bw <= w && n <= h
    ensures RowStart(bw, n) <= RowStart(w, h)
  {
    RowStartWider(bw, w, n);
    RowStartMonotone(w, n, h);
  }

  /** The pairs of row `r` of the rectangle. */
  ghost function Line(g: PairGrid, rect: Rect, w: nat, h: nat, r: nat): (line: seq<Pair>)
    requires w % 2 == 0 && HasDims(g, w / 2, h) && PairAligned(rect, w, h) && r < rect.bottom - rect.top
    ensures 2 * |line| == rect.right - rect.left
  {
    g[rect.top + r][rect.left / 2..rect.right / 2]
  }

  /** The pixels of row `r` of the rectangle convert to that row of the converted frame. */
  lemma LineConverts(f: Conversion, src: seq<Pixel>, g: PairGrid, rect: Rect, w: nat, h: nat, r: nat, p: nat)
    requires w % 2 == 0 && RowStart(w, h) <= |src| && PairAligned(rect, w, h) && r < rect.bottom - rect.top
    requires g == Converted(f, Rows(src, w, h), w, h) && p == RowStart(w, rect.top + r) + rect.left
    ensures Converts(f, src, p, Line(g, rect, w, h, r))
  {
    var line := Line(g, rect, w, h, r);
    RowFits(w, h, rect.top + r);
    forall k | 0 <= k < |line|
      ensures line[k] == PairAt(f, src, p, k)
    {
      assert line[k] == g[rect.top + r][rect.left / 2 + k];
      PairConverts(f, src, g, w, h, rect.top + r, rect.left / 2 + k, p, k);
    }
  }

  /** The bytes of row `r` of the rectangle stand at their place in a payload. */
  ghost predicate HasRow(payload: seq<byte>, g: PairGrid, rect: Rect, w: nat, h: nat, r: nat)
    requires w % 2 == 0 && HasDims(g, w / 2, h) && PairAligned(rect, w, h) && r < rect.bottom - rect.top
  {
    var from := 2 * RowStart(rect.right - rect.left, r);
    var to := from + 2 * (rect.right - rect.left);
    to <= |payload| && payload[..to] == payload[..from] + ToBytes(Line(g, rect, w, h, r))
  }

  /** The payload of the packet: as long as the rectangle, and with all its rows. */
  ghost predicate IsPayload(payload: seq<byte>, g: PairGrid, rect: Rect, w: nat, h: nat)
    requires w % 2 == 0 && HasDims(g, w / 2, h) && PairAligned(rect, w, h)
  {
    && |payload| == 2 * RowStart(rect.right - rect.left, rect.bottom - rect.top)
    && forall r :: 0 <= r < rect.bottom - rect.top ==> HasRow(payload, g, rect, w, h, r)
  }

  lemma FirstBytesFront(ps: seq<Pair>, m: nat, n: nat)
    requires m <= n <= |ps|
    ensures FirstBytes(ps, n)[..4 * m] == FirstBytes(ps, m)
    decreases n
  {
    if m < n {
      FirstBytesFront(ps, m, n - 1);
    }
  }

  /** Pairs `from` to `from + n` of a sequence are the line: so are their bytes. */
  lemma LineInBytes(ps: seq<Pair>, line: seq<Pair>, from: nat, b: seq<byte>)
    requires from + |line| <= |ps| && b == ToBytes(ps)
    requires forall k :: 0 <= k < |line| ==> line[k] == ps[from + k]
    ensures b[..4 * (from + |line|)] == b[..4 * from] + ToBytes(line)
  {
    FirstBytesOfSlice(ps, line, from, |line|);
    FirstBytesFront(ps, from, |ps|);
    FirstBytesFront(ps, from + |line|, |ps|);
  }

  lemma LineFits(g: PairGrid, rect: Rect, w: nat, h: nat, r: nat)
    requires w % 2 == 0 && HasDims(g, w / 2, h) && PairAligned(rect, w, h) && r < rect.bottom - rect.top
    ensures RowStart((rect.right - rect.left) / 2, r) + |Line(g, rect, w, h, r)|
         <= |RectPairs(g, rect, w, h, rect.bottom - rect.top)|
  {
    RectPairsLength(g, rect, w, h, rect.bottom - rect.top);
    RowStartMonotone((rect.right - rect.left) / 2, r + 1, rect.bottom - rect.top);
  }

  lemma LinePair(g: PairGrid, rect: Rect, w: nat, h: nat, r: nat, k: nat, ps: seq<Pair>, i: nat)
    requires w % 2 == 0 && HasDims(g, w / 2, h) && PairAligned(rect, w, h) && r < rect.bottom - rect.top
    requires ps == RectPairs(g, rect, w, h, rect.bottom - rect.top) && k < |Line(g, rect, w, h, r)|
    requires i == RowStart((rect.right - rect.left) / 2, r) + k
    ensures i < |ps| && Line(g, rect, w, h, r)[k] == ps[i]
  {
    RectPairsAt(g, rect, w, h, rect.bottom - rect.top, r, k);
  }

  lemma SliceHasRow(g: PairGrid, rect: Rect, w: nat, h: nat, r: nat, ps: seq<Pair>, payload: seq<byte>)
    requires w % 2 == 0 && HasDims(g, w / 2, h) && PairAligned(rect, w, h) && r < rect.bottom - rect.top
    requires ps == RectPairs(g, rect, w, h, rect.bottom - rect.top) && payload == ToBytes(ps)
    ensures HasRow(payload, g, rect, w, h, r)
  {
    var from := RowStart((rect.right - rect.left) / 2, r);
    assert 4 * from == 2 * RowStart(rect.right - rect.left, r) by {
      HalfRows(rect.right - rect.left, r);
    }
    var line := Line(g, rect, w, h, r);
    LineFits(g, rect, w, h, r);
    forall k | 0 <= k < |line| ensures line[k] == ps[from + k] {
      LinePair(g, rect, w, h, r, k, ps, from + k);
    }
    LineInBytes(ps, line, from, payload);
  }

  /** The bytes of the rectangle's slice of a converted frame are its payload. */
  lemma SliceIsPayload(g: PairGrid, rect: Rect, w: nat, h: nat, ps: seq<Pair>, payload: seq<byte>)
    requires w % 2 == 0 && HasDims(g, w / 2, h) && PairAligned(rect, w, h)
    requires ps == RectPairs(g, rect, w, h, rect.bottom - rect.top) && payload == ToBytes(ps)
    ensures IsPayload(payload, g, rect, w, h)
  {
    var bw, bh := rect.right - rect.left, rect.bottom - rect.top;
    RectPairsLength(g, rect, w, h, bh);
    HalfRows(bw, bh);
    forall r | 0 <= r < bh ensures HasRow(payload, g, rect, w, h, r) {
      SliceHasRow(g, rect, w, h, r, ps, payload);
    }
  }

  /** Converts row `row` of the rectangle at `at`, where the rows above it end. */
  method ConvertLine(src: array<Pixel>, p: nat, dst: array<byte>, at: nat, w: nat, h: nat,
                     rect: Rect, row: nat, ghost pixels: seq<Pixel>, ghost g: PairGrid, ghost payload: seq<byte>)
    requires w % 2 == 0 && RowStart(w, h) <= src.Length && PairAligned(rect, w, h)
    requires row < rect.bottom - rect.top
    requires src[..] == pixels && g == FullYuv(Rows(pixels, w, h), w, h) && IsPayload(payload, g, rect, w, h)
    requires p == RowStart(w, rect.top + row) + rect.left
    requires at == HEADER_LEN + 2 * RowStart(rect.right - rect.left, row)
    requires at + 2 * (rect.right - rect.left) <= Min(dst.Length, HEADER_LEN + |payload|)
    requires dst[HEADER_LEN..at] == payload[..at - HEADER_LEN]
    modifies dst
    ensures dst[HEADER_LEN..at + 2 * (rect.right - rect.left)] == payload[..at - HEADER_LEN + 2 * (rect.right - rect.left)]
  {
    ghost var line, before := Line(g, rect, w, h, row), dst[..at];
    LineConverts(ConvertPair, pixels, g, rect, w, h, row, p);
    ConvertRow(src, p, dst, at, rect.right - rect.left, line);
    LineGoesOn(before, dst[..at + 2 * (rect.right - rect.left)], g, rect, w, h, row, payload);
  }

  /** Appending row `row` to the rows above it gives the payload up to that row's end. */
  lemma LineGoesOn(before: seq<byte>, after: seq<byte>, g: PairGrid, rect: Rect, w: nat, h: nat, row: nat, payload: seq<byte>)
    requires w % 2 == 0 && HasDims(g, w / 2, h) && PairAligned(rect, w, h) && row < rect.bottom - rect.top
    requires IsPayload(payload, g, rect, w, h) && after == before + ToBytes(Line(g, rect, w, h, row))
    requires |before| == HEADER_LEN + 2 * RowStart(rect.right - rect.left, row)
    requires |before| - HEADER_LEN <= |payload| && before[HEADER_LEN..] == payload[..|before| - HEADER_LEN]
    ensures |after| - HEADER_LEN <= |payload| && after[HEADER_LEN..] == payload[..|after| - HEADER_LEN]
  {
    assert HasRow(payload, g, rect, w, h, row);
    Extends(before, ToBytes(Line(g, rect, w, h, row)), after, HEADER_LEN);
  }

  /** What stands behind the first `k` bytes grows by what was appended. */
  lemma Extends(before: seq<byte>, more: seq<byte>, after: seq<byte>, k: nat)
    requires after == before + more && k <= |before|
    ensures after[k..] == before[k..] + more
  {
  }

  /** Index of the rectangle's first pixel. */
  method FirstPixel(w: nat, rect: Rect) returns (p: nat)
    ensures p == RowStart(w, rect.top) + rect.left
  {
    RowStartIsProduct(w, rect.top);
    p := rect.top * w + rect.left;
  }

  /** Converts the rectangle row by row into the transfer buffer, behind the header. */
  method ConvertLines(src: array<Pixel>, dst: array<byte>, w: nat, h: nat, rect: Rect,
                      ghost pixels: seq<Pixel>, ghost g: PairGrid, ghost payload: seq<byte>)
    requires w % 2 == 0 && RowStart(w, h) <= src.Length && PairAligned(rect, w, h)
    requires src[..] == pixels && g == FullYuv(Rows(pixels, w, h), w, h) && IsPayload(payload, g, rect, w, h)
    requires HEADER_LEN + |payload| <= dst.Length
    modifies dst
    ensures dst[HEADER_LEN..HEADER_LEN + |payload|] == payload
  {
    var bw, bh := rect.right - rect.left, rect.bottom - rect.top;
    var pline := FirstPixel(w, rect);
    var pdst, row := HEADER_LEN, 0;
    while row < bh
      invariant 0 <= row <= bh && src[..] == pixels
      invariant pline == RowStart(w, rect.top + row) + rect.left
      invariant pdst == HEADER_LEN + 2 * RowStart(bw, row) <= HEADER_LEN + |payload|
      invariant dst[HEADER_LEN..pdst] == payload[..pdst - HEADER_LEN]
    {
      RowStartMonotone(bw, row + 1, bh);
      ConvertLine(src, pline, dst, pdst, w, h, rect, row, pixels, g, payload);
      pline := pline + w;
      pdst := pdst + 2 * bw;
      row := row + 1;
    }
  }

  /** The payload behind the header, and the length of the packet it is part of. */
  method ImageToYuv(src: array<Pixel>, dst: array<byte>, w: nat, h: nat, rect: Rect,
                    ghost pixels: seq<Pixel>, ghost g: PairGrid, ghost payload: seq<byte>)
    returns (len: nat)
    requires w % 2 == 0 && RowStart(w, h) <= src.Length && PairAligned(rect, w, h)
    requires src[..] == pixels && g == FullYuv(Rows(pixels, w, h), w, h) && IsPayload(payload, g, rect, w, h)
    requires 2 * RowStart(w, h) + HEADER_LEN + TRAILER_LEN <= dst.Length
    modifies dst
    ensures len == HEADER_LEN + |payload| + TRAILER_LEN <= dst.Length
    ensures dst[HEADER_LEN..HEADER_LEN + |payload|] == payload
  {
    RectFits(rect.right - rect.left, rect.bottom - rect.top, w, h);
    ConvertLines(src, dst, w, h, rect, pixels, g, payload);
    len := BlockLength(rect.right - rect.left, rect.bottom - rect.top);
  }

  /** Header, two bytes a pixel, trailer. */
  method BlockLength(bw: nat, bh: nat) returns (len: nat)
    ensures len == HEADER_LEN + 2 * RowStart(bw, bh) + TRAILER_LEN
  {
    RowStartIsProduct(bw, bh);
    len := bw * bh * 2 + 16;
  }

  /** Writes header and trailer around the payload of a block of `len` bytes. */
  method PackageBlock(dst: array<byte>, len: nat, rect: Rect)
    requires HEADER_LEN + TRAILER_LEN <= len <= dst.Length
    requires rect.left <= rect.right && rect.top <= rect.bottom
    modifies dst
    ensures dst[..len] == Header(rect.left, rect.top, rect.right - rect.left, rect.bottom - rect.top)
                          + old(dst[HEADER_LEN..len - TRAILER_LEN]) + TRAILER
  {
    ghost var head := Header(rect.left, rect.top, rect.right - rect.left, rect.bottom - rect.top);
    ghost var payload := dst[HEADER_LEN..len - TRAILER_LEN];
    WriteHeader(dst, rect.left, rect.top, rect.right - rect.left, rect.bottom - rect.top);
    assert dst[..len - TRAILER_LEN] == head + payload;
    WriteTrailer(dst, len - TRAILER_LEN);
  }

  method WriteHeader(dst: array<byte>, coladdr: nat, rowaddr: nat, width: nat, height: nat)
    requires HEADER_LEN <= dst.Length
    modifies dst
    ensures dst[..HEADER_LEN] == Header(coladdr, rowaddr, width, height)
    ensures forall i :: HEADER_LEN <= i < dst.Length ==> dst[i] == old(dst[i])
  {
    dst[0], dst[1] := 0xFF, 0x00;
    dst[2] := coladdr / 16 % 256;
    dst[3] := coladdr % 16 * 16 + rowaddr / 256 % 16;
    dst[4] := rowaddr % 256;
    dst[5] := width / 16 % 256;
    dst[6] := width % 16 * 16 + height / 256 % 16;
    dst[7] := height % 256;
    assert dst[..HEADER_LEN] == [dst[0], dst[1], dst[2], dst[3], dst[4], dst[5], dst[6], dst[7]];
  }

  method WriteTrailer(dst: array<byte>, pdata: nat)
    requires pdata + TRAILER_LEN <= dst.Length
    modifies dst
    ensures dst[..pdata + TRAILER_LEN] == old(dst[..pdata]) + TRAILER
  {
    StorePair(dst, pdata, Pair(0xFF, 0xC0, 0, 0));
    StorePair(dst, pdata + 4, Pair(0, 0, 0, 0));
    Assoc(old(dst[..pdata]), PairBytes(Pair(0xFF, 0xC0, 0, 0)), PairBytes(Pair(0, 0, 0, 0)));
    assert PairBytes(Pair(0xFF, 0xC0, 0, 0)) + PairBytes(Pair(0, 0, 0, 0)) == TRAILER;
  }

  /** Converts and frames the pending rectangle of the frame that converts to `g`. */
  method FrameRect(src: array<Pixel>, dst: array<byte>, w: nat, h: nat, rect: Rect,
                   ghost pixels: seq<Pixel>, ghost g: PairGrid, ghost payload: seq<byte>)
    returns (len: nat)
    requires w % 2 == 0 && RowStart(w, h) <= src.Length && PairAligned(rect, w, h)
    requires src[..] == pixels && g == FullYuv(Rows(pixels, w, h), w, h) && IsPayload(payload, g, rect, w, h)
    requires 2 * RowStart(w, h) + HEADER_LEN + TRAILER_LEN <= dst.Length
    modifies dst
    ensures len <= dst.Length
    ensures dst[..len] == Header(rect.left, rect.top, rect.right - rect.left, rect.bottom - rect.top) + payload + TRAILER
  {
    len := ImageToYuv(src, dst, w, h, rect, pixels, g, payload);
    PackageBlock(dst, len, rect);
  }

  /** The packet's bytes, given as its parts. */
  lemma PartsAreEncoding(b: seq<byte>, g: PairGrid, rect: Rect, w: nat, h: nat, payload: seq<byte>)
    requires w % 2 == 0 && HasDims(g, w / 2, h) && PairAligned(rect, w, h)
    requires payload == ToBytes(RectPairs(g, rect, w, h, rect.bottom - rect.top))
    requires b == Header(rect.left, rect.top, rect.right - rect.left, rect.bottom - rect.top) + payload + TRAILER
    ensures b == Encode(g, rect, w, h)
  {
  }

  /** The payload of a rectangle. */
  lemma PayloadExists(g: PairGrid, rect: Rect, w: nat, h: nat) returns (payload: seq<byte>)
    requires w % 2 == 0 && HasDims(g, w / 2, h) && PairAligned(rect, w, h)
    ensures payload == ToBytes(RectPairs(g, rect, w, h, rect.bottom - rect.top)) && IsPayload(payload, g, rect, w, h)
  {
    var ps := RectPairs(g, rect, w, h, rect.bottom - rect.top);
    payload := ToBytes(ps);
    SliceIsPayload(g, rect, w, h, ps, payload);
  }

  /** The first `len` bytes of the buffer become the packet of the rectangle of the converted image. */
  method BuildPacket(src: array<Pixel>, dst: array<byte>, w: nat, h: nat, rect: Rect) returns (len: nat)
    requires w % 2 == 0 && RowStart(w, h) <= src.Length && PairAligned(rect, w, h)
    requires 2 * RowStart(w, h) + HEADER_LEN + TRAILER_LEN <= dst.Length
    modifies dst
    ensures len <= dst.Length
    ensures dst[..len] == Encode(FullYuv(Rows(src[..], w, h), w, h), rect, w, h)
  {
    ghost var pixels := src[..];
    ghost var g := FullYuv(Rows(pixels, w, h), w, h);
    ghost var payload := PayloadExists(g, rect, w, h);
    len := FrameRect(src, dst, w, h, rect, pixels, g, payload);
    PartsAreEncoding(dst[..len], g, rect, w, h, payload);
    assert src[..] == pixels;
  }
}
