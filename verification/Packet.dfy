// The block transfer format: an 8-byte header, the converted pairs of one
// rectangle, an 8-byte trailer; and what the chip makes of it.

module Packet {
  import opened Bits
  import opened Raster
  import opened Wrappers
  import opened Yuv
  import opened Arith

  /** A received block: where it goes, and its pairs in row order. */
  datatype Block = Block(left: nat, top: nat, width: nat, height: nat, pairs: seq<Pair>)

  const HEADER_LEN := 8
  const TRAILER_LEN := 8
  const TRAILER: seq<byte> := [0xFF, 0xC0, 0, 0, 0, 0, 0, 0]

  /** Header bytes for 16-bit fields, of which 12 bits travel. */
  function Header(left: nat, top: nat, width: nat, height: nat): (b: seq<byte>)
    ensures |b| == HEADER_LEN
  {
    [0xFF, 0x00,
     left / 16 % 256,
     left % 16 * 16 + top / 256 % 16,
     top % 256,
     width / 16 % 256,
     width % 16 * 16 + height / 256 % 16,
     height % 256]
  }

  // ----- Pairs and bytes ----------------------------------------------------

  function PairBytes(p: Pair): seq<byte> {
    [p.u, p.y0, p.v, p.y1]
  }

  /** The bytes of the first `n` pairs. */
  function FirstBytes(ps: seq<Pair>, n: nat): (b: seq<byte>)
    requires n <= |ps|
    ensures |b| == 4 * n
  {
    if n == 0 then [] else FirstBytes(ps, n - 1) + PairBytes(ps[n - 1])
  }

  function ToBytes(ps: seq<Pair>): (b: seq<byte>)
    ensures |b| == 4 * |ps|
  {
    FirstBytes(ps, |ps|)
  }

  function FromBytes(b: seq<byte>): (ps: seq<Pair>)
    ensures |ps| == |b| / 4
  {
    if |b| < 4 then []
    else
      var n := |b| - 4;
      FromBytes(b[..n]) + [Pair(b[n], b[n + 1], b[n + 2], b[n + 3])]
  }

  lemma {:induction false} FromFirstBytes(ps: seq<Pair>, n: nat)
    requires n <= |ps|
    ensures FromBytes(FirstBytes(ps, n)) == ps[..n]
  {
    if n > 0 {
      FromFirstBytes(ps, n - 1);
      assert FirstBytes(ps, n)[..4 * (n - 1)] == FirstBytes(ps, n - 1);
    }
  }

  lemma FromToBytes(ps: seq<Pair>)
    ensures FromBytes(ToBytes(ps)) == ps
  {
    FromFirstBytes(ps, |ps|);
    assert ps[..|ps|] == ps;
  }

  /** The four bytes of pair `k`. */
  lemma {:induction false} FirstBytesAt(ps: seq<Pair>, n: nat, k: nat)
    requires k < n <= |ps|
    ensures FirstBytes(ps, n)[4 * k..4 * k + 4] == PairBytes(ps[k])
  {
    if k < n - 1 {
      FirstBytesAt(ps, n - 1, k);
      assert FirstBytes(ps, n)[..4 * (n - 1)] == FirstBytes(ps, n - 1);
      SliceOfFront(FirstBytes(ps, n), 4 * (n - 1), 4 * k, 4 * k + 4);
    }
  }

  lemma SliceOfFront<T>(s: seq<T>, n: nat, from: nat, to: nat)
    requires from <= to <= n <= |s|
    ensures s[..n][from..to] == s[from..to]
  {
  }

  /** A stretch of pairs is a stretch of bytes. */
  lemma {:induction false} FirstBytesOfSlice(ps: seq<Pair>, line: seq<Pair>, from: nat, n: nat)
    requires n <= |line| && from + n <= |ps| && forall k :: 0 <= k < n ==> line[k] == ps[from + k]
    ensures FirstBytes(ps, from + n) == FirstBytes(ps, from) + FirstBytes(line, n)
  {
    if n > 0 {
      FirstBytesOfSlice(ps, line, from, n - 1);
    }
  }

  // ----- The pairs of a rectangle -------------------------------------------

  /** The rectangle's edges fall between pairs and inside the frame. */
  predicate PairAligned(rect: Rect, w: nat, h: nat) {
    && rect.left % 2 == 0 && rect.right % 2 == 0
    && rect.left < rect.right <= w
    && rect.top < rect.bottom <= h
  }

  /** The slice of a converted frame inside `rect`, its first `n` rows, in wire order. */
  ghost function RectPairs(g: PairGrid, rect: Rect, w: nat, h: nat, n: nat): seq<Pair>
    requires w % 2 == 0 && HasDims(g, w / 2, h) && PairAligned(rect, w, h)
    requires n <= rect.bottom - rect.top
  {
    if n == 0 then []
    else RectPairs(g, rect, w, h, n - 1) + g[rect.top + n - 1][rect.left / 2..rect.right / 2]
  }

  lemma {:induction false} RectPairsLength(g: PairGrid, rect: Rect, w: nat, h: nat, n: nat)
    requires w % 2 == 0 && HasDims(g, w / 2, h) && PairAligned(rect, w, h)
    requires n <= rect.bottom - rect.top
    ensures |RectPairs(g, rect, w, h, n)| == RowStart((rect.right - rect.left) / 2, n)
  {
    if n > 0 {
      RectPairsLength(g, rect, w, h, n - 1);
    }
  }

  lemma {:induction false} RectPairsAt(g: PairGrid, rect: Rect, w: nat, h: nat, n: nat, r: nat, k: nat)
    requires w % 2 == 0 && HasDims(g, w / 2, h) && PairAligned(rect, w, h)
    requires r < n <= rect.bottom - rect.top && k < (rect.right - rect.left) / 2
    ensures RowStart((rect.right - rect.left) / 2, r) + k < |RectPairs(g, rect, w, h, n)|
    ensures RectPairs(g, rect, w, h, n)[RowStart((rect.right - rect.left) / 2, r) + k] ==
            g[rect.top + r][rect.left / 2 + k]
  {
    RowFits((rect.right - rect.left) / 2, n, r);
    RectPairsLength(g, rect, w, h, n - 1);
    RectPairsLength(g, rect, w, h, n);
    if r < n - 1 {
      RectPairsAt(g, rect, w, h, n - 1, r, k);
    }
  }

  /** The bytes the driver sends for `rect` of the converted frame `g`. */
  ghost function Encode(g: PairGrid, rect: Rect, w: nat, h: nat): seq<byte>
    requires w % 2 == 0 && HasDims(g, w / 2, h) && PairAligned(rect, w, h)
  {
    Header(rect.left, rect.top, rect.right - rect.left, rect.bottom - rect.top)
    + ToBytes(RectPairs(g, rect, w, h, rect.bottom - rect.top))
    + TRAILER
  }

  // ----- Reading a packet ---------------------------------------------------

  /** The first of two 12-bit fields packed in the bytes `x`, `y`, `z`. */
  function FirstField(x: int, y: int): int {
    x * 16 + y / 16
  }

  /** The second of two 12-bit fields packed in the bytes `x`, `y`, `z`. */
  function SecondField(y: int, z: int): int {
    y % 16 * 256 + z
  }

  /** Reads a packet back: marker bytes, 12-bit fields, payload length, trailer. */
  function Parse(b: seq<byte>): Option<Block> {
    if |b| < HEADER_LEN + TRAILER_LEN || b[0] != 0xFF || b[1] != 0x00 then None
    else
      var left, top := FirstField(b[2], b[3]), SecondField(b[3], b[4]);
      var width, height := FirstField(b[5], b[6]), SecondField(b[6], b[7]);
      var payload := b[HEADER_LEN..|b| - TRAILER_LEN];
      if |payload| != 2 * RowStart(width, height) || b[|b| - TRAILER_LEN..] != TRAILER then None
      else Some(Block(left, top, width, height, FromBytes(payload)))
  }

  /** The 12-bit header fields read back exactly when they are below 4096. */
  lemma HeaderFieldsIff(left: nat, top: nat, width: nat, height: nat)
    ensures var b := Header(left, top, width, height);
            (FirstField(b[2], b[3]) == left && SecondField(b[3], b[4]) == top &&
             FirstField(b[5], b[6]) == width && SecondField(b[6], b[7]) == height)
            <==> left < 4096 && top < 4096 && width < 4096 && height < 4096
  {
    NibblePair(left, top);
    NibblePair(width, height);
  }

  lemma Nibble(a: nat, c: nat)
    requires c < 16
    ensures (a * 16 + c) / 16 == a && (a * 16 + c) % 16 == c
  {
  }

  lemma NibblePair(x: nat, y: nat)
    ensures x / 16 % 256 * 16 + (x % 16 * 16 + y / 256 % 16) / 16 == x % 4096
    ensures (x % 16 * 16 + y / 256 % 16) % 16 * 256 + y % 256 == y % 4096
    ensures x % 4096 == x <==> x < 4096
    ensures y % 4096 == y <==> y < 4096
  {
    Nibble(x % 16, y / 256 % 16);
    LowBits(x, 16, 256);
    LowBits(y, 256, 16);
  }

  lemma {:induction false} RowStartDouble(w: nat, r: nat)
    ensures RowStart(2 * w, r) == 2 * RowStart(w, r)
  {
    if r > 0 {
      RowStartDouble(w, r - 1);
    }
  }

  /** The block a packet for `rect` of `g` stands for. */
  ghost function BlockOf(g: PairGrid, rect: Rect, w: nat, h: nat): (k: Block)
    requires w % 2 == 0 && HasDims(g, w / 2, h) && PairAligned(rect, w, h)
    ensures Fits(k, w, h)
  {
    RectPairsLength(g, rect, w, h, rect.bottom - rect.top);
    Block(rect.left, rect.top, rect.right - rect.left, rect.bottom - rect.top,
          RectPairs(g, rect, w, h, rect.bottom - rect.top))
  }

  /** Header, payload and trailer tile the packet, and reading it gives the slice back. */
  lemma ParseEncode(g: PairGrid, rect: Rect, w: nat, h: nat)
    requires w % 2 == 0 && HasDims(g, w / 2, h) && PairAligned(rect, w, h)
    requires w < 4096 && h < 4096
    ensures Parse(Encode(g, rect, w, h)) == Some(BlockOf(g, rect, w, h))
  {
    var k := BlockOf(g, rect, w, h);
    HalfRows(k.width, k.height);
    ParseParts(Encode(g, rect, w, h), k);
  }

  /** Nothing short of the whole packet reads as one: the header says how much must follow. */
  lemma PrefixDoesNotParse(g: PairGrid, rect: Rect, w: nat, h: nat, n: nat)
    requires w % 2 == 0 && HasDims(g, w / 2, h) && PairAligned(rect, w, h)
    requires w < 4096 && h < 4096 && n < |Encode(g, rect, w, h)|
    ensures Parse(Encode(g, rect, w, h)[..n]) == None
  {
    var k := BlockOf(g, rect, w, h);
    HalfRows(k.width, k.height);
    PartDoesNotParse(Encode(g, rect, w, h), k, n);
  }

  lemma PartDoesNotParse(b: seq<byte>, k: Block, n: nat)
    requires k.left < 4096 && k.top < 4096 && k.width < 4096 && k.height < 4096 && n < |b|
    requires 4 * |k.pairs| == 2 * RowStart(k.width, k.height)
    requires b == Header(k.left, k.top, k.width, k.height) + ToBytes(k.pairs) + TRAILER
    ensures Parse(b[..n]) == None
  {
    if n >= HEADER_LEN + TRAILER_LEN {
      var head := Header(k.left, k.top, k.width, k.height);
      HeaderFieldsIff(k.left, k.top, k.width, k.height);
      assert forall i :: 0 <= i < HEADER_LEN ==> b[..n][i] == head[i];
    }
  }

  lemma HalfRows(bw: nat, bh: nat)
    requires bw % 2 == 0
    ensures RowStart(bw, bh) == 2 * RowStart(bw / 2, bh)
  {
    RowStartDouble(bw / 2, bh);
    assert 2 * (bw / 2) == bw;
  }

  lemma ParseParts(b: seq<byte>, k: Block)
    requires k.left < 4096 && k.top < 4096 && k.width < 4096 && k.height < 4096
    requires 4 * |k.pairs| == 2 * RowStart(k.width, k.height)
    requires b == Header(k.left, k.top, k.width, k.height) + ToBytes(k.pairs) + TRAILER
    ensures Parse(b) == Some(k)
  {
    var head := Header(k.left, k.top, k.width, k.height);
    HeaderFieldsIff(k.left, k.top, k.width, k.height);
    assert forall i :: 0 <= i < HEADER_LEN ==> b[i] == head[i];
    assert b[HEADER_LEN..|b| - TRAILER_LEN] == ToBytes(k.pairs);
    assert b[|b| - TRAILER_LEN..] == TRAILER;
    FromToBytes(k.pairs);
  }

  // ----- On the wire --------------------------------------------------------

  function Word24(x: int, y: int, z: int): int {
    x * 0x1_0000 + y * 0x100 + z
  }

  /** Marker, and two big-endian 24-bit words: left and top, width and height, in 12 bits each. */
  lemma HeaderOnWire(left: nat, top: nat, width: nat, height: nat)
    requires left < 4096 && top < 4096 && width < 4096 && height < 4096
    ensures var b := Header(left, top, width, height);
            && b[0] == 0xFF && b[1] == 0x00
            && Word24(b[2], b[3], b[4]) == left * 4096 + top && Word24(b[5], b[6], b[7]) == width * 4096 + height
  {
    Nibble(left % 16, top / 256);
    Nibble(width % 16, height / 256);
  }

  /** The pair's four bytes are those from `i` on: U, first Y, V, second Y. */
  ghost predicate PairAt(b: seq<byte>, i: int, c: Pair) {
    0 <= i && i + 4 <= |b| && b[i..i + 4] == [c.u, c.y0, c.v, c.y1]
  }

  /** Row by row from the eighth byte on, four bytes a pair: RowStart(n, r) is r rows of n pairs. */
  lemma PayloadOnWire(g: PairGrid, rect: Rect, w: nat, h: nat, r: nat, k: nat, i: nat)
    requires w % 2 == 0 && HasDims(g, w / 2, h) && PairAligned(rect, w, h)
    requires r < rect.bottom - rect.top && 2 * k < rect.right - rect.left
    requires i == 8 + 4 * (RowStart((rect.right - rect.left) / 2, r) + k)
    ensures PairAt(Encode(g, rect, w, h), i, g[rect.top + r][rect.left / 2 + k])
  {
    var bw, bh := rect.right - rect.left, rect.bottom - rect.top;
    var ps := RectPairs(g, rect, w, h, bh);
    RectPairsAt(g, rect, w, h, bh, r, k);
    PairOnWire(Header(rect.left, rect.top, bw, bh), ps, TRAILER, RowStart(bw / 2, r) + k);
  }

  lemma PairOnWire(head: seq<byte>, ps: seq<Pair>, tail: seq<byte>, n: nat)
    requires n < |ps|
    ensures PairAt(head + ToBytes(ps) + tail, |head| + 4 * n, ps[n])
  {
    var body := ToBytes(ps);
    FirstBytesAt(ps, |ps|, n);
    assert body[4 * n..4 * n + 4] == PairBytes(ps[n]);
    var b := head + body + tail;
    assert b[|head| + 4 * n..|head| + 4 * n + 4] == body[4 * n..4 * n + 4];
  }

  /** The last eight bytes. */
  lemma TrailerOnWire(g: PairGrid, rect: Rect, w: nat, h: nat)
    requires w % 2 == 0 && HasDims(g, w / 2, h) && PairAligned(rect, w, h)
    ensures var b := Encode(g, rect, w, h);
            |b| >= 16 && b[|b| - 8..] == [0xFF, 0xC0, 0, 0, 0, 0, 0, 0]
  {
  }

  // ----- The chip -----------------------------------------------------------

  /** Where a parsed block lands in a frame of the chip. */
  predicate Fits(k: Block, w: nat, h: nat) {
    && k.left % 2 == 0 && k.width % 2 == 0
    && k.left + k.width <= w && k.top + k.height <= h
    && |k.pairs| == RowStart(k.width / 2, k.height)
  }

  /** The frame after the chip stored the block `k`. */
  ghost function Store(frame: PairGrid, k: Block, w: nat, h: nat): (g: PairGrid)
    requires w % 2 == 0 && HasDims(frame, w / 2, h) && Fits(k, w, h)
    ensures HasDims(g, w / 2, h)
    ensures forall r, c :: 0 <= r < h && 0 <= c < w / 2 ==> g[r][c] == StoredPair(frame, k, w, h, r, c)
  {
    seq(h, r requires 0 <= r < h =>
      seq(w / 2, c requires 0 <= c < w / 2 =>
        StoredPair(frame, k, w, h, r, c)))
  }

  /** The pair at row `r`, pair column `c` of the frame after the chip stored the block `k`. */
  ghost function StoredPair(frame: PairGrid, k: Block, w: nat, h: nat, r: nat, c: nat): Pair
    requires w % 2 == 0 && HasDims(frame, w / 2, h) && Fits(k, w, h)
    requires r < h && c < w / 2
  {
    if k.top <= r < k.top + k.height && k.left / 2 <= c < k.left / 2 + k.width / 2
    then RowFits(k.width / 2, k.height, r - k.top); k.pairs[RowStart(k.width / 2, r - k.top) + (c - k.left / 2)]
    else frame[r][c]
  }

  /** The chip's frame after a packet arrived in full; other bytes change nothing. */
  ghost function Receive(frame: PairGrid, b: seq<byte>, w: nat, h: nat): (g: PairGrid)
    requires w % 2 == 0 && HasDims(frame, w / 2, h)
    ensures HasDims(g, w / 2, h)
  {
    match Parse(b)
    case None => frame
    case Some(k) => if Fits(k, w, h) then Store(frame, k, w, h) else frame
  }

  /**
    Sending a block is the same as copying that rectangle of the converted
    frame into the chip's frame.
   */
  lemma ReceiveIsPatch(frame: PairGrid, g: PairGrid, rect: Rect, w: nat, h: nat)
    requires w % 2 == 0 && HasDims(frame, w / 2, h) && HasDims(g, w / 2, h) && PairAligned(rect, w, h)
    requires w < 4096 && h < 4096
    ensures Receive(frame, Encode(g, rect, w, h), w, h) == Patch(frame, g, PairRect(rect), w / 2, h)
  {
    ParseEncode(g, rect, w, h);
    StoreIsPatch(frame, g, rect, w, h);
  }

  lemma StoreIsPatch(frame: PairGrid, g: PairGrid, rect: Rect, w: nat, h: nat)
    requires w % 2 == 0 && HasDims(frame, w / 2, h) && HasDims(g, w / 2, h) && PairAligned(rect, w, h)
    ensures Store(frame, BlockOf(g, rect, w, h), w, h) == Patch(frame, g, PairRect(rect), w / 2, h)
  {
    var stored, patched := Store(frame, BlockOf(g, rect, w, h), w, h), Patch(frame, g, PairRect(rect), w / 2, h);
    forall r, c | 0 <= r < h && 0 <= c < w / 2
      ensures stored[r][c] == patched[r][c]
    {
      StoredPairIs(frame, g, rect, w, h, r, c);
    }
    GridEq(stored, patched, w / 2, h);
  }

  lemma StoredPairIs(frame: PairGrid, g: PairGrid, rect: Rect, w: nat, h: nat, r: nat, c: nat)
    requires w % 2 == 0 && HasDims(frame, w / 2, h) && HasDims(g, w / 2, h) && PairAligned(rect, w, h)
    requires r < h && c < w / 2
    ensures StoredPair(frame, BlockOf(g, rect, w, h), w, h, r, c) ==
            if PairRect(rect).Has(r, c) then g[r][c] else frame[r][c]
  {
    assert (rect.right - rect.left) / 2 == rect.right / 2 - rect.left / 2;
    if PairRect(rect).Has(r, c) {
      RectPairsAt(g, rect, w, h, rect.bottom - rect.top, r - rect.top, c - rect.left / 2);
    }
  }
}
