// Packed RAW10 rows: four samples in five bytes, the low bits in the fifth,
// as section 11.4.4 of MIPI CSI-2 v1.x lays them out.

module Raw10 {
  import opened Bits
  import opened Raster

  type Sample = v: int | 0 <= v < 1024

  function RowBytes(w: nat): nat {
    (w * 10 + 7) / 8
  }

  /** Sample `k` of a group of four: eight bits of its own byte, two of the shared fifth. */
  function Sample4(group: seq<byte>, k: nat): Sample
    requires |group| == 5 && k < 4
  {
    group[k] * 4 + group[4] / Shift(k) % 4
  }

  function Shift(k: nat): (s: nat)
    requires k < 4
    ensures s > 0
  {
    match k
    case 0 => 1
    case 1 => 4
    case 2 => 16
    case _ => 64
  }

  lemma FourDigits(n: byte)
    ensures n == n / 1 % 4 + 4 * (n / 4 % 4) + 16 * (n / 16 % 4) + 64 * (n / 64 % 4)
  {
    assert n / 4 / 4 == n / 16 && n / 16 / 4 == n / 64;
  }

  lemma LowTwo(high: byte, low: nat)
    requires low < 4
    ensures (high * 4 + low) / 4 == high && (high * 4 + low) % 4 == low
  {
  }

  /** Byte k is the high eight bits of sample k; the fifth byte holds the low two of each, the first sample's lowest. */
  lemma GroupSamples(group: seq<byte>)
    requires |group| == 5
    ensures forall k :: 0 <= k < 4 ==> Sample4(group, k) / 4 == group[k]
    ensures group[4] == Sample4(group, 0) % 4 + 4 * (Sample4(group, 1) % 4)
                        + 16 * (Sample4(group, 2) % 4) + 64 * (Sample4(group, 3) % 4)
  {
    FourDigits(group[4]);
    forall k | 0 <= k < 4 ensures Sample4(group, k) / 4 == group[k] && Sample4(group, k) % 4 == group[4] / Shift(k) % 4 {
      LowTwo(group[k], group[4] / Shift(k) % 4);
    }
  }

  /** The samples of a row's complete groups of five bytes. */
  function DecodeRow(row: seq<byte>): seq<Sample>
    decreases |row|
  {
    if |row| < 5 then []
    else
      var g := row[..5];
      [Sample4(g, 0), Sample4(g, 1), Sample4(g, 2), Sample4(g, 3)] + DecodeRow(row[5..])
  }

  lemma {:induction false} DecodeRowLength(row: seq<byte>)
    ensures |DecodeRow(row)| == |row| / 5 * 4
    decreases |row|
  {
    if |row| >= 5 {
      DecodeRowLength(row[5..]);
    }
  }

  /** Python's data[base:base + n]: a slice past the end is cut short. */
  function Slice(data: seq<byte>, base: nat, n: nat): seq<byte> {
    if base >= |data| then [] else data[base..Min(base + n, |data|)]
  }

  function Trim(v: seq<Sample>, n: nat): seq<Sample> {
    if n <= |v| then v[..n] else v
  }

  /** One more row, then everything trimmed to that many rows of samples. */
  function AddRow(front: seq<Sample>, data: seq<byte>, w: nat, row: nat, stride: nat): seq<Sample> {
    Trim(front + DecodeRow(Slice(data, RowStart(stride, row), RowBytes(w))), RowStart(w, row + 1))
  }

  function Decoded(data: seq<byte>, w: nat, rows: nat, stride: nat): seq<Sample> {
    if rows == 0 then [] else AddRow(Decoded(data, w, rows - 1, stride), data, w, rows - 1, stride)
  }

  /** Sample k of group i is at its place in the row. */
  lemma {:induction false} SamplePlace(row: seq<byte>, i: nat, k: nat)
    requires 5 * i + 5 <= |row| && k < 4
    ensures 4 * i + k < |DecodeRow(row)| && DecodeRow(row)[4 * i + k] == Sample4(row[5 * i..5 * i + 5], k)
    decreases i
  {
    if i > 0 {
      SamplePlace(row[5..], i - 1, k);
      assert row[5..][5 * (i - 1)..5 * (i - 1) + 5] == row[5 * i..5 * i + 5];
    } else {
      assert row[0..5] == row[..5];
    }
  }

  lemma {:induction false} DecodeRowSnoc(row: seq<byte>, i: nat)
    requires i % 5 == 0 && i + 5 <= |row|
    ensures DecodeRow(row[..i + 5]) == DecodeRow(row[..i])
              + [Sample4(row[i..i + 5], 0), Sample4(row[i..i + 5], 1), Sample4(row[i..i + 5], 2), Sample4(row[i..i + 5], 3)]
    decreases i
  {
    if i == 0 {
      assert row[..5][5..] == [] && row[..5][..5] == row[0..5];
    } else {
      DecodeRowSnoc(row[5..], i - 5);
      assert row[5..][..i - 5] == row[..i][5..] && row[5..][..i] == row[..i + 5][5..];
      assert row[..i][..5] == row[..5] == row[..i + 5][..5];
      assert row[5..][i - 5..i] == row[i..i + 5];
    }
  }

  lemma GroupAndRest(row: seq<byte>, i: nat)
    requires 5 <= i <= |row|
    ensures row[5..][..i - 5] == row[..i][5..] && row[..i][..5] == row[..5]
  {
  }

  lemma {:induction false} DecodeRowTail(row: seq<byte>, i: nat)
    requires i % 5 == 0 && i <= |row| < i + 5
    ensures DecodeRow(row) == DecodeRow(row[..i])
    decreases i
  {
    if i > 0 {
      DecodeRowTail(row[5..], i - 5);
      GroupAndRest(row, i);
    }
  }

  /** The loop over one row. */
  method AppendRow(values: seq<Sample>, row: seq<byte>) returns (r: seq<Sample>)
    ensures r == values + DecodeRow(row)
  {
    r := values;
    var i := 0;
    while i < |row| - 4
      invariant i % 5 == 0 && i <= |row|
      invariant r == values + DecodeRow(row[..i])
    {
      DecodeRowSnoc(row, i);
      var b0: int, b1: int, b2: int, b3: int, b4: int := row[i], row[i + 1], row[i + 2], row[i + 3], row[i + 4];
      r := r + [b0 * 4 + b4 % 4, b1 * 4 + b4 / 4 % 4, b2 * 4 + b4 / 16 % 4, b3 * 4 + b4 / 64 % 4];
      i := i + 5;
    }
    DecodeRowTail(row, i);
  }

  method DecodePackedRaw10(data: seq<byte>, w: nat, h: nat, stride: nat) returns (values: seq<Sample>)
    ensures values == Decoded(data, w, h, stride)
  {
    values := [];
    var rowBytes := RowBytes(w);
    for row := 0 to h
      invariant values == Decoded(data, w, row, stride)
    {
      RowStartIsProduct(stride, row);
      RowStartIsProduct(w, row + 1);
      var rowData := Slice(data, row * stride, rowBytes);
      values := AppendRow(values, rowData);
      values := Trim(values, (row + 1) * w);
    }
  }

  /** The trimming never cuts anything off: a row's complete groups hold no more samples than the row is wide. */
  lemma {:induction false} TrimNeverCuts(data: seq<byte>, w: nat, rows: nat, stride: nat)
    ensures |Decoded(data, w, rows, stride)| <= RowStart(w, rows)
    ensures rows > 0 ==>
              (var row := DecodeRow(Slice(data, RowStart(stride, rows - 1), RowBytes(w)));
               Decoded(data, w, rows, stride) == Decoded(data, w, rows - 1, stride) + row)
  {
    if rows > 0 {
      var front, base := Decoded(data, w, rows - 1, stride), RowStart(stride, rows - 1);
      var row := DecodeRow(Slice(data, base, RowBytes(w)));
      TrimNeverCuts(data, w, rows - 1, stride);
      assert |row| <= w by {
        GroupsInRow(w);
        RowLength(data, base, w, w / 4 * 4);
      }
      RowAdds(data, w, rows, stride, front, row);
    }
  }

  // ----- Packing, the inverse -----------------------------------------------

  function PackGroup(a: Sample, b: Sample, c: Sample, d: Sample): (g: seq<byte>)
    ensures |g| == 5
  {
    [a / 4, b / 4, c / 4, d / 4, a % 4 + b % 4 * 4 + c % 4 * 16 + d % 4 * 64]
  }

  function PackRow(row: seq<Sample>): seq<byte>
    requires |row| % 4 == 0
    decreases |row|
  {
    if row == [] then [] else PackGroup(row[0], row[1], row[2], row[3]) + PackRow(row[4..])
  }

  lemma {:induction false} PackRowLength(row: seq<Sample>)
    requires |row| % 4 == 0
    ensures |PackRow(row)| == |row| / 4 * 5
    decreases |row|
  {
    if row != [] {
      PackRowLength(row[4..]);
    }
  }

  lemma FifthByte(x: nat, y: nat, z: nat, w: nat)
    requires x < 4 && y < 4 && z < 4 && w < 4
    ensures var b := x + y * 4 + z * 16 + w * 64; b / 1 % 4 == x && b / 4 % 4 == y && b / 16 % 4 == z && b / 64 % 4 == w
  {
    var b := x + y * 4 + z * 16 + w * 64;
    assert b / 4 == y + z * 4 + w * 16;
    assert b / 16 == z + w * 4;
    assert b / 64 == w;
  }

  lemma GroupRoundTrip(a: Sample, b: Sample, c: Sample, d: Sample)
    ensures var g := PackGroup(a, b, c, d);
            Sample4(g, 0) == a && Sample4(g, 1) == b && Sample4(g, 2) == c && Sample4(g, 3) == d
  {
    FifthByte(a % 4, b % 4, c % 4, d % 4);
  }

  lemma PackRowSplits(row: seq<Sample>)
    requires row != [] && |row| % 4 == 0
    ensures |PackRow(row)| >= 5 && PackRow(row)[..5] == PackGroup(row[0], row[1], row[2], row[3])
    ensures PackRow(row)[5..] == PackRow(row[4..])
  {
  }

  lemma {:induction false} RowRoundTrip(row: seq<Sample>)
    requires |row| % 4 == 0
    ensures DecodeRow(PackRow(row)) == row
    decreases |row|
  {
    if row != [] {
      GroupRoundTrip(row[0], row[1], row[2], row[3]);
      RowRoundTrip(row[4..]);
      PackRowSplits(row);
      assert row == [row[0], row[1], row[2], row[3]] + row[4..];
    }
  }

  // ----- Whole images -------------------------------------------------------

  /** An image of `h` rows of `w` samples. */
  ghost predicate IsImage(rows: seq<seq<Sample>>, w: nat, h: nat) {
    |rows| == h && forall r :: 0 <= r < h ==> |rows[r]| == w
  }

  function Flatten(rows: seq<seq<Sample>>): seq<Sample> {
    if rows == [] then [] else Flatten(rows[..|rows| - 1]) + rows[|rows| - 1]
  }

  /** Row `r` starts `r` strides in, in its packed form. */
  ghost predicate RowPacked(data: seq<byte>, rows: seq<seq<Sample>>, w: nat, stride: nat, r: nat)
    requires r < |rows|
  {
    && |rows[r]| == w && w % 4 == 0
    && Slice(data, RowStart(stride, r), RowBytes(w)) == PackRow(rows[r])
  }

  /** Every row does; what lies between rows, or behind them, is arbitrary. */
  ghost predicate Packed(data: seq<byte>, rows: seq<seq<Sample>>, w: nat, stride: nat) {
    forall r :: 0 <= r < |rows| ==> RowPacked(data, rows, w, stride, r)
  }

  lemma {:induction false} FlattenLength(rows: seq<seq<Sample>>, w: nat, h: nat)
    requires IsImage(rows, w, h)
    ensures |Flatten(rows)| == RowStart(w, h)
  {
    if h > 0 {
      FlattenLength(rows[..h - 1], w, h - 1);
    }
  }

  lemma RowAdds(data: seq<byte>, w: nat, h: nat, stride: nat, front: seq<Sample>, row: seq<Sample>)
    requires h > 0 && Decoded(data, w, h - 1, stride) == front
    requires DecodeRow(Slice(data, RowStart(stride, h - 1), RowBytes(w))) == row && |front + row| <= RowStart(w, h)
    ensures Decoded(data, w, h, stride) == front + row
  {
    var all := front + row;
    assert all[..|all|] == all;
  }

  lemma FlattenNext(rows: seq<seq<Sample>>, n: nat)
    requires 0 < n <= |rows|
    ensures Flatten(rows[..n]) == Flatten(rows[..n - 1]) + rows[n - 1]
  {
    assert rows[..n][..n - 1] == rows[..n - 1];
  }

  lemma RowInverts(data: seq<byte>, front: seq<seq<Sample>>, row: seq<Sample>, w: nat, n: nat, stride: nat)
    requires n > 0 && IsImage(front, w, n - 1) && |row| == w
    requires DecodeRow(Slice(data, RowStart(stride, n - 1), RowBytes(w))) == row
    requires Decoded(data, w, n - 1, stride) == Flatten(front)
    ensures Decoded(data, w, n, stride) == Flatten(front) + row
  {
    FlattenLength(front, w, n - 1);
    RowAdds(data, w, n, stride, Flatten(front), row);
  }

  /** The bytes of row `r` decode to it. */
  ghost predicate RowDecodes(data: seq<byte>, rows: seq<seq<Sample>>, w: nat, stride: nat, r: nat)
    requires r < |rows|
  {
    DecodeRow(Slice(data, RowStart(stride, r), RowBytes(w))) == rows[r]
  }

  lemma {:induction false} FirstRowsDecode(data: seq<byte>, rows: seq<seq<Sample>>, w: nat, stride: nat, n: nat)
    requires IsImage(rows, w, |rows|) && n <= |rows|
    requires forall r :: 0 <= r < |rows| ==> RowDecodes(data, rows, w, stride, r)
    ensures Decoded(data, w, n, stride) == Flatten(rows[..n])
  {
    if n > 0 {
      FirstRowsDecode(data, rows, w, stride, n - 1);
      assert RowDecodes(data, rows, w, stride, n - 1);
      RowInverts(data, rows[..n - 1], rows[n - 1], w, n, stride);
      FlattenNext(rows, n);
    }
  }

  /** Decoding inverts packing for every stride and whatever the padding holds. */
  lemma DecodeInvertsPack(data: seq<byte>, rows: seq<seq<Sample>>, w: nat, h: nat, stride: nat)
    requires IsImage(rows, w, h) && Packed(data, rows, w, stride)
    ensures Decoded(data, w, h, stride) == Flatten(rows)
  {
    forall r | 0 <= r < h ensures RowDecodes(data, rows, w, stride, r) {
      assert RowPacked(data, rows, w, stride, r);
      RowRoundTrip(rows[r]);
    }
    FirstRowsDecode(data, rows, w, stride, h);
    assert rows[..h] == rows;
  }

  // ----- Packed images exist ------------------------------------------------

  /** A packed image with every row padded to the stride by the same byte. */
  function PackImage(rows: seq<seq<Sample>>, stride: nat, pad: byte): seq<byte>
    requires forall r :: 0 <= r < |rows| ==> |rows[r]| % 4 == 0
  {
    if rows == [] then []
    else PackImage(rows[..|rows| - 1], stride, pad) + Padded(PackRow(rows[|rows| - 1]), stride, pad)
  }

  function Padded(row: seq<byte>, stride: nat, pad: byte): seq<byte> {
    if |row| >= stride then row else row + seq(stride - |row|, _ => pad)
  }

  lemma WholeRow(w: nat)
    requires w % 4 == 0
    ensures RowBytes(w) == w / 4 * 5
  {
  }

  lemma SliceExtends(p: seq<byte>, q: seq<byte>, base: nat, n: nat)
    requires base + n <= |p|
    ensures Slice(p + q, base, n) == Slice(p, base, n)
  {
  }

  lemma SliceSecond(p: seq<byte>, q: seq<byte>, n: nat)
    requires n <= |q|
    ensures Slice(p + q, |p|, n) == q[..n]
  {
  }

  lemma PaddedRow(row: seq<byte>, stride: nat, pad: byte)
    requires |row| <= stride
    ensures |Padded(row, stride, pad)| == stride && Padded(row, stride, pad)[..|row|] == row
  {
  }

  lemma OldRowStays(p: seq<byte>, last: seq<byte>, rows: seq<seq<Sample>>, w: nat, stride: nat, r: nat)
    requires r + 1 < |rows| && RowPacked(p, rows[..|rows| - 1], w, stride, r)
    requires |p| == RowStart(stride, |rows| - 1) && stride >= RowBytes(w)
    ensures RowPacked(p + last, rows, w, stride, r)
  {
    RowFits(stride, |rows| - 1, r);
    SliceExtends(p, last, RowStart(stride, r), RowBytes(w));
  }

  lemma NewRowPacked(p: seq<byte>, rows: seq<seq<Sample>>, w: nat, stride: nat, pad: byte, r: nat)
    requires r < |rows| && |rows[r]| == w && w % 4 == 0 && |p| == RowStart(stride, r) && stride >= RowBytes(w)
    ensures var last := Padded(PackRow(rows[r]), stride, pad);
            RowPacked(p + last, rows, w, stride, r) && |p + last| == RowStart(stride, r + 1)
  {
    WholeRow(w);
    PackRowLength(rows[r]);
    PaddedRow(PackRow(rows[r]), stride, pad);
    SliceSecond(p, Padded(PackRow(rows[r]), stride, pad), RowBytes(w));
  }

  /** There is a packed form for every image of such a width, every stride at least a row long and every padding. */
  lemma {:induction false} PackImageIsPacked(rows: seq<seq<Sample>>, w: nat, h: nat, stride: nat, pad: byte)
    requires IsImage(rows, w, h) && w % 4 == 0 && stride >= RowBytes(w)
    ensures |PackImage(rows, stride, pad)| == RowStart(stride, h) && Packed(PackImage(rows, stride, pad), rows, w, stride)
  {
    if h > 0 {
      var front := rows[..h - 1];
      var p := PackImage(front, stride, pad);
      var last := Padded(PackRow(rows[h - 1]), stride, pad);
      PackImageIsPacked(front, w, h - 1, stride, pad);
      NewRowPacked(p, rows, w, stride, pad, h - 1);
      forall r | 0 <= r < h - 1 ensures RowPacked(p + last, rows, w, stride, r) {
        assert RowPacked(p, front, w, stride, r);
        OldRowStays(p, last, rows, w, stride, r);
      }
    }
  }

  // ----- How much comes out -------------------------------------------------

  /** Every row of the image ends inside the data. */
  ghost predicate Enough(data: seq<byte>, w: nat, h: nat, stride: nat) {
    forall r: nat :: r < h ==> RowStart(stride, r) + RowBytes(w) <= |data|
  }

  lemma EnoughBefore(data: seq<byte>, w: nat, h: nat, stride: nat)
    requires h > 0 && Enough(data, w, h, stride)
    ensures Enough(data, w, h - 1, stride) && RowStart(stride, h - 1) + RowBytes(w) <= |data|
  {
  }

  lemma GroupsInRow(w: nat)
    ensures RowBytes(w) / 5 * 4 == w / 4 * 4 <= w
  {
    var q, r := w / 4, w % 4;
    assert w * 10 + 7 == 8 * (5 * q) + (r * 10 + 7);
    assert RowBytes(w) == 5 * q + (r * 10 + 7) / 8 && (r * 10 + 7) / 8 < 5;
  }

  lemma GroupsMonotone(m: nat, n: nat)
    requires m <= n
    ensures m / 5 * 4 <= n / 5 * 4
  {
  }

  lemma RowLength(data: seq<byte>, base: nat, w: nat, q: nat)
    requires q == w / 4 * 4
    ensures |DecodeRow(Slice(data, base, RowBytes(w)))| <= q
    ensures base + RowBytes(w) <= |data| ==> |DecodeRow(Slice(data, base, RowBytes(w)))| == q
  {
    GroupsInRow(w);
    DecodeRowLength(Slice(data, base, RowBytes(w)));
    GroupsMonotone(|Slice(data, base, RowBytes(w))|, RowBytes(w));
  }

  /** A row that fits is kept whole. */
  lemma LengthAdds(data: seq<byte>, w: nat, h: nat, stride: nat, q: nat, row: seq<Sample>)
    requires h > 0 && q <= w && |Decoded(data, w, h - 1, stride)| <= RowStart(q, h - 1)
    requires DecodeRow(Slice(data, RowStart(stride, h - 1), RowBytes(w))) == row && |row| <= q
    ensures |Decoded(data, w, h, stride)| == |Decoded(data, w, h - 1, stride)| + |row|
  {
    RowStartWider(q, w, h);
    RowAdds(data, w, h, stride, Decoded(data, w, h - 1, stride), row);
  }

  /** A row of any width yields whole groups only; what does not fill a group is lost. */
  lemma {:induction false} DecodedLength(data: seq<byte>, w: nat, h: nat, stride: nat, q: nat)
    requires q == w / 4 * 4
    ensures |Decoded(data, w, h, stride)| <= RowStart(q, h)
    ensures Enough(data, w, h, stride) ==> |Decoded(data, w, h, stride)| == RowStart(q, h)
  {
    if h > 0 {
      var row := DecodeRow(Slice(data, RowStart(stride, h - 1), RowBytes(w)));
      DecodedLength(data, w, h - 1, stride, q);
      RowLength(data, RowStart(stride, h - 1), w, q);
      if Enough(data, w, h, stride) {
        EnoughBefore(data, w, h, stride);
      }
      LengthAdds(data, w, h, stride, q, row);
    }
  }

  /** From enough data a whole image comes out exactly when the width is a multiple of four (or there are no rows). */
  lemma WholeImageIff(data: seq<byte>, w: nat, h: nat, stride: nat)
    requires Enough(data, w, h, stride)
    ensures |Decoded(data, w, h, stride)| == w * h <==> w % 4 == 0 || h == 0
  {
    DecodedLength(data, w, h, stride, w / 4 * 4);
    RowStartIsProduct(w / 4 * 4, h);
    Lost(w, h);
  }

  /** A 1366 samples wide image loses two samples of every row. */
  lemma SamplesLost(data: seq<byte>, h: nat, stride: nat)
    requires Enough(data, 1366, h, stride)
    ensures |Decoded(data, 1366, h, stride)| == 1366 * h - 2 * h
  {
    DecodedLength(data, 1366, h, stride, 1364);
    RowStartIsProduct(1364, h);
  }

  lemma Lost(w: nat, h: nat)
    ensures h * (w / 4 * 4) == w * h <==> w % 4 == 0 || h == 0
  {
    assert w * h == h * (w / 4 * 4) + w % 4 * h;
  }
}
