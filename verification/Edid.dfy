// Detailed timings patched into the first EDID block, in the source's 16- and
// 8-bit arithmetic. The field layout is that of VESA E-EDID Release A,
// Revision 2, section 3.10.2.

module Edid {

  const DETAILED_TIMING_OFFSET := 0x36
  const LONG_DESCR_LEN := 18
  const NUM_OF_DETAILED_DESCRIPTORS := 4
  const BLOCK_LEN := 0x80

  /** A mode table entry: its offsets run from sync start to active start. */
  datatype MiscTiming = MiscTiming(
    polarity: bv8, htotal: bv16, vtotal: bv16, hactive: bv16, vactive: bv16, pixclk: bv16,
    hoffset: bv16, voffset: bv16, hsyncwidth: bv16, vsyncwidth: bv16)

  /** A detailed timing: its offsets run from active end to sync start. Image sizes and borders are zero. */
  datatype Detailed = Detailed(
    pixclk: bv16, hactive: bv16, hblank: bv16, vactive: bv16, vblank: bv16,
    hoffset: bv16, hsyncwidth: bv16, voffset: bv16, vsyncwidth: bv16, polarity: bv16)

  function Rest(total: bv16, part: bv16): bv16 {
    total - part
  }

  /** In 16 bits the rest is what makes up the whole with the part, whichever is larger. */
  lemma RestMakesWhole(part: bv16, rest: bv16)
    ensures Rest(part + rest, part) == rest
  {
  }

  /** Blanking is what a total has beyond its active part; a front porch is what blanking has before the sync start. */
  function StdTimingConvert(m: MiscTiming): Detailed {
    var hblank, vblank := Rest(m.htotal, m.hactive), Rest(m.vtotal, m.vactive);
    Detailed(m.pixclk, m.hactive, hblank, m.vactive, vblank, Rest(hblank, m.hoffset), m.hsyncwidth,
             Rest(vblank, m.voffset), m.vsyncwidth, m.polarity as bv16)
  }

  function Low(x: bv16): bv8 {
    (x & 0xff) as bv8
  }

  /** Bytes 4 and 7: the upper four bits of two 12-bit fields. */
  function Nibbles(a: bv16, b: bv16): bv8 {
    Low(((a >> 4) & 0xF0) + ((b >> 8) & 0x0F))
  }

  function SyncLow(t: Detailed): bv8 {
    Low(((t.voffset << 4) & 0xF0) + (t.vsyncwidth & 0x0F))
  }

  function SyncHigh(t: Detailed): bv8 {
    Low(((t.hoffset >> 2) & 0xC0) + ((t.hsyncwidth >> 4) & 0x30) + ((t.voffset >> 6) & 0x0C) + ((t.vsyncwidth >> 8) & 0x03))
  }

  function Flags(polarity: bv16): bv8 {
    Low((!(polarity << 7) & 0x80) + 0x18 + (polarity & 0x06))
  }

  /** The 18 bytes of a detailed timing descriptor, as the driver packs them. */
  function Descriptor(t: Detailed): (d: seq<bv8>)
    ensures |d| == LONG_DESCR_LEN
  {
    [Low(t.pixclk), Low(t.pixclk >> 8), Low(t.hactive), Low(t.hblank), Nibbles(t.hactive, t.hblank),
     Low(t.vactive), Low(t.vblank), Nibbles(t.vactive, t.vblank), Low(t.hoffset), Low(t.hsyncwidth),
     SyncLow(t), SyncHigh(t), 0, 0, 0, 0, 0, Flags(t.polarity)]
  }

  // ----- Reading a descriptor, as the standard lays it out ------------------

  function Wide(b: bv8): bv16 {
    b as bv16
  }

  function PixelClock(d: seq<bv8>): bv16 requires |d| == 18 { Wide(d[0]) | (Wide(d[1]) << 8) }

  function HActive(d: seq<bv8>): bv16 requires |d| == 18 { Wide(d[2]) | ((Wide(d[4]) & 0xF0) << 4) }

  function HBlank(d: seq<bv8>): bv16 requires |d| == 18 { Wide(d[3]) | ((Wide(d[4]) & 0x0F) << 8) }

  function VActive(d: seq<bv8>): bv16 requires |d| == 18 { Wide(d[5]) | ((Wide(d[7]) & 0xF0) << 4) }

  function VBlank(d: seq<bv8>): bv16 requires |d| == 18 { Wide(d[6]) | ((Wide(d[7]) & 0x0F) << 8) }

  function HOffset(d: seq<bv8>): bv16 requires |d| == 18 { Wide(d[8]) | ((Wide(d[11]) & 0xC0) << 2) }

  function HSyncWidth(d: seq<bv8>): bv16 requires |d| == 18 { Wide(d[9]) | ((Wide(d[11]) & 0x30) << 4) }

  function VOffset(d: seq<bv8>): bv16 requires |d| == 18 { (Wide(d[10]) >> 4) | ((Wide(d[11]) & 0x0C) << 2) }

  function VSyncWidth(d: seq<bv8>): bv16 requires |d| == 18 { (Wide(d[10]) & 0x0F) | ((Wide(d[11]) & 0x03) << 4) }

  /** The pixel clock always reads back; the four 12-bit fields read back exactly when they fit. */
  lemma ActiveReadsBackIff(t: Detailed)
    ensures var d := Descriptor(t);
            && PixelClock(d) == t.pixclk
            && (HActive(d) == t.hactive <==> t.hactive < 4096) && (HBlank(d) == t.hblank <==> t.hblank < 4096)
            && (VActive(d) == t.vactive <==> t.vactive < 4096) && (VBlank(d) == t.vblank <==> t.vblank < 4096)
  {
  }

  /** The horizontal sync fields read back exactly when they fit their 10 bits. */
  lemma HSyncReadsBackIff(t: Detailed)
    ensures var d := Descriptor(t);
            && (HOffset(d) == t.hoffset <==> t.hoffset < 1024) && (HSyncWidth(d) == t.hsyncwidth <==> t.hsyncwidth < 1024)
  {
  }

  /**
    The vertical sync fields have six bits, but the driver stores bits 8 and 9
    where the standard puts 4 and 5: they read back exactly below 16.
   */
  lemma VSyncReadsBackIff(t: Detailed)
    ensures var d := Descriptor(t);
            && (VOffset(d) == t.voffset <==> t.voffset < 16) && (VSyncWidth(d) == t.vsyncwidth <==> t.vsyncwidth < 16)
  {
  }

  /** A front porch of 16 lines reads back as none. */
  lemma PorchLost(t: Detailed)
    requires t.voffset == 16
    ensures VOffset(Descriptor(t)) == 0
  {
  }

  /** What a display makes of a descriptor: each field is the timing's exactly when it fits. */
  ghost predicate ReadsAs(d: seq<bv8>, t: Detailed)
    requires |d| == LONG_DESCR_LEN
  {
    && PixelClock(d) == t.pixclk
    && (HActive(d) == t.hactive <==> t.hactive < 4096) && (HBlank(d) == t.hblank <==> t.hblank < 4096)
    && (VActive(d) == t.vactive <==> t.vactive < 4096) && (VBlank(d) == t.vblank <==> t.vblank < 4096)
    && (HOffset(d) == t.hoffset <==> t.hoffset < 1024) && (HSyncWidth(d) == t.hsyncwidth <==> t.hsyncwidth < 1024)
    && (VOffset(d) == t.voffset <==> t.voffset < 16) && (VSyncWidth(d) == t.vsyncwidth <==> t.vsyncwidth < 16)
  }

  lemma DescriptorReadsAs(t: Detailed)
    ensures ReadsAs(Descriptor(t), t)
  {
    ActiveReadsBackIff(t);
    HSyncReadsBackIff(t);
    VSyncReadsBackIff(t);
  }

  /** Byte 17: digital separate sync, interlaced when polarity bit 0 is clear, and the two sync polarities in place. */
  lemma FlagsRead(t: Detailed)
    ensures var f := Descriptor(t)[17];
            && f & 0x18 == 0x18 && f & 0x61 == 0
            && (f & 0x80 == 0x80 <==> t.polarity & 1 == 0)
            && (f & 0x04 == 0x04 <==> t.polarity & 4 == 4) && (f & 0x02 == 0x02 <==> t.polarity & 2 == 2)
  {
  }

  /**
    A mode's own numbers: blanking is what the total has beyond the active part,
    and the front porch what blanking has beyond the mode's count from sync
    start to active start.
   */
  lemma ModeNumbers(m: MiscTiming)
    ensures var t := StdTimingConvert(m);
            && t.hactive == m.hactive && t.hblank == Rest(m.htotal, m.hactive) && t.hoffset == Rest(t.hblank, m.hoffset)
            && t.vactive == m.vactive && t.vblank == Rest(m.vtotal, m.vactive) && t.voffset == Rest(t.vblank, m.voffset)
            && t.pixclk == m.pixclk && t.hsyncwidth == m.hsyncwidth && t.vsyncwidth == m.vsyncwidth
  {
  }

  /** Bits 2 and 1 of byte 17 are the vertical and horizontal sync's polarities. */
  predicate PolarityRead(flags: bv8, polarity: bv8) {
    (flags & 0x04 == 0x04 <==> polarity & 4 == 4) && (flags & 0x02 == 0x02 <==> polarity & 2 == 2)
  }

  /** A descriptor reads as a mode: its timing's fields, and the mode's polarities. */
  ghost predicate ReadsAsMode(d: seq<bv8>, m: MiscTiming)
    requires |d| == LONG_DESCR_LEN
  {
    ReadsAs(d, StdTimingConvert(m)) && PolarityRead(d[17], m.polarity)
  }

  lemma PolarityWide(p: bv8)
    ensures (p as bv16) & 4 == 4 <==> p & 4 == 4
    ensures (p as bv16) & 2 == 2 <==> p & 2 == 2
  {
  }

  lemma PolarityReadsBack(t: Detailed, p: bv8)
    requires t.polarity == p as bv16
    ensures PolarityRead(Descriptor(t)[17], p)
  {
    FlagsRead(t);
    PolarityWide(p);
  }

  lemma ModeReadsBack(m: MiscTiming)
    ensures ReadsAsMode(Descriptor(StdTimingConvert(m)), m)
  {
    var t := StdTimingConvert(m);
    DescriptorReadsAs(t);
    PolarityReadsBack(t, m.polarity);
  }

  // ----- The block ----------------------------------------------------------

  function Sum(s: seq<bv8>): bv8 {
    if s == [] then 0 else Sum(s[..|s| - 1]) + s[|s| - 1]
  }

  method StoreBytes(d: seq<bv8>, buf: array<bv8>, at: nat)
    requires at + |d| <= buf.Length
    modifies buf
    ensures buf[..] == old(buf[..at]) + d + old(buf[at + |d|..])
  {
    for i := 0 to |d|
      invariant forall j :: 0 <= j < buf.Length ==> buf[j] == if at <= j < at + i then d[j - at] else old(buf[j])
    {
      buf[at + i] := d[i];
    }
  }

  /** Packs a timing at an offset of a buffer and touches nothing else. */
  method DetailedTimingConvert(t: Detailed, buf: array<bv8>, at: nat)
    requires at + LONG_DESCR_LEN <= buf.Length
    modifies buf
    ensures buf[..] == old(buf[..at]) + Descriptor(t) + old(buf[at + LONG_DESCR_LEN..])
  {
    StoreBytes(Descriptor(t), buf, at);
  }

  /** The last byte makes the block sum to zero, whatever it held before. */
  method ChecksumCalc(buf: array<bv8>)
    requires buf.Length == BLOCK_LEN
    modifies buf
    ensures Sum(buf[..]) == 0 && buf[..0x7f] == old(buf[..0x7f])
  {
    var checksum: bv8 := 0;
    for i := 0 to 0x7f
      invariant buf[..] == old(buf[..]) && checksum + Sum(buf[..i]) == 0
    {
      checksum := checksum - buf[i];
      assert buf[..i + 1][..i] == buf[..i];
    }
    buf[0x7f] := checksum;
    assert buf[..][..0x7f] == old(buf[..0x7f]);
  }

  function Zeros(n: nat): seq<bv8> {
    seq(n, _ => 0)
  }

  /** The descriptors of the first `n` timings. */
  function Descriptors(timings: seq<MiscTiming>, n: nat): (d: seq<bv8>)
    requires n <= |timings|
    ensures |d| == n * LONG_DESCR_LEN
  {
    if n == 0 then [] else Descriptors(timings, n - 1) + Descriptor(StdTimingConvert(timings[n - 1]))
  }

  lemma SliceOfSum(a: seq<bv8>, b: seq<bv8>, from: nat, to: nat)
    requires from <= to <= |a|
    ensures (a + b)[from..to] == a[from..to]
  {
  }

  lemma EndOfSum(a: seq<bv8>, b: seq<bv8>)
    ensures (a + b)[|a|..|a| + |b|] == b
  {
  }

  lemma {:induction false} DescriptorAt(timings: seq<MiscTiming>, n: nat, k: nat)
    requires k < n <= |timings|
    ensures Descriptors(timings, n)[k * LONG_DESCR_LEN..(k + 1) * LONG_DESCR_LEN] == Descriptor(StdTimingConvert(timings[k]))
  {
    var front, last := Descriptors(timings, n - 1), Descriptor(StdTimingConvert(timings[n - 1]));
    assert Descriptors(timings, n) == front + last;
    if k < n - 1 {
      DescriptorAt(timings, n - 1, k);
      SliceOfSum(front, last, k * LONG_DESCR_LEN, (k + 1) * LONG_DESCR_LEN);
    } else {
      EndOfSum(front, last);
    }
  }

  /** The 72 descriptor bytes of a patched block. */
  function Patch(timings: seq<MiscTiming>, n: nat): (p: seq<bv8>)
    requires n <= |timings| && n <= NUM_OF_DETAILED_DESCRIPTORS
    ensures |p| == NUM_OF_DETAILED_DESCRIPTORS * LONG_DESCR_LEN
  {
    Descriptors(timings, n) + Zeros((NUM_OF_DETAILED_DESCRIPTORS - n) * LONG_DESCR_LEN)
  }

  lemma PackedStep(before: seq<bv8>, timings: seq<MiscTiming>, i: nat)
    requires i < |timings| && i < NUM_OF_DETAILED_DESCRIPTORS && before == Patch(timings, i)
    ensures before[..i * LONG_DESCR_LEN] + Descriptor(StdTimingConvert(timings[i])) + before[(i + 1) * LONG_DESCR_LEN..]
         == Patch(timings, i + 1)
  {
    assert before[..i * LONG_DESCR_LEN] == Descriptors(timings, i);
  }

  method PackNext(timings: seq<MiscTiming>, i: nat, backup: array<bv8>)
    requires i < |timings| && i < NUM_OF_DETAILED_DESCRIPTORS && backup[..] == Patch(timings, i)
    modifies backup
    ensures backup[..] == Patch(timings, i + 1)
  {
    ghost var before := backup[..];
    PackedStep(before, timings, i);
    DetailedTimingConvert(StdTimingConvert(timings[i]), backup, i * LONG_DESCR_LEN);
    assert backup[..] == before[..i * LONG_DESCR_LEN] + Descriptor(StdTimingConvert(timings[i]))
                         + before[(i + 1) * LONG_DESCR_LEN..];
  }

  /** The new descriptors, zero where no timing is left. */
  method PackTimings(timings: seq<MiscTiming>, n: nat) returns (backup: array<bv8>)
    requires n <= |timings| && n <= NUM_OF_DETAILED_DESCRIPTORS
    ensures fresh(backup) && backup[..] == Patch(timings, n)
  {
    backup := new bv8[NUM_OF_DETAILED_DESCRIPTORS * LONG_DESCR_LEN](_ => 0);
    for i := 0 to n
      invariant backup[..] == Patch(timings, i)
    {
      PackNext(timings, i, backup);
    }
  }

  /** A memcpy over the four descriptors of a block. */
  method CopyDescriptors(data: array<bv8>, backup: array<bv8>)
    requires data.Length == BLOCK_LEN && backup.Length == NUM_OF_DETAILED_DESCRIPTORS * LONG_DESCR_LEN && data != backup
    modifies data
    ensures data[..0x7f] == old(data[..DETAILED_TIMING_OFFSET]) + backup[..] + [old(data[0x7e])]
  {
    for i := 0 to NUM_OF_DETAILED_DESCRIPTORS * LONG_DESCR_LEN
      invariant forall j :: 0 <= j < BLOCK_LEN ==>
                  data[j] == if DETAILED_TIMING_OFFSET <= j < DETAILED_TIMING_OFFSET + i
                             then backup[j - DETAILED_TIMING_OFFSET] else old(data[j])
    {
      data[DETAILED_TIMING_OFFSET + i] := backup[i];
    }
  }

  /** How many timings are taken over. */
  function Kept(count: bv8): nat {
    if count > 2 then 2 else count as nat
  }

  /** The k-th descriptor of a block. */
  function BlockDescriptor(block: seq<bv8>, k: nat): (d: seq<bv8>)
    requires |block| == BLOCK_LEN && k < NUM_OF_DETAILED_DESCRIPTORS
    ensures |d| == LONG_DESCR_LEN
  {
    block[DETAILED_TIMING_OFFSET + k * LONG_DESCR_LEN..DETAILED_TIMING_OFFSET + (k + 1) * LONG_DESCR_LEN]
  }

  /** The k-th descriptor of a patched block is read as the k-th timing. */
  lemma PatchedReadsAs(block: seq<bv8>, head: seq<bv8>, last: bv8, timings: seq<MiscTiming>, n: nat, k: nat)
    requires |block| == BLOCK_LEN && |head| == DETAILED_TIMING_OFFSET && k < n <= |timings| && n <= NUM_OF_DETAILED_DESCRIPTORS
    requires block[..0x7f] == head + Patch(timings, n) + [last]
    ensures ReadsAsMode(BlockDescriptor(block, k), timings[k])
  {
    PatchSlice(block, head, last, timings, n, k);
    DescriptorAt(timings, n, k);
    ModeReadsBack(timings[k]);
  }

  lemma PatchSlice(block: seq<bv8>, head: seq<bv8>, last: bv8, timings: seq<MiscTiming>, n: nat, k: nat)
    requires |block| == BLOCK_LEN && |head| == DETAILED_TIMING_OFFSET && k < n <= |timings| && n <= NUM_OF_DETAILED_DESCRIPTORS
    requires block[..0x7f] == head + Patch(timings, n) + [last]
    ensures (k + 1) * LONG_DESCR_LEN <= |Descriptors(timings, n)|
    ensures BlockDescriptor(block, k) == Descriptors(timings, n)[k * LONG_DESCR_LEN..(k + 1) * LONG_DESCR_LEN]
  {
    var d := Descriptors(timings, n);
    var from, to := k * LONG_DESCR_LEN, (k + 1) * LONG_DESCR_LEN;
    assert to <= |d|;
    forall i | from <= i < to ensures block[DETAILED_TIMING_OFFSET + i] == d[i] {
      assert block[..0x7f][DETAILED_TIMING_OFFSET + i] == Patch(timings, n)[i];
    }
  }

  /** At most two timings are packed into the first block; the descriptors left over become zero. */
  method UpdateDetailedTiming(data: array<bv8>, timings: seq<MiscTiming>, count: bv8, block: bv8)
    requires data.Length == BLOCK_LEN && |timings| == 2
    modifies data
    ensures count == 0 || block >= 1 ==> data[..] == old(data[..])
    ensures count > 0 && block < 1 ==> Sum(data[..]) == 0
    ensures count > 0 && block < 1 ==>
              data[..0x7f] == old(data[..DETAILED_TIMING_OFFSET])
                              + Patch(timings, Kept(count)) + [old(data[0x7e])]
    ensures count > 0 && block < 1 ==> forall k :: 0 <= k < 2 && k < count as nat ==>
              ReadsAsMode(BlockDescriptor(data[..], k), timings[k])
  {
    if count > 0 && block < 1 {
      var n := Kept(count);
      ghost var head, last := data[..DETAILED_TIMING_OFFSET], data[0x7e];
      var backup := PackTimings(timings, n);
      CopyDescriptors(data, backup);
      ChecksumCalc(data);
      forall k | 0 <= k < n ensures ReadsAsMode(BlockDescriptor(data[..], k), timings[k]) {
        PatchedReadsAs(data[..], head, last, timings, n, k);
      }
    }
  }
}
