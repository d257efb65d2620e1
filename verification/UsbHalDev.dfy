// The display device of the driver: its buffers, its pending rectangles, and
// the operations that update them in place.

module UsbHalDev {
  import opened Bits
  import opened Raster
  import opened Damage
  import opened Cursor
  import opened Yuv
  import opened Packet
  import opened Display
  import Scan
  import BlockWriter
  import CursorPaint
  import FrameCopy
  import opened Transfer
  import opened Sending

  const BUF_SIZE := 8388608
  const BUF_PIXELS := 2097152
  const EPERM := 1
  const EBUSY := 16
  const EINVAL := 22

  /** One enabled session: the mode stays fixed. */
  class UsbHalDev {
    const width: nat
    const height: nat
    const desktop: array<Pixel>
    const image: array<Pixel>
    const usbBuf: array<byte>
    const cursorBuf: array<Pixel>
    const oldBuf: array<Pixel>

    // cursor_buf: the pointer, with the box of its visible pixels
    var shown: bool
    var x: int
    var y: int
    var box: Rect

    // old_cursor_buf: the region under the drawn cursor, saved in oldBuf
    var oldValid: bool
    var old_: Rect

    var rect: seq<Rect>
    var frameIndex: nat

    ghost predicate Buffers()
    {
      && desktop.Length == BUF_PIXELS && image.Length == BUF_PIXELS && usbBuf.Length == BUF_SIZE
      && cursorBuf.Length == RowStart(CURSOR_SIZE, CURSOR_SIZE) && oldBuf.Length == RowStart(CURSOR_SIZE, CURSOR_SIZE)
      && desktop != image && desktop != cursorBuf && desktop != oldBuf
      && image != cursorBuf && image != oldBuf && cursorBuf != oldBuf
      && ModeOk(width, height) && RowStart(width, height) <= BUF_PIXELS
    }

    ghost predicate Valid()
      reads this, cursorBuf, oldBuf
    {
      && Buffers()
      && |rect| == 2 && RectOk(rect[0], width, height) && RectOk(rect[1], width, height) && frameIndex < 2
      && (shown ==> BoxOk())
      && (oldValid ==> RegionFits(oldBuf[..], old_, width, height))
    }

    ghost predicate BoxOk()
      requires Buffers()
      reads this, cursorBuf
    {
      && box.left < box.right <= CURSOR_SIZE && box.top < box.bottom <= CURSOR_SIZE
      && BoxHolds(Bitmap(), box)
    }

    ghost function Desktop(): Image
      requires Buffers()
      reads desktop
    {
      Rows(desktop[..], width, height)
    }

    ghost function Shadow(): Image
      requires Buffers()
      reads image
    {
      Rows(image[..], width, height)
    }

    ghost function Bitmap(): Image
      requires Buffers()
      reads cursorBuf
    {
      Rows(cursorBuf[..], CURSOR_SIZE, CURSOR_SIZE)
    }

    ghost function ThePointer(): (p: Pointer)
      requires Buffers()
      reads this, cursorBuf
      ensures p.Valid()
    {
      Pointer(shown, Bitmap(), x, y)
    }

    /** The frame under the cursor: the desktop with the saved region put back. */
    ghost function Base(): (g: Image)
      requires Valid()
      reads this, desktop, cursorBuf, oldBuf
      ensures HasDims(g, width, height)
    {
      if oldValid then Restored(Desktop(), oldBuf[..], old_, width, height) else Desktop()
    }

    /** The driver state the buffers stand for. */
    ghost function State(): (d: Driver)
      requires Valid()
      reads this, desktop, image, cursorBuf, oldBuf
      ensures DriverOk(d, width, height)
    {
      Driver(Base(), Desktop(), Shadow(), ThePointer(), rect, frameIndex)
    }

    constructor (width: nat, height: nat)
      requires ModeOk(width, height) && RowStart(width, height) <= BUF_PIXELS
      ensures Valid() && this.width == width && this.height == height
      ensures fresh(desktop) && fresh(image) && fresh(usbBuf) && fresh(cursorBuf) && fresh(oldBuf)
      ensures !shown && !oldValid && frameIndex == 0 && rect == [Rect(0, 0, 0, 0), Rect(0, 0, 0, 0)]
    {
      this.width, this.height := width, height;
      RowStartIsProduct(CURSOR_SIZE, CURSOR_SIZE);
      desktop := new Pixel[BUF_PIXELS](_ => Pixel(0, 0, 0, 0));
      image := new Pixel[BUF_PIXELS](_ => Pixel(0, 0, 0, 0));
      usbBuf := new byte[BUF_SIZE](_ => 0);
      cursorBuf := new Pixel[CURSOR_SIZE * CURSOR_SIZE](_ => Pixel(0, 0, 0, 0));
      oldBuf := new Pixel[CURSOR_SIZE * CURSOR_SIZE](_ => Pixel(0, 0, 0, 0));
      shown, x, y, box := false, 0, 0, Rect(0, 0, 0, 0);
      oldValid, old_ := false, Rect(0, 0, 0, 0);
      rect, frameIndex := [Rect(0, 0, 0, 0), Rect(0, 0, 0, 0)], 0;
    }

    // ----- Frames and cursor changes ----------------------------------------

    /**
      Takes a framebuffer of `|buf|` bytes. It is refused, and nothing changes,
      unless the device is enabled, the buffer is free, and rows of the mode's
      size fit the framebuffer.
     */
    method UpdateFrame(buf: seq<byte>, pitch: int, enabled: bool, tryLock: bool, free: bool) returns (ret: int)
      requires Valid()
      modifies this, desktop
      ensures Valid()
      ensures ret == 0 <==> enabled && (tryLock ==> free) && FrameCopy.FrameFits(|buf|, pitch, width, height)
      ensures ret == 0 ==>
                var f := FrameCopy.Frame(buf, pitch, width, height);
                State() == old(State()).(frame := f, desktop := f)
      ensures ret != 0 ==> State() == old(State())
    {
      if !enabled {
        return -EPERM;
      }
      if tryLock && !free {
        return -EBUSY;
      }
      FrameCopy.FitsByProduct(|buf|, pitch, width, height);
      if pitch <= 0 || pitch < 4 * width || |buf| < pitch * (height - 1) + 4 * width {
        return -EINVAL;
      }
      FrameCopy.CopyFrame(desktop, buf, pitch, width, height);
      oldValid := false;
      assert Base() == Desktop() == FrameCopy.Frame(buf, pitch, width, height);
      ret := 0;
    }

    static method CopyBitmap(bits: seq<Pixel>, dst: array<Pixel>)
      requires |bits| == dst.Length
      modifies dst
      ensures dst[..] == bits
    {
      for i := 0 to |bits|
        invariant forall j :: 0 <= j < i ==> dst[j] == bits[j]
      {
        dst[i] := bits[i];
      }
    }

    /** A new cursor bitmap, with the box of its visible pixels. */
    method CursorSet(bits: seq<Pixel>)
      requires Valid() && |bits| == RowStart(CURSOR_SIZE, CURSOR_SIZE)
      modifies this, cursorBuf
      ensures Valid()
      ensures State() == old(State()).(pointer := Pointer(true, Rows(bits, CURSOR_SIZE, CURSOR_SIZE), old(x), old(y)))
    {
      CopyBitmap(bits, cursorBuf);
      box := CursorPaint.FindBox(bits);
      shown := true;
    }

    method CursorHide()
      requires Valid()
      modifies this`shown
      ensures Valid()
      ensures State() == old(State()).(pointer := old(State()).pointer.(shown := false))
    {
      shown := false;
    }

    method CursorMove(x: int, y: int)
      requires Valid()
      modifies this`x, this`y
      ensures Valid()
      ensures State() == old(State()).(pointer := old(State()).pointer.(x := x, y := y))
    {
      this.x, this.y := x, y;
    }

    // ----- Composing the desktop --------------------------------------------

    /** Puts back what the drawn cursor covered. */
    method EraseCursor()
      requires Valid()
      modifies desktop
      ensures Valid() && Desktop() == old(Base())
    {
      if oldValid {
        CursorPaint.RestoreRegion(desktop, oldBuf, width, height, old_);
      }
    }

    /** Draws the cursor over a clean desktop, saving what it covers. */
    method PaintCursor(ghost base: Image)
      requires Valid() && Desktop() == base
      modifies desktop, oldBuf, this`oldValid, this`old_
      ensures Valid() && Base() == base
      ensures Desktop() == Composite(base, ThePointer(), width, height)
      ensures ThePointer() == old(ThePointer())
    {
      ghost var p := ThePointer();
      if !shown {
        oldValid := false;
        return;
      }
      var onScreen, region := CursorPaint.ClipBox(x, y, box, width, height, p);
      if !onScreen {
        oldValid := false;
        OffScreenKeeps(base, p, box, width, height);
        return;
      }
      RegionSmall(region, oldBuf[..]);
      CursorPaint.DrawRegion(desktop, oldBuf, cursorBuf, width, height, x, y, region, p);
      old_ := region;
      oldValid := true;
      CroppingIsLossless(base, p, box, region, width, height);
      RestoreUndoes(base, Overlay(base, p, width, height), oldBuf[..], region, width, height);
    }

    /** A clipped box never outgrows the save area. */
    lemma RegionSmall(region: Rect, saved: seq<Pixel>)
      requires region.left < region.right <= width && region.top < region.bottom <= height
      requires region.right - region.left <= CURSOR_SIZE && region.bottom - region.top <= CURSOR_SIZE
      requires |saved| == RowStart(CURSOR_SIZE, CURSOR_SIZE)
      ensures RegionFits(saved, region, width, height)
    {
      RowStartWider(region.right - region.left, CURSOR_SIZE, region.bottom - region.top);
      RowStartMonotone(CURSOR_SIZE, region.bottom - region.top, CURSOR_SIZE);
    }

    method DrawCursor()
      requires Valid()
      modifies desktop, oldBuf, this`oldValid, this`old_
      ensures Valid()
      ensures State() == old(State()).(desktop := Composite(old(Base()), old(ThePointer()), width, height))
    {
      ghost var base := Base();
      EraseCursor();
      PaintCursor(base);
    }

    // ----- Damage -----------------------------------------------------------

    method CombineRects(box: Rect)
      requires Valid() && box.left < box.right <= width && box.top < box.bottom <= height
      modifies this`rect
      ensures Valid()
      ensures rect == [Grow(old(rect[0]), box, width, height), Grow(old(rect[1]), box, width, height)]
    {
      var i := 0;
      while i < 2
        invariant 0 <= i <= 2 && |rect| == 2
        invariant rect[0] == if i > 0 then Grow(old(rect[0]), box, width, height) else old(rect[0])
        invariant rect[1] == if i > 1 then Grow(old(rect[1]), box, width, height) else old(rect[1])
      {
        CombineRect(i, box);
        i := i + 1;
      }
      GrowOk(old(rect[0]), box, width, height);
      GrowOk(old(rect[1]), box, width, height);
    }

    method CombineRect(i: nat, box: Rect)
      requires i < |rect|
      modifies this`rect
      ensures rect == old(rect)[i := Grow(old(rect[i]), box, width, height)]
    {
      var r := rect[i];
      var left, top := Min(r.left, box.left), Min(r.top, box.top);
      var right, bottom := Max(r.right, box.right), Max(r.bottom, box.bottom);
      left := AndFFC(left);
      right := Min(AndFFC(right + 3), width);
      top := AndFFE(top);
      bottom := Min(AndFFE(bottom + 1), height);
      rect := rect[i := Rect(left, right, top, bottom)];
    }

    /** Finds what changed since the last tick, and makes the shadow equal to the desktop. */
    method UpdateChangeRects()
      requires Valid()
      modifies image, this`rect
      ensures Valid()
      ensures Shadow() == Desktop() == old(Desktop())
      ensures old(Shadow()) == old(Desktop()) ==> rect == old(rect)
      ensures old(Shadow()) != old(Desktop()) ==>
                var box := DiffBox(old(Shadow()), old(Desktop()), width, height);
                rect == [Grow(old(rect[0]), box, width, height), Grow(old(rect[1]), box, width, height)]
      ensures Base() == old(Base())
    {
      ghost var shadow, desk := Shadow(), Desktop();
      var changed, box := Scan.FindDamage(image, desktop, width, height);
      if !changed {
        return;
      }
      Scan.CopyRect(image, desktop, width, height, box);
      DiffBoxPatch(shadow, desk, box, width, height);
      CombineRects(box);
    }

    lemma DiffBoxPatch(a: Image, b: Image, box: Rect, w: nat, h: nat)
      requires HasDims(a, w, h) && HasDims(b, w, h) && IsDiffBox(a, b, w, h, box)
      ensures Patch(a, b, box, w, h) == b
    {
      forall r, c | 0 <= r < h && 0 <= c < w
        ensures Patch(a, b, box, w, h)[r][c] == b[r][c]
      {
        assert Differs(a, b, w, h, r, c) ==> box.Has(r, c);
      }
      GridEq(Patch(a, b, box, w, h), b, w, h);
    }

    method FullRects()
      requires Valid()
      modifies this`rect
      ensures Valid()
      ensures State() == old(State()).(rect := [FullRect(width, height), FullRect(width, height)])
    {
      var i := 0;
      while i < 2
        invariant 0 <= i <= 2 && |rect| == 2
        invariant forall j :: 0 <= j < i ==> rect[j] == FullRect(width, height)
      {
        rect := rect[i := Rect(0, width, 0, height)];
        i := i + 1;
      }
      assert rect == [FullRect(width, height), FullRect(width, height)];
    }

    /** Composes the desktop and adds its changes to both rectangles. */
    method Refresh()
      requires Valid()
      modifies desktop, oldBuf, image, this`oldValid, this`old_, this`rect
      ensures Valid() && State() == Detect(old(State()), width, height)
    {
      DrawCursor();
      UpdateChangeRects();
    }

    // ----- Sending ----------------------------------------------------------

    method ClearRect(index: nat)
      requires Valid() && index < 2
      modifies this`rect
      ensures Valid()
      ensures State() == old(State()).(rect := old(rect)[index := Cleared(width, height)])
    {
      rect := rect[index := Rect(width, 0, height, 0)];
    }

    /** Converts and frames what is pending for the current buffer. */
    method PreparePacket() returns (len: nat)
      requires Valid() && rect[frameIndex].left < rect[frameIndex].right
      modifies usbBuf
      ensures len <= usbBuf.Length
      ensures PairAligned(rect[frameIndex], width, height)
      ensures usbBuf[..len] == Encode(FullYuv(Desktop(), width, height), rect[frameIndex], width, height)
    {
      assert desktop as object != usbBuf;
      len := BlockWriter.BuildPacket(desktop, usbBuf, width, height, rect[frameIndex]);
    }

    /** Sends the pending rectangle of the current buffer: the bus gets its packet as far as the wire takes it. */
    method SendPending(bus: Bus, wire: Wire) returns (ret: int)
      requires Valid() && rect[frameIndex].left < rect[frameIndex].right && bus.open == []
      modifies this`rect, this`frameIndex, usbBuf, bus
      ensures Valid() && bus.open == []
      ensures State() == Advanced(old(State()), ret == 0, width, height)
      ensures ret == 0 <==> Delivered(wire, |PendingPacket(old(State()), width, height)|, 0)
      ensures bus.packets == old(bus.packets) + [Reaching(wire, PendingPacket(old(State()), width, height))]
    {
      ghost var p := PendingPacket(State(), width, height);
      var len := PreparePacket();
      assert usbBuf[..len] == p;
      assert usbBuf[..Reach(wire, len, 0)] == Reaching(wire, p) by {
        SliceOfFront(usbBuf[..], len, 0, Reach(wire, len, 0));
      }
      ret := SendChunks(bus, usbBuf, len, wire);
      Advance(ret == 0);
    }

    /** Nothing is pending any more; the index moves when the packet went through. */
    method Advance(delivered: bool)
      requires Valid()
      modifies this`rect, this`frameIndex
      ensures Valid()
      ensures State() == Advanced(old(State()), delivered, width, height)
    {
      ClearRect(frameIndex);
      if delivered {
        frameIndex := if frameIndex == 0 then 1 else 0;
      }
    }

    /**
      One tick of the sender: compose, detect, and send the current buffer's
      pending rectangle over a wire that may fail at any piece. The bus gets
      nothing, or that packet as far as the wire takes it.
     */
    method SendFrame(bus: Bus, wire: Wire) returns (ret: int)
      requires Valid() && bus.open == []
      modifies this`rect, this`frameIndex, this`oldValid, this`old_, desktop, image, oldBuf, usbBuf, bus
      ensures Valid() && bus.open == []
      ensures State() == Ticked(old(State()), wire, width, height)
      ensures bus.packets == Logged(old(bus.packets), Transfers(old(State()), wire, width, height))
      ensures var d := Detect(old(State()), width, height);
              ret == 0 <==> Pending(d) && Delivered(wire, |PendingPacket(d, width, height)|, 0)
    {
      Refresh();
      if rect[frameIndex].left >= rect[frameIndex].right {
        return -1;
      }
      ret := SendPending(bus, wire);
    }
  }
}
