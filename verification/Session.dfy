// A whole session on the device: the commands give the bytes on the bus, and
// those bytes what the chip shows.

module Session {
  import opened Bits
  import opened Raster
  import opened Wrappers
  import opened Damage
  import opened Cursor
  import opened Yuv
  import opened Display
  import opened UsbHalDev
  import opened Transfer
  import opened Sending
  import FrameCopy

  /** What the compositor and the sender thread may ask for, with the outcome of the outside world. */
  datatype Command =
    | Frame(buf: seq<byte>, pitch: int, enabled: bool, tryLock: bool, free: bool)
    | SetCursor(bits: seq<Pixel>)
    | HideCursor
    | MoveCursor(x: int, y: int)
    | ForceFull
    | Send(wire: Wire)

  predicate CommandOk(c: Command) {
    c.SetCursor? ==> |c.bits| == RowStart(CURSOR_SIZE, CURSOR_SIZE)
  }

  /** The driver takes the frame: enabled, lockable, and the rows of the mode fit it. */
  predicate Accepted(c: Command, w: nat, h: nat)
    requires c.Frame?
  {
    c.enabled && (c.tryLock ==> c.free) && FrameCopy.FrameFits(|c.buf|, c.pitch, w, h)
  }

  // ----- What the commands mean ---------------------------------------------

  /** The frame and the cursor after one command. */
  ghost function FrameAfter(c: Command, frame: Image, w: nat, h: nat): Image {
    if c.Frame? && Accepted(c, w, h) then FrameCopy.Frame(c.buf, c.pitch, w, h) else frame
  }

  ghost function PointerAfter(c: Command, p: Pointer): Pointer
    requires CommandOk(c)
  {
    match c
    case SetCursor(bits) => p.(shown := true, bitmap := Rows(bits, CURSOR_SIZE, CURSOR_SIZE))
    case HideCursor => p.(shown := false)
    case MoveCursor(x, y) => p.(x := x, y := y)
    case _ => p
  }

  /** The last accepted frame, `frame` if there is none. */
  ghost function LastFrame(cs: seq<Command>, frame: Image, w: nat, h: nat): Image {
    if cs == [] then frame else FrameAfter(cs[|cs| - 1], LastFrame(cs[..|cs| - 1], frame, w, h), w, h)
  }

  /** The cursor after the commands, `p` before them. */
  ghost function LastPointer(cs: seq<Command>, p: Pointer): Pointer
    requires forall c :: c in cs ==> CommandOk(c)
  {
    if cs == [] then p
    else
      assert CommandOk(cs[|cs| - 1]);
      PointerAfter(cs[|cs| - 1], LastPointer(cs[..|cs| - 1], p))
  }

  predicate Takes(c: Command, w: nat, h: nat) {
    c.Frame? && Accepted(c, w, h)
  }

  /** The last frame is that of the last command whose frame is taken. */
  lemma {:induction false} LastFrameIs(cs: seq<Command>, i: nat, frame: Image, w: nat, h: nat)
    requires i < |cs| && Takes(cs[i], w, h)
    requires forall k :: i < k < |cs| ==> !Takes(cs[k], w, h)
    ensures LastFrame(cs, frame, w, h) == FrameCopy.Frame(cs[i].buf, cs[i].pitch, w, h)
  {
    if i < |cs| - 1 {
      LastFrameIs(cs[..|cs| - 1], i, frame, w, h);
    }
  }

  /** The cursor is where the last move put it. */
  lemma {:induction false} LastPlaceIs(cs: seq<Command>, i: nat, p: Pointer)
    requires CommandsOk(cs) && i < |cs| && cs[i].MoveCursor?
    requires forall k :: i < k < |cs| ==> !cs[k].MoveCursor?
    ensures LastPointer(cs, p).x == cs[i].x && LastPointer(cs, p).y == cs[i].y
  {
    assert CommandOk(cs[|cs| - 1]);
    if i < |cs| - 1 {
      LastPlaceIs(cs[..|cs| - 1], i, p);
    }
  }

  /** Its bitmap is the last one set, row by row, and it is shown unless it was hidden after that. */
  lemma {:induction false} LastShapeIs(cs: seq<Command>, i: nat, p: Pointer, r: nat, c: nat)
    requires CommandsOk(cs) && i < |cs| && cs[i].SetCursor? && r < 64 && c < 64
    requires forall k :: i < k < |cs| ==> !cs[k].SetCursor?
    ensures var q := LastPointer(cs, p);
            && q.Valid() && 64 * r + c < |cs[i].bits| && q.bitmap[r][c] == cs[i].bits[64 * r + c]
            && (q.shown <==> forall k :: i < k < |cs| ==> !cs[k].HideCursor?)
  {
    assert CommandOk(cs[|cs| - 1]) && CommandOk(cs[i]);
    if i < |cs| - 1 {
      LastShapeIs(cs[..|cs| - 1], i, p, r, c);
    } else {
      RowStartIsProduct(CURSOR_SIZE, r);
      PixelAt(cs[i].bits, CURSOR_SIZE, CURSOR_SIZE, r, c, 64 * r + c);
    }
  }

  // ----- What the driver does -----------------------------------------------

  /** The operation a command that sends nothing amounts to; a refused frame is none. */
  ghost function ChangeOf(c: Command, w: nat, h: nat): (op: Option<Op>)
    requires CommandOk(c) && !c.Send?
    ensures op.Some? ==> OpOk(op.value, w, h) && !op.value.Tick?
  {
    match c
    case Frame(buf, pitch, _, _, _) => if Accepted(c, w, h) then Some(Accept(FrameCopy.Frame(buf, pitch, w, h))) else None
    case SetCursor(bits) => Some(SetPointer(Rows(bits, CURSOR_SIZE, CURSOR_SIZE)))
    case HideCursor => Some(HidePointer)
    case MoveCursor(x, y) => Some(MovePointer(x, y))
    case ForceFull => Some(FullRefresh)
  }

  /** The driver after one command, and the transfer the command makes, if any. */
  ghost function DriverAfter(d: Driver, c: Command, w: nat, h: nat): (e: Driver)
    requires DriverOk(d, w, h) && CommandOk(c)
    ensures DriverOk(e, w, h)
  {
    if c.Send? then Ticked(d, c.wire, w, h)
    else if ChangeOf(c, w, h).Some? then Changed(d, ChangeOf(c, w, h).value, w, h)
    else d
  }

  ghost function SentBy(c: Command, d: Driver, w: nat, h: nat): Option<seq<byte>>
    requires DriverOk(d, w, h)
  {
    if c.Send? then Transfers(d, c.wire, w, h) else None
  }

  ghost predicate CommandsOk(cs: seq<Command>) {
    forall c :: c in cs ==> CommandOk(c)
  }

  /** The driver after all commands, and everything that has reached the chip by then. */
  ghost function DriverAfterAll(d: Driver, cs: seq<Command>, w: nat, h: nat): (e: Driver)
    requires DriverOk(d, w, h) && CommandsOk(cs)
    ensures DriverOk(e, w, h)
  {
    if cs == [] then d
    else
      assert CommandOk(cs[|cs| - 1]);
      DriverAfter(DriverAfterAll(d, cs[..|cs| - 1], w, h), cs[|cs| - 1], w, h)
  }

  ghost function LogAfterAll(d: Driver, cs: seq<Command>, log: seq<seq<byte>>, w: nat, h: nat): seq<seq<byte>>
    requires DriverOk(d, w, h) && CommandsOk(cs)
  {
    if cs == [] then log
    else
      var front := cs[..|cs| - 1];
      Logged(LogAfterAll(d, front, log, w, h), SentBy(cs[|cs| - 1], DriverAfterAll(d, front, w, h), w, h))
  }

  lemma AfterOne(d: Driver, c: Command, w: nat, h: nat)
    requires DriverOk(d, w, h) && CommandOk(c)
    ensures DriverAfter(d, c, w, h).frame == FrameAfter(c, d.frame, w, h)
    ensures DriverAfter(d, c, w, h).pointer == PointerAfter(c, d.pointer)
  {
    if c.Send? {
      var e := Detect(d, w, h);
      assert e.frame == d.frame && e.pointer == d.pointer;
    }
  }

  /** Under the drawn cursor there is the last accepted frame, and the cursor is where the commands put it. */
  lemma {:induction false} FrameAndPointer(d: Driver, cs: seq<Command>, w: nat, h: nat)
    requires DriverOk(d, w, h) && CommandsOk(cs)
    ensures DriverAfterAll(d, cs, w, h).frame == LastFrame(cs, d.frame, w, h)
    ensures DriverAfterAll(d, cs, w, h).pointer == LastPointer(cs, d.pointer)
  {
    if cs != [] {
      assert CommandOk(cs[|cs| - 1]);
      FrameAndPointer(d, cs[..|cs| - 1], w, h);
      AfterOne(DriverAfterAll(d, cs[..|cs| - 1], w, h), cs[|cs| - 1], w, h);
    }
  }

  // ----- Driver and chip together -------------------------------------------

  /** The model's step for a command; a transfer that fails leaves `spoilt` in the chip. */
  ghost function SystemAfter(s: System, c: Command, spoilt: PairGrid, w: nat, h: nat): (t: System)
    requires SystemOk(s, w, h) && CommandOk(c) && HasDims(spoilt, w / 2, h)
    ensures SystemOk(t, w, h)
  {
    if c.Send? then Step(s, Tick(GoesThrough(c.wire, s.drv, w, h), spoilt), w, h)
    else if ChangeOf(c, w, h).Some? then Step(s, ChangeOf(c, w, h).value, w, h)
    else s
  }

  ghost predicate LosesAck(c: Command, d: Driver, w: nat, h: nat)
    requires DriverOk(d, w, h)
  {
    c.Send? && Unacknowledged(c.wire, d, w, h)
  }

  /** Unless it loses an acknowledgement, a command is that step: the driver's part and the chip's from the bus. */
  lemma CommandIsStep(s: System, c: Command, spoilt: PairGrid, w: nat, h: nat)
    requires SystemOk(s, w, h) && CommandOk(c) && HasDims(spoilt, w / 2, h) && !LosesAck(c, s.drv, w, h)
    ensures var t := SystemAfter(s, c, spoilt, w, h);
            && t.drv == DriverAfter(s.drv, c, w, h)
            && t.chip == ReceivedNext(s.chip, SentBy(c, s.drv, w, h), spoilt, w, h)
  {
    if c.Send? {
      TickIsStep(s, c.wire, spoilt, w, h);
    }
  }

  /** The n-th transfer, if it fails, leaves `spoil(n)` in the chip. */
  ghost function SystemAfterAll(s: System, cs: seq<Command>, log: seq<seq<byte>>, spoil: Spoiling, w: nat, h: nat): (t: System)
    requires SystemOk(s, w, h) && CommandsOk(cs) && SpoilingOk(spoil, w, h)
    ensures SystemOk(t, w, h)
  {
    if cs == [] then s
    else
      var front := cs[..|cs| - 1];
      assert CommandOk(cs[|cs| - 1]);
      SystemAfter(SystemAfterAll(s, front, log, spoil, w, h), cs[|cs| - 1],
                  spoil(|LogAfterAll(s.drv, front, log, w, h)|), w, h)
  }

  ghost predicate NoAckLost(d: Driver, cs: seq<Command>, w: nat, h: nat)
    requires DriverOk(d, w, h) && CommandsOk(cs)
  {
    cs == [] ||
    (var front := cs[..|cs| - 1];
     NoAckLost(d, front, w, h) && !LosesAck(cs[|cs| - 1], DriverAfterAll(d, front, w, h), w, h))
  }

  /**
    Any commands over any wires that lose no acknowledgement are a run of the
    model: its driver is the driver, and its chip is what the bytes on the bus,
    from the first packet on, have made of it.
   */
  lemma {:induction false} RunIsModelRun(s: System, cs: seq<Command>, c0: Chip, log: seq<seq<byte>>, spoil: Spoiling,
                                         w: nat, h: nat)
    requires SystemOk(s, w, h) && CommandsOk(cs) && ChipOk(c0, w, h) && SpoilingOk(spoil, w, h)
    requires s.chip == ReceivedAll(c0, log, spoil, w, h) && NoAckLost(s.drv, cs, w, h)
    ensures var t := SystemAfterAll(s, cs, log, spoil, w, h);
            && t.drv == DriverAfterAll(s.drv, cs, w, h)
            && t.chip == ReceivedAll(c0, LogAfterAll(s.drv, cs, log, w, h), spoil, w, h)
  {
    if cs != [] {
      var front, last := cs[..|cs| - 1], cs[|cs| - 1];
      var m, sofar := SystemAfterAll(s, front, log, spoil, w, h), LogAfterAll(s.drv, front, log, w, h);
      assert CommandOk(last);
      RunIsModelRun(s, front, c0, log, spoil, w, h);
      CommandIsStep(m, last, spoil(|sofar|), w, h);
      ReceivedLogged(c0, sofar, SentBy(last, m.drv, w, h), spoil, w, h);
    }
  }

  // ----- What the chip shows ------------------------------------------------

  /** Every send of the run goes through or has nothing to send. */
  ghost predicate AllGoThrough(d: Driver, cs: seq<Command>, w: nat, h: nat)
    requires DriverOk(d, w, h) && CommandsOk(cs)
  {
    cs == [] ||
    (var front, last := cs[..|cs| - 1], cs[|cs| - 1];
     AllGoThrough(d, front, w, h) && (last.Send? ==> GoesThrough(last.wire, DriverAfterAll(d, front, w, h), w, h)))
  }

  lemma {:induction false} ThroughLosesNoAck(d: Driver, cs: seq<Command>, w: nat, h: nat)
    requires DriverOk(d, w, h) && CommandsOk(cs) && AllGoThrough(d, cs, w, h)
    ensures NoAckLost(d, cs, w, h)
  {
    if cs != [] {
      ThroughLosesNoAck(d, cs[..|cs| - 1], w, h);
    }
  }

  lemma StaysSound(s: System, c: Command, spoilt: PairGrid, w: nat, h: nat)
    requires SystemOk(s, w, h) && CommandOk(c) && HasDims(spoilt, w / 2, h) && Sound(s, w, h)
    requires c.Send? ==> GoesThrough(c.wire, s.drv, w, h)
    ensures Sound(SystemAfter(s, c, spoilt, w, h), w, h)
  {
    if c.Send? {
      StepAgrees(s, Tick(true, spoilt), w, h);
    } else if ChangeOf(c, w, h).Some? {
      StepAgrees(s, ChangeOf(c, w, h).value, w, h);
    }
  }

  lemma {:induction false} RunStaysSound(s: System, cs: seq<Command>, c0: Chip, log: seq<seq<byte>>, spoil: Spoiling,
                                         w: nat, h: nat)
    requires SystemOk(s, w, h) && CommandsOk(cs) && ChipOk(c0, w, h) && SpoilingOk(spoil, w, h)
    requires s.chip == ReceivedAll(c0, log, spoil, w, h) && AllGoThrough(s.drv, cs, w, h) && Sound(s, w, h)
    ensures Sound(SystemAfterAll(s, cs, log, spoil, w, h), w, h)
  {
    if cs != [] {
      var front, last := cs[..|cs| - 1], cs[|cs| - 1];
      assert CommandOk(last);
      RunStaysSound(s, front, c0, log, spoil, w, h);
      ThroughLosesNoAck(s.drv, front, w, h);
      RunIsModelRun(s, front, c0, log, spoil, w, h);
      StaysSound(SystemAfterAll(s, front, log, spoil, w, h), last,
                 spoil(|LogAfterAll(s.drv, front, log, w, h)|), w, h);
    }
  }

  /** A send that goes through, or has nothing to send, shows the composed frame. */
  lemma SendShows(m: System, wire: Wire, spoilt: PairGrid, w: nat, h: nat)
    requires SystemOk(m, w, h) && HasDims(spoilt, w / 2, h) && Sound(m, w, h) && GoesThrough(wire, m.drv, w, h)
    ensures OnShow(ReceivedNext(m.chip, Transfers(m.drv, wire, w, h), spoilt, w, h), w, h) ==
            FullYuv(Composite(m.drv.frame, m.drv.pointer, w, h), w, h)
  {
    TickIsStep(m, wire, spoilt, w, h);
    TickShowsDesktop(m, spoilt, w, h);
  }

  /** What is on the bus after a full refresh, the commands and a send. */
  ghost function WholeLog(d: Driver, cs: seq<Command>, wire: Wire, log: seq<seq<byte>>, w: nat, h: nat): seq<seq<byte>>
    requires DriverOk(d, w, h) && CommandsOk(cs)
  {
    var f := Changed(d, FullRefresh, w, h);
    Logged(LogAfterAll(f, cs, log, w, h), Transfers(DriverAfterAll(f, cs, w, h), wire, w, h))
  }

  /** All its sends go through. */
  ghost predicate WholeThrough(d: Driver, cs: seq<Command>, wire: Wire, w: nat, h: nat)
    requires DriverOk(d, w, h) && CommandsOk(cs)
  {
    var f := Changed(d, FullRefresh, w, h);
    AllGoThrough(f, cs, w, h) && GoesThrough(wire, DriverAfterAll(f, cs, w, h), w, h)
  }

  /** The screen is this frame under this cursor. */
  ghost predicate Showing(c: Chip, frame: Image, p: Pointer, w: nat, h: nat)
    requires ModeOk(w, h) && ChipOk(c, w, h)
  {
    HasDims(frame, w, h) && p.Valid() && OnShow(c, w, h) == FullYuv(Composite(frame, p, w, h), w, h)
  }

  /**
    A full refresh, any commands and one more send, all through: the bytes the
    chip has received leave on its screen the last accepted frame under the
    cursor the commands set, whatever it held before.
   */
  lemma CommandsShow(d: Driver, c0: Chip, cs: seq<Command>, wire: Wire, log: seq<seq<byte>>, spoil: Spoiling, w: nat, h: nat)
    requires DriverOk(d, w, h) && CommandsOk(cs) && ChipOk(c0, w, h) && SpoilingOk(spoil, w, h)
    requires ReceivedAll(c0, log, spoil, w, h).index == d.index && WholeThrough(d, cs, wire, w, h)
    ensures Showing(ReceivedAll(c0, WholeLog(d, cs, wire, log, w, h), spoil, w, h),
                    LastFrame(cs, d.frame, w, h), LastPointer(cs, d.pointer), w, h)
  {
    var s := System(d, ReceivedAll(c0, log, spoil, w, h), [false, false]);
    var f := Step(s, FullRefresh, w, h);
    var m, sofar := SystemAfterAll(f, cs, log, spoil, w, h), LogAfterAll(f.drv, cs, log, w, h);
    FullRefreshAgrees(s, w, h);
    RunStaysSound(f, cs, c0, log, spoil, w, h);
    ThroughLosesNoAck(f.drv, cs, w, h);
    RunIsModelRun(f, cs, c0, log, spoil, w, h);
    FrameAndPointer(f.drv, cs, w, h);
    SendShows(m, wire, spoil(|sofar|), w, h);
    ReceivedLogged(c0, sofar, Transfers(m.drv, wire, w, h), spoil, w, h);
  }

  /** The luma on show for one pixel. */
  ghost function LumaAt(chip: Chip, w: nat, h: nat, r: nat, c: nat): int
    requires ModeOk(w, h) && ChipOk(chip, w, h) && r < h && c < w
  {
    var pair := OnShow(chip, w, h)[r][c / 2];
    if c % 2 == 0 then pair.y0 else pair.y1
  }

  predicate UnderCursor(p: Pointer, r: int, c: int) {
    p.shown && p.y <= r < p.y + 64 && p.x <= c < p.x + 64
  }

  lemma ScreenPixel(chip: Chip, frame: Image, p: Pointer, w: nat, h: nat, r: nat, c: nat)
    requires ModeOk(w, h) && ChipOk(chip, w, h) && r < h && c < w
    requires Showing(chip, frame, p, w, h) && !UnderCursor(p, r, c)
    ensures IsLuma(LumaAt(chip, w, h, r, c), frame[r][c].r, frame[r][c].g, frame[r][c].b)
  {
    CompositePixel(frame, p, w, h, r, c);
    ConvertKeepsLuma();
    LumaOfPixel(ConvertPair, Composite(frame, p, w, h), w, h, r, c);
  }

  /**
    From the screen down to the bytes: away from the cursor the luma of a pixel
    is the standard's of its blue, green and red in the framebuffer.
   */
  lemma ScreenIsFrame(chip: Chip, buf: seq<byte>, pitch: int, p: Pointer, w: nat, h: nat, r: nat, c: nat)
    requires ModeOk(w, h) && ChipOk(chip, w, h) && FrameCopy.FrameFits(|buf|, pitch, w, h) && r < h && c < w
    requires Showing(chip, FrameCopy.Frame(buf, pitch, w, h), p, w, h) && !UnderCursor(p, r, c)
    ensures var i := pitch * r + 4 * c;
            0 <= i && i + 4 <= |buf| && IsLuma(LumaAt(chip, w, h, r, c), buf[i + 2], buf[i + 1], buf[i])
  {
    FrameCopy.FrameBytes(buf, pitch, w, h, r, c);
    ScreenPixel(chip, FrameCopy.Frame(buf, pitch, w, h), p, w, h, r, c);
  }

  // ----- The device ---------------------------------------------------------

  /** A command that sends nothing. */
  method ExecuteChange(dev: UsbHalDev, c: Command)
    requires dev.Valid() && CommandOk(c) && !c.Send?
    modifies dev, dev.desktop, dev.cursorBuf
    ensures dev.Valid() && dev.State() == DriverAfter(old(dev.State()), c, dev.width, dev.height)
  {
    match c {
      case Frame(buf, pitch, enabled, tryLock, free) =>
        var ret := dev.UpdateFrame(buf, pitch, enabled, tryLock, free);
      case SetCursor(bits) =>
        dev.CursorSet(bits);
      case HideCursor =>
        dev.CursorHide();
      case MoveCursor(x, y) =>
        dev.CursorMove(x, y);
      case ForceFull =>
        dev.FullRects();
    }
  }

  /** Runs one command: the device and what is on the bus are the command's. */
  method Execute(dev: UsbHalDev, bus: Bus, c: Command)
    requires dev.Valid() && CommandOk(c) && bus.open == []
    modifies dev, dev.desktop, dev.image, dev.usbBuf, dev.cursorBuf, dev.oldBuf, bus
    ensures dev.Valid() && bus.open == []
    ensures dev.State() == DriverAfter(old(dev.State()), c, dev.width, dev.height)
    ensures bus.packets == Logged(old(bus.packets), SentBy(c, old(dev.State()), dev.width, dev.height))
  {
    if c.Send? {
      var ret := dev.SendFrame(bus, c.wire);
    } else {
      ExecuteChange(dev, c);
    }
  }

  lemma NextPrefix(d: Driver, cs: seq<Command>, log: seq<seq<byte>>, i: nat, w: nat, h: nat)
    requires DriverOk(d, w, h) && CommandsOk(cs) && i < |cs|
    ensures CommandsOk(cs[..i]) && CommandsOk(cs[..i + 1]) && CommandOk(cs[i])
    ensures DriverAfterAll(d, cs[..i + 1], w, h) == DriverAfter(DriverAfterAll(d, cs[..i], w, h), cs[i], w, h)
    ensures LogAfterAll(d, cs[..i + 1], log, w, h) ==
            Logged(LogAfterAll(d, cs[..i], log, w, h), SentBy(cs[i], DriverAfterAll(d, cs[..i], w, h), w, h))
  {
    assert cs[..i + 1][..i] == cs[..i];
  }

  /**
    Any sequence of commands over any wires: the device and the bytes on the
    bus are those of the commands, and undoing the drawn cursor gives the last
    accepted frame.
   */
  method RunCommands(dev: UsbHalDev, bus: Bus, cs: seq<Command>)
    requires dev.Valid() && CommandsOk(cs) && bus.open == []
    modifies dev, dev.desktop, dev.image, dev.usbBuf, dev.cursorBuf, dev.oldBuf, bus
    ensures dev.Valid() && bus.open == []
    ensures dev.State() == DriverAfterAll(old(dev.State()), cs, dev.width, dev.height)
    ensures bus.packets == LogAfterAll(old(dev.State()), cs, old(bus.packets), dev.width, dev.height)
    ensures dev.Base() == LastFrame(cs, old(dev.Base()), dev.width, dev.height)
    ensures dev.ThePointer() == LastPointer(cs, old(dev.ThePointer()))
  {
    ghost var d, log := dev.State(), bus.packets;
    for i := 0 to |cs|
      invariant dev.Valid() && bus.open == [] && CommandsOk(cs[..i])
      invariant dev.State() == DriverAfterAll(d, cs[..i], dev.width, dev.height)
      invariant bus.packets == LogAfterAll(d, cs[..i], log, dev.width, dev.height)
    {
      NextPrefix(d, cs, log, i, dev.width, dev.height);
      Execute(dev, bus, cs[i]);
    }
    assert cs[..|cs|] == cs;
    FrameAndPointer(d, cs, dev.width, dev.height);
  }

  /** A full refresh, any commands and a send: what is on the bus then is a function of the commands. */
  method RefreshAndSend(dev: UsbHalDev, bus: Bus, cs: seq<Command>, wire: Wire)
    requires dev.Valid() && CommandsOk(cs) && bus.open == []
    modifies dev, dev.desktop, dev.image, dev.usbBuf, dev.cursorBuf, dev.oldBuf, bus
    ensures dev.Valid() && bus.open == []
    ensures bus.packets == WholeLog(old(dev.State()), cs, wire, old(bus.packets), dev.width, dev.height)
  {
    ghost var d, log, w, h := dev.State(), bus.packets, dev.width, dev.height;
    dev.FullRects();
    ghost var f := dev.State();
    assert f == Changed(d, FullRefresh, w, h) && bus.packets == log;
    RunCommands(dev, bus, cs);
    ghost var m, sofar := dev.State(), bus.packets;
    var ret := dev.SendFrame(bus, wire);
    assert bus.packets == Logged(sofar, Transfers(m, wire, w, h));
  }

  /**
    `c0` is the chip before the bus carried anything; its index must be the
    driver's when this starts. If the wires take everything, what the chip
    shows after all the bytes on the bus is what the commands say.
   */
  method RefreshAndShow(dev: UsbHalDev, bus: Bus, cs: seq<Command>, wire: Wire, ghost c0: Chip, ghost spoil: Spoiling)
    requires dev.Valid() && CommandsOk(cs) && bus.open == []
    requires ChipOk(c0, dev.width, dev.height) && SpoilingOk(spoil, dev.width, dev.height)
    requires ReceivedAll(c0, bus.packets, spoil, dev.width, dev.height).index == dev.frameIndex
    modifies dev, dev.desktop, dev.image, dev.usbBuf, dev.cursorBuf, dev.oldBuf, bus
    ensures WholeThrough(old(dev.State()), cs, wire, dev.width, dev.height) ==>
              Showing(ReceivedAll(c0, bus.packets, spoil, dev.width, dev.height),
                      LastFrame(cs, old(dev.Base()), dev.width, dev.height), LastPointer(cs, old(dev.ThePointer())),
                      dev.width, dev.height)
  {
    ghost var d, log, w, h := dev.State(), bus.packets, dev.width, dev.height;
    RefreshAndSend(dev, bus, cs, wire);
    if WholeThrough(d, cs, wire, w, h) {
      CommandsShow(d, c0, cs, wire, log, spoil, w, h);
    }
  }
}
