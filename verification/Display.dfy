// The display pipeline as a whole: driver state, the chip's two frames, and
// what the chip shows after any run of frames, cursor changes and transfers.

module Display {
  import opened Raster
  import opened Damage
  import opened Cursor
  import opened Yuv

  /**
    `frame` is the last accepted frame, `desktop` what was composed from it at
    the last tick, `shadow` what the change detection last saw; `rect[i]` is the
    damage pending for chip buffer `i` and `index` the buffer sent next.
   */
  datatype Driver = Driver(
    frame: Image, desktop: Image, shadow: Image,
    pointer: Pointer, rect: seq<Rect>, index: nat)

  /** The chip stores a received block in `frames[index]`, shows that frame, and flips `index`. */
  datatype Chip = Chip(frames: seq<PairGrid>, index: nat)

  /** `trusted[i]` says that no send to buffer `i` failed since the last full refresh. */
  datatype System = System(drv: Driver, chip: Chip, trusted: seq<bool>)

  datatype Op =
    | Accept(frame: Image)
    | SetPointer(bitmap: Image)
    | HidePointer
    | MovePointer(x: int, y: int)
    | FullRefresh
      // A failed transfer leaves arbitrary pairs in the chip buffer.
    | Tick(delivered: bool, junk: PairGrid)

  ghost predicate DriverOk(d: Driver, w: nat, h: nat) {
    && ModeOk(w, h)
    && HasDims(d.frame, w, h) && HasDims(d.desktop, w, h) && HasDims(d.shadow, w, h)
    && d.pointer.Valid()
    && |d.rect| == 2 && RectOk(d.rect[0], w, h) && RectOk(d.rect[1], w, h)
    && d.index < 2
  }

  ghost predicate ChipOk(c: Chip, w: nat, h: nat) {
    |c.frames| == 2 && HasDims(c.frames[0], w / 2, h) && HasDims(c.frames[1], w / 2, h) && c.index < 2
  }

  /** Well-formed, and the driver's index is the chip's. */
  ghost predicate SystemOk(s: System, w: nat, h: nat) {
    DriverOk(s.drv, w, h) && ChipOk(s.chip, w, h) && s.chip.index == s.drv.index && |s.trusted| == 2
  }

  ghost predicate OpOk(op: Op, w: nat, h: nat) {
    match op
    case Accept(f) => HasDims(f, w, h)
    case SetPointer(b) => HasDims(b, CURSOR_SIZE, CURSOR_SIZE)
    case Tick(_, junk) => HasDims(junk, w / 2, h)
    case _ => true
  }

  // ----- One step -----------------------------------------------------------

  /** Compose the desktop, find what changed since the last tick, and add it to both rectangles. */
  ghost function Detect(d: Driver, w: nat, h: nat): (e: Driver)
    requires DriverOk(d, w, h)
    ensures DriverOk(e, w, h)
    ensures e.shadow == e.desktop == Composite(d.frame, d.pointer, w, h)
  {
    var desktop := Composite(d.frame, d.pointer, w, h);
    if desktop == d.shadow then d.(desktop := desktop)
    else
      var box := DiffBox(d.shadow, desktop, w, h);
      GrowOk(d.rect[0], box, w, h);
      GrowOk(d.rect[1], box, w, h);
      d.(desktop := desktop, shadow := desktop,
      rect := [Grow(d.rect[0], box, w, h), Grow(d.rect[1], box, w, h)])
  }

  /** Nothing is pending for the current buffer any more; the index moves when the packet went through. */
  ghost function Advanced(d: Driver, delivered: bool, w: nat, h: nat): (e: Driver)
    requires DriverOk(d, w, h)
    ensures DriverOk(e, w, h)
  {
    d.(rect := d.rect[d.index := Cleared(w, h)], index := if delivered then 1 - d.index else d.index)
  }

  /**
    Send the pending rectangle of the current buffer. A delivered block is the
    rectangle's slice of the converted desktop (Packet.ReceiveIsPatch says the
    packet does that); the pending rectangle is cleared in either case.
   */
  ghost function Send(s: System, delivered: bool, junk: PairGrid, w: nat, h: nat): (t: System)
    requires SystemOk(s, w, h) && HasDims(junk, w / 2, h)
    ensures SystemOk(t, w, h)
  {
    var i := s.drv.index;
    var drv := Advanced(s.drv, delivered, w, h);
    if delivered then
      var stored := Patch(s.chip.frames[i], FullYuv(s.drv.desktop, w, h), PairRect(s.drv.rect[i]), w / 2, h);
      s.(drv := drv, chip := Chip(s.chip.frames[i := stored], 1 - i))
    else
      s.(drv := drv, chip := Chip(s.chip.frames[i := junk], i), trusted := s.trusted[i := false])
  }

  /** The frame on show is the one the last complete block went to. */
  ghost function OnShow(c: Chip, w: nat, h: nat): PairGrid
    requires ChipOk(c, w, h)
  {
    c.frames[1 - c.index]
  }

  ghost function Shown(s: System, w: nat, h: nat): PairGrid
    requires SystemOk(s, w, h)
  {
    OnShow(s.chip, w, h)
  }

  /** The driver after an operation that sends nothing. */
  ghost function Changed(d: Driver, op: Op, w: nat, h: nat): (e: Driver)
    requires DriverOk(d, w, h) && OpOk(op, w, h) && !op.Tick?
    ensures DriverOk(e, w, h)
  {
    match op
    case Accept(f) => d.(frame := f, desktop := f)
    case SetPointer(b) => d.(pointer := d.pointer.(shown := true, bitmap := b))
    case HidePointer => d.(pointer := d.pointer.(shown := false))
    case MovePointer(x, y) => d.(pointer := d.pointer.(x := x, y := y))
    case FullRefresh => d.(rect := [FullRect(w, h), FullRect(w, h)])
  }

  ghost function Step(s: System, op: Op, w: nat, h: nat): (t: System)
    requires SystemOk(s, w, h) && OpOk(op, w, h)
    ensures SystemOk(t, w, h)
  {
    match op
    case FullRefresh => s.(drv := Changed(s.drv, op, w, h), trusted := [true, true])
    case Tick(delivered, junk) =>
      var e := Detect(s.drv, w, h);
      if e.rect[e.index].Empty() then s.(drv := e) else Send(s.(drv := e), delivered, junk, w, h)
    case _ => s.(drv := Changed(s.drv, op, w, h))
  }

  ghost function Run(s: System, ops: seq<Op>, w: nat, h: nat): (t: System)
    requires SystemOk(s, w, h) && forall op :: op in ops ==> OpOk(op, w, h)
    ensures SystemOk(t, w, h)
    decreases |ops|
  {
    if ops == [] then s
    else Step(Run(s, ops[..|ops| - 1], w, h), ops[|ops| - 1], w, h)
  }

  /**
    A tick adds to what is pending for a buffer the tight box of what changed
    since the last one, aligned, and nothing else; nothing when nothing changed.
   */
  lemma DetectIsTight(d: Driver, i: nat, box: Rect, w: nat, h: nat)
    requires DriverOk(d, w, h) && i < 2
    ensures var e := Detect(d, w, h);
            && (e.shadow == d.shadow ==> e.rect[i] == d.rect[i])
            && (e.shadow != d.shadow && IsDiffBox(d.shadow, e.shadow, w, h, box) ==> Joins(e.rect[i], d.rect[i], box, w, h))
  {
    var e := Detect(d, w, h);
    if e.shadow != d.shadow && IsDiffBox(d.shadow, e.shadow, w, h, box) {
      DiffBoxUnique(d.shadow, e.shadow, w, h, box, DiffBox(d.shadow, e.shadow, w, h));
      GrowTight(d.rect[i], box, w, h);
    }
  }

  // ----- Double-buffer agreement --------------------------------------------

  /** Outside `rect`, the chip frame is the conversion of `img`. */
  ghost predicate Agrees(frame: PairGrid, img: Image, rect: Rect, w: nat, h: nat)
    requires ModeOk(w, h) && HasDims(frame, w / 2, h) && HasDims(img, w, h)
  {
    forall r, k :: 0 <= r < h && 0 <= k < w / 2 && !PairRect(rect).Has(r, k) ==>
      frame[r][k] == FullYuv(img, w, h)[r][k]
  }

  /**
    Both chip buffers agree with the shadow outside their pending rectangles,
    and nothing is pending for the frame on show that is not pending for the
    one sent next.
   */
  ghost predicate Agreement(s: System, w: nat, h: nat)
    requires SystemOk(s, w, h)
  {
    var d := s.drv;
    && (s.trusted[0] ==> Agrees(s.chip.frames[0], d.shadow, d.rect[0], w, h))
    && (s.trusted[1] ==> Agrees(s.chip.frames[1], d.shadow, d.rect[1], w, h))
    && (s.trusted[0] && s.trusted[1] ==> Covers(d.rect[d.index], d.rect[1 - d.index]))
  }

  /** Both buffers agree, and no send to either failed since the last full refresh. */
  ghost predicate Sound(s: System, w: nat, h: nat)
    requires SystemOk(s, w, h)
  {
    Agreement(s, w, h) && s.trusted == [true, true]
  }

  lemma FullRectAgrees(frame: PairGrid, img: Image, w: nat, h: nat)
    requires ModeOk(w, h) && HasDims(frame, w / 2, h) && HasDims(img, w, h)
    ensures Agrees(frame, img, FullRect(w, h), w, h)
  {
    assert forall r, k :: 0 <= r < h && 0 <= k < w / 2 ==> PairRect(FullRect(w, h)).Has(r, k);
  }

  /** A full refresh establishes agreement whatever the chip holds. */
  lemma FullRefreshAgrees(s: System, w: nat, h: nat)
    requires SystemOk(s, w, h)
    ensures Agreement(Step(s, FullRefresh, w, h), w, h)
  {
    var f := Step(s, FullRefresh, w, h);
    assert f.chip == s.chip && f.drv.shadow == s.drv.shadow;
    assert f.drv.rect[0] == FullRect(w, h) && f.drv.rect[1] == FullRect(w, h);
    FullRectAgrees(s.chip.frames[0], s.drv.shadow, w, h);
    FullRectAgrees(s.chip.frames[1], s.drv.shadow, w, h);
  }

  /** Outside a rectangle that covers the change, one pair stays as it was. */
  lemma PairKept(before: Image, after: Image, grown: Rect, w: nat, h: nat, r: nat, k: nat)
    requires ModeOk(w, h) && HasDims(before, w, h) && HasDims(after, w, h) && RectOk(grown, w, h)
    requires forall r, c :: Differs(before, after, w, h, r, c) ==> grown.Has(r, c)
    requires r < h && k < w / 2 && !PairRect(grown).Has(r, k)
    ensures FullYuv(before, w, h)[r][k] == FullYuv(after, w, h)[r][k]
  {
    assert !Differs(before, after, w, h, r, 2 * k);
    assert !Differs(before, after, w, h, r, 2 * k + 1);
    PairFromPixels(ConvertPair, before, after, w, h, r, k);
  }

  /** Agreement survives a change of the shadow when the rectangle grows to cover the change. */
  lemma GrowAgrees(frame: PairGrid, before: Image, after: Image, rect: Rect, grown: Rect, w: nat, h: nat)
    requires ModeOk(w, h) && HasDims(frame, w / 2, h) && HasDims(before, w, h) && HasDims(after, w, h)
    requires Agrees(frame, before, rect, w, h)
    requires RectOk(rect, w, h) && RectOk(grown, w, h) && Covers(grown, rect)
    requires forall r, c :: Differs(before, after, w, h, r, c) ==> grown.Has(r, c)
    ensures Agrees(frame, after, grown, w, h)
  {
    forall r, k | 0 <= r < h && 0 <= k < w / 2 && !PairRect(grown).Has(r, k)
      ensures frame[r][k] == FullYuv(after, w, h)[r][k]
    {
      assert !PairRect(rect).Has(r, k);
      PairKept(before, after, grown, w, h, r, k);
    }
  }

  lemma DamageAgrees(frame: PairGrid, before: Image, after: Image, rect: Rect, w: nat, h: nat)
    requires ModeOk(w, h) && HasDims(frame, w / 2, h) && HasDims(before, w, h) && HasDims(after, w, h)
    requires RectOk(rect, w, h) && before != after && Agrees(frame, before, rect, w, h)
    ensures Agrees(frame, after, Grow(rect, DiffBox(before, after, w, h), w, h), w, h)
  {
    var box := DiffBox(before, after, w, h);
    GrowOk(rect, box, w, h);
    GrowAgrees(frame, before, after, rect, Grow(rect, box, w, h), w, h);
  }

  /** What agreement says of one trusted buffer. */
  lemma BufferAgrees(s: System, i: nat, w: nat, h: nat)
    requires SystemOk(s, w, h) && Agreement(s, w, h) && i < 2 && s.trusted[i]
    ensures RectOk(s.drv.rect[i], w, h) && HasDims(s.chip.frames[i], w / 2, h)
    ensures Agrees(s.chip.frames[i], s.drv.shadow, s.drv.rect[i], w, h)
  {
    if i == 0 {
      assert Agrees(s.chip.frames[0], s.drv.shadow, s.drv.rect[0], w, h);
    } else {
      assert i == 1 && Agrees(s.chip.frames[1], s.drv.shadow, s.drv.rect[1], w, h);
    }
  }

  lemma DetectAgrees(s: System, w: nat, h: nat)
    requires SystemOk(s, w, h) && Agreement(s, w, h)
    ensures Agreement(s.(drv := Detect(s.drv, w, h)), w, h)
  {
    var d := s.drv;
    var desktop := Composite(d.frame, d.pointer, w, h);
    if desktop != d.shadow {
      var box := DiffBox(d.shadow, desktop, w, h);
      if s.trusted[0] {
        DamageAgrees(s.chip.frames[0], d.shadow, desktop, d.rect[0], w, h);
      }
      if s.trusted[1] {
        DamageAgrees(s.chip.frames[1], d.shadow, desktop, d.rect[1], w, h);
      }
      if s.trusted[0] && s.trusted[1] {
        GrowNested(d.rect[d.index], d.rect[1 - d.index], box, w, h);
      }
    }
  }

  /** A delivered block leaves the buffer it went to equal to the whole-frame conversion. */
  lemma SendRepairs(s: System, junk: PairGrid, w: nat, h: nat)
    requires SystemOk(s, w, h) && HasDims(junk, w / 2, h)
    requires s.drv.shadow == s.drv.desktop && Agreement(s, w, h) && s.trusted[s.drv.index]
    ensures var t := Send(s, true, junk, w, h);
            && t.chip.frames == s.chip.frames[s.drv.index := FullYuv(s.drv.desktop, w, h)]
            && Shown(t, w, h) == FullYuv(s.drv.desktop, w, h)
  {
    var d := s.drv;
    var want := FullYuv(d.desktop, w, h);
    BufferAgrees(s, d.index, w, h);
    GridEq(Patch(s.chip.frames[d.index], want, PairRect(d.rect[d.index]), w / 2, h), want, w / 2, h);
  }

  lemma SendAgrees(s: System, delivered: bool, junk: PairGrid, w: nat, h: nat)
    requires SystemOk(s, w, h) && HasDims(junk, w / 2, h)
    requires s.drv.shadow == s.drv.desktop && Agreement(s, w, h)
    ensures Agreement(Send(s, delivered, junk, w, h), w, h)
  {
    if delivered && s.trusted[s.drv.index] {
      SendRepairs(s, junk, w, h);
    }
  }

  /** Every step keeps agreement, failed transfers included. */
  lemma StepAgrees(s: System, op: Op, w: nat, h: nat)
    requires SystemOk(s, w, h) && OpOk(op, w, h) && Agreement(s, w, h)
    ensures Agreement(Step(s, op, w, h), w, h)
  {
    if op.Tick? {
      DetectAgrees(s, w, h);
      var e := s.(drv := Detect(s.drv, w, h));
      if !e.drv.rect[e.drv.index].Empty() {
        SendAgrees(e, op.delivered, op.junk, w, h);
      }
    }
  }

  lemma {:induction false} RunAgrees(s: System, ops: seq<Op>, w: nat, h: nat)
    requires SystemOk(s, w, h) && (forall op :: op in ops ==> OpOk(op, w, h)) && Agreement(s, w, h)
    ensures Agreement(Run(s, ops, w, h), w, h)
    decreases |ops|
  {
    if ops != [] {
      RunAgrees(s, ops[..|ops| - 1], w, h);
      StepAgrees(Run(s, ops[..|ops| - 1], w, h), ops[|ops| - 1], w, h);
    }
  }

  // ----- After a loss -------------------------------------------------------

  /** Buffer `i` holds something else than the shadow at this pair, and nothing is pending there. */
  ghost predicate Stale(s: System, i: nat, r: nat, k: nat, w: nat, h: nat)
    requires SystemOk(s, w, h) && i < 2 && r < h && k < w / 2
  {
    !PairRect(s.drv.rect[i]).Has(r, k) && Buffer(s.chip, i, w, h)[r][k] != FullYuv(s.drv.shadow, w, h)[r][k]
  }

  ghost function Buffer(c: Chip, i: nat, w: nat, h: nat): (g: PairGrid)
    requires ChipOk(c, w, h) && i < 2
    ensures HasDims(g, w / 2, h) && g == c.frames[i]
  {
    if i == 0 then c.frames[0] else c.frames[1]
  }

  ghost predicate NoneStale(s: System, i: nat, w: nat, h: nat)
    requires SystemOk(s, w, h) && i < 2
  {
    forall r, k :: 0 <= r < h && 0 <= k < w / 2 ==> !Stale(s, i, r, k, w, h)
  }

  /** Agreement of a buffer is that none of its pairs is stale. */
  lemma AgreesIff(s: System, i: nat, w: nat, h: nat)
    requires SystemOk(s, w, h) && i < 2
    ensures Agrees(Buffer(s.chip, i, w, h), s.drv.shadow, s.drv.rect[i], w, h) <==> NoneStale(s, i, w, h)
  {
    var frame, want, rect := Buffer(s.chip, i, w, h), FullYuv(s.drv.shadow, w, h), s.drv.rect[i];
    if NoneStale(s, i, w, h) {
      forall r, k | 0 <= r < h && 0 <= k < w / 2 && !PairRect(rect).Has(r, k)
        ensures frame[r][k] == want[r][k]
      {
        assert !Stale(s, i, r, k, w, h);
      }
    }
    if Agrees(frame, s.drv.shadow, rect, w, h) {
      forall r, k | 0 <= r < h && 0 <= k < w / 2
        ensures !Stale(s, i, r, k, w, h)
      {
        assert PairRect(rect).Has(r, k) || frame[r][k] == want[r][k];
      }
    }
  }

  /** Composing and growing: a pair stays stale exactly when the grown rectangle leaves it out. */
  lemma DetectStale(s: System, i: nat, r: nat, k: nat, w: nat, h: nat)
    requires SystemOk(s, w, h) && i < 2 && r < h && k < w / 2
    ensures var e := s.(drv := Detect(s.drv, w, h));
            Stale(e, i, r, k, w, h) <==> Stale(s, i, r, k, w, h) && !PairRect(e.drv.rect[i]).Has(r, k)
  {
    var d := s.drv;
    var desktop := Composite(d.frame, d.pointer, w, h);
    if desktop != d.shadow {
      var box := DiffBox(d.shadow, desktop, w, h);
      var grown := Grow(d.rect[i], box, w, h);
      GrowOk(d.rect[i], box, w, h);
      assert Detect(d, w, h).rect[i] == grown;
      if !PairRect(grown).Has(r, k) {
        PairKept(d.shadow, desktop, grown, w, h, r, k);
      }
    }
  }

  /** Sending: a failure leaves its own wrong pairs, a delivery the stale ones, and the other buffer is untouched. */
  lemma SendStale(s: System, delivered: bool, junk: PairGrid, i: nat, r: nat, k: nat, w: nat, h: nat)
    requires SystemOk(s, w, h) && HasDims(junk, w / 2, h) && s.drv.shadow == s.drv.desktop
    requires i < 2 && r < h && k < w / 2
    ensures Stale(Send(s, delivered, junk, w, h), i, r, k, w, h) <==>
            if !delivered && i == s.drv.index then junk[r][k] != FullYuv(s.drv.shadow, w, h)[r][k]
            else Stale(s, i, r, k, w, h)
  {
    var t := Send(s, delivered, junk, w, h);
    if i == s.drv.index {
      assert t.drv.rect[i] == Cleared(w, h) && !PairRect(t.drv.rect[i]).Has(r, k);
      if delivered {
        assert Buffer(t.chip, i, w, h)[r][k] == if PairRect(s.drv.rect[i]).Has(r, k)
                                            then FullYuv(s.drv.desktop, w, h)[r][k] else Buffer(s.chip, i, w, h)[r][k];
      } else {
        assert Buffer(t.chip, i, w, h)[r][k] == junk[r][k];
      }
    } else {
      assert t.drv.rect[i] == s.drv.rect[i] && Buffer(t.chip, i, w, h)[r][k] == Buffer(s.chip, i, w, h)[r][k];
    }
  }

  /** What one operation does to a stale pair of buffer `i`. */
  ghost predicate StaleNext(s: System, op: Op, i: nat, r: nat, k: nat, w: nat, h: nat)
    requires SystemOk(s, w, h) && OpOk(op, w, h) && i < 2 && r < h && k < w / 2
  {
    match op
    case FullRefresh => false
    case Tick(delivered, junk) =>
      var e := Detect(s.drv, w, h);
      if !delivered && i == e.index && !e.rect[i].Empty() then junk[r][k] != FullYuv(e.shadow, w, h)[r][k]
      else Stale(s, i, r, k, w, h) && !PairRect(e.rect[i]).Has(r, k)
    case _ => Stale(s, i, r, k, w, h)
  }

  /**
    Exactly which pairs are stale after an operation: a failed transfer leaves
    those where the chip holds something else than the desktop; a full refresh
    none; any other tick those that were and that the buffer's rectangle leaves
    out; and nothing else changes them.
   */
  lemma StaleStep(s: System, op: Op, i: nat, r: nat, k: nat, w: nat, h: nat)
    requires SystemOk(s, w, h) && OpOk(op, w, h) && i < 2 && r < h && k < w / 2
    ensures Stale(Step(s, op, w, h), i, r, k, w, h) <==> StaleNext(s, op, i, r, k, w, h)
  {
    match op
    case Tick(delivered, junk) =>
      DetectStale(s, i, r, k, w, h);
      var e := s.(drv := Detect(s.drv, w, h));
      if !e.drv.rect[e.drv.index].Empty() {
        SendStale(e, delivered, junk, i, r, k, w, h);
      }
    case FullRefresh =>
      assert Step(s, op, w, h).drv.rect[i] == FullRect(w, h) && PairRect(FullRect(w, h)).Has(r, k);
    case _ =>
      assert Step(s, op, w, h).drv.rect == s.drv.rect && Step(s, op, w, h).drv.shadow == s.drv.shadow;
  }

  /** A full refresh or the rectangle of a tick covers the pair in buffer `i`. */
  ghost predicate Covered(s: System, op: Op, i: nat, r: nat, k: nat, w: nat, h: nat)
    requires SystemOk(s, w, h) && i < 2
  {
    op.FullRefresh? || (op.Tick? && PairRect(Detect(s.drv, w, h).rect[i]).Has(r, k))
  }

  lemma CleanStep(s: System, op: Op, i: nat, r: nat, k: nat, w: nat, h: nat)
    requires SystemOk(s, w, h) && OpOk(op, w, h) && i < 2 && r < h && k < w / 2
    requires op.Tick? ==> op.delivered
    ensures Stale(Step(s, op, w, h), i, r, k, w, h) <==> Stale(s, i, r, k, w, h) && !Covered(s, op, i, r, k, w, h)
  {
    StaleStep(s, op, i, r, k, w, h);
  }

  /** Some operation of the run covers the pair. */
  ghost predicate Repaired(s: System, ops: seq<Op>, i: nat, r: nat, k: nat, w: nat, h: nat)
    requires SystemOk(s, w, h) && (forall op :: op in ops ==> OpOk(op, w, h)) && i < 2
    decreases |ops|
  {
    ops != [] &&
    (Repaired(s, ops[..|ops| - 1], i, r, k, w, h) ||
     Covered(Run(s, ops[..|ops| - 1], w, h), ops[|ops| - 1], i, r, k, w, h))
  }

  /** Along sends that do not fail, a stale pair stays so until damage covers it again, and none becomes stale. */
  lemma {:induction false} StaleUntilRepaired(s: System, ops: seq<Op>, i: nat, r: nat, k: nat, w: nat, h: nat)
    requires SystemOk(s, w, h) && (forall op :: op in ops ==> OpOk(op, w, h)) && NoFailure(ops)
    requires i < 2 && r < h && k < w / 2
    ensures Stale(Run(s, ops, w, h), i, r, k, w, h) <==>
            Stale(s, i, r, k, w, h) && !Repaired(s, ops, i, r, k, w, h)
    decreases |ops|
  {
    if ops != [] {
      StaleUntilRepaired(s, ops[..|ops| - 1], i, r, k, w, h);
      CleanStep(Run(s, ops[..|ops| - 1], w, h), ops[|ops| - 1], i, r, k, w, h);
    }
  }

  /**
    The life of a lost rectangle: after a failed send and any run without
    another failure a pair of that buffer is wrong and not pending exactly when
    the failed transfer left it wrong and nothing has covered it since.
   */
  lemma LostUntilRepaired(s: System, junk: PairGrid, ops: seq<Op>, r: nat, k: nat, w: nat, h: nat)
    requires SystemOk(s, w, h) && HasDims(junk, w / 2, h) && r < h && k < w / 2
    requires (forall op :: op in ops ==> OpOk(op, w, h)) && NoFailure(ops)
    requires !Detect(s.drv, w, h).rect[s.drv.index].Empty()
    ensures var t := Step(s, Tick(false, junk), w, h);
            Stale(Run(t, ops, w, h), s.drv.index, r, k, w, h) <==>
            junk[r][k] != FullYuv(Composite(s.drv.frame, s.drv.pointer, w, h), w, h)[r][k] &&
            !Repaired(t, ops, s.drv.index, r, k, w, h)
  {
    StaleStep(s, Tick(false, junk), s.drv.index, r, k, w, h);
    StaleUntilRepaired(Step(s, Tick(false, junk), w, h), ops, s.drv.index, r, k, w, h);
  }

  /** After a delivered send the screen is right exactly at the pairs that are not stale. */
  lemma DeliveredShownIff(s: System, junk: PairGrid, r: nat, k: nat, w: nat, h: nat)
    requires SystemOk(s, w, h) && HasDims(junk, w / 2, h) && r < h && k < w / 2
    requires !Detect(s.drv, w, h).rect[s.drv.index].Empty()
    ensures var t := Step(s, Tick(true, junk), w, h);
            Shown(t, w, h)[r][k] == FullYuv(Composite(s.drv.frame, s.drv.pointer, w, h), w, h)[r][k] <==>
            !(Stale(s, s.drv.index, r, k, w, h) && !PairRect(Detect(s.drv, w, h).rect[s.drv.index]).Has(r, k))
  {
    var t := Step(s, Tick(true, junk), w, h);
    StaleStep(s, Tick(true, junk), s.drv.index, r, k, w, h);
    assert Buffer(t.chip, s.drv.index, w, h)[r][k] == Shown(t, w, h)[r][k];
    assert t.drv.rect[s.drv.index] == Cleared(w, h);
  }

  // ----- What the chip shows ------------------------------------------------

  /**
    After a tick that did not fail, sent or skipped, the frame on show is the
    conversion of the current desktop.
   */
  lemma TickShowsDesktop(s: System, junk: PairGrid, w: nat, h: nat)
    requires SystemOk(s, w, h) && Agreement(s, w, h) && HasDims(junk, w / 2, h)
    requires s.trusted == [true, true]
    ensures var t := Step(s, Tick(true, junk), w, h);
            Shown(t, w, h) == FullYuv(Composite(s.drv.frame, s.drv.pointer, w, h), w, h)
  {
    DetectAgrees(s, w, h);
    var e := s.(drv := Detect(s.drv, w, h));
    if e.drv.rect[e.drv.index].Empty() {
      BufferAgrees(e, 1 - e.drv.index, w, h);
      EmptyAgrees(e.chip.frames[1 - e.drv.index], e.drv.desktop, e.drv.rect[1 - e.drv.index], w, h);
    } else {
      SendRepairs(e, junk, w, h);
    }
  }

  /** With nothing pending, agreement is equality. */
  lemma EmptyAgrees(frame: PairGrid, img: Image, rect: Rect, w: nat, h: nat)
    requires ModeOk(w, h) && HasDims(frame, w / 2, h) && HasDims(img, w, h)
    requires RectOk(rect, w, h) && rect.Empty() && Agrees(frame, img, rect, w, h)
    ensures frame == FullYuv(img, w, h)
  {
    GridEq(frame, FullYuv(img, w, h), w / 2, h);
  }

  ghost predicate NoFailure(ops: seq<Op>) {
    forall op :: op in ops && op.Tick? ==> op.delivered
  }

  lemma {:induction false} NoFailureTrusted(s: System, ops: seq<Op>, w: nat, h: nat)
    requires SystemOk(s, w, h) && forall op :: op in ops ==> OpOk(op, w, h)
    requires NoFailure(ops) && s.trusted == [true, true]
    ensures Run(s, ops, w, h).trusted == [true, true]
    decreases |ops|
  {
    if ops != [] {
      NoFailureTrusted(s, ops[..|ops| - 1], w, h);
    }
  }

  /**
    From any driver state and any chip contents: after a full refresh and any
    run of frames, cursor changes and delivered or skipped transfers, the next
    tick leaves the last frame with the cursor over it on the screen, although
    only blocks were sent.
   */
  lemma ScreenShowsDesktop(s: System, ops: seq<Op>, junk: PairGrid, w: nat, h: nat)
    requires SystemOk(s, w, h) && HasDims(junk, w / 2, h)
    requires (forall op :: op in ops ==> OpOk(op, w, h)) && NoFailure(ops)
    ensures var m := Run(Step(s, FullRefresh, w, h), ops, w, h);
            var t := Step(m, Tick(true, junk), w, h);
            Shown(t, w, h) == FullYuv(Composite(m.drv.frame, m.drv.pointer, w, h), w, h)
  {
    var f := Step(s, FullRefresh, w, h);
    FullRefreshAgrees(s, w, h);
    RunAgrees(f, ops, w, h);
    NoFailureTrusted(f, ops, w, h);
    TickShowsDesktop(Run(f, ops, w, h), junk, w, h);
  }

  /** A tick whose current buffer has damage pending sends, and repairs that buffer. */
  lemma PendingTickSends(s: System, junk: PairGrid, w: nat, h: nat)
    requires SystemOk(s, w, h) && Agreement(s, w, h) && HasDims(junk, w / 2, h)
    requires s.trusted == [true, true] && !s.drv.rect[s.drv.index].Empty()
    ensures var t := Step(s, Tick(true, junk), w, h);
            var e := s.(drv := Detect(s.drv, w, h));
            && t == Send(e, true, junk, w, h)
            && t.chip.frames == s.chip.frames[s.drv.index :=
                 FullYuv(Composite(s.drv.frame, s.drv.pointer, w, h), w, h)]
  {
    DetectKeepsPending(s.drv, s.drv.index, w, h);
    DetectAgrees(s, w, h);
    var e := s.(drv := Detect(s.drv, w, h));
    SendRepairs(e, junk, w, h);
    assert Step(s, Tick(true, junk), w, h) == Send(e, true, junk, w, h);
  }

  lemma DetectKeepsPending(d: Driver, i: nat, w: nat, h: nat)
    requires DriverOk(d, w, h) && i < 2 && !d.rect[i].Empty()
    ensures !Detect(d, w, h).rect[i].Empty()
  {
    var desktop := Composite(d.frame, d.pointer, w, h);
    if desktop != d.shadow {
      GrowOk(d.rect[i], DiffBox(d.shadow, desktop, w, h), w, h);
    }
  }

  /** Two delivered ticks after a full refresh repair both chip buffers. */
  lemma TwoSendsRepairBoth(s: System, j1: PairGrid, j2: PairGrid, w: nat, h: nat)
    requires SystemOk(s, w, h) && HasDims(j1, w / 2, h) && HasDims(j2, w / 2, h)
    ensures var t1 := Step(Step(s, FullRefresh, w, h), Tick(true, j1), w, h);
            var t2 := Step(t1, Tick(true, j2), w, h);
            var want := FullYuv(Composite(s.drv.frame, s.drv.pointer, w, h), w, h);
            t2.chip.frames == [want, want]
  {
    var f := Step(s, FullRefresh, w, h);
    var t1 := Step(f, Tick(true, j1), w, h);
    FullRefreshAgrees(s, w, h);
    PendingTickSends(f, j1, w, h);
    StepAgrees(f, Tick(true, j1), w, h);
    DetectKeepsPending(f.drv, 1 - f.drv.index, w, h);
    PendingTickSends(t1, j2, w, h);
  }

  /**
    A failed transfer is not retried: the rectangle was cleared before sending,
    so the damaged buffer keeps whatever arrived, and the next tick skips
    although nothing was delivered.
   */
  lemma FailedSendIsDropped(s: System, junk: PairGrid, j2: PairGrid, w: nat, h: nat)
    requires SystemOk(s, w, h) && HasDims(junk, w / 2, h) && HasDims(j2, w / 2, h)
    requires !Detect(s.drv, w, h).rect[s.drv.index].Empty()
    ensures var t := Step(s, Tick(false, junk), w, h);
            && t.chip.frames[s.drv.index] == junk
            && t.drv.rect[t.drv.index].Empty()
            && Step(t, Tick(true, j2), w, h).chip == t.chip
  {
    var e := Detect(s.drv, w, h);
    var t := Step(s, Tick(false, junk), w, h);
    assert t.drv == e.(rect := e.rect[e.index := Cleared(w, h)]);
    assert Detect(t.drv, w, h) == t.drv;
  }
}
