// The first pictures of a session: the sender's actions played on the display.

module Picture {
  import opened Raster
  import opened Damage
  import opened Cursor
  import opened Yuv
  import opened Display
  import HalEvents

  /** What happens between sends, a start of the device with whatever the chip holds then, and the other actions. */
  datatype Item =
    | Change(op: Op)
    | Restart(chip: Chip)
    | Done(action: HalEvents.Action, junk: PairGrid)

  ghost predicate ItemOk(x: Item, w: nat, h: nat) {
    match x
    case Change(op) => OpOk(op, w, h) && !op.Tick? && !op.FullRefresh?
    case Restart(chip) => ChipOk(chip, w, h)
    case Done(a, junk) => !a.StartDevice? && HasDims(junk, w / 2, h)
  }

  ghost predicate ItemsOk(xs: seq<Item>, w: nat, h: nat) {
    forall x :: x in xs ==> ItemOk(x, w, h)
  }

  /** The sender's log of these items. */
  function ActionsOf(xs: seq<Item>): seq<HalEvents.Action> {
    if xs == [] then []
    else
      var front := ActionsOf(xs[..|xs| - 1]);
      match xs[|xs| - 1]
      case Change(_) => front
      case Restart(chip) => front + [HalEvents.StartDevice(chip.index)]
      case Done(a, _) => front + [a]
  }

  /** One item on the display; a start reads the chip's index, and a skipped attempt is a tick with nothing to send. */
  ghost function Play(s: System, x: Item, w: nat, h: nat): (t: System)
    requires SystemOk(s, w, h) && ItemOk(x, w, h)
    ensures SystemOk(t, w, h)
  {
    match x
    case Change(op) => Step(s, op, w, h)
    case Restart(chip) => System(s.drv.(index := chip.index), chip, [false, false])
    case Done(a, junk) =>
      if a.SendAttempt? then Step(s, Tick(!a.outcome.Failed?, junk), w, h)
      else if a.FullRects? then Step(s, FullRefresh, w, h)
      else s
  }

  ghost function PlayAll(s: System, xs: seq<Item>, w: nat, h: nat): (t: System)
    requires SystemOk(s, w, h) && ItemsOk(xs, w, h)
    ensures SystemOk(t, w, h)
  {
    if xs == [] then s
    else
      assert ItemOk(xs[|xs| - 1], w, h);
      Play(PlayAll(s, xs[..|xs| - 1], w, h), xs[|xs| - 1], w, h)
  }

  ghost predicate Clean(p: HalEvents.Phase) {
    p.refreshed && !p.lost
  }

  lemma ChangeSound(s: System, op: Op, w: nat, h: nat)
    requires SystemOk(s, w, h) && OpOk(op, w, h) && (op.Tick? ==> op.delivered) && Sound(s, w, h)
    ensures Sound(Step(s, op, w, h), w, h)
  {
    StepAgrees(s, op, w, h);
  }

  lemma RefreshSound(s: System, w: nat, h: nat)
    requires SystemOk(s, w, h)
    ensures Sound(Step(s, FullRefresh, w, h), w, h)
  {
    FullRefreshAgrees(s, w, h);
  }

  lemma SendSound(s: System, o: HalEvents.Outcome, junk: PairGrid, w: nat, h: nat)
    requires SystemOk(s, w, h) && HasDims(junk, w / 2, h) && !o.Failed? && Sound(s, w, h)
    ensures Sound(Play(s, Done(HalEvents.SendAttempt(o), junk), w, h), w, h)
  {
    assert Play(s, Done(HalEvents.SendAttempt(o), junk), w, h) == Step(s, Tick(true, junk), w, h);
    ChangeSound(s, Tick(true, junk), w, h);
  }

  lemma ActionSound(s: System, a: HalEvents.Action, junk: PairGrid, p: HalEvents.Phase, w: nat, h: nat)
    requires SystemOk(s, w, h) && !a.StartDevice? && HasDims(junk, w / 2, h)
    requires (Clean(p) ==> Sound(s, w, h)) && Clean(HalEvents.Next(p, a))
    ensures Sound(Play(s, Done(a, junk), w, h), w, h)
  {
    if a.FullRects? {
      assert Play(s, Done(a, junk), w, h) == Step(s, FullRefresh, w, h);
      RefreshSound(s, w, h);
    } else if a.SendAttempt? {
      SendSound(s, a.outcome, junk, w, h);
    } else {
      assert Play(s, Done(a, junk), w, h) == s;
    }
  }

  lemma PhaseSnoc(log: seq<HalEvents.Action>, a: HalEvents.Action)
    ensures HalEvents.PhaseOf(log + [a]) == HalEvents.Next(HalEvents.PhaseOf(log), a)
  {
    assert (log + [a])[..|log|] == log;
  }

  /** Whatever the chip held at the start: once full frames were asked for and nothing failed since, both buffers agree. */
  lemma {:induction false} CleanIsSound(s: System, xs: seq<Item>, w: nat, h: nat)
    requires SystemOk(s, w, h) && ItemsOk(xs, w, h)
    ensures Clean(HalEvents.PhaseOf(ActionsOf(xs))) ==> Sound(PlayAll(s, xs, w, h), w, h)
  {
    if xs != [] {
      var front, x := xs[..|xs| - 1], xs[|xs| - 1];
      assert ItemOk(x, w, h);
      CleanIsSound(s, front, w, h);
      var m, p := PlayAll(s, front, w, h), HalEvents.PhaseOf(ActionsOf(front));
      match x
      case Change(op) =>
        if Clean(p) {
          ChangeSound(m, op, w, h);
        }
      case Restart(chip) =>
        PhaseSnoc(ActionsOf(front), HalEvents.StartDevice(chip.index));
      case Done(a, junk) =>
        PhaseSnoc(ActionsOf(front), a);
        if Clean(HalEvents.Next(p, a)) {
          ActionSound(m, a, junk, p, w, h);
        }
    }
  }

  /**
    From the second pass of a session on: once a frame was delivered and none
    was lost since full frames were last asked for, the next attempt that does
    not fail leaves the whole desktop on the screen, whatever the chip held when
    it was started.
   */
  lemma SecondPictureWhole(m: HalEvents.Machine, s: System, xs: seq<Item>, junk: PairGrid, w: nat, h: nat)
    requires HalEvents.Good(m) && m.state == HalEvents.Enabled && m.firstBufSend && !HalEvents.PhaseOf(m.log).lost
    requires SystemOk(s, w, h) && ItemsOk(xs, w, h) && ActionsOf(xs) == m.log && HasDims(junk, w / 2, h)
    ensures var t := PlayAll(s, xs, w, h);
            Shown(Step(t, Tick(true, junk), w, h), w, h) == FullYuv(Composite(t.drv.frame, t.drv.pointer, w, h), w, h)
  {
    CleanIsSound(s, xs, w, h);
    TickShowsDesktop(PlayAll(s, xs, w, h), junk, w, h);
  }

  /**
    The first: what is on the screen when the output is switched on, after one
    delivered rectangle, is the whole desktop exactly when outside that
    rectangle the buffer it went to happened to hold it already.
   */
  lemma FirstPictureIff(t: System, junk: PairGrid, w: nat, h: nat)
    requires SystemOk(t, w, h) && HasDims(junk, w / 2, h)
    requires !Detect(t.drv, w, h).rect[t.drv.index].Empty()
    ensures Shown(Step(t, Tick(true, junk), w, h), w, h) == FullYuv(Composite(t.drv.frame, t.drv.pointer, w, h), w, h)
            <==> HeldBefore(t, w, h)
  {
    var want := FullYuv(Composite(t.drv.frame, t.drv.pointer, w, h), w, h);
    var shown := Shown(Step(t, Tick(true, junk), w, h), w, h);
    var rect := PairRect(Detect(t.drv, w, h).rect[t.drv.index]);
    var before := Buffer(t.chip, t.drv.index, w, h);
    assert shown == Patch(before, want, rect, w / 2, h);
    if HeldBefore(t, w, h) {
      GridEq(shown, want, w / 2, h);
    }
  }

  /** Outside the rectangle about to be sent, the current buffer holds the desktop. */
  ghost predicate HeldBefore(t: System, w: nat, h: nat)
    requires SystemOk(t, w, h)
  {
    var want := FullYuv(Composite(t.drv.frame, t.drv.pointer, w, h), w, h);
    var rect := PairRect(Detect(t.drv, w, h).rect[t.drv.index]);
    var before := Buffer(t.chip, t.drv.index, w, h);
    forall r, k :: 0 <= r < h && 0 <= k < w / 2 && !rect.Has(r, k) ==> before[r][k] == want[r][k]
  }
}
