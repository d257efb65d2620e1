// The sender thread's event machine: when frames are sent, and when the video
// output is switched on.

module HalEvents {
  import opened Wrappers

  /** An enable comes with what the chip's frame index reads as when it is handled, if the read works. */
  datatype Event = Enable(read: Option<nat>) | Disable | Update

  datatype DevState = Unknown | Enabled | Disabled

  /** How one send attempt ended: delivered, nothing pending, or a failed transfer. */
  datatype Outcome = Sent | Skipped | Failed

  /** What the thread does to the device, in order; a start goes with the frame index taken over. */
  datatype Action =
    | StartDevice(index: nat)
    | StopDevice
    | SendAttempt(outcome: Outcome)
    | VideoOn
    | ScreenOn
    | FullRects

  // ----- Which logs are safe ------------------------------------------------

  /**
    What the actions so far add up to since the device was last started.
    `refreshed` says that full frames were asked for, `lost` that a send has
    failed since they last were.
   */
  datatype Phase = Phase(enabled: bool, delivered: bool, videoOn: bool, screenOn: bool, refreshed: bool, lost: bool)

  function Next(p: Phase, a: Action): Phase {
    match a
    case StartDevice(_) => Phase(true, false, false, false, false, false)
    case StopDevice => p.(enabled := false)
    case SendAttempt(o) => p.(delivered := p.delivered || o.Sent?, lost := p.lost || o.Failed?)
    case VideoOn => p.(videoOn := true)
    case ScreenOn => p.(screenOn := true)
    case FullRects => p.(refreshed := true, lost := false)
  }

  function PhaseOf(log: seq<Action>): Phase {
    if log == [] then Phase(false, false, false, false, false, false)
    else Next(PhaseOf(log[..|log| - 1]), log[|log| - 1])
  }

  /** Sends only while started; the output is switched on once, and only after a delivery. */
  predicate Allowed(p: Phase, a: Action) {
    match a
    case StartDevice(_) => !p.enabled
    case VideoOn => p.enabled && p.delivered && !p.videoOn
    case ScreenOn => p.enabled && p.delivered && !p.screenOn
    case _ => p.enabled
  }

  predicate Legal(log: seq<Action>) {
    log == [] || (Legal(log[..|log| - 1]) && Allowed(PhaseOf(log[..|log| - 1]), log[|log| - 1]))
  }

  lemma {:induction false} LegalAt(log: seq<Action>, n: nat)
    requires Legal(log) && n < |log|
    ensures Allowed(PhaseOf(log[..n]), log[n])
  {
    if n < |log| - 1 {
      LegalAt(log[..|log| - 1], n);
      assert log[..|log| - 1][..n] == log[..n];
    }
  }

  lemma LegalSnoc(log: seq<Action>, a: Action)
    requires Legal(log) && Allowed(PhaseOf(log), a)
    ensures Legal(log + [a]) && PhaseOf(log + [a]) == Next(PhaseOf(log), a)
  {
    assert (log + [a])[..|log|] == log;
  }

  /** The index of the chip's buffer sent next: taken over at a start, changed by every delivery. */
  function IndexOf(log: seq<Action>): nat {
    if log == [] then 0
    else
      var before := IndexOf(log[..|log| - 1]);
      match log[|log| - 1]
      case StartDevice(i) => i
      case SendAttempt(o) => if !o.Sent? then before else if before == 0 then 1 else 0
      case _ => before
  }

  function Deliveries(log: seq<Action>): nat {
    if log == [] then 0
    else Deliveries(log[..|log| - 1]) + if log[|log| - 1] == SendAttempt(Sent) then 1 else 0
  }

  /** After a start the index is the one taken over plus the deliveries since, modulo two. */
  lemma {:induction false} IndexCounts(log: seq<Action>, i: nat)
    requires i < |log| && log[i].StartDevice? && log[i].index < 2
    requires forall k :: i < k < |log| ==> !log[k].StartDevice?
    ensures IndexOf(log) == (log[i].index + Deliveries(log[i..])) % 2
  {
    var front := log[..|log| - 1];
    if i < |log| - 1 {
      IndexCounts(front, i);
      assert log[i..][..|log[i..]| - 1] == front[i..];
    } else {
      assert log[i..] == [log[i]];
      assert log[i..][..0] == [];
    }
  }

  /** No start or stop between positions `i` and `j`. */
  ghost predicate SameSession(log: seq<Action>, i: int, j: int) {
    forall k :: i < k < j && 0 <= k < |log| ==> !log[k].StartDevice? && !log[k].StopDevice?
  }

  lemma {:induction false} EnabledMeansStarted(log: seq<Action>, n: nat)
    requires n <= |log| && PhaseOf(log[..n]).enabled
    ensures exists i :: 0 <= i < n && log[i].StartDevice? && SameSession(log, i, n)
  {
    assert log[..n][..n - 1] == log[..n - 1];
    if !log[n - 1].StartDevice? {
      EnabledMeansStarted(log, n - 1);
      var i :| 0 <= i < n - 1 && log[i].StartDevice? && SameSession(log, i, n - 1);
      assert SameSession(log, i, n);
    } else {
      assert SameSession(log, n - 1, n);
    }
  }

  /** Frames are sent only in a started session. */
  lemma SendsOnlyWhenStarted(log: seq<Action>, n: nat)
    requires Legal(log) && n < |log| && log[n].SendAttempt?
    ensures exists i :: 0 <= i < n && log[i].StartDevice? && SameSession(log, i, n)
  {
    LegalAt(log, n);
    EnabledMeansStarted(log, n);
  }

  lemma {:induction false} DeliveredMeansSent(log: seq<Action>, n: nat)
    requires Legal(log) && n <= |log| && PhaseOf(log[..n]).enabled && PhaseOf(log[..n]).delivered
    ensures exists i :: 0 <= i < n && log[i] == SendAttempt(Sent) && SameSession(log, i, n)
  {
    assert log[..n][..n - 1] == log[..n - 1];
    LegalAt(log, n - 1);
    if log[n - 1] == SendAttempt(Sent) {
      assert SameSession(log, n - 1, n);
    } else {
      DeliveredMeansSent(log, n - 1);
      var i :| 0 <= i < n - 1 && log[i] == SendAttempt(Sent) && SameSession(log, i, n - 1);
      assert SameSession(log, i, n);
    }
  }

  /** The output is switched on only after a frame was delivered in the same session. */
  lemma OutputOnlyAfterDelivery(log: seq<Action>, n: nat)
    requires Legal(log) && n < |log| && (log[n] == VideoOn || log[n] == ScreenOn)
    ensures exists i :: 0 <= i < n && log[i] == SendAttempt(Sent) && SameSession(log, i, n)
  {
    LegalAt(log, n);
    DeliveredMeansSent(log, n);
  }

  lemma {:induction false} StaysOn(log: seq<Action>, i: nat, n: nat)
    requires i < n <= |log|
    requires forall k :: i < k < n ==> !log[k].StartDevice?
    ensures log[i] == VideoOn ==> PhaseOf(log[..n]).videoOn
    ensures log[i] == ScreenOn ==> PhaseOf(log[..n]).screenOn
  {
    assert log[..n][..n - 1] == log[..n - 1];
    if i < n - 1 {
      StaysOn(log, i, n - 1);
    }
  }

  /** Between two commands that switch the same output on, the device was started anew. */
  lemma OutputOncePerStart(log: seq<Action>, i: nat, j: nat)
    requires Legal(log) && i < j < |log| && log[i] == log[j] && (log[i] == VideoOn || log[i] == ScreenOn)
    ensures exists k :: i < k < j && log[k].StartDevice?
  {
    if forall k :: i < k < j ==> !log[k].StartDevice? {
      LegalAt(log, j);
      StaysOn(log, i, j);
      assert false;
    }
  }

  // ----- Draining the queue -------------------------------------------------

  /** The state after one event: a stopped device reacts to Enable only. */
  function React(st: DevState, e: Event): DevState {
    if st != Enabled then (if e.Enable? then Enabled else st)
    else if e == Disable then Disabled else st
  }

  function StateAfter(st: DevState, es: seq<Event>): DevState {
    if es == [] then st else React(StateAfter(st, es[..|es| - 1]), es[|es| - 1])
  }

  /** After the drain the device is enabled exactly when the last enable or disable says so. */
  lemma {:induction false} LastCommandWins(st: DevState, es: seq<Event>)
    ensures StateAfter(st, es) == Enabled <==>
            (exists i :: 0 <= i < |es| && es[i].Enable? && forall k :: i < k < |es| ==> es[k] != Disable) ||
            (st == Enabled && forall k :: 0 <= k < |es| ==> es[k] != Disable)
  {
    if es != [] {
      var init, last := es[..|es| - 1], es[|es| - 1];
      LastCommandWins(st, init);
      if last.Enable? {
        assert es[|es| - 1].Enable?;
      } else if last == Disable {
        assert es[|es| - 1] == Disable;
      } else {
        if i :| 0 <= i < |init| && init[i].Enable? && forall k :: i < k < |init| ==> init[k] != Disable {
          assert es[i].Enable?;
        }
        if i :| 0 <= i < |es| && es[i].Enable? && forall k :: i < k < |es| ==> es[k] != Disable {
          assert i < |init| && init[i].Enable?;
        }
      }
    }
  }

  /** Some update is consumed while the device is enabled. */
  predicate UpdateSeen(st: DevState, es: seq<Event>) {
    exists i :: 0 <= i < |es| && es[i] == Update && StateAfter(st, es[..i]) == Enabled
  }

  lemma UpdateSeenSnoc(st: DevState, es: seq<Event>, n: nat)
    requires n < |es|
    ensures UpdateSeen(st, es[..n + 1]) <==>
            UpdateSeen(st, es[..n]) || (es[n] == Update && StateAfter(st, es[..n]) == Enabled)
  {
    var more := es[..n + 1];
    assert more[..n] == es[..n];
    assert forall i :: 0 <= i < n ==> more[..i] == es[..i] == es[..n][..i];
  }

  function Sends(log: seq<Action>): nat {
    if log == [] then 0
    else Sends(log[..|log| - 1]) + if log[|log| - 1].SendAttempt? then 1 else 0
  }

  lemma SendsSnoc(log: seq<Action>, a: Action)
    ensures Sends(log + [a]) == Sends(log) + if a.SendAttempt? then 1 else 0
  {
    assert (log + [a])[..|log|] == log;
  }

  // ----- What a pass does ---------------------------------------------------

  /** The thread's state between passes, with everything it has done so far. */
  datatype Machine = Machine(
    state: DevState, fifo: seq<Event>, firstBufSend: bool, mouseMoving: bool, suspended: bool,
    updateTime: int, frameIndex: nat, log: seq<Action>)

  function Started(m: Machine, read: Option<nat>): Machine {
    var index := if read.Some? then read.value else 0;
    m.(state := Enabled, firstBufSend := false, frameIndex := index, log := m.log + [StartDevice(index)])
  }

  function Stopped(m: Machine): Machine {
    m.(state := Disabled, log := m.log + [StopDevice])
  }

  function Consumed(m: Machine, e: Event): Machine {
    if m.state != Enabled then (if e.Enable? then Started(m, e.read) else m)
    else if e.Disable? then Stopped(m) else m
  }

  /** All events in order. */
  function Drained(m: Machine, es: seq<Event>): Machine {
    if es == [] then m else Consumed(Drained(m, es[..|es| - 1]), es[|es| - 1])
  }

  /** One send attempt: the index follows a delivery, and the session's first delivery lights the output. */
  function Attempted(m: Machine, outcome: Outcome, done: int): Machine {
    m.(updateTime := if outcome.Skipped? then m.updateTime else done,
    frameIndex := if outcome.Sent? then (if m.frameIndex == 0 then 1 else 0) else m.frameIndex,
    firstBufSend := m.firstBufSend || outcome.Sent?,
    log := if outcome.Sent? && !m.firstBufSend then m.log + [SendAttempt(outcome)] + [VideoOn, ScreenOn, FullRects]
           else m.log + [SendAttempt(outcome)])
  }

  /** Besides a consumed update, a moved mouse or a long enough pause asks for a send. */
  predicate Due(m: Machine, update: bool, now: int, idleMs: nat) {
    update || m.mouseMoving || now - m.updateTime >= idleMs
  }

  /** The mouse flag is used up only when it decides; a pause asks for full frames. */
  function Asked(m: Machine, update: bool, now: int, idleMs: nat): Machine {
    m.(mouseMoving := m.mouseMoving && update,
    log := if !update && !m.mouseMoving && now - m.updateTime >= idleMs then m.log + [FullRects] else m.log)
  }

  lemma {:induction false} DrainedState(m: Machine, es: seq<Event>)
    ensures Drained(m, es).state == StateAfter(m.state, es)
    ensures Drained(m, es) == m.(state := Drained(m, es).state, firstBufSend := Drained(m, es).firstBufSend,
                                 frameIndex := Drained(m, es).frameIndex, log := Drained(m, es).log)
  {
    if es != [] {
      DrainedState(m, es[..|es| - 1]);
    }
  }

  lemma DrainedSnoc(m: Machine, es: seq<Event>, n: nat)
    requires n < |es|
    ensures es[n..][0] == es[n] && es[n..][1..] == es[n + 1..]
    ensures Drained(m, es[..n + 1]) == Consumed(Drained(m, es[..n]), es[n])
  {
    assert es[..n + 1][..n] == es[..n];
  }

  // ----- What every pass keeps ----------------------------------------------

  /**
    The log is legal, the output is on exactly when a frame was delivered since
    the last start, and then full frames have been asked for too. The index is
    the one the log gives.
   */
  ghost predicate Good(m: Machine) {
    var p := PhaseOf(m.log);
    && Legal(m.log)
    && (p.enabled <==> m.state == Enabled)
    && m.frameIndex == IndexOf(m.log)
    && (p.enabled ==> p.delivered == p.videoOn == p.screenOn == m.firstBufSend && (p.delivered ==> p.refreshed))
  }

  /** From `a` to `b` the log only grew, by `n` send attempts among others, and stayed legal. */
  ghost predicate Advances(a: Machine, b: Machine, n: nat) {
    Good(b) && a.log <= b.log && Sends(b.log) == Sends(a.log) + n
  }

  lemma AdvancesOn(a: Machine, b: Machine, c: Machine, m: nat, n: nat)
    requires Advances(a, b, m) && Advances(b, c, n)
    ensures Advances(a, c, m + n)
  {
  }

  /** Other fields do not matter. */
  lemma AdvancesTo(a: Machine, b: Machine, c: Machine, n: nat)
    requires Advances(a, b, n)
    requires c.log == b.log && c.state == b.state && c.firstBufSend == b.firstBufSend && c.frameIndex == b.frameIndex
    ensures Advances(a, c, n)
  {
  }

  lemma LogSnoc(log: seq<Action>, a: Action)
    requires Legal(log) && Allowed(PhaseOf(log), a)
    ensures Legal(log + [a]) && PhaseOf(log + [a]) == Next(PhaseOf(log), a)
    ensures log <= log + [a] && Sends(log + [a]) == Sends(log) + if a.SendAttempt? then 1 else 0
    ensures IndexOf(log + [a]) == match a
            case StartDevice(i) => i
            case SendAttempt(o) => if !o.Sent? then IndexOf(log) else if IndexOf(log) == 0 then 1 else 0
            case _ => IndexOf(log)
  {
    LegalSnoc(log, a);
    SendsSnoc(log, a);
    assert (log + [a])[..|log|] == log;
  }

  lemma ConsumedGood(m: Machine, e: Event)
    requires Good(m)
    ensures Advances(m, Consumed(m, e), 0)
  {
    if m.state != Enabled {
      LogSnoc(m.log, StartDevice(Started(m, if e.Enable? then e.read else None).frameIndex));
    } else {
      LogSnoc(m.log, StopDevice);
    }
  }

  lemma {:induction false} DrainedGood(m: Machine, es: seq<Event>)
    requires Good(m)
    ensures Advances(m, Drained(m, es), 0)
  {
    if es != [] {
      DrainedGood(m, es[..|es| - 1]);
      ConsumedGood(Drained(m, es[..|es| - 1]), es[|es| - 1]);
    }
  }

  lemma AskedGood(m: Machine, update: bool, now: int, idleMs: nat)
    requires Good(m) && m.state == Enabled
    ensures Advances(m, Asked(m, update, now, idleMs), 0)
  {
    LogSnoc(m.log, FullRects);
  }

  /** The commands that follow the first delivery of a session. */
  lemma SwitchedOn(log: seq<Action>)
    requires Legal(log) && PhaseOf(log).enabled && PhaseOf(log).delivered
    requires !PhaseOf(log).videoOn && !PhaseOf(log).screenOn
    ensures var on := log + [VideoOn, ScreenOn, FullRects];
            Legal(on) && PhaseOf(on) == Phase(true, true, true, true, true, false) && log <= on && Sends(on) == Sends(log) && IndexOf(on) == IndexOf(log)
  {
    LogSnoc(log, VideoOn);
    LogSnoc(log + [VideoOn], ScreenOn);
    LogSnoc(log + [VideoOn] + [ScreenOn], FullRects);
    assert log + [VideoOn, ScreenOn, FullRects] == log + [VideoOn] + [ScreenOn] + [FullRects];
  }

  lemma AttemptedGood(m: Machine, outcome: Outcome, done: int)
    requires Good(m) && m.state == Enabled
    ensures Advances(m, Attempted(m, outcome, done), 1)
  {
    LogSnoc(m.log, SendAttempt(outcome));
    if outcome.Sent? && !m.firstBufSend {
      SwitchedOn(m.log + [SendAttempt(outcome)]);
    }
  }

  /** A pass makes one send attempt when one is due after the drain, and none otherwise. */
  function SendsIn(m: Machine, now: int, idleMs: nat): nat {
    if !m.suspended && StateAfter(m.state, m.fifo) == Enabled && Due(m, UpdateSeen(m.state, m.fifo), now, idleMs)
    then 1 else 0
  }

  /** What an enabled machine does after the drain. */
  function Acted(d: Machine, update: bool, now: int, done: int, idleMs: nat, outcome: Outcome): Machine {
    var asked := Asked(d, update, now, idleMs);
    if Due(d, update, now, idleMs) then Attempted(asked, outcome, done) else asked
  }

  lemma ActedGood(d: Machine, update: bool, now: int, done: int, idleMs: nat, outcome: Outcome)
    requires Good(d) && d.state == Enabled
    ensures Advances(d, Acted(d, update, now, done, idleMs, outcome), if Due(d, update, now, idleMs) then 1 else 0)
  {
    var asked := Asked(d, update, now, idleMs);
    AskedGood(d, update, now, idleMs);
    AttemptedGood(asked, outcome, done);
    AdvancesOn(d, asked, Attempted(asked, outcome, done), 0, 1);
  }

  function Emptied(m: Machine): Machine {
    Drained(m, m.fifo).(fifo := [])
  }

  lemma EmptiedGood(m: Machine)
    requires Good(m)
    ensures Advances(m, Emptied(m), 0) && Emptied(m).state == StateAfter(m.state, m.fifo)
    ensures Emptied(m).mouseMoving == m.mouseMoving && Emptied(m).updateTime == m.updateTime
  {
    DrainedGood(m, m.fifo);
    DrainedState(m, m.fifo);
    AdvancesTo(m, Drained(m, m.fifo), Emptied(m), 0);
  }

  function Passed(m: Machine, now: int, done: int, idleMs: nat, outcome: Outcome): Machine {
    if m.suspended then m
    else if Emptied(m).state != Enabled then Emptied(m)
    else Acted(Emptied(m), UpdateSeen(m.state, m.fifo), now, done, idleMs, outcome)
  }

  lemma PassedGood(m: Machine, now: int, done: int, idleMs: nat, outcome: Outcome)
    requires Good(m)
    ensures Advances(m, Passed(m, now, done, idleMs, outcome), SendsIn(m, now, idleMs))
  {
    var d, update := Emptied(m), UpdateSeen(m.state, m.fifo);
    EmptiedGood(m);
    if !m.suspended && d.state == Enabled {
      assert SendsIn(m, now, idleMs) == if Due(d, update, now, idleMs) then 1 else 0;
      ActedGood(d, update, now, done, idleMs, outcome);
      assert Passed(m, now, done, idleMs, outcome) == Acted(d, update, now, done, idleMs, outcome);
      AdvancesOn(m, d, Acted(d, update, now, done, idleMs, outcome), 0, if Due(d, update, now, idleMs) then 1 else 0);
    }
  }

  // ----- What a pass amounts to, on its log ---------------------------------

  /** The pass sends: some update is consumed while enabled, or the mouse has moved, or the last transfer is long ago. */
  predicate HasReason(m: Machine, now: int, idleMs: nat) {
    UpdateSeen(m.state, m.fifo) || m.mouseMoving || now - m.updateTime >= idleMs
  }

  /** It may send: the bus is up and the device is enabled once the queue is empty. */
  predicate MaySend(m: Machine) {
    !m.suspended && StateAfter(m.state, m.fifo) == Enabled
  }

  /** A pass adds exactly one send attempt to the log when it may send and has a reason, and none otherwise. */
  lemma PassSendsIff(m: Machine, now: int, done: int, idleMs: nat, outcome: Outcome)
    requires Good(m)
    ensures var p := Passed(m, now, done, idleMs, outcome);
            Sends(p.log) == Sends(m.log) + if MaySend(m) && HasReason(m, now, idleMs) then 1 else 0
  {
    PassedGood(m, now, done, idleMs, outcome);
  }

  /** A new frame is never left in the queue: a pass over an update sends whatever else holds. */
  lemma UpdateIsSent(m: Machine, now: int, done: int, idleMs: nat, outcome: Outcome)
    requires Good(m) && !m.suspended && m.state == Enabled && Update in m.fifo && Disable !in m.fifo
    ensures Sends(Passed(m, now, done, idleMs, outcome).log) == Sends(m.log) + 1
  {
    var i :| 0 <= i < |m.fifo| && m.fifo[i] == Update;
    StaysEnabled(m.fifo, i);
    StaysEnabled(m.fifo, |m.fifo|);
    assert m.fifo[..|m.fifo|] == m.fifo;
    PassSendsIff(m, now, done, idleMs, outcome);
  }

  lemma {:induction false} StaysEnabled(es: seq<Event>, n: nat)
    requires n <= |es| && Disable !in es
    ensures StateAfter(Enabled, es[..n]) == Enabled
  {
    if n > 0 {
      StaysEnabled(es, n - 1);
      assert es[..n][..n - 1] == es[..n - 1] && es[n - 1] in es;
    }
  }

  function Fulls(log: seq<Action>): nat {
    if log == [] then 0 else Fulls(log[..|log| - 1]) + if log[|log| - 1] == FullRects then 1 else 0
  }

  lemma FullsSnoc(log: seq<Action>, a: Action)
    ensures Fulls(log + [a]) == Fulls(log) + if a == FullRects then 1 else 0
  {
    assert (log + [a])[..|log|] == log;
  }

  lemma {:induction false} DrainAsksNothing(m: Machine, es: seq<Event>)
    ensures Fulls(Drained(m, es).log) == Fulls(m.log)
  {
    if es != [] {
      var p := Drained(m, es[..|es| - 1]);
      DrainAsksNothing(m, es[..|es| - 1]);
      FullsSnoc(p.log, StopDevice);
      FullsSnoc(p.log, StartDevice(Started(p, if es[|es| - 1].Enable? then es[|es| - 1].read else None).frameIndex));
    }
  }

  /** The pause alone decides: no update is consumed and the mouse has not moved. */
  predicate PauseDecides(m: Machine, now: int, idleMs: nat) {
    MaySend(m) && !UpdateSeen(m.state, m.fifo) && !m.mouseMoving && now - m.updateTime >= idleMs
  }

  /** The first delivery since the device was started. */
  predicate FirstDelivery(m: Machine, now: int, idleMs: nat, outcome: Outcome) {
    MaySend(m) && HasReason(m, now, idleMs) && outcome == Sent && !PhaseOf(Drained(m, m.fifo).log).delivered
  }

  lemma AttemptFulls(m: Machine, outcome: Outcome, done: int)
    ensures Fulls(Attempted(m, outcome, done).log) == Fulls(m.log) + if outcome.Sent? && !m.firstBufSend then 1 else 0
  {
    var sent := m.log + [SendAttempt(outcome)];
    FullsSnoc(m.log, SendAttempt(outcome));
    FullsSnoc(sent, VideoOn);
    FullsSnoc(sent + [VideoOn], ScreenOn);
    FullsSnoc(sent + [VideoOn] + [ScreenOn], FullRects);
    assert sent + [VideoOn, ScreenOn, FullRects] == sent + [VideoOn] + [ScreenOn] + [FullRects];
  }

  /** Full frames are asked for exactly when the pause alone decides, and once more at a first delivery. */
  lemma PassAsksIff(m: Machine, now: int, done: int, idleMs: nat, outcome: Outcome)
    requires Good(m)
    ensures Fulls(Passed(m, now, done, idleMs, outcome).log) == Fulls(m.log)
            + (if PauseDecides(m, now, idleMs) then 1 else 0)
            + (if FirstDelivery(m, now, idleMs, outcome) then 1 else 0)
  {
    EmptiedGood(m);
    DrainAsksNothing(m, m.fifo);
    if MaySend(m) {
      var d, update := Emptied(m), UpdateSeen(m.state, m.fifo);
      FullsSnoc(d.log, FullRects);
      AttemptFulls(Asked(d, update, now, idleMs), outcome, done);
    }
  }

  /**
    The mouse flag is used up exactly when it decided, and the clock is set to
    the end of the transfer exactly when there was one.
   */
  lemma PassClears(m: Machine, now: int, done: int, idleMs: nat, outcome: Outcome)
    requires Good(m)
    ensures var p := Passed(m, now, done, idleMs, outcome);
            && p.mouseMoving == (m.mouseMoving && !(MaySend(m) && !UpdateSeen(m.state, m.fifo)))
            && p.updateTime == (if MaySend(m) && HasReason(m, now, idleMs) && outcome != Skipped then done else m.updateTime)
  {
    EmptiedGood(m);
  }

  /** A start takes over the index read, or 0 when it cannot be read, and the log says so. */
  lemma StartTakesIndex(m: Machine, read: Option<nat>)
    requires m.state != Enabled
    ensures Consumed(m, Enable(read)).log == m.log + [StartDevice(if read.Some? then read.value else 0)]
    ensures read.Some? ==> Consumed(m, Enable(read)).frameIndex == read.value
    ensures read == None ==> Consumed(m, Enable(read)).frameIndex == 0
  {
  }

  // ----- The machine --------------------------------------------------------

  class StateMachine {
    var state: DevState
    var fifo: seq<Event>
    var firstBufSend: bool
    var mouseMoving: bool
    var suspended: bool
    var updateTime: int
    var frameIndex: nat
    var log: seq<Action>

    ghost function Snap(): Machine
      reads this
    {
      Machine(state, fifo, firstBufSend, mouseMoving, suspended, updateTime, frameIndex, log)
    }

    ghost predicate Valid()
      reads this
    {
      Good(Snap())
    }

    constructor ()
      ensures Valid() && Snap() == Machine(Unknown, [], false, false, false, 0, 0, [])
    {
      state, fifo, firstBufSend, mouseMoving := Unknown, [], false, false;
      suspended, updateTime, frameIndex := false, 0, 0;
      log := [];
    }

    /** Starts the device and takes over the chip's frame index, or index 0 when it cannot be read. */
    method DoEnable(read: Option<nat>)
      modifies this`log, this`state, this`firstBufSend, this`frameIndex
      ensures Snap() == Started(old(Snap()), read)
    {
      frameIndex := if read.Some? then read.value else 0;
      log := log + [StartDevice(frameIndex)];
      state := Enabled;
      firstBufSend := false;
    }

    method DoDisable()
      modifies this`log, this`state
      ensures Snap() == Stopped(old(Snap()))
    {
      log := log + [StopDevice];
      state := Disabled;
    }

    /** One send attempt; the first delivery of a session lights the output and asks for full frames. */
    method DoUpdate(outcome: Outcome, done: int)
      modifies this`log, this`firstBufSend, this`updateTime, this`frameIndex
      ensures Snap() == Attempted(old(Snap()), outcome, done)
    {
      log := log + [SendAttempt(outcome)];
      if !outcome.Skipped? {
        updateTime := done;
      }
      if outcome.Sent? {
        frameIndex := if frameIndex == 0 then 1 else 0;
        if !firstBufSend {
          log := log + [VideoOn, ScreenOn, FullRects];
          firstBufSend := true;
        }
      }
    }

    /** Consumes one event. */
    method Consume(event: Event) returns (update: bool)
      modifies this`log, this`state, this`firstBufSend, this`frameIndex
      ensures Snap() == Consumed(old(Snap()), event)
      ensures update <==> event == Update && old(state) == Enabled
    {
      update := false;
      match state {
        case Unknown | Disabled =>
          if event.Enable? {
            DoEnable(event.read);
          }
        case Enabled =>
          if event == Disable {
            DoDisable();
          }
          if event == Update {
            update := true;
          }
      }
    }

    /** Takes the oldest event off the queue and consumes it. */
    method ConsumeNext() returns (update: bool)
      requires fifo != []
      modifies this`fifo, this`log, this`state, this`firstBufSend, this`frameIndex
      ensures Snap() == Consumed(old(Snap()), old(fifo)[0]).(fifo := old(fifo)[1..])
      ensures update <==> old(fifo)[0] == Update && old(state) == Enabled
    {
      var event := fifo[0];
      fifo := fifo[1..];
      update := Consume(event);
    }

    /** Consumes event `n` of the queue `es` that machine `m` had. */
    method DrainNext(ghost m: Machine, ghost es: seq<Event>, ghost n: nat, seen: bool) returns (update: bool)
      requires n < |es| && Snap() == Drained(m, es[..n]).(fifo := es[n..])
      requires seen == UpdateSeen(m.state, es[..n])
      modifies this`fifo, this`log, this`state, this`firstBufSend, this`frameIndex
      ensures Snap() == Drained(m, es[..n + 1]).(fifo := es[n + 1..])
      ensures update == UpdateSeen(m.state, es[..n + 1])
    {
      UpdateSeenSnoc(m.state, es, n);
      DrainedSnoc(m, es, n);
      DrainedState(m, es[..n]);
      var b := ConsumeNext();
      update := seen || b;
    }

    /** Consumes the whole queue, oldest first. */
    method Drain() returns (update: bool)
      modifies this`fifo, this`log, this`state, this`firstBufSend, this`frameIndex
      ensures Snap() == Emptied(old(Snap()))
      ensures update == UpdateSeen(old(state), old(fifo))
    {
      ghost var m, es, n := Snap(), fifo, 0;
      update := false;
      while fifo != []
        invariant 0 <= n <= |es| && fifo == es[n..]
        invariant Snap() == Drained(m, es[..n]).(fifo := es[n..])
        invariant update == UpdateSeen(m.state, es[..n])
        decreases |fifo|
      {
        update := DrainNext(m, es, n, update);
        n := n + 1;
      }
      assert es[..n] == es;
    }

    /** Whether a send is due after the drain. */
    method WantsUpdate(update: bool, now: int, idleMs: nat) returns (b: bool)
      modifies this`mouseMoving, this`log
      ensures Snap() == Asked(old(Snap()), update, now, idleMs)
      ensures b == Due(old(Snap()), update, now, idleMs)
    {
      b := update;
      if !b {
        if mouseMoving {
          mouseMoving := false;
          b := true;
        }
        if !b && now - updateTime >= idleMs {
          b := true;
          log := log + [FullRects];
        }
      }
    }

    /**
      One pass of the thread. `now` is the clock when the pass looks at it and
      `done` when a transfer has ended.
     */
    method Pass(now: int, done: int, idleMs: nat, outcome: Outcome)
      requires Valid()
      modifies this
      ensures Snap() == Passed(old(Snap()), now, done, idleMs, outcome)
      ensures Advances(old(Snap()), Snap(), SendsIn(old(Snap()), now, idleMs))
    {
      PassedGood(Snap(), now, done, idleMs, outcome);
      if suspended {
        return;
      }
      var bupdate := Drain();
      if state != Enabled {
        return;
      }
      var b := WantsUpdate(bupdate, now, idleMs);
      if b {
        DoUpdate(outcome, done);
      }
    }

    /** What other threads do to the machine, or a pass. */
    method Take(input: Input, idleMs: nat)
      requires Valid()
      modifies this
      ensures Snap() == Taken(old(Snap()), input, idleMs)
    {
      match input {
        case Push(e) => fifo := fifo + [e];
        case MouseMoved => mouseMoving := true;
        case Bus(s) => suspended := s;
        case Tick(now, done, outcome) => Pass(now, done, idleMs, outcome);
      }
    }
  }

  // ----- Runs ---------------------------------------------------------------

  /** What the rest of the driver and the clock may do between and during passes. */
  datatype Input =
    | Push(event: Event)
    | MouseMoved
    | Bus(suspended: bool)
    | Tick(now: int, done: int, outcome: Outcome)

  function Taken(m: Machine, input: Input, idleMs: nat): Machine {
    match input
    case Push(e) => m.(fifo := m.fifo + [e])
    case MouseMoved => m.(mouseMoving := true)
    case Bus(s) => m.(suspended := s)
    case Tick(now, done, outcome) => Passed(m, now, done, idleMs, outcome)
  }

  function TakenAll(m: Machine, inputs: seq<Input>, idleMs: nat): Machine {
    if inputs == [] then m else Taken(TakenAll(m, inputs[..|inputs| - 1], idleMs), inputs[|inputs| - 1], idleMs)
  }

  /** The events pushed, oldest first. */
  function Pushed(inputs: seq<Input>): seq<Event> {
    if inputs == [] then []
    else
      var last := inputs[|inputs| - 1];
      Pushed(inputs[..|inputs| - 1]) + if last.Push? then [last.event] else []
  }

  /** Whether the bus is suspended after the inputs; `before` says whether it was before them. */
  function LastBus(inputs: seq<Input>, before: bool): bool {
    if inputs == [] then before
    else if inputs[|inputs| - 1].Bus? then inputs[|inputs| - 1].suspended
    else LastBus(inputs[..|inputs| - 1], before)
  }

  /**
    What a pass finds: every event pushed since the last one, oldest first, the
    mouse flag if it has moved at all, and the bus as it was last reported.
   */
  lemma {:induction false} BetweenPasses(m: Machine, inputs: seq<Input>, idleMs: nat)
    requires forall i :: 0 <= i < |inputs| ==> !inputs[i].Tick?
    ensures TakenAll(m, inputs, idleMs) == m.(fifo := m.fifo + Pushed(inputs), suspended := LastBus(inputs, m.suspended),
                                              mouseMoving := m.mouseMoving || MouseMoved in inputs)
  {
    if inputs != [] {
      var front, last := inputs[..|inputs| - 1], inputs[|inputs| - 1];
      BetweenPasses(m, front, idleMs);
      assert inputs == front + [last];
      assert m.fifo + Pushed(inputs) == m.fifo + Pushed(front) + if last.Push? then [last.event] else [];
    }
  }

  /** The passes of a run that have a send to make. */
  function DueSends(m: Machine, inputs: seq<Input>, idleMs: nat): nat {
    if inputs == [] then 0
    else
      var front, last := inputs[..|inputs| - 1], inputs[|inputs| - 1];
      DueSends(m, front, idleMs) + if last.Tick? then SendsIn(TakenAll(m, front, idleMs), last.now, idleMs) else 0
  }

  lemma TakenAdvances(m: Machine, input: Input, idleMs: nat)
    requires Good(m)
    ensures Advances(m, Taken(m, input, idleMs), if input.Tick? then SendsIn(m, input.now, idleMs) else 0)
  {
    if input.Tick? {
      PassedGood(m, input.now, input.done, idleMs, input.outcome);
    }
  }

  /** Over every run the history stays legal, only grows, and holds one send attempt per pass that has one to make. */
  lemma {:induction false} RunAdvances(m: Machine, inputs: seq<Input>, idleMs: nat)
    requires Good(m)
    ensures Advances(m, TakenAll(m, inputs, idleMs), DueSends(m, inputs, idleMs))
  {
    if inputs != [] {
      var front, last := inputs[..|inputs| - 1], inputs[|inputs| - 1];
      var p := TakenAll(m, front, idleMs);
      var n := if last.Tick? then SendsIn(p, last.now, idleMs) else 0;
      RunAdvances(m, front, idleMs);
      TakenAdvances(p, last, idleMs);
      AdvancesOn(m, p, Taken(p, last, idleMs), DueSends(m, front, idleMs), n);
    }
  }

  /** Any interleaving of inputs: the machine and its whole history are those of the inputs. */
  method Serve(m: StateMachine, inputs: seq<Input>, idleMs: nat)
    requires m.Valid()
    modifies m
    ensures m.Snap() == TakenAll(old(m.Snap()), inputs, idleMs)
    ensures Advances(old(m.Snap()), m.Snap(), DueSends(old(m.Snap()), inputs, idleMs))
  {
    ghost var start := m.Snap();
    for i := 0 to |inputs|
      invariant m.Snap() == TakenAll(start, inputs[..i], idleMs)
    {
      RunAdvances(start, inputs[..i], idleMs);
      m.Take(inputs[i], idleMs);
      assert inputs[..i + 1][..i] == inputs[..i];
    }
    assert inputs[..|inputs|] == inputs;
    RunAdvances(start, inputs, idleMs);
  }
}
