// The HUSB320 Type-C port controller: every call out of the driver may fail.

module Husb320 {
  import opened Arith
  import opened Wrappers

  datatype PortType = Src | Snk | Drp
  datatype DataCap = Dfp | Ufp | Drd
  datatype PowerRole = PowerSink | PowerSource
  datatype DataRole = DataDevice | DataHost
  datatype Preferred = NoPreference | Prefer(role: PowerRole)
  datatype OpMode = UsbDefault | Current1500 | Current3000
  datatype UsbRole = RoleNone | RoleHost | RoleDevice
  datatype Orientation = OrientNone | Normal | Reverse
  datatype Mode = Safe | Usb | AudioMode | DebugMode
  datatype Accessory = NoAccessory | AudioAccessory | DebugAccessory
  datatype State = Unattached | Source | Sink | DebugSource | DebugSink | Audio
  type Register = r: int | 0 <= r < 0x100

  function Bit(r: Register, mask: nat): bool
    requires mask > 0
  {
    r / mask % 2 == 1
  }

  // ----- Decoding -----------------------------------------------------------

  /** The highest-priority type bit of an attached port decides. */
  function GetState(status: Register, kind: Register): State {
    if !Bit(status, 0x01) then Unattached
    else if Bit(kind, 0x40) then DebugSource
    else if Bit(kind, 0x20) then DebugSink
    else if Bit(kind, 0x10) then Sink
    else if Bit(kind, 0x08) then Source
    else if Bit(kind, 0x02) || Bit(kind, 0x01) then Audio
    else Unattached
  }

  function GetOrientation(status: Register): Orientation {
    match status / 16 % 4
    case 1 => Normal
    case 2 => Reverse
    case _ => OrientNone
  }

  function SinkOpmode(status: Register): OpMode {
    match status / 2 % 4
    case 2 => Current1500
    case 3 => Current3000
    case _ => UsbDefault
  }

  function StatePowerRole(s: State): PowerRole {
    match s
    case Source | DebugSource | Audio => PowerSource
    case _ => PowerSink
  }

  function StateAccessory(s: State): Accessory {
    match s
    case DebugSource | DebugSink => DebugAccessory
    case Audio => AudioAccessory
    case _ => NoAccessory
  }

  function StateUsbRole(hasData: bool, cap: DataCap, s: State): UsbRole {
    if !hasData then RoleNone
    else if (s == Source || s == DebugSource) && cap != Ufp then RoleHost
    else if (s == Sink || s == DebugSink) && cap != Dfp then RoleDevice
    else RoleNone
  }

  function StateMode(s: State): Mode {
    match s
    case DebugSource | DebugSink => DebugMode
    case Audio => AudioMode
    case Source | Sink => Usb
    case Unattached => Safe
  }

  function StateOpmode(s: State, status: Register, sourceOpmode: OpMode): OpMode {
    if s == Sink then SinkOpmode(status)
    else if StatePowerRole(s) == PowerSource then sourceOpmode
    else UsbDefault
  }

  function DefaultPowerRole(kind: PortType, preferred: Preferred): PowerRole {
    match kind
    case Src => PowerSource
    case Snk => PowerSink
    case Drp => if preferred == Prefer(PowerSource) then PowerSource else PowerSink
  }

  function DefaultOpmode(kind: PortType, preferred: Preferred, sourceOpmode: OpMode): OpMode {
    if DefaultPowerRole(kind, preferred) == PowerSource then sourceOpmode else UsbDefault
  }

  function DefaultDataRole(cap: DataCap, kind: PortType, preferred: Preferred): DataRole {
    match cap
    case Dfp => DataHost
    case Ufp => DataDevice
    case Drd => if DefaultPowerRole(kind, preferred) == PowerSource then DataHost else DataDevice
  }

  /** What the connector class is told: a port without a USB role keeps what it said before. */
  function ReportedDataRole(role: UsbRole, before: DataRole): DataRole {
    match role
    case RoleHost => DataHost
    case RoleDevice => DataDevice
    case RoleNone => before
  }

  /** A USB role in use is the data role the connector class was told. */
  predicate DataTold(role: UsbRole, data: DataRole) {
    (role == RoleHost ==> data == DataHost) && (role == RoleDevice ==> data == DataDevice)
  }

  // ----- What the port shows the world --------------------------------------

  /** What was wired up at probe; it never changes. */
  datatype Caps = Caps(hasVbus: bool, hasSwitch: bool, hasData: bool, data: DataCap, kind: PortType, sourceOpmode: OpMode)

  datatype Outputs = Outputs(vbus: bool, role: UsbRole, mode: Mode, orientation: Orientation,
                             partner: Option<Accessory>)

  /** The outputs the two status registers call for. */
  function Expected(caps: Caps, status: Register, kind: Register): Outputs {
    var s := GetState(status, kind);
    Outputs(caps.hasVbus && s == Source,
            StateUsbRole(caps.hasData, caps.data, s),
            StateMode(s),
            if s == Unattached then OrientNone else GetOrientation(status),
            if s == Unattached then None else Some(StateAccessory(s)))
  }

  /** At most one of the supplies and roles is ever asked for at once. */
  lemma ExpectedIsConsistent(caps: Caps, status: Register, kind: Register)
    ensures var e := Expected(caps, status, kind);
            && (e.vbus ==> Bit(status, 1) && Bit(kind, 8) && !Bit(kind, 16) && !Bit(kind, 32) && !Bit(kind, 64))
            && (e.vbus ==> e.partner == Some(NoAccessory) && e.mode == Usb && e.role != RoleDevice)
            && (e.partner == None <==> e.mode == Safe)
            && (e.partner == None ==> !e.vbus && e.role == RoleNone && e.orientation == OrientNone)
            && (caps.data == Ufp ==> e.role != RoleHost) && (caps.data == Dfp ==> e.role != RoleDevice)
  {
  }

  // What the registers call for, bit by bit. Bit 0 of the status register is an
  // attached partner, bits 1 and 2 the current a source offers, bits 4 and 5 the
  // plug's orientation; of the type register the highest of bits 6 to 0 decides.

  /** Bit 4 and neither of the two above: the port is a sink. */
  lemma SinkExpected(caps: Caps, status: Register, kind: Register)
    requires status % 2 == 1 && kind / 16 % 8 == 1
    ensures var e, s := Expected(caps, status, kind), GetState(status, kind);
            && !e.vbus && e.partner == Some(NoAccessory) && e.mode == Usb
            && e.role == (if caps.hasData && caps.data != Dfp then RoleDevice else RoleNone)
            && StatePowerRole(s) == PowerSink
            && (StateOpmode(s, status, caps.sourceOpmode) == Current3000 <==> status / 2 % 4 == 3)
            && (StateOpmode(s, status, caps.sourceOpmode) == Current1500 <==> status / 2 % 4 == 2)
  {
  }

  /** Bit 3 and none above: it is a source, and alone switches VBUS on. */
  lemma SourceExpected(caps: Caps, status: Register, kind: Register)
    requires status % 2 == 1 && kind / 8 % 16 == 1
    ensures var e, s := Expected(caps, status, kind), GetState(status, kind);
            && e.vbus == caps.hasVbus && e.partner == Some(NoAccessory) && e.mode == Usb
            && e.role == (if caps.hasData && caps.data != Ufp then RoleHost else RoleNone)
            && StatePowerRole(s) == PowerSource && StateOpmode(s, status, caps.sourceOpmode) == caps.sourceOpmode
  {
  }

  /** Bit 6 is a debug accessory it supplies, bit 5 without it one that supplies it. */
  lemma DebugExpected(caps: Caps, status: Register, kind: Register)
    requires status % 2 == 1 && kind / 32 % 4 != 0
    ensures var e, s := Expected(caps, status, kind), GetState(status, kind);
            && !e.vbus && e.partner == Some(DebugAccessory) && e.mode == DebugMode
            && (kind / 64 % 2 == 1 ==>
                 && e.role == (if caps.hasData && caps.data != Ufp then RoleHost else RoleNone)
                 && StatePowerRole(s) == PowerSource && StateOpmode(s, status, caps.sourceOpmode) == caps.sourceOpmode)
            && (kind / 64 % 2 == 0 ==>
                 && e.role == (if caps.hasData && caps.data != Dfp then RoleDevice else RoleNone)
                 && StatePowerRole(s) == PowerSink && StateOpmode(s, status, caps.sourceOpmode) == UsbDefault)
  {
  }

  /** Bit 1 or 0 and none of bits 3 to 6: an audio accessory. */
  lemma AudioExpected(caps: Caps, status: Register, kind: Register)
    requires status % 2 == 1 && kind / 8 % 16 == 0 && kind % 4 != 0
    ensures var e, s := Expected(caps, status, kind), GetState(status, kind);
            && !e.vbus && e.partner == Some(AudioAccessory) && e.mode == AudioMode && e.role == RoleNone
            && StatePowerRole(s) == PowerSource && StateOpmode(s, status, caps.sourceOpmode) == caps.sourceOpmode
  {
    TypeBits(kind);
  }

  /** Everything is off exactly when nothing is attached or no type bit is set. */
  lemma EmptyExpectedIff(caps: Caps, status: Register, kind: Register)
    ensures Expected(caps, status, kind).partner == None <==>
            status % 2 == 0 || (kind / 8 % 16 == 0 && kind % 4 == 0)
    ensures Expected(caps, status, kind).partner == None ==> Expected(caps, status, kind) == ALL_OFF
  {
    TypeBits(kind);
  }

  lemma Halves(n: nat)
    ensures n / 2 / 2 == n / 4 && n / 4 / 2 == n / 8
  {
  }

  lemma FourBits(n: nat)
    ensures n % 16 == n % 2 + 2 * (n / 2 % 2) + 4 * (n / 4 % 2) + 8 * (n / 8 % 2)
  {
    Halves(n);
    LowBits(n, 2, 8);
    LowBits(n / 2, 2, 4);
    LowBits(n / 4, 2, 2);
  }

  lemma TypeBits(kind: Register)
    ensures kind / 8 % 16 == 0 <==> !Bit(kind, 0x08) && !Bit(kind, 0x10) && !Bit(kind, 0x20) && !Bit(kind, 0x40)
    ensures kind % 4 == 0 <==> !Bit(kind, 0x01) && !Bit(kind, 0x02)
  {
    FourBits(kind / 8);
    LowBits(kind, 2, 2);
    assert kind / 8 / 2 == kind / 16 && kind / 8 / 4 == kind / 32 && kind / 8 / 8 == kind / 64;
  }

  lemma OrientationExpected(caps: Caps, status: Register, kind: Register)
    requires Expected(caps, status, kind).partner != None
    ensures Expected(caps, status, kind).orientation == Normal <==> status / 16 % 4 == 1
    ensures Expected(caps, status, kind).orientation == Reverse <==> status / 16 % 4 == 2
  {
  }

  /** The interrupts served are bits 6 and 4 to 0 of the first register, and bits 2 and 1 of the second. */
  lemma ServedBits(interrupt: Register, interrupt1: Register)
    ensures Served(interrupt) <==> interrupt / 64 % 2 == 1 || interrupt % 32 != 0
    ensures Served1(interrupt1) <==> interrupt1 / 2 % 4 != 0
  {
    FourBits(interrupt);
    LowBits(interrupt, 16, 2);
    Halves(interrupt1);
    LowBits(interrupt1 / 2, 2, 2);
  }

  /** An empty port is a source exactly when it can be nothing else or a dual-role port is asked to be. */
  lemma DefaultRoles(kind: PortType, preferred: Preferred, cap: DataCap, sourceOpmode: OpMode)
    ensures var source := kind == Src || (kind == Drp && preferred == Prefer(PowerSource));
            && (DefaultPowerRole(kind, preferred) == PowerSource <==> source)
            && DefaultOpmode(kind, preferred, sourceOpmode) == (if source then sourceOpmode else UsbDefault)
            && (DefaultDataRole(cap, kind, preferred) == DataHost <==> cap == Dfp || (cap == Drd && source))
  {
  }

  // ----- What holds whenever the lock is free -------------------------------

  /** The driver's fields and the hardware behind its calls, seen between two locked sections. */
  datatype Snapshot = Snapshot(
    state: State, stateValid: bool, shuttingDown: bool, vbusOn: bool, role: UsbRole,
    modeValid: bool, mode: Mode, partner: Option<Accessory>, orientation: Orientation,
    enables: nat, disables: nat, muxMode: Mode, switchRole: UsbRole)

  function Seen(s: Snapshot): Outputs {
    Outputs(s.vbusOn, s.role, s.mode, s.orientation, s.partner)
  }

  const ALL_OFF := Outputs(false, RoleNone, Safe, OrientNone, None)

  /** The fields agree with each other and with the hardware. */
  ghost predicate Books(caps: Caps, s: Snapshot) {
    && (s.partner.Some? <==> s.state != Unattached)
    && (s.partner.Some? ==> s.partner.value == StateAccessory(s.state))
    && s.enables == s.disables + (if s.vbusOn then 1 else 0)
    && (s.vbusOn ==> caps.hasVbus)
    && (s.modeValid ==> s.mode == s.muxMode)
    && (s.stateValid || s.state == Unattached)
  }

  /** The outputs are those of the state. */
  ghost predicate Settled(caps: Caps, s: Snapshot) {
    && s.vbusOn == (caps.hasVbus && s.state == Source)
    && s.role == StateUsbRole(caps.hasData, caps.data, s.state)
    && (caps.hasSwitch ==> s.switchRole == s.role)
    && s.modeValid && s.mode == StateMode(s.state)
    && (s.state == Unattached ==> s.orientation == OrientNone)
  }

  /** The invariant of the lock. */
  ghost predicate Released(caps: Caps, s: Snapshot) {
    && Books(caps, s)
    && (s.stateValid || s.shuttingDown)
    && (s.stateValid ==> Settled(caps, s))
  }

  /** VBUS is up only for a valid source, unless the driver has given up. */
  lemma VbusOnlyForSource(caps: Caps, s: Snapshot)
    requires Released(caps, s) && s.vbusOn
    ensures (s.stateValid && s.state == Source) || s.shuttingDown
  {
  }

  // ----- The world outside --------------------------------------------------

  /** What the controller's registers hold when an interrupt or a probe looks at them. */
  datatype Controller = Controller(status: Register, kind: Register, interrupt: Register, interrupt1: Register)

  /** What the calls behind the outputs return if they are made; zero is success. */
  datatype Outcomes = Outcomes(vbus: int, role: int, mode: int, orientation: int) {
    predicate Work() {
      vbus == 0 && role == 0 && mode == 0 && orientation == 0
    }
  }

  /** The calls of a look at the controller: two reads, leaving the old state, entering the new one. */
  datatype Calls = Calls(readStatus: int, readKind: int, leave: Outcomes, enter: Outcomes, partner: int) {
    predicate Work() {
      readStatus == 0 && readKind == 0 && leave.Work() && enter.Work() && partner == 0
    }
  }

  /** The reads and write-backs of the two interrupt registers. */
  datatype Acks = Acks(read: int, read1: int, write: int, write1: int)

  /** The calls of an error recovery: the disconnect, the restart, and turning the controller off, once or twice. */
  datatype Recovery = Recovery(cut: Outcomes, restart: int, mask: int, off: int, maskAgain: int, offAgain: int)

  /** Interrupt register bits the driver serves: 6, 4..0 and, in the second one, 2 and 1. */
  function Served(interrupt: Register): bool {
    Bit(interrupt, 0x40) || Bit(interrupt, 0x10) || Bit(interrupt, 0x08) ||
    Bit(interrupt, 0x04) || Bit(interrupt, 0x02) || Bit(interrupt, 0x01)
  }

  function Served1(interrupt1: Register): bool {
    Bit(interrupt1, 0x04) || Bit(interrupt1, 0x02)
  }

  predicate Ours(c: Controller) {
    Served(c.interrupt) || Served1(c.interrupt1)
  }

  /** Both registers are read, and those with bits to serve are written back. */
  predicate Acked(c: Controller, a: Acks) {
    && a.read == 0 && a.read1 == 0
    && (Served(c.interrupt) ==> a.write == 0)
    && (Served1(c.interrupt1) ==> a.write1 == 0)
  }

  // ----- Runs ---------------------------------------------------------------

  datatype Event =
    | Interrupt(c: Controller, acks: Acks, detach: Outcomes, calls: Calls, r: Recovery)
    | SetType(kind: PortType, cut: Outcomes, write: int, r: Recovery)
    | SetPreferred(role: Preferred, write: int)
    | Begin(mask: int)
    | Finish(removal: bool, cut: Outcomes)

  /** What every locked section may do to the latch and the regulator. */
  ghost predicate LockStep(a: Snapshot, b: Snapshot) {
    && a.enables <= b.enables && a.disables <= b.disables
    && (a.shuttingDown ==> b.shuttingDown && b.enables == a.enables)
  }

  /** A detach between two looks at a source takes VBUS down and up again. */
  ghost predicate Cycled(c: Controller, detach: Outcomes, calls: Calls, a: Snapshot, b: Snapshot) {
    c.interrupt / 2 % 2 == 1 && detach.vbus == 0 && calls.Work() ==>
      b.enables == a.enables + (if b.vbusOn then 1 else 0)
  }

  /** What a served interrupt leaves: the outputs its registers call for if its calls work, else those or nothing. */
  ghost predicate ServedTo(caps: Caps, c: Controller, calls: Calls, b: Snapshot) {
    && (calls.Work() ==> b.stateValid && Seen(b) == Expected(caps, c.status, c.kind))
    && (!b.shuttingDown ==> Seen(b) == Expected(caps, c.status, c.kind) || Seen(b) == ALL_OFF)
  }

  /** What the locked section of an event does. */
  ghost predicate Effect(caps: Caps, e: Event, a: Snapshot, b: Snapshot) {
    LockStep(a, b) &&
    match e
    case Interrupt(c, acks, detach, calls, _) =>
      if a.shuttingDown then b == a
      else if !Acked(c, acks) then b.shuttingDown && b.state == Unattached
      else if !Ours(c) then b == a
      else ServedTo(caps, c, calls, b) && Cycled(c, detach, calls, a, b) && (calls.Work() ==> !b.shuttingDown)
    case SetType(_, cut, write, _) =>
      if a.shuttingDown then b == a
      else b.state == Unattached && b.enables == a.enables &&
           (cut.Work() && write == 0 ==> !b.shuttingDown && Seen(b) == ALL_OFF)
    case SetPreferred(_, _) => b == a
    case Begin(_) => b == a.(shuttingDown := true)
    case Finish(_, cut) =>
      if !a.shuttingDown then b == a
      else b.state == Unattached && b.partner == None && (cut.Work() ==> Seen(b) == ALL_OFF)
  }

  ghost predicate IsRun(caps: Caps, events: seq<Event>, trace: seq<Snapshot>) {
    |trace| == |events| + 1 && forall i :: 0 <= i < |events| ==> EffectAt(caps, events, trace, i)
  }

  ghost predicate EffectAt(caps: Caps, events: seq<Event>, trace: seq<Snapshot>, i: nat)
    requires i < |events| && |trace| == |events| + 1
  {
    Effect(caps, events[i], trace[i], trace[i + 1])
  }

  /** What a reader of the port may rely on at any release of the lock. */
  ghost predicate SafeAtRelease(caps: Caps, s: Snapshot) {
    && Released(caps, s)
    && (s.vbusOn ==> (s.stateValid && s.state == Source) || s.shuttingDown)
  }

  lemma {:induction false} DisablesGrow(caps: Caps, events: seq<Event>, trace: seq<Snapshot>, i: nat, j: nat)
    requires IsRun(caps, events, trace) && i <= j < |trace|
    ensures trace[i].disables <= trace[j].disables
  {
    if i < j {
      DisablesGrow(caps, events, trace, i, j - 1);
      assert EffectAt(caps, events, trace, j - 1);
    }
  }

  /** From the first release with the latch set: it stays set, the regulator is never enabled, VBUS can only go down. */
  ghost predicate Final(a: Snapshot, b: Snapshot) {
    a.shuttingDown ==> b.shuttingDown && b.enables == a.enables && (b.vbusOn ==> a.vbusOn)
  }

  lemma {:induction false} ShutdownIsFinal(caps: Caps, events: seq<Event>, trace: seq<Snapshot>, i: nat, j: nat)
    requires IsRun(caps, events, trace) && i <= j < |trace|
    requires forall k :: 0 <= k < |trace| ==> SafeAtRelease(caps, trace[k])
    ensures Final(trace[i], trace[j])
  {
    assert SafeAtRelease(caps, trace[i]);
    if i < j {
      ShutdownIsFinal(caps, events, trace, i, j - 1);
      assert EffectAt(caps, events, trace, j - 1);
      DisablesGrow(caps, events, trace, i, j);
      assert SafeAtRelease(caps, trace[j]);
    }
  }

  lemma RunSnoc(caps: Caps, events: seq<Event>, trace: seq<Snapshot>, e: Event, s: Snapshot)
    requires IsRun(caps, events, trace) && Effect(caps, e, trace[|events|], s)
    ensures IsRun(caps, events + [e], trace + [s])
  {
    forall i | 0 <= i < |events| + 1 ensures EffectAt(caps, events + [e], trace + [s], i) {
      if i < |events| {
        assert EffectAt(caps, events, trace, i);
      }
    }
  }

  // ----- The driver ---------------------------------------------------------

  const ESHUTDOWN := 108

  /** What the driver's calls act on: the regulator, the role switch, the connector. */
  datatype Hardware = Hardware(
    orientation: Orientation, muxMode: Mode, switchRole: UsbRole,
    powerRole: PowerRole, dataRole: DataRole, powerOpmode: OpMode,
    enables: nat, disables: nat)

  /** The controller's own settings: interrupts masked, detection running, and as which kind of port. */
  datatype Chip = Chip(masked: bool, running: bool, kind: PortType)

  class Port {
    const caps: Caps
    var portType: PortType
    var preferredRole: Preferred
    var state: State
    var usbRole: UsbRole
    var connectorMode: Mode
    var modeValid: bool
    var shuttingDown: bool
    var stateValid: bool
    var vbusOn: bool
    var partner: Option<Accessory>
    var irqEnabled: bool
    var hw: Hardware
    var chip: Chip

    ghost function Snap(): Snapshot
      reads this
    {
      Snapshot(state, stateValid, shuttingDown, vbusOn, usbRole, modeValid, connectorMode, partner,
               hw.orientation, hw.enables, hw.disables, hw.muxMode, hw.switchRole)
    }

    ghost function Shown(): Outputs
      reads this
    {
      Outputs(vbusOn, usbRole, connectorMode, hw.orientation, partner)
    }

    /** The books are right, and a valid state has its outputs. */
    ghost predicate Consistent()
      reads this
    {
      Books(caps, Snap()) && (stateValid ==> Settled(caps, Snap()))
    }

    /** A driver whose controller is set up, before the first look at it. */
    constructor (caps: Caps, preferred: Preferred, hw: Hardware)
      requires hw.enables == hw.disables == 0
      ensures this.caps == caps && Consistent() && !stateValid && !shuttingDown && irqEnabled && this.hw == hw
      ensures portType == caps.kind && preferredRole == preferred && chip == Chip(true, true, caps.kind)
    {
      this.caps := caps;
      portType, preferredRole := caps.kind, preferred;
      state, usbRole, connectorMode, modeValid := Unattached, RoleNone, Safe, false;
      shuttingDown, stateValid, vbusOn, partner := false, false, false, None;
      irqEnabled := true;
      this.hw := hw;
      chip := Chip(true, true, caps.kind);
    }

    // Calls out of the driver: any of them may fail, and then has no effect. A
    // method takes as `outcome` what its call returns if it is made.

    /** A read gives what the register holds, or fails and gives anything. */
    static method RegmapRead(held: Register, outcome: int) returns (ret: int, value: Register)
      ensures ret == outcome && (ret == 0 ==> value == held)
    {
      ret := outcome;
      value := *;
      if ret == 0 {
        value := held;
      }
    }

    /** Without a role switch the call succeeds and does nothing. */
    method RoleSwitchSet(role: UsbRole, outcome: int) returns (ret: int)
      modifies this`hw
      ensures ret == if caps.hasSwitch then outcome else 0
      ensures hw == if caps.hasSwitch && ret == 0 then old(hw).(switchRole := role) else old(hw)
    {
      if !caps.hasSwitch {
        return 0;
      }
      ret := outcome;
      if ret == 0 {
        hw := hw.(switchRole := role);
      }
    }

    // ----- husb320_set_vbus, _set_mode, partners ----------------------------

    method SetVbus(enable: bool, outcome: int) returns (ret: int)
      modifies this`vbusOn, this`hw
      ensures ret == if caps.hasVbus && old(vbusOn) != enable then outcome else 0
      ensures vbusOn == if ret == 0 && caps.hasVbus then enable else old(vbusOn)
      ensures hw == old(hw).(enables := hw.enables, disables := hw.disables)
      ensures hw.enables == old(hw).enables + (if vbusOn && !old(vbusOn) then 1 else 0)
      ensures hw.disables == old(hw).disables + (if old(vbusOn) && !vbusOn then 1 else 0)
    {
      if !caps.hasVbus || vbusOn == enable {
        return 0;
      }
      ret := outcome;
      if ret != 0 {
        return;
      }
      hw := if enable then hw.(enables := hw.enables + 1) else hw.(disables := hw.disables + 1);
      vbusOn := enable;
    }

    method SetMode(mode: Mode, outcome: int) returns (ret: int)
      requires modeValid ==> connectorMode == hw.muxMode
      modifies this`connectorMode, this`modeValid, this`hw
      ensures ret == if old(modeValid) && old(connectorMode) == mode then 0 else outcome
      ensures ret == 0 ==> modeValid && connectorMode == mode && hw == old(hw).(muxMode := mode)
      ensures ret != 0 ==> modeValid == old(modeValid) && connectorMode == old(connectorMode) && hw == old(hw)
    {
      if modeValid && connectorMode == mode {
        return 0;
      }
      ret := outcome;
      if ret != 0 {
        return;
      }
      hw := hw.(muxMode := mode);
      connectorMode := mode;
      modeValid := true;
    }

    method SetOrientation(o: Orientation, outcome: int) returns (ret: int)
      modifies this`hw
      ensures ret == if old(hw).orientation != o then outcome else 0
      ensures hw == if ret == 0 then old(hw).(orientation := o) else old(hw)
    {
      ret := 0;
      if hw.orientation != o {
        ret := outcome;
        if ret == 0 {
          hw := hw.(orientation := o);
        }
      }
    }

    method RegisterPartner(accessory: Accessory, outcome: int) returns (ret: int)
      modifies this`partner
      ensures ret == if old(partner).Some? then 0 else outcome
      ensures ret == 0 ==> partner == if old(partner).Some? then old(partner) else Some(accessory)
      ensures ret != 0 ==> partner == None == old(partner)
    {
      if partner.Some? {
        return 0;
      }
      ret := outcome;
      if ret == 0 {
        partner := Some(accessory);
      }
    }

    /** Reports the roles and the current an empty port of this type has; a port without data keeps its data role. */
    method SetUnattachedRoles()
      modifies this`hw
      ensures hw == old(hw).(powerRole := DefaultPowerRole(portType, preferredRole),
                             powerOpmode := DefaultOpmode(portType, preferredRole, caps.sourceOpmode),
                             dataRole := if caps.hasData then DefaultDataRole(caps.data, portType, preferredRole)
                                         else old(hw).dataRole)
    {
      var role := DefaultPowerRole(portType, preferredRole);
      hw := hw.(powerRole := role);
      if caps.hasData {
        hw := hw.(dataRole := DefaultDataRole(caps.data, portType, preferredRole));
      }
      hw := hw.(powerOpmode := if role == PowerSource then caps.sourceOpmode else UsbDefault);
    }

    // ----- husb320_disconnect -----------------------------------------------

    /** VBUS, the data role and the connector mode: each goes off if its own call works, whatever became of the others. */
    method CutOutputs(f: Outcomes) returns (err: int)
      requires Books(caps, Snap())
      modifies this`vbusOn, this`usbRole, this`connectorMode, this`modeValid, this`hw
      ensures Books(caps, Snap())
      ensures vbusOn == (old(vbusOn) && f.vbus != 0)
      ensures usbRole == if caps.hasSwitch && f.role != 0 then old(usbRole) else RoleNone
      ensures caps.hasSwitch && f.role == 0 ==> hw.switchRole == RoleNone
      ensures f.mode == 0 ==> modeValid && connectorMode == Safe
      ensures err == 0 ==> !vbusOn && usbRole == RoleNone && (caps.hasSwitch ==> hw.switchRole == RoleNone)
      ensures err == 0 ==> modeValid && connectorMode == Safe
      ensures f.vbus == 0 && f.role == 0 && f.mode == 0 ==> err == 0
      ensures hw.enables == old(hw).enables && hw.disables >= old(hw).disables && hw.orientation == old(hw).orientation
    {
      err := 0;
      var ret := SetVbus(false, f.vbus);
      if ret != 0 {
        err := ret;
      }
      ret := RoleSwitchSet(RoleNone, f.role);
      if ret != 0 {
        if err == 0 {
          err := ret;
        }
      } else {
        usbRole := RoleNone;
      }
      ret := SetMode(Safe, f.mode);
      if ret != 0 && err == 0 {
        err := ret;
      }
    }

    /** The partner, the orientation and the reported roles; `cut` is the first error so far. */
    method Detach(cut: int, outcome: int) returns (err: int)
      modifies this`state, this`stateValid, this`partner, this`hw
      ensures state == Unattached && partner == None && stateValid == (err == 0)
      ensures err == if cut != 0 || old(hw).orientation == OrientNone then cut else outcome
      ensures hw.orientation == if outcome == 0 then OrientNone else old(hw).orientation
      ensures hw == old(hw).(orientation := hw.orientation, powerRole := DefaultPowerRole(portType, preferredRole),
                             powerOpmode := hw.powerOpmode, dataRole := hw.dataRole)
      ensures caps.hasData ==> hw.dataRole == DefaultDataRole(caps.data, portType, preferredRole)
    {
      err := cut;
      partner := None;
      if hw.orientation != OrientNone {
        var ret := SetOrientation(OrientNone, outcome);
        if ret != 0 && err == 0 {
          err := ret;
        }
      }
      SetUnattachedRoles();
      state := Unattached;
      stateValid := err == 0;
    }

    /**
      Everything off, step by step. Valid exactly when every step worked; but
      after any failure each output whose own call worked is off all the same.
     */
    method Disconnect(f: Outcomes) returns (err: int)
      requires Books(caps, Snap())
      modifies this`state, this`stateValid, this`partner, this`vbusOn, this`usbRole,
               this`connectorMode, this`modeValid, this`hw
      ensures Consistent() && state == Unattached && partner == None && stateValid == (err == 0)
      ensures err == 0 ==> Shown() == ALL_OFF
      ensures f.Work() ==> err == 0
      ensures vbusOn == (old(vbusOn) && f.vbus != 0)
      ensures usbRole == if caps.hasSwitch && f.role != 0 then old(usbRole) else RoleNone
      ensures f.mode == 0 ==> connectorMode == Safe
      ensures f.orientation == 0 ==> hw.orientation == OrientNone
      ensures hw.enables == old(hw).enables && hw.disables >= old(hw).disables
    {
      err := CutOutputs(f);
      err := Detach(err, f.orientation);
    }

    /** Masks interrupts and stops detection; the second write is tried even if the first failed. */
    method HwDisable(mask: int, off: int) returns (err: int)
      modifies this`chip
      ensures chip == old(chip).(masked := old(chip).masked || mask == 0, running := old(chip).running && off != 0)
      ensures err == 0 <==> mask == 0 && off == 0
    {
      var ret := mask;
      err := ret;
      if ret == 0 {
        chip := chip.(masked := true);
      }
      ret := off;
      if ret == 0 {
        chip := chip.(running := false);
      }
      if ret != 0 && err == 0 {
        err := ret;
      }
    }

    /** Disconnect and restart; when either fails the driver gives up for good. */
    method ErrorRecovery(r: Recovery)
      requires Books(caps, Snap())
      modifies this`state, this`stateValid, this`partner, this`vbusOn, this`usbRole,
               this`connectorMode, this`modeValid, this`hw, this`shuttingDown, this`chip
      ensures Released(caps, Snap()) && state == Unattached
      ensures old(shuttingDown) ==> shuttingDown
      ensures r.cut.Work() && r.restart == 0 ==> shuttingDown == old(shuttingDown)
      ensures r.restart != 0 ==> shuttingDown
      ensures chip.kind == old(chip).kind
      ensures stateValid ==> Shown() == ALL_OFF
      ensures hw.enables == old(hw).enables && hw.disables >= old(hw).disables
    {
      var cleanup := Disconnect(r.cut);
      var recovery := r.restart;
      if cleanup == 0 && recovery == 0 {
        return;
      }
      shuttingDown := true;
      var disabled := HwDisable(r.mask, r.off);
    }

    // ----- husb320_apply_state, _update_state -------------------------------

    /** The data role, switched only when it differs, then the connector mode. */
    method EnterData(s: State, f: Outcomes) returns (ret: int)
      requires modeValid ==> connectorMode == hw.muxMode
      requires caps.hasSwitch ==> hw.switchRole == usbRole
      modifies this`usbRole, this`connectorMode, this`modeValid, this`hw
      ensures hw == old(hw).(switchRole := hw.switchRole, muxMode := hw.muxMode)
      ensures modeValid ==> connectorMode == hw.muxMode
      ensures caps.hasSwitch ==> hw.switchRole == usbRole
      ensures ret == 0 ==> usbRole == StateUsbRole(caps.hasData, caps.data, s) && modeValid && connectorMode == StateMode(s)
      ensures f.Work() ==> ret == 0
    {
      var role := StateUsbRole(caps.hasData, caps.data, s);
      ret := 0;
      if role != usbRole {
        ret := RoleSwitchSet(role, f.role);
        if ret == 0 {
          usbRole := role;
        }
      }
      if ret == 0 {
        ret := SetMode(StateMode(s), f.mode);
      }
    }

    /** The orientation, switched only when it differs, then VBUS: on for a source alone. */
    method EnterPower(s: State, o: Orientation, f: Outcomes) returns (ret: int)
      modifies this`vbusOn, this`hw
      ensures hw == old(hw).(orientation := hw.orientation, enables := hw.enables, disables := hw.disables)
      ensures hw.enables == old(hw).enables + (if vbusOn && !old(vbusOn) then 1 else 0)
      ensures hw.disables == old(hw).disables + (if old(vbusOn) && !vbusOn then 1 else 0)
      ensures vbusOn != old(vbusOn) ==> caps.hasVbus
      ensures ret == 0 ==> hw.orientation == o && vbusOn == if caps.hasVbus then s == Source else old(vbusOn)
      ensures f.Work() ==> ret == 0
    {
      ret := SetOrientation(o, f.orientation);
      if ret == 0 {
        ret := SetVbus(s == Source, f.vbus);
      }
    }

    /** Orientation, VBUS, data role and connector mode of an attached state, stopping at the first failure. */
    method EnterOutputs(s: State, o: Orientation, f: Outcomes) returns (ret: int)
      requires Books(caps, Snap()) && (caps.hasSwitch ==> hw.switchRole == usbRole)
      modifies this`vbusOn, this`usbRole, this`connectorMode, this`modeValid, this`hw
      ensures Books(caps, Snap())
      ensures hw.enables == old(hw).enables + (if vbusOn && !old(vbusOn) then 1 else 0)
      ensures hw.disables >= old(hw).disables
      ensures ret == 0 ==> hw.orientation == o && vbusOn == (caps.hasVbus && s == Source)
      ensures ret == 0 ==> usbRole == StateUsbRole(caps.hasData, caps.data, s)
      ensures ret == 0 ==> modeValid && connectorMode == StateMode(s) && (caps.hasSwitch ==> hw.switchRole == usbRole)
      ensures f.Work() ==> ret == 0
    {
      ret := EnterPower(s, o, f);
      if ret == 0 {
        ret := EnterData(s, f);
      }
    }

    /** The reported roles, then the partner; only with a partner is the state entered. */
    method EnterState(s: State, status: Register, outcome: int) returns (ret: int)
      requires partner.Some? ==> state == s && partner == Some(StateAccessory(s))
      modifies this`state, this`stateValid, this`partner, this`hw
      ensures hw == old(hw).(powerRole := StatePowerRole(s), powerOpmode := StateOpmode(s, status, caps.sourceOpmode),
                             dataRole := ReportedDataRole(StateUsbRole(caps.hasData, caps.data, s), old(hw).dataRole))
      ensures DataTold(StateUsbRole(caps.hasData, caps.data, s), hw.dataRole)
      ensures ret == 0 ==> stateValid && state == s && partner == Some(StateAccessory(s))
      ensures ret != 0 ==> !stateValid && state == old(state) && partner == None == old(partner)
      ensures outcome == 0 ==> ret == 0
    {
      var role := StateUsbRole(caps.hasData, caps.data, s);
      if role == RoleHost {
        hw := hw.(dataRole := DataHost);
      } else if role == RoleDevice {
        hw := hw.(dataRole := DataDevice);
      }
      hw := hw.(powerRole := StatePowerRole(s), powerOpmode := StateOpmode(s, status, caps.sourceOpmode));
      ret := RegisterPartner(StateAccessory(s), outcome);
      stateValid := ret == 0;
      if ret == 0 {
        state := s;
      }
    }

    /** Enters an attached state, from a clean detached port or from that state itself. */
    method Attach(s: State, o: Orientation, status: Register, f: Outcomes, outcome: int) returns (ret: int)
      requires Consistent() && stateValid && s != Unattached && (state == s || state == Unattached)
      modifies this`state, this`stateValid, this`partner, this`vbusOn, this`usbRole,
               this`connectorMode, this`modeValid, this`hw
      ensures Books(caps, Snap())
      ensures hw.enables == old(hw).enables + (if vbusOn && !old(vbusOn) then 1 else 0)
      ensures hw.disables >= old(hw).disables
      ensures ret == 0 ==> stateValid && state == s && Settled(caps, Snap()) && hw.orientation == o
      ensures ret == 0 ==> hw.powerRole == StatePowerRole(s) && hw.powerOpmode == StateOpmode(s, status, caps.sourceOpmode)
      ensures ret == 0 ==> DataTold(usbRole, hw.dataRole)
      ensures f.Work() && outcome == 0 ==> ret == 0
    {
      ret := EnterOutputs(s, o, f);
      if ret == 0 {
        ret := EnterState(s, status, outcome);
      }
    }

    method ApplyState(s: State, o: Orientation, status: Register, calls: Calls) returns (ret: int)
      requires Consistent() && (s == Unattached ==> o == OrientNone)
      modifies this`state, this`stateValid, this`partner, this`vbusOn, this`usbRole,
               this`connectorMode, this`modeValid, this`hw
      ensures Books(caps, Snap())
      ensures hw.enables >= old(hw).enables && hw.disables >= old(hw).disables
      ensures !old(vbusOn) ==> hw.enables == old(hw).enables + (if vbusOn then 1 else 0)
      ensures ret == 0 ==> stateValid && state == s && Settled(caps, Snap()) && hw.orientation == o
      ensures ret == 0 && s != Unattached ==>
                hw.powerRole == StatePowerRole(s) && hw.powerOpmode == StateOpmode(s, status, caps.sourceOpmode)
      ensures ret == 0 ==> DataTold(usbRole, hw.dataRole)
      ensures calls.Work() ==> ret == 0
    {
      if s == Unattached && stateValid && state == Unattached && partner == None && !vbusOn && usbRole == RoleNone {
        return 0;
      }
      if s == Unattached {
        ret := Disconnect(calls.leave);
        return;
      }
      if s != state && (!stateValid || state != Unattached) {
        ret := Disconnect(calls.leave);
        if ret != 0 {
          return;
        }
      }
      ret := Attach(s, o, status, calls.enter, calls.partner);
    }

    /**
      Reads the controller and applies what it says. After success, which is
      certain when every call works, everything shown is a function of the two
      registers and the port's wiring: neither the earlier state nor earlier
      failures matter.
     */
    method UpdateState(c: Controller, calls: Calls) returns (ret: int)
      requires Consistent()
      modifies this`state, this`stateValid, this`partner, this`vbusOn, this`usbRole,
               this`connectorMode, this`modeValid, this`hw
      ensures Books(caps, Snap())
      ensures hw.enables >= old(hw).enables && hw.disables >= old(hw).disables
      ensures !old(vbusOn) ==> hw.enables == old(hw).enables + (if vbusOn then 1 else 0)
      ensures ret == 0 ==> stateValid && Settled(caps, Snap()) && state == GetState(c.status, c.kind)
      ensures ret == 0 ==> Shown() == Expected(caps, c.status, c.kind)
      ensures ret == 0 && state != Unattached ==>
                hw.powerRole == StatePowerRole(state) && hw.powerOpmode == StateOpmode(state, c.status, caps.sourceOpmode)
      ensures ret == 0 ==> DataTold(usbRole, hw.dataRole)
      ensures calls.Work() ==> ret == 0
    {
      var status, kind;
      ret, status := RegmapRead(c.status, calls.readStatus);
      if ret != 0 {
        return;
      }
      ret, kind := RegmapRead(c.kind, calls.readKind);
      if ret != 0 {
        return;
      }
      var s := GetState(status, kind);
      ret := ApplyState(s, if s == Unattached then OrientNone else GetOrientation(status), status, calls);
    }

    // ----- husb320_probe ----------------------------------------------------

    /**
      The end of a probe: the port is registered and the controller set up, but
      masked. From success on the lock's invariant holds; VBUS may be on already.
      After a failure the driver is shut down again.
     */
    static method Probe(caps: Caps, preferred: Preferred, hw: Hardware, c: Controller, calls: Calls, unmask: int,
                        cut: Outcomes, mask: int, off: int)
      returns (ret: int, p: Port)
      requires hw.enables == hw.disables == 0
      ensures fresh(p) && p.caps == caps && Released(caps, p.Snap())
      ensures ret == 0 ==> !p.shuttingDown && !p.chip.masked && p.Shown() == Expected(caps, c.status, c.kind)
      ensures ret != 0 ==> p.shuttingDown && p.state == Unattached && (off == 0 ==> !p.chip.running)
      ensures calls.Work() && unmask == 0 ==> ret == 0
    {
      p := new Port(caps, preferred, hw);
      ret := p.UpdateState(c, calls);
      if ret == 0 {
        ret := unmask;
      }
      if ret == 0 {
        p.chip := p.chip.(masked := false);
        return;
      }
      p.shuttingDown := true;
      var err := p.Disconnect(cut);
      err := p.HwDisable(mask, off);
    }

    // ----- husb320_irq_thread -----------------------------------------------

    /** Reads and acknowledges the two interrupt registers; only bits that are set are written back. */
    static method Acknowledge(c: Controller, a: Acks) returns (ret: int, interrupt: Register, interrupt1: Register)
      ensures ret == 0 <==> Acked(c, a)
      ensures ret == 0 ==> interrupt == c.interrupt && interrupt1 == c.interrupt1
    {
      interrupt1 := 0;
      ret, interrupt := RegmapRead(c.interrupt, a.read);
      if ret != 0 {
        return;
      }
      ret, interrupt1 := RegmapRead(c.interrupt1, a.read1);
      if ret == 0 && Served(interrupt) {
        ret := a.write;
      }
      if ret == 0 && Served1(interrupt1) {
        ret := a.write1;
      }
    }

    /** The error exit: the driver gives up, whatever recovery achieves, and masks its interrupt. */
    method GiveUp(r: Recovery)
      requires Books(caps, Snap())
      modifies this`state, this`stateValid, this`partner, this`vbusOn, this`usbRole,
               this`connectorMode, this`modeValid, this`hw, this`shuttingDown, this`irqEnabled, this`chip
      ensures Released(caps, Snap()) && shuttingDown && !irqEnabled && state == Unattached
      ensures hw.enables == old(hw).enables && hw.disables >= old(hw).disables
      ensures r.offAgain == 0 ==> !chip.running
    {
      shuttingDown := true;
      ErrorRecovery(r);
      var disabled := HwDisable(r.maskAgain, r.offAgain);
      irqEnabled := false;
    }

    /** A detach comes first, then the state is read again; a failure to apply it starts recovery. */
    method Refresh(detached: bool, c: Controller, detach: Outcomes, calls: Calls, r: Recovery) returns (ret: int)
      requires Released(caps, Snap())
      modifies this`state, this`stateValid, this`partner, this`vbusOn, this`usbRole,
               this`connectorMode, this`modeValid, this`hw, this`shuttingDown, this`chip
      ensures Released(caps, Snap()) && (old(shuttingDown) ==> shuttingDown)
      ensures hw.enables >= old(hw).enables && hw.disables >= old(hw).disables
      ensures ret == 0 ==> stateValid && Shown() == Expected(caps, c.status, c.kind) && shuttingDown == old(shuttingDown)
      ensures ret == 0 && detached && detach.vbus == 0 ==> hw.enables == old(hw).enables + (if vbusOn then 1 else 0)
      ensures ret != 0 && !shuttingDown ==> Shown() == ALL_OFF
      ensures calls.Work() ==> ret == 0
    {
      if detached {
        var ignored := Disconnect(detach);
      }
      ret := UpdateState(c, calls);
      if ret != 0 {
        ErrorRecovery(r);
      }
    }

    method IrqThread(c: Controller, acks: Acks, detach: Outcomes, calls: Calls, r: Recovery) returns (handled: bool)
      requires Released(caps, Snap())
      modifies this`state, this`stateValid, this`partner, this`vbusOn, this`usbRole,
               this`connectorMode, this`modeValid, this`hw, this`shuttingDown, this`irqEnabled, this`chip
      ensures Released(caps, Snap())
      ensures Effect(caps, Interrupt(c, acks, detach, calls, r), old(Snap()), Snap())
      ensures handled == (old(shuttingDown) || !Acked(c, acks) || Ours(c))
      ensures irqEnabled == (old(irqEnabled) && !old(shuttingDown) && Acked(c, acks))
    {
      if shuttingDown {
        irqEnabled := false;
        return true;
      }
      var ret, interrupt, interrupt1 := Acknowledge(c, acks);
      if ret != 0 {
        GiveUp(r);
        return true;
      }
      if !Served(interrupt) && !Served1(interrupt1) {
        return false;
      }
      var updated := Refresh(Bit(interrupt, 0x02), c, detach, calls, r);
      return true;
    }

    // ----- husb320_port_type_set, _try_role_set -----------------------------

    method PortTypeSet(kind: PortType, cut: Outcomes, write: int, r: Recovery) returns (ret: int)
      requires Released(caps, Snap())
      modifies this
      ensures Released(caps, Snap()) && Effect(caps, SetType(kind, cut, write, r), old(Snap()), Snap())
      ensures old(shuttingDown) ==> ret == -ESHUTDOWN && portType == old(portType)
      ensures ret == 0 ==> portType == chip.kind == kind && stateValid && Shown() == ALL_OFF
      ensures ret == 0 ==> hw.powerRole == DefaultPowerRole(kind, preferredRole)
      ensures ret != 0 ==> portType == old(portType) && chip.kind == old(chip).kind
      ensures !old(shuttingDown) && cut.Work() && write == 0 ==> ret == 0
      ensures preferredRole == old(preferredRole)
    {
      if shuttingDown {
        return -ESHUTDOWN;
      }
      ret := Disconnect(cut);
      if ret == 0 {
        ret := write;
      }
      if ret != 0 {
        ErrorRecovery(r);
        return;
      }
      chip := chip.(kind := kind);
      portType := kind;
      SetUnattachedRoles();
    }

    /** Only a dual-role port has the preference in the controller too. */
    method TryRoleSet(role: Preferred, write: int) returns (ret: int)
      modifies this`preferredRole
      ensures ret == if shuttingDown then -ESHUTDOWN else if portType == Drp then write else 0
      ensures preferredRole == if ret == 0 then role else old(preferredRole)
    {
      if shuttingDown {
        return -ESHUTDOWN;
      }
      ret := 0;
      if portType == Drp {
        ret := write;
      }
      if ret == 0 {
        preferredRole := role;
      }
    }

    // ----- husb320_remove, _shutdown ----------------------------------------

    /** The first locked section of both: from here on nothing is served. */
    method BeginShutdown(mask: int)
      requires Released(caps, Snap())
      modifies this`shuttingDown, this`chip
      ensures Released(caps, Snap()) && Snap() == old(Snap()).(shuttingDown := true)
      ensures chip == old(chip).(masked := old(chip).masked || mask == 0)
    {
      shuttingDown := true;
      if mask == 0 {
        chip := chip.(masked := true);
      }
    }

    /** The second locked section of remove: whatever fails before, the controller is told to stop. */
    method Remove(cut: Outcomes, mask: int, off: int) returns (ret: int)
      requires Released(caps, Snap()) && shuttingDown
      modifies this`state, this`stateValid, this`partner, this`vbusOn, this`usbRole,
               this`connectorMode, this`modeValid, this`hw, this`chip
      ensures Released(caps, Snap()) && Effect(caps, Finish(true, cut), old(Snap()), Snap())
      ensures stateValid ==> Shown() == ALL_OFF
      ensures off == 0 ==> !chip.running
    {
      ret := Disconnect(cut);
      ret := HwDisable(mask, off);
    }

    /** The controller as a plain sink, interrupts masked; stops at the first failure. */
    method SetSinkMode(mask: int, role: int, on: int) returns (ret: int)
      modifies this`chip
      ensures ret == 0 <==> mask == 0 && role == 0 && on == 0
      ensures ret == 0 ==> chip == Chip(true, true, Snk)
    {
      ret := mask;
      if ret != 0 {
        return;
      }
      chip := chip.(masked := true);
      ret := role;
      if ret != 0 {
        return;
      }
      chip := chip.(kind := Snk);
      ret := on;
      if ret == 0 {
        chip := chip.(running := true);
      }
    }

    /**
      The second locked section of shutdown: a port that can sink and was
      disconnected cleanly is left running as a plain sink; any other, or when
      that fails, is told to stop.
     */
    method Shutdown(cut: Outcomes, sinkMask: int, sinkRole: int, sinkOn: int, mask: int, off: int) returns (ret: int)
      requires Released(caps, Snap()) && shuttingDown
      modifies this`state, this`stateValid, this`partner, this`vbusOn, this`usbRole,
               this`connectorMode, this`modeValid, this`hw, this`chip
      ensures Released(caps, Snap()) && Effect(caps, Finish(false, cut), old(Snap()), Snap())
      ensures stateValid ==> Shown() == ALL_OFF
      ensures var sink := caps.kind != Src && stateValid && sinkMask == 0 && sinkRole == 0 && sinkOn == 0;
              (sink ==> ret == 0 && chip == Chip(true, true, Snk)) && (!sink && off == 0 ==> !chip.running)
    {
      ret := Disconnect(cut);
      if ret == 0 && caps.kind != Src {
        ret := SetSinkMode(sinkMask, sinkRole, sinkOn);
        if ret == 0 {
          return;
        }
      }
      ret := HwDisable(mask, off);
    }

    // ----- Runs -------------------------------------------------------------

    /** One locked section; a removal or shutdown proceeds only once begun. */
    method Section(e: Event)
      requires Released(caps, Snap())
      modifies this
      ensures Released(caps, Snap()) && Effect(caps, e, old(Snap()), Snap())
    {
      match e {
        case Interrupt(c, acks, detach, calls, r) =>
          var handled := IrqThread(c, acks, detach, calls, r);
        case SetType(kind, cut, write, r) =>
          var ret := PortTypeSet(kind, cut, write, r);
        case SetPreferred(role, write) =>
          var ret := TryRoleSet(role, write);
        case Begin(mask) =>
          BeginShutdown(mask);
        case Finish(removal, cut) =>
          Conclude(removal, cut);
      }
    }

    /** The second section, with any outcomes of the controller's own calls. */
    method Conclude(removal: bool, cut: Outcomes)
      requires Released(caps, Snap())
      modifies this
      ensures Released(caps, Snap()) && Effect(caps, Finish(removal, cut), old(Snap()), Snap())
    {
      var sinkMask, sinkRole, sinkOn, mask, off := *, *, *, *, *;
      if shuttingDown && removal {
        var ret := Remove(cut, mask, off);
      } else if shuttingDown {
        var ret := Shutdown(cut, sinkMask, sinkRole, sinkOn, mask, off);
      }
    }

    /**
      Any events in any order, any call failing. Each event has its effect; at
      every release of the lock its invariant holds, and VBUS is on only for a
      valid source or while shutting down; after the latch the regulator is
      never enabled again.
     */
    method Serve(events: seq<Event>) returns (ghost trace: seq<Snapshot>)
      requires Released(caps, Snap())
      modifies this
      ensures IsRun(caps, events, trace) && trace[0] == old(Snap()) && trace[|events|] == Snap()
      ensures forall j :: 0 <= j < |trace| ==> SafeAtRelease(caps, trace[j])
      ensures forall i, j :: 0 <= i <= j < |trace| ==> Final(trace[i], trace[j])
    {
      trace := [Snap()];
      for n := 0 to |events|
        invariant Released(caps, Snap()) && IsRun(caps, events[..n], trace)
        invariant trace[0] == old(Snap()) && trace[n] == Snap()
        invariant forall j :: 0 <= j < |trace| ==> SafeAtRelease(caps, trace[j])
      {
        Section(events[n]);
        RunSnoc(caps, events[..n], trace, events[n], Snap());
        assert events[..n + 1] == events[..n] + [events[n]];
        trace := trace + [Snap()];
      }
      assert events[..|events|] == events;
      forall i, j | 0 <= i <= j < |trace| ensures Final(trace[i], trace[j]) {
        ShutdownIsFinal(caps, events, trace, i, j);
      }
    }
  }
}
