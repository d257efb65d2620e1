// From the driver's state to the bytes on the bus, and from those bytes to what
// the chip holds.

module Sending {
  import opened Bits
  import opened Raster
  import opened Wrappers
  import opened Damage
  import opened Yuv
  import opened Packet
  import opened Display
  import opened Transfer

  // ----- What the driver sends ----------------------------------------------

  predicate Pending(d: Driver)
    requires d.index < |d.rect|
  {
    !d.rect[d.index].Empty()
  }

  /** The packet of the rectangle pending for the current buffer. */
  ghost function PendingPacket(d: Driver, w: nat, h: nat): (b: seq<byte>)
    requires DriverOk(d, w, h) && Pending(d)
    ensures |b| > 0
  {
    Encode(FullYuv(d.desktop, w, h), d.rect[d.index], w, h)
  }

  /** What reaches the chip of a packet. */
  function Reaching(wire: Wire, b: seq<byte>): seq<byte> {
    b[..Reach(wire, |b|, 0)]
  }

  /** The driver after a tick over this wire, and the transfer it makes, if any. */
  ghost function Ticked(d: Driver, wire: Wire, w: nat, h: nat): (e: Driver)
    requires DriverOk(d, w, h)
    ensures DriverOk(e, w, h)
  {
    var e := Detect(d, w, h);
    if Pending(e) then Advanced(e, Delivered(wire, |PendingPacket(e, w, h)|, 0), w, h) else e
  }

  ghost function Transfers(d: Driver, wire: Wire, w: nat, h: nat): Option<seq<byte>>
    requires DriverOk(d, w, h)
  {
    var e := Detect(d, w, h);
    if Pending(e) then Some(Reaching(wire, PendingPacket(e, w, h))) else None
  }

  function Logged(packets: seq<seq<byte>>, b: Option<seq<byte>>): seq<seq<byte>> {
    if b.Some? then packets + [b.value] else packets
  }

  /** Nothing is pending, or the wire takes the whole packet. */
  ghost predicate GoesThrough(wire: Wire, d: Driver, w: nat, h: nat)
    requires DriverOk(d, w, h)
  {
    var e := Detect(d, w, h);
    !Pending(e) || Delivered(wire, |PendingPacket(e, w, h)|, 0)
  }

  /** A packet is pending, the chip gets all of it, and the driver takes it for lost. */
  ghost predicate Unacknowledged(wire: Wire, d: Driver, w: nat, h: nat)
    requires DriverOk(d, w, h)
  {
    var e := Detect(d, w, h);
    Pending(e) && AckLost(wire, |PendingPacket(e, w, h)|)
  }

  // ----- What the chip makes of it ------------------------------------------

  /** The bytes are a block of this mode. */
  ghost predicate Complete(b: seq<byte>, w: nat, h: nat) {
    Parse(b).Some? && Fits(Parse(b).value, w, h)
  }

  /** A complete block is stored and shown; anything else leaves `spoilt` in the current buffer. */
  ghost function Received(c: Chip, b: seq<byte>, spoilt: PairGrid, w: nat, h: nat): (e: Chip)
    requires ModeOk(w, h) && ChipOk(c, w, h) && HasDims(spoilt, w / 2, h)
    ensures ChipOk(e, w, h)
  {
    var i := c.index;
    if Complete(b, w, h) then Chip(c.frames[i := Receive(c.frames[i], b, w, h)], 1 - i)
    else Chip(c.frames[i := spoilt], i)
  }

  /** What the chip's buffer holds after the n-th transfer, if that was not a block. */
  type Spoiling = nat -> PairGrid

  ghost predicate SpoilingOk(spoil: Spoiling, w: nat, h: nat) {
    forall n: nat :: HasDims(spoil(n), w / 2, h)
  }

  /** The chip after these transfers. */
  ghost function ReceivedAll(c: Chip, packets: seq<seq<byte>>, spoil: Spoiling, w: nat, h: nat): (e: Chip)
    requires ModeOk(w, h) && ChipOk(c, w, h) && SpoilingOk(spoil, w, h)
    ensures ChipOk(e, w, h)
  {
    if packets == [] then c
    else
      var n := |packets| - 1;
      Received(ReceivedAll(c, packets[..n], spoil, w, h), packets[n], spoil(n), w, h)
  }

  /** A packet is complete exactly when all of it arrives. */
  lemma CompleteIff(wire: Wire, d: Driver, w: nat, h: nat)
    requires DriverOk(d, w, h) && Pending(d)
    ensures var p := PendingPacket(d, w, h);
            Complete(Reaching(wire, p), w, h) <==> Reach(wire, |p|, 0) == |p|
  {
    var p, g, rect := PendingPacket(d, w, h), FullYuv(d.desktop, w, h), d.rect[d.index];
    var n := Reach(wire, |p|, 0);
    if n < |p| {
      PrefixDoesNotParse(g, rect, w, h, n);
    } else {
      assert Reaching(wire, p) == p;
      ParseEncode(g, rect, w, h);
    }
  }

  /** Storing the driver's packet is copying that rectangle of the converted desktop. */
  lemma ReceivedPacket(c: Chip, d: Driver, w: nat, h: nat)
    requires DriverOk(d, w, h) && ChipOk(c, w, h) && Pending(d)
    ensures HasDims(c.frames[c.index], w / 2, h)
    ensures Receive(c.frames[c.index], PendingPacket(d, w, h), w, h) ==
            Patch(c.frames[c.index], FullYuv(d.desktop, w, h), PairRect(d.rect[d.index]), w / 2, h)
  {
    assert c.index == 0 || c.index == 1;
    ReceiveIsPatch(c.frames[c.index], FullYuv(d.desktop, w, h), d.rect[d.index], w, h);
  }

  /** The chip after at most one transfer more. */
  ghost function ReceivedNext(c: Chip, b: Option<seq<byte>>, spoilt: PairGrid, w: nat, h: nat): (e: Chip)
    requires ModeOk(w, h) && ChipOk(c, w, h) && HasDims(spoilt, w / 2, h)
    ensures ChipOk(e, w, h)
  {
    if b.Some? then Received(c, b.value, spoilt, w, h) else c
  }

  lemma ReceivedSnoc(c: Chip, packets: seq<seq<byte>>, b: seq<byte>, spoil: Spoiling, w: nat, h: nat)
    requires ModeOk(w, h) && ChipOk(c, w, h) && SpoilingOk(spoil, w, h)
    ensures ReceivedAll(c, packets + [b], spoil, w, h) ==
            Received(ReceivedAll(c, packets, spoil, w, h), b, spoil(|packets|), w, h)
  {
    assert (packets + [b])[..|packets|] == packets && (packets + [b])[|packets|] == b;
  }

  lemma ReceivedLogged(c: Chip, packets: seq<seq<byte>>, b: Option<seq<byte>>, spoil: Spoiling, w: nat, h: nat)
    requires ModeOk(w, h) && ChipOk(c, w, h) && SpoilingOk(spoil, w, h)
    ensures ReceivedAll(c, Logged(packets, b), spoil, w, h) ==
            ReceivedNext(ReceivedAll(c, packets, spoil, w, h), b, spoil(|packets|), w, h)
  {
    if b.Some? {
      ReceivedSnoc(c, packets, b.value, spoil, w, h);
    }
  }

  /**
    One tick: unless an acknowledgement is lost, driver and chip go on as one
    step of the model, the chip by the bytes that reached it alone.
   */
  lemma TickIsStep(s: System, wire: Wire, spoilt: PairGrid, w: nat, h: nat)
    requires SystemOk(s, w, h) && HasDims(spoilt, w / 2, h) && !Unacknowledged(wire, s.drv, w, h)
    ensures var t := Step(s, Tick(GoesThrough(wire, s.drv, w, h), spoilt), w, h);
            t.drv == Ticked(s.drv, wire, w, h) &&
            t.chip == ReceivedNext(s.chip, Transfers(s.drv, wire, w, h), spoilt, w, h)
  {
    var e := Detect(s.drv, w, h);
    if Pending(e) {
      var p := PendingPacket(e, w, h);
      CompleteIff(wire, e, w, h);
      if Delivered(wire, |p|, 0) {
        assert Reaching(wire, p) == p;
        ReceivedPacket(s.chip, e, w, h);
        assert Received(s.chip, p, spoilt, w, h) == Send(s.(drv := e), true, spoilt, w, h).chip;
      } else {
        assert Received(s.chip, Reaching(wire, p), spoilt, w, h) == Send(s.(drv := e), false, spoilt, w, h).chip;
      }
    }
  }

  /**
    The driver's index follows the chip's over a tick exactly when no
    acknowledgement is lost: then the chip has moved on and the driver has not.
   */
  lemma IndexFollowsIff(d: Driver, c: Chip, wire: Wire, spoilt: PairGrid, w: nat, h: nat)
    requires DriverOk(d, w, h) && ChipOk(c, w, h) && HasDims(spoilt, w / 2, h) && d.index == c.index
    ensures Ticked(d, wire, w, h).index == ReceivedNext(c, Transfers(d, wire, w, h), spoilt, w, h).index
            <==> !Unacknowledged(wire, d, w, h)
  {
    var e := Detect(d, w, h);
    if Pending(e) {
      CompleteIff(wire, e, w, h);
    }
  }
}
