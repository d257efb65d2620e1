// The bulk transfer of one packet in 64 KB pieces, and the bus that carries it.

module Transfer {
  import opened Bits

  const CHUNK_SIZE := 65536
  const EIO := 5

  /**
    What one submitted URB came back with: a status, the bytes the host says it
    moved, and, when it did not go through whole, the bytes that reached the chip.
   */
  datatype Urb = Urb(ret: int, actual: nat, reached: nat) {
    predicate Whole(n: nat) {
      ret == 0 && actual == n
    }

    function Through(n: nat): (m: nat)
      ensures m <= n
    {
      if Whole(n) then n else Min(reached, n)
    }
  }

  /** The outcome of every URB a transfer may submit, in order. */
  type Wire = nat -> Urb

  function ChunkLen(remaining: nat): nat {
    Min(remaining, CHUNK_SIZE)
  }

  /** From piece `k` on, every piece of the `remaining` bytes goes through whole. */
  predicate Delivered(wire: Wire, remaining: nat, k: nat)
    decreases remaining
  {
    remaining == 0 ||
    (wire(k).Whole(ChunkLen(remaining)) && Delivered(wire, remaining - ChunkLen(remaining), k + 1))
  }

  /** How many of the `remaining` bytes reach the chip from piece `k` on. */
  function Reach(wire: Wire, remaining: nat, k: nat): (n: nat)
    ensures n <= remaining
    ensures Delivered(wire, remaining, k) ==> n == remaining
    decreases remaining
  {
    if remaining == 0 then 0
    else
      var n := ChunkLen(remaining);
      if wire(k).Whole(n) then n + Reach(wire, remaining - n, k + 1) else wire(k).Through(n)
  }

  /** The j-th piece of 64 KB of the `remaining` bytes, the last one shorter, comes back without error and whole. */
  predicate PieceWhole(wire: Wire, remaining: nat, k: nat, j: nat)
    requires 0x1_0000 * j < remaining
  {
    wire(k + j).ret == 0 && wire(k + j).actual == Min(0x1_0000, remaining - 0x1_0000 * j)
  }

  /** A packet goes through exactly when each of its pieces does. */
  lemma {:induction false} DeliveredIff(wire: Wire, remaining: nat, k: nat)
    ensures Delivered(wire, remaining, k) <==>
            forall j: nat :: 0x1_0000 * j < remaining ==> PieceWhole(wire, remaining, k, j)
    decreases remaining
  {
    if remaining > 0 {
      var rest := remaining - ChunkLen(remaining);
      DeliveredIff(wire, rest, k + 1);
      assert PieceWhole(wire, remaining, k, 0) <==> wire(k).Whole(ChunkLen(remaining));
      forall j: nat | 0 < j && 0x1_0000 * j < remaining
        ensures PieceWhole(wire, remaining, k, j) == PieceWhole(wire, rest, k + 1, j - 1)
      {
        assert k + 1 + (j - 1) == k + j;
      }
      if forall j: nat :: 0x1_0000 * j < remaining ==> PieceWhole(wire, remaining, k, j) {
        forall j: nat | 0x1_0000 * j < rest ensures PieceWhole(wire, rest, k + 1, j) {
          assert PieceWhole(wire, remaining, k, j + 1);
        }
      }
    }
  }

  /** Otherwise the pieces before the first failing one reach the chip, and of that one what the wire let through. */
  lemma {:induction false} ReachStops(wire: Wire, remaining: nat, k: nat, j: nat)
    requires 0x1_0000 * j < remaining && !PieceWhole(wire, remaining, k, j)
    requires forall i: nat :: i < j ==> PieceWhole(wire, remaining, k, i)
    ensures Reach(wire, remaining, k) == 0x1_0000 * j + Min(wire(k + j).reached, Min(0x1_0000, remaining - 0x1_0000 * j))
    decreases remaining
  {
    if j > 0 {
      var rest, next := remaining - ChunkLen(remaining), k + 1;
      assert PieceWhole(wire, remaining, k, 0) && next + (j - 1) == k + j;
      forall i: nat | i < j - 1 ensures PieceWhole(wire, rest, next, i) {
        assert PieceWhole(wire, remaining, k, i + 1) && next + i == k + (i + 1);
      }
      ReachStops(wire, rest, next, j - 1);
    }
  }

  /** The chip got everything, but the host does not know. */
  predicate AckLost(wire: Wire, len: nat) {
    Reach(wire, len, 0) == len && !Delivered(wire, len, 0)
  }

  /** It can happen to a packet of any single piece: an error on a transfer the chip took whole. */
  lemma AckMayBeLost(len: nat)
    requires 0 < len <= CHUNK_SIZE
    ensures AckLost((k: nat) => Urb(-110, 0, len), len)
  {
    var wire: Wire := (k: nat) => Urb(-110, 0, len);
    assert Reach(wire, len, 0) == len && !Delivered(wire, len, 0);
  }

  /**
    The endpoint. `packets` are the transfers so far, each as the bytes that
    reached the chip between two zero-length messages; `open` what has reached
    it since the last one.
   */
  class Bus {
    var open: seq<byte>
    var packets: seq<seq<byte>>

    constructor ()
      ensures open == [] && packets == []
    {
      open, packets := [], [];
    }

    /** One URB; the chip stalls on more than 64 KB. */
    method Submit(buf: array<byte>, from: nat, n: nat, urb: Urb) returns (ret: int, actual: nat)
      requires 0 < n <= 0x1_0000 && from + n <= buf.Length
      modifies this`open
      ensures ret == urb.ret && actual == urb.actual
      ensures open == old(open) + buf[from..from + urb.Through(n)]
    {
      ret, actual := urb.ret, urb.actual;
      open := open + buf[from..from + urb.Through(n)];
    }

    /** The zero-length message after a frame. */
    method EndTransfer()
      modifies this
      ensures open == [] && packets == old(packets) + [old(open)]
    {
      packets := packets + [open];
      open := [];
    }
  }

  /**
    Submits the first `len` bytes of the buffer piece by piece until one fails
    or comes back short, and ends the transfer either way.
   */
  method SendChunks(bus: Bus, buf: array<byte>, len: nat, wire: Wire) returns (ret: int)
    requires len <= buf.Length && bus.open == []
    modifies bus
    ensures ret == 0 <==> Delivered(wire, len, 0)
    ensures bus.open == [] && bus.packets == old(bus.packets) + [buf[..Reach(wire, len, 0)]]
  {
    ret := 0;
    var remaining: nat, offset: nat, k: nat := len, 0, 0;
    while remaining > 0
      invariant ret == 0 && offset + remaining == len
      invariant bus.packets == old(bus.packets) && bus.open == buf[..offset]
      invariant Reach(wire, len, 0) == offset + Reach(wire, remaining, k)
      invariant Delivered(wire, len, 0) == Delivered(wire, remaining, k)
    {
      var n := if remaining > CHUNK_SIZE then CHUNK_SIZE else remaining;
      var urb := wire(k);
      var status, actual := bus.Submit(buf, offset, n, urb);
      assert buf[..offset + urb.Through(n)] == buf[..offset] + buf[offset..offset + urb.Through(n)];
      if status != 0 {
        ret := status;
        break;
      }
      if actual != n {
        ret := -EIO;
        break;
      }
      offset := offset + n;
      remaining := remaining - n;
      k := k + 1;
    }
    bus.EndTransfer();
  }
}
