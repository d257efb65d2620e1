// The RK817 fuel gauge: open-circuit voltage lookup, the smoothing integrator
// and the register form of a capacity. 32-bit unsigned results are reduced
// explicitly wherever the source's could wrap.

module Rk817 {
  import opened Arith
  import opened Bits

  const TWO_32 := 0x1_0000_0000
  const MAX_INTERPOLATE := 1000
  const MAX_INT := 0x7FFF

  /** A value stored in a u32 or a u16. */
  function Wrap32(x: int): int {
    if 0 <= x < TWO_32 then x else x % TWO_32
  }

  function Wrap16(x: int): int {
    if 0 <= x < 0x10000 then x else x % 0x10000
  }

  // ----- Open-circuit voltage -----------------------------------------------

  /** How many entries from `i` on have to be passed before one exceeds the value. */
  function Rank(value: nat, table: seq<nat>, i: nat): (r: nat)
    requires i <= |table|
    ensures i <= r <= |table|
    decreases |table| - i
  {
    if i == |table| || value < table[i] then i else Rank(value, table, i + 1)
  }

  /** The part of a step `over` millivolts into a gap, in the source's 32- and 16-bit arithmetic. */
  function Share(over: nat, gap: nat, step: nat): int
    requires gap > 0
  {
    Wrap16(Wrap32(over * step)) / gap
  }

  /** The points of a value below the first entry or past the last. */
  function Beyond(i: nat, size: nat): int
    requires size > 0
  {
    Wrap16(i * ((MAX_INTERPOLATE + size / 2) / size))
  }

  lemma {:induction false} RankSplits(value: nat, table: seq<nat>, i: nat)
    requires i <= |table|
    ensures forall j :: i <= j < Rank(value, table, i) ==> table[j] <= value
    ensures Rank(value, table, i) < |table| ==> value < table[Rank(value, table, i)]
    decreases |table| - i
  {
    if i < |table| && table[i] <= value {
      RankSplits(value, table, i + 1);
    }
  }

  /** The points once the scan has stopped at entry `i`. */
  function Points(value: nat, table: seq<nat>, i: nat): int
    requires 2 <= |table| && i <= |table|
    requires 0 < i < |table| ==> table[i - 1] <= value < table[i]
  {
    var step := MAX_INTERPOLATE / (|table| - 1);
    Min(if 0 < i < |table| then Wrap16(Share(value - table[i - 1], table[i] - table[i - 1], step) + (i - 1) * step)
        else Beyond(i, |table|),
        MAX_INTERPOLATE)
  }

  function Interpolated(value: nat, table: seq<nat>): int {
    if |table| < 2 then 0 else RankSplits(value, table, 0); Points(value, table, Rank(value, table, 0))
  }

  /** The scan; its counter is a byte, so the table must be shorter than 256. */
  method Interpolate(value: nat, table: seq<nat>) returns (d: int)
    requires |table| < 256
    ensures d == Interpolated(value, table)
  {
    if |table| < 2 {
      return 0;
    }
    var i := 0;
    while i < |table| && value >= table[i]
      invariant i <= |table| && Rank(value, table, 0) == Rank(value, table, i)
    {
      i := i + 1;
    }
    RankSplits(value, table, 0);
    d := Points(value, table, i);
  }

  /** The tables the boards carry: 21 points, strictly rising, no gap over 1310 mV. */
  ghost predicate IsOcvTable(table: seq<nat>) {
    |table| == 21 && forall i :: 0 <= i < 20 ==> GapFits(table, i)
  }

  ghost predicate GapFits(table: seq<nat>, i: nat)
    requires i + 1 < |table|
  {
    table[i] < table[i + 1] <= table[i] + 1310
  }

  lemma ShareBelowStep(over: nat, gap: nat)
    requires over < gap
    ensures over * 50 / gap < 50
  {
    assert over * 50 / gap * gap <= over * 50;
    if over * 50 / gap >= 50 {
      MulMonotone(50, over * 50 / gap, gap);
      assert false;
    }
  }

  lemma DivMonotone(a: nat, b: nat, c: nat)
    requires a <= b && c > 0
    ensures a / c <= b / c
  {
    if b / c < a / c {
      MulMonotone(b / c + 1, a / c, c);
      assert false;
    }
  }

  lemma ProductFits(over: nat)
    requires over < 1310
    ensures Wrap16(Wrap32(over * 50)) == over * 50
  {
  }

  /** In a gap of at most 1310 mV nothing is truncated. */
  lemma ShareIsExact(over: nat, gap: nat)
    requires over < gap <= 1310
    ensures Share(over, gap, 50) == over * 50 / gap && 0 <= Share(over, gap, 50) < 50
  {
    ProductFits(over);
    ShareBelowStep(over, gap);
  }

  lemma SumFits(share: nat, i: nat)
    requires share < 50 && 1 <= i <= 20
    ensures Min(Wrap16(share + (i - 1) * 50), MAX_INTERPOLATE) == share + 50 * (i - 1)
  {
  }

  lemma PointsAtRank(value: nat, table: seq<nat>, r: nat)
    requires |table| == 21 && 0 < r < 21 && table[r - 1] <= value < table[r] <= table[r - 1] + 1310
    ensures Points(value, table, r) == 50 * (r - 1) + (value - table[r - 1]) * 50 / (table[r] - table[r - 1])
    ensures 50 * (r - 1) <= Points(value, table, r) < 50 * r
  {
    ShareIsExact(value - table[r - 1], table[r] - table[r - 1]);
    SumFits(Share(value - table[r - 1], table[r] - table[r - 1], 50), r);
  }

  /** Rank r gives between 50·(r−1) and 50·r − 1 points; below the table 0, past it 1000. */
  lemma PointsInBand(value: nat, table: seq<nat>)
    requires IsOcvTable(table)
    ensures Rank(value, table, 0) == 0 ==> Interpolated(value, table) == 0
    ensures Rank(value, table, 0) == 21 ==> Interpolated(value, table) == 1000
    ensures var r := Rank(value, table, 0); 0 < r < 21 ==>
              table[r - 1] <= value < table[r] && 50 * (r - 1) <= Interpolated(value, table) < 50 * r &&
              Interpolated(value, table) == 50 * (r - 1) + (value - table[r - 1]) * 50 / (table[r] - table[r - 1])
  {
    RankSplits(value, table, 0);
    var r := Rank(value, table, 0);
    if 0 < r < 21 {
      assert GapFits(table, r - 1);
      PointsAtRank(value, table, r);
    }
  }

  lemma {:induction false} TableRises(table: seq<nat>, i: nat, j: nat)
    requires IsOcvTable(table) && i <= j < 21
    ensures table[i] + (j - i) <= table[j]
  {
    if i < j {
      TableRises(table, i, j - 1);
      assert GapFits(table, j - 1);
    }
  }

  lemma {:induction false} RankMonotone(a: nat, b: nat, table: seq<nat>, i: nat)
    requires a <= b && i <= |table|
    ensures Rank(a, table, i) <= Rank(b, table, i)
    decreases |table| - i
  {
    if i < |table| && table[i] <= a {
      RankMonotone(a, b, table, i + 1);
    }
  }

  /** The lookup never falls as the voltage rises, and stays within 0..1000. */
  lemma InterpolateMonotone(a: nat, b: nat, table: seq<nat>)
    requires IsOcvTable(table) && a <= b
    ensures 0 <= Interpolated(a, table) <= Interpolated(b, table) <= 1000
  {
    PointsInBand(a, table);
    PointsInBand(b, table);
    RankMonotone(a, b, table, 0);
    var r := Rank(a, table, 0);
    if r == Rank(b, table, 0) && 0 < r < 21 {
      assert GapFits(table, r - 1);
      DivMonotone((a - table[r - 1]) * 50, (b - table[r - 1]) * 50, table[r] - table[r - 1]);
    }
  }

  lemma RankAtEntry(table: seq<nat>, k: nat)
    requires IsOcvTable(table) && k < 21
    ensures Rank(table[k], table, 0) == k + 1
  {
    RankSplits(table[k], table, 0);
    var r := Rank(table[k], table, 0);
    if r <= k {
      TableRises(table, r, k);
    } else if r > k + 1 {
      assert table[k + 1] <= table[k];
      TableRises(table, k, k + 1);
      assert false;
    }
  }

  /** It hits 50·k exactly at entry k. */
  lemma InterpolateHits(table: seq<nat>, k: nat)
    requires IsOcvTable(table) && k < 21
    ensures Interpolated(table[k], table) == 50 * k
  {
    RankAtEntry(table, k);
    PointsInBand(table[k], table);
  }

  // ----- Scaled division ----------------------------------------------------

  predicate TopBit(x: int) {
    x >= 0x8000_0000
  }

  /** A u32 read back as an int. */
  function AsInt(x: int): int {
    if TopBit(x) then x - TWO_32 else x
  }

  /** The quotient read as an int, unless it reaches MAX_INT. */
  function Capped(n: nat, d: nat): int
    requires d > 0
  {
    if AsInt(n / d) < MAX_INT then AsInt(n / d) else MAX_INT
  }

  /** (a * b) / c, rounded, saturating at MAX_INT; the sign is the parity of the top bits. */
  function AbDivC(a: int, b: int, c: int): int
    requires 0 <= a < TWO_32 && 0 <= b < TWO_32 && 0 <= c < TWO_32
  {
    var sign := (TopBit(a) != TopBit(b)) != TopBit(c);
    var d := if sign then Wrap32(-c) else c;
    var ans := if c == 0 then MAX_INT else Capped(Wrap32(Wrap32(a * b) + d / 2), d);
    if sign then AsInt(Wrap32(-ans)) else ans
  }

  lemma CappedIsMin(n: nat, d: nat)
    requires n < TWO_32 && d >= 2
    ensures Capped(n, d) == Min(n / d, MAX_INT)
  {
    assert n / d * 2 <= n by {
      MulMonotone(2, d, n / d);
    }
  }

  lemma AbDivIsRounded(a: nat, b: nat, c: nat)
    requires a < 0x8000_0000 && b < 0x8000_0000 && 2 <= c < 0x8000_0000 && a * b + c / 2 < TWO_32
    ensures AbDivC(a, b, c) == Min((a * b + c / 2) / c, MAX_INT)
  {
    CappedIsMin(a * b + c / 2, c);
    assert 0 <= a * b;
  }

  function VolToSoc(value: nat, table: seq<nat>): int
    requires IsOcvTable(table)
  {
    InterpolateMonotone(value, value, table);
    AbDivC(Interpolated(value, table), 100, MAX_INTERPOLATE)
  }

  function VolToCap(value: nat, table: seq<nat>, fcc: nat): int
    requires IsOcvTable(table) && fcc < TWO_32
  {
    InterpolateMonotone(value, value, table);
    AbDivC(Interpolated(value, table), fcc, MAX_INTERPOLATE)
  }

  /** The percentage rises with the voltage, from 0 at the first entry to 100 at the last. */
  lemma VolToSocMonotone(a: nat, b: nat, table: seq<nat>)
    requires IsOcvTable(table) && a <= b
    ensures 0 <= VolToSoc(a, table) <= VolToSoc(b, table) <= 100
    ensures a <= table[0] ==> VolToSoc(a, table) == 0
    ensures table[20] <= b ==> VolToSoc(b, table) == 100
  {
    InterpolateMonotone(a, b, table);
    var p, q := Interpolated(a, table), Interpolated(b, table);
    AbDivIsRounded(p, 100, MAX_INTERPOLATE);
    AbDivIsRounded(q, 100, MAX_INTERPOLATE);
    if a <= table[0] {
      InterpolateHits(table, 0);
      InterpolateMonotone(a, table[0], table);
    }
    if table[20] <= b {
      InterpolateHits(table, 20);
      InterpolateMonotone(table[20], b, table);
    }
  }

  /** The percentage is a tenth of the points, rounded. */
  lemma VolToSocIsTenth(value: nat, table: seq<nat>)
    requires IsOcvTable(table)
    ensures -5 < 10 * VolToSoc(value, table) - Interpolated(value, table) <= 5
  {
    InterpolateMonotone(value, value, table);
    AbDivIsRounded(Interpolated(value, table), 100, MAX_INTERPOLATE);
  }

  /** The capacity is the points' share of the full one, rounded, while that fits 15 bits. */
  lemma VolToCapIsShare(value: nat, table: seq<nat>, fcc: nat)
    requires IsOcvTable(table) && fcc <= MAX_INT
    ensures -500 < 1000 * VolToCap(value, table, fcc) - Interpolated(value, table) * fcc <= 500
  {
    InterpolateMonotone(value, value, table);
    CapOf(Interpolated(value, table), fcc);
  }

  lemma Negated(ans: int)
    requires 0 <= ans <= MAX_INT
    ensures AsInt(Wrap32(-ans)) == -ans
  {
    if ans > 0 {
      assert -ans % TWO_32 == TWO_32 - ans;
    }
  }

  lemma Complement(c: int)
    requires 0 < c < 0x8000_0000
    ensures Wrap32(-(TWO_32 - c)) == c
  {
    assert (c - TWO_32) % TWO_32 == c;
  }

  /** A zero divisor saturates. */
  lemma AbDivZero(a: int, b: int)
    requires 0 <= a < 0x8000_0000 && 0 <= b < 0x8000_0000
    ensures AbDivC(a, b, 0) == MAX_INT
  {
  }

  lemma NegativeForm(a: int, b: int, c: int)
    requires 0 <= a < 0x8000_0000 && 0 <= b < 0x8000_0000 && 2 <= c < 0x8000_0000
    ensures AbDivC(a, b, TWO_32 - c) == AsInt(Wrap32(-Capped(Wrap32(Wrap32(a * b) + c / 2), c)))
  {
    Complement(c);
  }

  lemma NegatedQuotient(n: nat, c: nat)
    requires 2 <= c && n + c / 2 < TWO_32
    ensures AsInt(Wrap32(-Capped(Wrap32(Wrap32(n) + c / 2), c))) == -Min((n + c / 2) / c, MAX_INT)
  {
    var total := n + c / 2;
    assert Wrap32(Wrap32(n) + c / 2) == total;
    CappedIsMin(total, c);
    NegatedMin(total / c);
  }

  lemma NegatedMin(q: nat)
    ensures AsInt(Wrap32(-Min(q, MAX_INT))) == -Min(q, MAX_INT)
  {
    Negated(Min(q, MAX_INT));
  }

  /** A negative divisor, in two's complement, gives the rounded quotient negated. */
  lemma AbDivNegative(a: int, b: int, c: int)
    requires 0 <= a < 0x8000_0000 && 0 <= b < 0x8000_0000 && 2 <= c < 0x8000_0000 && 0 <= a * b && a * b + c / 2 < TWO_32
    ensures AbDivC(a, b, TWO_32 - c) == -Min((a * b + c / 2) / c, MAX_INT)
  {
    NegativeForm(a, b, c);
    NegatedQuotient(a * b, c);
  }

  lemma CapOf(points: nat, fcc: nat)
    requires points <= 1000 && fcc <= 4294966
    ensures points * fcc + 500 < TWO_32
    ensures AbDivC(points, fcc, MAX_INTERPOLATE) == Min((points * fcc + 500) / 1000, MAX_INT)
    ensures (points * fcc + 500) / 1000 <= fcc
  {
    MulMonotone(points, 1000, fcc);
    AbDivIsRounded(points, fcc, MAX_INTERPOLATE);
  }

  /** The capacity rises with the voltage up to the full one; past 32767 mAh it saturates. */
  lemma VolToCapMonotone(a: nat, b: nat, table: seq<nat>, fcc: nat)
    requires IsOcvTable(table) && a <= b && fcc <= 4294966
    ensures 0 <= VolToCap(a, table, fcc) <= VolToCap(b, table, fcc) <= fcc
    ensures table[20] <= b ==> VolToCap(b, table, fcc) == Min(fcc, MAX_INT)
  {
    InterpolateMonotone(a, b, table);
    var p, q := Interpolated(a, table), Interpolated(b, table);
    CapOf(p, fcc);
    CapOf(q, fcc);
    MulMonotone(p, q, fcc);
    DivMonotone(p * fcc + 500, q * fcc + 500, 1000);
    if table[20] <= b {
      InterpolateHits(table, 20);
      InterpolateMonotone(table[20], b, table);
    }
  }

  /** So a full battery reads back its full capacity exactly when that fits 15 bits. */
  lemma FullIsFullIff(b: nat, table: seq<nat>, fcc: nat)
    requires IsOcvTable(table) && table[20] <= b && fcc <= 4294966
    ensures VolToCap(b, table, fcc) == fcc <==> fcc <= MAX_INT
  {
    VolToCapMonotone(b, b, table, fcc);
  }

  // ----- Capacity registers -------------------------------------------------

  /** CAPACITY_TO_ADC in u32 arithmetic. */
  function CapacityToAdc(capacity: nat, resDiv: nat): (adc: int)
    ensures 0 <= adc < TWO_32
  {
    Wrap32(Wrap32(Wrap32(capacity * resDiv) * 3600) / 172 * 1000)
  }

  /** ADC_TO_CAPACITY of a signed register value. */
  function AdcToCapacity(adc: int, resDiv: nat): int
    requires resDiv > 0
  {
    TruncDiv(TruncDiv(TruncDiv(adc, 1000) * 172, 3600), resDiv)
  }

  lemma FourBytes(x: nat)
    requires x < TWO_32
    ensures x / 0x100_0000 < 0x100
    ensures x / 0x100_0000 * 0x100_0000 + x / 0x1_0000 % 0x100 * 0x1_0000 + x / 0x100 % 0x100 * 0x100 + x % 0x100 == x
  {
    assert x / 0x1_0000 == x / 0x100 / 0x100 && x / 0x100_0000 == x / 0x1_0000 / 0x100;
  }

  class QmaxRegisters {
    var h3: byte
    var h2: byte
    var l1: byte
    var l0: byte
    var qmax: int

    ghost function Word(): int
      reads this
    {
      h3 * 0x100_0000 + h2 * 0x1_0000 + l1 * 0x100 + l0
    }

    /** The four registers hold the 32-bit form of the capacity, big end first. */
    method UpdateQmax(capacity: nat, resDiv: nat)
      modifies this
      ensures Word() == CapacityToAdc(capacity, resDiv) && qmax == capacity
      ensures l0 == CapacityToAdc(capacity, resDiv) % 0x100 && h3 == CapacityToAdc(capacity, resDiv) / 0x100_0000
    {
      var adc := CapacityToAdc(capacity, resDiv);
      FourBytes(adc);
      h3 := adc / 0x100_0000;
      h2 := adc / 0x1_0000 % 0x100;
      l1 := adc / 0x100 % 0x100;
      l0 := adc % 0x100;
      qmax := capacity;
    }

    /** The bytes are joined into an int, so a top bit makes it negative. */
    method GetQmax(resDiv: nat) returns (capacity: int)
      requires resDiv > 0
      modifies this`qmax
      ensures capacity == qmax == AdcToCapacity(AsInt(Word()), resDiv)
    {
      var val := AsInt(h3 * 0x100_0000 + h2 * 0x1_0000 + l1 * 0x100 + l0);
      capacity := AdcToCapacity(val, resDiv);
      qmax := capacity;
    }
  }

  lemma WholeUnits(n: nat)
    ensures n * 3600 / 172 * 172 / 3600 == if n * 3600 % 172 == 0 then n else n - 1
  {
    var q := n * 3600 / 172;
    assert q * 172 + n * 3600 % 172 == n * 3600;
  }

  lemma OneLess(capacity: nat, resDiv: nat)
    requires resDiv > 0 && capacity > 0
    ensures capacity * resDiv / resDiv == capacity
    ensures (capacity * resDiv - 1) / resDiv == capacity - 1
  {
    assert capacity * resDiv - 1 == (capacity - 1) * resDiv + (resDiv - 1);
    DivUnique(capacity * resDiv, capacity, 0, resDiv);
    DivUnique(capacity * resDiv - 1, capacity - 1, resDiv - 1, resDiv);
  }

  /** What the register form of a capacity of `n` units (capacity times res_div) is, and when it stays positive. */
  lemma AdcForm(n: nat)
    requires n <= 205204
    ensures var adc := Wrap32(Wrap32(n * 3600) / 172 * 1000);
            adc == n * 3600 / 172 * 1000 && (n <= 102602 <==> !TopBit(adc))
  {
  }

  lemma ReadBack(q: nat, resDiv: nat)
    requires resDiv > 0
    ensures AdcToCapacity(q * 1000, resDiv) == q * 172 / 3600 / resDiv
  {
    assert TruncDiv(q * 1000, 1000) == q;
  }

  lemma NegativeReadsBack(adc: int, resDiv: nat)
    requires adc < 0 && resDiv > 0
    ensures AdcToCapacity(adc, resDiv) <= 0
  {
    var thousands := TruncDiv(adc, 1000);
    TruncKeepsSign(TruncDiv(thousands * 172, 3600), resDiv);
  }

  lemma TruncKeepsSign(a: int, b: nat)
    requires a <= 0 && b > 0
    ensures TruncDiv(a, b) <= 0
  {
  }

  /** What comes back when nothing is lost but the division's remainder. */
  function Recovered(capacity: nat, resDiv: nat): int {
    if capacity * resDiv * 3600 % 172 == 0 then capacity else capacity - 1
  }

  function ReadsBack(capacity: nat, resDiv: nat): int
    requires resDiv > 0
  {
    AdcToCapacity(AsInt(CapacityToAdc(capacity, resDiv)), resDiv)
  }

  /** No signed register value gives more than 102602 scaled units. */
  lemma ReadBound(adc: int, resDiv: nat)
    requires adc < 0x8000_0000 && (resDiv == 1 || resDiv == 2)
    ensures AdcToCapacity(adc, resDiv) * resDiv <= 102602
  {
    if adc < 0 {
      NegativeReadsBack(adc, resDiv);
    } else {
      assert adc / 1000 <= 2147483;
      assert adc / 1000 * 172 / 3600 <= 102602;
    }
  }

  lemma SmallReadsBack(capacity: nat, resDiv: nat)
    requires (resDiv == 1 || resDiv == 2) && capacity * resDiv <= 102602
    ensures ReadsBack(capacity, resDiv) == Recovered(capacity, resDiv)
  {
    var n := capacity * resDiv;
    AdcForm(n);
    ReadBack(n * 3600 / 172, resDiv);
    WholeUnits(n);
    if capacity > 0 {
      OneLess(capacity, resDiv);
    }
  }

  lemma LargeDoesNot(capacity: nat, resDiv: nat)
    requires (resDiv == 1 || resDiv == 2) && capacity * resDiv > 102602
    ensures ReadsBack(capacity, resDiv) < Recovered(capacity, resDiv)
  {
    var n := capacity * resDiv;
    var back := ReadsBack(capacity, resDiv);
    if n <= 205204 {
      AdcForm(n);
      NegativeReadsBack(AsInt(CapacityToAdc(capacity, resDiv)), resDiv);
    } else {
      ReadBound(AsInt(CapacityToAdc(capacity, resDiv)), resDiv);
    }
  }

  /**
    For both of the boards' divisors and every capacity: writing it and reading
    it back returns it when 172 divides the scaled value, and one less
    otherwise, exactly up to 102602 scaled units; beyond, less comes back.
   */
  lemma QmaxRoundTrip(capacity: nat, resDiv: nat)
    requires resDiv == 1 || resDiv == 2
    ensures ReadsBack(capacity, resDiv) == Recovered(capacity, resDiv) <==> capacity * resDiv <= 102602
    ensures ReadsBack(capacity, resDiv) <= Recovered(capacity, resDiv)
    ensures 102602 < capacity * resDiv <= 205204 ==> ReadsBack(capacity, resDiv) <= 0
  {
    if capacity * resDiv <= 102602 {
      SmallReadsBack(capacity, resDiv);
    } else {
      LargeDoesNot(capacity, resDiv);
      if capacity * resDiv <= 205204 {
        AdcForm(capacity * resDiv);
        NegativeReadsBack(AsInt(CapacityToAdc(capacity, resDiv)), resDiv);
      }
    }
  }

  /** 51302 mAh at the larger divisor read back as nothing or less. */
  lemma CapacityLost()
    ensures ReadsBack(51302, 2) <= 0
  {
    QmaxRoundTrip(51302, 2);
  }

  /** The boards' own range, up to 51301 mAh. */
  lemma QmaxRoundTripOnBoards(capacity: nat, resDiv: nat)
    requires (resDiv == 1 || resDiv == 2) && capacity <= 51301
    ensures ReadsBack(capacity, resDiv) == Recovered(capacity, resDiv)
  {
    QmaxRoundTrip(capacity, resDiv);
  }
}
