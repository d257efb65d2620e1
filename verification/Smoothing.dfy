// How the RK817 fuel gauge turns coulomb counts into a displayed percentage:
// the smoothing integrator and the end-of-charge clock. Percentages are in
// thousandths, capacities in microampere hours, fcc in milliampere hours.

module Smoothing {
  import opened Arith
  import opened Bits

  /** The smoothed percentage, the displayed one, and the capacity last accounted for. */
  datatype Sm = Sm(smooth: int, dsoc: int, cap: int)

  /** C's guard against a zero divisor. */
  function Div(x: int): int {
    if x != 0 then x else 1
  }

  /** The slope after a change of direction: three quarters, one, or four thirds, signed by the current. */
  function Line(current: int, dsoc: int, rsoc: int): int {
    if current > 0 then (if dsoc < rsoc then 1333 else if dsoc > rsoc then 750 else 1000)
    else (if dsoc < rsoc then -750 else if dsoc > rsoc then -1333 else -1000)
  }

  /** The change of the smoothed percentage for a change of capacity: only its size matters. */
  function Delta(k: int, change: int, fcc: int): int {
    TruncDiv(k * Abs(TruncDiv(change, 10)), Div(fcc))
  }

  function ChargeDsoc(smooth: int, dsoc: int): int {
    if TruncDiv(smooth, 1000) == TruncDiv(dsoc, 1000) || smooth < dsoc then dsoc else Max(smooth, 0)
  }

  function DischargeDsoc(smooth: int, dsoc: int): int {
    if TruncDiv(smooth, 1000) == TruncDiv(dsoc, 1000) || smooth > dsoc then dsoc
    else Max(if smooth + 1000 > dsoc then smooth else dsoc - 1000, 0)
  }

  /** One tick at a given slope; a change too small to count leaves everything, so it is carried over. */
  function Tick(s: Sm, reading: int, k: int, fcc: int): Sm {
    var y := Delta(k, reading - s.cap, fcc);
    var smooth := Max(s.smooth + y, 0);
    if y == 0 then s
    else Sm(smooth, if y < 0 then DischargeDsoc(smooth, s.dsoc) else ChargeDsoc(smooth, s.dsoc), reading)
  }

  /** Whether a tick runs to its end: it counts, and the display is not still ahead of a rise. */
  predicate Completes(s: Sm, reading: int, k: int, fcc: int) {
    var y := Delta(k, reading - s.cap, fcc);
    var smooth := Max(s.smooth + y, 0);
    y < 0 || (y > 0 && (TruncDiv(smooth, 1000) == TruncDiv(s.dsoc, 1000) || smooth >= s.dsoc))
  }

  // ----- The driver's form --------------------------------------------------

  /** The slopes are constants: 4d over 3d and 3d over 4d do not depend on the distance d. */
  lemma Slopes(d: nat)
    requires d > 0
    ensures 1000 * (d + 3 * d) / (3 * d) == 1333 && 1000 * (3 * d) / (d + 3 * d) == 750
  {
    DivUnique(1000 * (d + 3 * d), 1333, d, 3 * d);
    DivUnique(1000 * (3 * d), 750, 0, d + 3 * d);
  }

  /**
    The slope has the current's sign. It is steeper than one exactly when the
    display lags behind the current's direction and flatter exactly when it
    leads: by a third, and by a quarter.
   */
  lemma SlopeByLag(current: int, dsoc: int, rsoc: int)
    ensures var k := Line(current, dsoc, rsoc);
            var lag := if current > 0 then rsoc - dsoc else dsoc - rsoc;
            && (current > 0 ==> k > 0) && (current <= 0 ==> k < 0)
            && (Abs(k) > 1000 <==> lag > 0) && (Abs(k) < 1000 <==> lag < 0)
            && (lag > 0 ==> 3 * Abs(k) <= 4000 < 3 * Abs(k) + 3) && (lag < 0 ==> 4 * Abs(k) == 3000)
  {
  }

  lemma DivRest(n: nat, d: nat)
    requires d > 0
    ensures n == n / d * d + n % d && n % d < d
  {
  }

  lemma NoChange(k: int, fcc: int)
    ensures Delta(k, 0, fcc) == 0
  {
  }

  class Gauge {
    var dsoc: int
    var rsoc: int
    var fcc: int
    var remainCap: int
    var smRemainCap: int
    var smLinek: int
    var smoothSoc: int
    var currentAvg: int
    var s2r: bool
    var finishBase: nat

    ghost function State(): Sm
      reads this
    {
      Sm(smoothSoc, dsoc, smRemainCap)
    }

    /** The slope from a fresh current reading; what was not yet accounted for is forgotten. */
    method CalcSmLinek(current: int)
      modifies this`smLinek, this`smRemainCap
      ensures smLinek == Line(current, dsoc, rsoc) && smRemainCap == remainCap
    {
      var delta := Abs(dsoc - rsoc);
      var diff := delta * 3;
      if delta > 0 {
        Slopes(delta);
      }
      if current > 0 {
        if dsoc < rsoc {
          smLinek := TruncDiv(1000 * (delta + diff), Div(diff));
        } else if dsoc > rsoc {
          smLinek := TruncDiv(1000 * diff, Div(delta + diff));
        } else {
          smLinek := 1000;
        }
      } else {
        if dsoc < rsoc {
          smLinek := TruncDiv(-1000 * diff, Div(delta + diff));
        } else if dsoc > rsoc {
          smLinek := TruncDiv(-1000 * (delta + diff), Div(diff));
        } else {
          smLinek := -1000;
        }
      }
      smRemainCap := remainCap;
    }

    method CalcSmoothDischrg()
      modifies this`smoothSoc, this`dsoc
      ensures smoothSoc == Max(old(smoothSoc), 0) && dsoc == DischargeDsoc(smoothSoc, old(dsoc))
    {
      if smoothSoc < 0 {
        smoothSoc := 0;
      }
      var percent := smoothSoc / 1000;
      if percent != TruncDiv(dsoc, 1000) {
        if smoothSoc > dsoc {
          return;
        }
        if smoothSoc + 1000 > dsoc {
          dsoc := smoothSoc;
        } else {
          dsoc := dsoc - 1000;
        }
        if dsoc <= 0 {
          dsoc := 0;
        }
      }
    }

    /** The rising half; false when the display is still ahead and the tick ends there. */
    method CalcSmoothChrg() returns (complete: bool)
      modifies this`smoothSoc, this`dsoc
      ensures smoothSoc == Max(old(smoothSoc), 0) && dsoc == ChargeDsoc(smoothSoc, old(dsoc))
      ensures complete == (TruncDiv(smoothSoc, 1000) == TruncDiv(old(dsoc), 1000) || smoothSoc >= old(dsoc))
    {
      if smoothSoc < 0 {
        smoothSoc := 0;
      }
      var percent := smoothSoc / 1000;
      if percent != TruncDiv(dsoc, 1000) {
        if smoothSoc < dsoc {
          return false;
        }
        dsoc := smoothSoc;
        if dsoc <= 0 {
          dsoc := 0;
        }
      }
      return true;
    }

    /** Adds a change to the smoothed percentage and updates the display. */
    method Apply(y: int) returns (complete: bool)
      requires y != 0
      modifies this`smoothSoc, this`dsoc
      ensures smoothSoc == Max(old(smoothSoc) + y, 0)
      ensures dsoc == if y < 0 then DischargeDsoc(smoothSoc, old(dsoc)) else ChargeDsoc(smoothSoc, old(dsoc))
      ensures complete == (y < 0 || TruncDiv(smoothSoc, 1000) == TruncDiv(old(dsoc), 1000) || smoothSoc >= old(dsoc))
    {
      smoothSoc := smoothSoc + y;
      if y < 0 {
        CalcSmoothDischrg();
        complete := true;
      } else {
        complete := CalcSmoothChrg();
      }
    }

    /** The part of a tick after its slope is settled; a pending resume recalculates the slope at its end. */
    method Integrate(second: int)
      modifies this`smLinek, this`smRemainCap, this`smoothSoc, this`dsoc, this`s2r
      ensures State() == Tick(old(State()), remainCap, old(smLinek), fcc)
      ensures s2r == (old(s2r) && !Completes(old(State()), remainCap, old(smLinek), fcc))
      ensures smLinek == if old(s2r) && !s2r then Line(second, dsoc, rsoc) else old(smLinek)
    {
      var change := remainCap - smRemainCap;
      if change == 0 {
        NoChange(smLinek, fcc);
        return;
      }
      var y := Delta(smLinek, change, fcc);
      if y == 0 {
        return;
      }
      smRemainCap := remainCap;
      var complete := Apply(y);
      if complete && s2r {
        s2r := false;
        CalcSmLinek(second);
      }
    }

    /**
      One tick with a capacity reading; `first` and `second` are the current
      readings its two slope calculations would take. The slope is taken anew
      when it disagrees with the current, and the capacity since the last
      reading is then dropped; otherwise this is one `Tick` at the old slope.
     */
    method SmoothAlgorithm(reading: int, first: int, second: int)
      modifies this`smLinek, this`smRemainCap, this`remainCap, this`smoothSoc, this`dsoc, this`s2r
      ensures remainCap == reading
      ensures var kept := old(smLinek) * old(currentAvg) > 0;
              var k := if kept then old(smLinek) else Line(first, old(dsoc), rsoc);
              var s := if kept then old(State()) else old(State()).(cap := old(remainCap));
              && State() == Tick(s, reading, k, fcc)
              && s2r == (old(s2r) && !Completes(s, reading, k, fcc))
              && smLinek == if old(s2r) && !s2r then Line(second, dsoc, rsoc) else k
    {
      if smLinek * currentAvg <= 0 {
        CalcSmLinek(first);
      }
      remainCap := reading;
      Integrate(second);
    }

    method SmoothAlgoPrepare(current: int)
      modifies this`smoothSoc, this`smLinek, this`smRemainCap
      ensures State() == Sm(dsoc, dsoc, remainCap) && smLinek == Line(current, dsoc, rsoc)
    {
      smoothSoc := dsoc;
      CalcSmLinek(current);
    }

    /**
      The last percents at the end of a charge come with time. Whole steps are
      displayed and exactly their time is taken off the clock.
     */
    method FinishDsoc(now: nat)
      requires 0 <= fcc
      modifies this`dsoc, this`finishBase
      ensures dsoc >= old(dsoc) && (dsoc - old(dsoc)) % 1000 == 0
      ensures old(dsoc) >= 100000 ==> dsoc == old(dsoc) && finishBase == old(finishBase)
      ensures old(dsoc) < 100000 && old(finishBase) == 0 ==> finishBase == now && dsoc == old(dsoc)
      ensures old(dsoc) < 100000 && 0 < old(finishBase) ==>
                finishBase == old(finishBase) + Percents(dsoc - old(dsoc)) * StepSeconds(fcc, rsoc - old(dsoc))
      ensures old(dsoc) < 100000 && 0 < old(finishBase) <= now ==>
                finishBase <= now <= finishBase + StepSeconds(fcc, rsoc - old(dsoc))
    {
      if dsoc >= 100 * 1000 {
        return;
      }
      if finishBase == 0 {
        finishBase := now;
      }
      var finishSec := if finishBase != 0 && now > finishBase then now - finishBase else 0;
      var socSec := StepSeconds(fcc, rsoc - dsoc);
      var plusSoc := finishSec / socSec;
      DivRest(finishSec, socSec);
      if finishSec > socSec {
        var rest := finishSec % socSec;
        dsoc := dsoc + plusSoc * 1000;
        finishBase := now;
        if finishBase > rest {
          finishBase := now - rest;
        }
      }
    }
  }

  function Percents(thousandths: int): int {
    thousandths / 1000
  }

  const FINISH_CHRG_CUR1 := 1000
  const FINISH_CHRG_CUR2 := 1500
  const FINISH_CHRG_CUR3 := 6000

  /** Seconds per displayed percent; the further the display lags, the shorter. */
  function StepSeconds(fcc: nat, gap: int): (sec: nat)
    ensures sec > 0
  {
    var current := if gap > 40 * 1000 then FINISH_CHRG_CUR3 else if gap > 20 * 1000 then FINISH_CHRG_CUR2 else FINISH_CHRG_CUR1;
    Max(fcc * 3600 / 100 / current, 1)
  }

  /**
    A percent takes the time the finish current needs for a hundredth of the
    full capacity, at least a second: 1 A, from 20 percent behind 1.5 A and from
    40 percent 6 A. So it never takes longer the further the display lags.
   */
  lemma StepTakes(fcc: nat, gap: int, more: int)
    requires gap <= more
    ensures StepSeconds(fcc, more) <= StepSeconds(fcc, gap)
    ensures gap <= 20000 ==> 1000 * StepSeconds(fcc, gap) <= Max(36 * fcc, 1000) < 1000 * (StepSeconds(fcc, gap) + 1)
    ensures 20000 < gap <= 40000 ==>
              1500 * StepSeconds(fcc, gap) <= Max(36 * fcc, 1500) < 1500 * (StepSeconds(fcc, gap) + 1)
    ensures 40000 < gap ==> 6000 * StepSeconds(fcc, gap) <= Max(36 * fcc, 6000) < 6000 * (StepSeconds(fcc, gap) + 1)
  {
  }

  // ----- One tick -----------------------------------------------------------

  lemma QuotientBounds(p: nat, fcc: nat)
    requires fcc > 0
    ensures fcc * (p / fcc) <= p <= fcc * (p / fcc) + (fcc - 1)
  {
  }

  lemma DeltaOdd(k: int, change: int, fcc: nat)
    requires k >= 0 && fcc > 0
    ensures Delta(k, change, fcc) == k * (Abs(change) / 10) / fcc == -Delta(-k, change, fcc)
  {
    var t := Abs(change) / 10;
    assert t == Abs(TruncDiv(change, 10));
    assert (-k) * t == -(k * t);
    assert k * t >= 0;
  }

  lemma ScaledBounds(k: nat, size: nat, t: nat, fcc: nat, y: int)
    requires fcc > 0 && t == size / 10 && y == k * t / fcc
    ensures 0 <= y && 10 * (fcc * y) <= k * size <= 10 * (fcc * y) + Slack(k, fcc)
  {
    Tenths(k, size, t);
    QuotientBounds(k * t, fcc);
  }

  /** Delta is k·|change| / (10·fcc), short by less than one unit and a tenth of rounding. */
  lemma DeltaBounds(k: int, change: int, fcc: nat)
    requires k >= 0 && fcc > 0
    ensures Delta(k, change, fcc) >= 0
    ensures Accounts(k, fcc, Delta(k, change, fcc), Abs(change), 1)
    ensures Delta(-k, change, fcc) == -Delta(k, change, fcc)
  {
    var y, t := Delta(k, change, fcc), Abs(change) / 10;
    assert y == k * t / fcc && Delta(-k, change, fcc) == -y by {
      DeltaOdd(k, change, fcc);
    }
    ScaledBounds(k, Abs(change), t, fcc, y);
  }

  lemma Tenths(k: nat, size: nat, t: nat)
    requires t == size / 10
    ensures 10 * (k * t) <= k * size <= 10 * (k * t) + 9 * k
  {
    assert k * size == k * (10 * t) + k * (size % 10);
    MulMonotone(size % 10, 9, k);
  }

  /** One tick's shortfall is below 10·fcc + 9·k, and only an applied tick has any. */
  function Slack(k: int, fcc: nat): int {
    10 * (fcc - 1) + 9 * k
  }

  /** A rise of the percentage accounts for a travelled capacity, up to `n` slacks. */
  ghost predicate Accounts(k: int, fcc: nat, rise: int, travel: int, n: int) {
    10 * (fcc * rise) <= k * travel <= 10 * (fcc * rise) + n * Slack(k, fcc)
  }

  lemma AccountsAdd(k: int, fcc: nat, a: int, b: int, t: int, u: int, m: int, n: int)
    requires Accounts(k, fcc, a, t, m) && Accounts(k, fcc, b, u, n)
    ensures Accounts(k, fcc, a + b, t + u, m + n)
  {
    AddProducts(k, t, u);
    AddProducts(fcc, a, b);
    AddProducts(Slack(k, fcc), m, n);
  }

  lemma AccountsSame(k: int, fcc: nat, rise: int, m: int, n: int, ticks: nat)
    requires Accounts(k, fcc, rise, m, ticks) && m == n
    ensures Accounts(k, fcc, rise, n, ticks)
  {
  }

  /** What is still being carried takes one more slack. */
  lemma AccountsCarry(k: int, fcc: nat, rise: int, travel: int, carried: int, total: int, n: int)
    requires Accounts(k, fcc, rise, travel, n) && Accounts(k, fcc, 0, carried, 1) && total == travel + carried
    ensures Accounts(k, fcc, rise, total, n + 1)
  {
    AccountsAdd(k, fcc, rise, 0, travel, carried, n, 1);
  }

  lemma AddProducts(k: int, a: int, b: int)
    ensures k * (a + b) == k * a + k * b
  {
  }

  /** A charging tick: what the smoothed percentage gains accounts for the capacity, up to one slack if applied. */
  lemma ChargeTick(s: Sm, reading: int, k: int, fcc: nat)
    requires k > 0 && fcc > 0 && s.smooth >= 0
    ensures var t := Tick(s, reading, k, fcc);
            && Accounts(k, fcc, t.smooth - s.smooth, Abs(t.cap - s.cap), if t.cap != s.cap then 1 else 0)
            && t.smooth >= s.smooth && t.dsoc >= s.dsoc
            && (t.cap == s.cap || t.cap == reading) && Accounts(k, fcc, 0, Abs(reading - t.cap), 1)
  {
    DeltaBounds(k, reading - s.cap, fcc);
    if Delta(k, reading - s.cap, fcc) != 0 && reading == s.cap {
      NoChange(k, fcc);
    }
  }

  /** A discharging tick never raises the display, lowers it by at most one percent and not below zero. */
  lemma DischargeTick(s: Sm, reading: int, k: int, fcc: nat)
    requires k > 0 && fcc > 0 && s.smooth >= 0 && s.dsoc >= 0
    ensures var t := Tick(s, reading, -k, fcc);
            && s.dsoc - 1000 <= t.dsoc <= s.dsoc && t.dsoc >= 0
            && 0 <= t.smooth <= s.smooth
            && 10 * (fcc * (s.smooth - t.smooth)) <= k * Abs(t.cap - s.cap)
            && (t.smooth > 0 ==>
                 k * Abs(t.cap - s.cap) <= 10 * (fcc * (s.smooth - t.smooth)) + (if t.cap != s.cap then Slack(k, fcc) else 0))
  {
    var y := Delta(k, reading - s.cap, fcc);
    DeltaBounds(k, reading - s.cap, fcc);
    MulMonotone(Min(y, s.smooth), y, fcc);
  }

  /**
    What is displayed after a charging tick that counts: it moves exactly when
    the smoothed percentage has passed it by a whole percent, and then shows it.
    The tick runs to its end unless the display is still a whole percent ahead.
   */
  lemma ChargeShows(s: Sm, reading: int, k: int, fcc: nat)
    requires k > 0 && fcc > 0 && s.smooth >= 0 && s.dsoc >= 0
    ensures var t := Tick(s, reading, k, fcc);
            && (t == s ==> !Completes(s, reading, k, fcc))
            && (t != s ==> t.dsoc == if t.smooth / 1000 > s.dsoc / 1000 then t.smooth else s.dsoc)
            && (t != s ==> (Completes(s, reading, k, fcc) <==> t.smooth / 1000 >= s.dsoc / 1000))
  {
    DeltaBounds(k, reading - s.cap, fcc);
  }

  /**
    What is displayed after a discharging tick that counts: it falls exactly
    when the smoothed percentage is below it by a whole percent, and then to the
    smoothed percentage or by one percent, whichever is less.
   */
  lemma DischargeShows(s: Sm, reading: int, k: int, fcc: nat)
    requires k > 0 && fcc > 0 && s.smooth >= 0 && s.dsoc >= 0
    ensures var t := Tick(s, reading, -k, fcc);
            && (t.cap == s.cap <==> t == s)
            && (t != s ==> (t.dsoc < s.dsoc <==> t.smooth / 1000 < s.dsoc / 1000))
            && (t.dsoc < s.dsoc ==> t.dsoc == Max(t.smooth, s.dsoc - 1000))
            && (t != s ==> KeepsUp(s, t) && Completes(s, reading, -k, fcc))
  {
    DeltaBounds(k, reading - s.cap, fcc);
    NoChange(-k, fcc);
  }

  /** The display is less than a percent behind, or has fallen by one; and it never falls below what it shows. */
  ghost predicate KeepsUp(p: Sm, r: Sm) {
    (CaughtUp(r) || r.dsoc == p.dsoc - 1000) && r.dsoc >= Min(p.dsoc, r.smooth)
  }

  ghost predicate CaughtUp(s: Sm) {
    s.dsoc - s.smooth < 1000
  }

  /** The direction of a capacity change is ignored: at a charging slope a loss raises the percentage like a gain. */
  lemma DirectionIgnored(s: Sm, change: int, k: int, fcc: int)
    ensures Tick(s, s.cap + change, k, fcc).smooth == Tick(s, s.cap - change, k, fcc).smooth
    ensures Tick(s, s.cap + change, k, fcc).dsoc == Tick(s, s.cap - change, k, fcc).dsoc
  {
    assert Abs(TruncDiv(change, 10)) == Abs(TruncDiv(-change, 10));
  }

  /** The display trails by less than a percent, or is still ahead and waits. */
  ghost predicate Trails(s: Sm) {
    s.smooth < s.dsoc || TruncDiv(s.smooth, 1000) == TruncDiv(s.dsoc, 1000)
  }

  lemma ChargeTrails(s: Sm, reading: int, k: int, fcc: nat)
    requires k > 0 && fcc > 0 && s.smooth >= 0 && Trails(s)
    ensures Trails(Tick(s, reading, k, fcc))
  {
    DeltaBounds(k, reading - s.cap, fcc);
  }

  // ----- One tick and the net charge ----------------------------------------

  /** The change of the percentage between two states stays within the net change of the accounted capacity. */
  ghost predicate WithinNet(k: int, fcc: nat, rise: int, net: int) {
    10 * (fcc * rise) <= k * net
  }

  /** A tick that counts a change against the direction of its slope. */
  predicate CountsAgainst(against: int, k: int, fcc: nat) {
    against > 0 && k * (against / 10) >= fcc
  }

  lemma CountsIff(k: int, change: int, fcc: nat)
    requires k > 0 && fcc > 0
    ensures Delta(k, change, fcc) >= 0 && (Delta(k, change, fcc) > 0 <==> k * (Abs(change) / 10) >= fcc)
  {
    DeltaOdd(k, change, fcc);
    var p := k * (Abs(change) / 10);
    assert p >= 0;
    QuotientBounds(p, fcc);
    if p >= fcc {
      PositiveQuotient(p, fcc);
    } else {
      DivUnique(p, 0, p, fcc);
    }
  }

  lemma PositiveQuotient(p: nat, d: nat)
    requires p >= d > 0
    ensures p / d > 0
  {
  }

  /** 10 mAh lost at a charging slope: the percentage rises by a quarter of a percent. */
  lemma LossRaisesPercentage()
    ensures Tick(Sm(50000, 50000, 2000000), 1990000, 1000, 4000) == Sm(50250, 50000, 1990000)
    ensures !WithinNet(1000, 4000, 50250 - 50000, 1990000 - 2000000)
  {
  }

  /**
    At a charging slope a tick's rise stays within the net capacity gained
    exactly when the reading has not fallen, or by too little to count.
   */
  lemma ChargeWithinNetIff(s: Sm, reading: int, k: int, fcc: nat)
    requires k > 0 && fcc > 0 && s.smooth >= 0
    ensures var t := Tick(s, reading, k, fcc);
            WithinNet(k, fcc, t.smooth - s.smooth, t.cap - s.cap) <==> !CountsAgainst(s.cap - reading, k, fcc)
  {
    CountsIff(k, reading - s.cap, fcc);
    ChargeTick(s, reading, k, fcc);
    if CountsAgainst(s.cap - reading, k, fcc) {
      var t := Tick(s, reading, k, fcc);
      WrongWay(k, fcc, t.smooth - s.smooth, t.cap - s.cap);
    }
  }

  /** Nothing gained, or more, for a net loss is outside the net. */
  lemma WrongWay(k: int, fcc: nat, rise: int, net: int)
    requires k > 0 && rise >= 0 && net < 0
    ensures !WithinNet(k, fcc, rise, net)
  {
    MulMonotone(0, rise, fcc);
    Positive(k, -net);
  }

  lemma Positive(a: int, b: int)
    requires a > 0 && b > 0
    ensures a * b > 0 && a * -b < 0
  {
    assert a * -b == -(a * b);
  }

  /** The same of the loss at a discharging slope: exactly when the reading has not risen, or by too little. */
  lemma DischargeWithinNetIff(s: Sm, reading: int, k: int, fcc: nat)
    requires k > 0 && fcc > 0 && s.smooth >= 0 && s.dsoc >= 0
    ensures var t := Tick(s, reading, -k, fcc);
            WithinNet(k, fcc, s.smooth - t.smooth, s.cap - t.cap) <==> !CountsAgainst(reading - s.cap, k, fcc)
  {
    var t := Tick(s, reading, -k, fcc);
    CountsIff(k, reading - s.cap, fcc);
    DeltaOdd(k, reading - s.cap, fcc);
    assert 0 <= t.smooth <= s.smooth && WithinNet(k, fcc, s.smooth - t.smooth, Abs(t.cap - s.cap)) by {
      DischargeTick(s, reading, k, fcc);
    }
    if CountsAgainst(reading - s.cap, k, fcc) {
      WrongWay(k, fcc, s.smooth - t.smooth, s.cap - t.cap);
    }
  }

  lemma WithinNetAdd(k: int, fcc: nat, a: int, b: int, m: int, n: int)
    requires WithinNet(k, fcc, a, m) && WithinNet(k, fcc, b, n)
    ensures WithinNet(k, fcc, a + b, m + n)
  {
    AddProducts(k, m, n);
    AddProducts(fcc, a, b);
  }

  // ----- Runs ---------------------------------------------------------------

  /** One tick of a run: the state and the reading give the next state. */
  type Ticker = (Sm, int) -> Sm

  /** Ticks at one slope and one full capacity. */
  function At(k: int, fcc: int): Ticker {
    (s, reading) => Tick(s, reading, k, fcc)
  }

  function Run(s: Sm, readings: seq<int>, tick: Ticker): Sm {
    if readings == [] then s else tick(Run(s, readings[..|readings| - 1], tick), readings[|readings| - 1])
  }

  /** How far the accounted capacity has travelled, in how many ticks, and how much of it downwards. */
  function Travel(s: Sm, readings: seq<int>, tick: Ticker): nat {
    if readings == [] then 0
    else
      var before := readings[..|readings| - 1];
      Travel(s, before, tick) + Abs(Run(s, readings, tick).cap - Run(s, before, tick).cap)
  }

  function Applied(s: Sm, readings: seq<int>, tick: Ticker): nat {
    if readings == [] then 0
    else
      var before := readings[..|readings| - 1];
      Applied(s, before, tick) + Counted(Run(s, before, tick), Run(s, readings, tick))
  }

  function Counted(p: Sm, r: Sm): nat {
    if r.cap != p.cap then 1 else 0
  }

  function Fallen(s: Sm, readings: seq<int>, tick: Ticker): nat {
    if readings == [] then 0
    else
      var before := readings[..|readings| - 1];
      Fallen(s, before, tick) + Max(Run(s, before, tick).cap - Run(s, readings, tick).cap, 0)
  }

  /** No tick of a run counts a change against its direction: 1 for charging, -1 for discharging. */
  ghost predicate NeverAgainst(s: Sm, readings: seq<int>, tick: Ticker, sign: int, k: int, fcc: nat) {
    readings == [] ||
    (var before := readings[..|readings| - 1];
     NeverAgainst(s, before, tick, sign, k, fcc) &&
     !CountsAgainst(Along(sign, Run(s, before, tick).cap - readings[|readings| - 1]), k, fcc))
  }

  /** Every tick of a run stays within the net. */
  ghost predicate TicksWithinNet(s: Sm, readings: seq<int>, tick: Ticker, sign: int, k: int, fcc: nat) {
    readings == [] ||
    (var before := readings[..|readings| - 1];
     TicksWithinNet(s, before, tick, sign, k, fcc) &&
     StepWithinNet(Run(s, before, tick), Run(s, readings, tick), sign, k, fcc))
  }

  function Along(sign: int, change: int): int {
    if sign > 0 then change else -change
  }

  ghost predicate StepWithinNet(p: Sm, r: Sm, sign: int, k: int, fcc: nat) {
    WithinNet(k, fcc, Along(sign, r.smooth - p.smooth), Along(sign, r.cap - p.cap))
  }

  // What the runs need of a tick; Charges and Discharges hold of the driver's.

  ghost predicate ChargeFacts(p: Sm, r: Sm, reading: int, k: int, fcc: nat) {
    && Accounts(k, fcc, r.smooth - p.smooth, Abs(r.cap - p.cap), Counted(p, r))
    && r.smooth >= p.smooth && r.dsoc >= p.dsoc
    && (r.cap == p.cap || r.cap == reading) && Accounts(k, fcc, 0, Abs(reading - r.cap), 1)
    && (Trails(p) ==> Trails(r))
    && (StepWithinNet(p, r, 1, k, fcc) <==> !CountsAgainst(p.cap - reading, k, fcc))
  }

  ghost predicate Charges(tick: Ticker, k: int, fcc: nat) {
    forall p: Sm, reading: int {:trigger ChargeFacts(p, tick(p, reading), reading, k, fcc)} ::
      p.smooth >= 0 ==> ChargeFacts(p, tick(p, reading), reading, k, fcc)
  }

  lemma AtCharges(k: int, fcc: nat)
    requires k > 0 && fcc > 0
    ensures Charges(At(k, fcc), k, fcc)
  {
    forall p: Sm, reading: int | p.smooth >= 0 ensures ChargeFacts(p, At(k, fcc)(p, reading), reading, k, fcc) {
      ChargeTick(p, reading, k, fcc);
      ChargeWithinNetIff(p, reading, k, fcc);
      if Trails(p) {
        ChargeTrails(p, reading, k, fcc);
      }
    }
  }

  ghost predicate DischargeFacts(p: Sm, r: Sm, reading: int, k: int, fcc: nat) {
    && p.dsoc - 1000 <= r.dsoc <= p.dsoc && r.dsoc >= 0 && 0 <= r.smooth <= p.smooth
    && WithinNet(k, fcc, p.smooth - r.smooth, Abs(r.cap - p.cap))
    && (StepWithinNet(p, r, -1, k, fcc) <==> !CountsAgainst(reading - p.cap, k, fcc))
    && (r.cap == p.cap ==> r == p) && (r.cap != p.cap ==> KeepsUp(p, r))
  }

  ghost predicate Discharges(tick: Ticker, k: int, fcc: nat) {
    forall p: Sm, reading: int {:trigger DischargeFacts(p, tick(p, reading), reading, k, fcc)} ::
      p.smooth >= 0 && p.dsoc >= 0 ==> DischargeFacts(p, tick(p, reading), reading, k, fcc)
  }

  lemma AtDischarges(k: int, fcc: nat)
    requires k > 0 && fcc > 0
    ensures Discharges(At(-k, fcc), k, fcc)
  {
    var tick := At(-k, fcc);
    forall p: Sm, reading: int | p.smooth >= 0 && p.dsoc >= 0 ensures DischargeFacts(p, tick(p, reading), reading, k, fcc)
    {
      DischargeTick(p, reading, k, fcc);
      DischargeShows(p, reading, k, fcc);
      DischargeWithinNetIff(p, reading, k, fcc);
    }
  }

  // ----- Charging runs ------------------------------------------------------

  /** A run's rise accounts for the capacity travelled, and the display never falls. */
  ghost predicate TravelShown(s: Sm, readings: seq<int>, tick: Ticker, k: int, fcc: nat) {
    var r := Run(s, readings, tick);
    && Accounts(k, fcc, r.smooth - s.smooth, Travel(s, readings, tick), Applied(s, readings, tick))
    && r.smooth >= s.smooth && r.dsoc >= s.dsoc
  }

  lemma {:induction false} ChargeRun(s: Sm, readings: seq<int>, tick: Ticker, k: int, fcc: nat)
    requires s.smooth >= 0 && Charges(tick, k, fcc)
    ensures TravelShown(s, readings, tick, k, fcc)
    ensures Trails(s) ==> Trails(Run(s, readings, tick))
  {
    if readings != [] {
      var before := readings[..|readings| - 1];
      var p, r := Run(s, before, tick), Run(s, readings, tick);
      ChargeRun(s, before, tick, k, fcc);
      assert ChargeFacts(p, r, readings[|readings| - 1], k, fcc);
      AccountsAdd(k, fcc, p.smooth - s.smooth, r.smooth - p.smooth, Travel(s, before, tick), Abs(r.cap - p.cap),
                  Applied(s, before, tick), Counted(p, r));
    }
  }

  /**
    Charge is conserved over any run of charging ticks: ten times fcc times the
    rise never exceeds k times the capacity travelled, and falls short of it by
    at most one slack per applied tick. The display never falls.
   */
  lemma ChargeConserved(s: Sm, readings: seq<int>, k: int, fcc: nat)
    requires k > 0 && fcc > 0 && s.smooth >= 0
    ensures TravelShown(s, readings, At(k, fcc), k, fcc)
  {
    AtCharges(k, fcc);
    ChargeRun(s, readings, At(k, fcc), k, fcc);
  }

  /** The display follows: it trails the smoothed percentage by less than a percent, or waits for it. */
  lemma DisplayTrails(s: Sm, readings: seq<int>, k: int, fcc: nat)
    requires k > 0 && fcc > 0 && s.smooth >= 0 && Trails(s)
    ensures Trails(Run(s, readings, At(k, fcc)))
  {
    AtCharges(k, fcc);
    ChargeRun(s, readings, At(k, fcc), k, fcc);
  }

  /** Readings that never fall, starting at the accounted capacity. */
  ghost predicate Rising(from: int, readings: seq<int>) {
    (forall i :: 0 <= i < |readings| ==> from <= readings[i]) &&
    (forall i, j :: 0 <= i <= j < |readings| ==> readings[i] <= readings[j])
  }

  function Last(from: int, readings: seq<int>): int {
    if readings == [] then from else readings[|readings| - 1]
  }

  lemma NothingAccounts(k: int, fcc: nat)
    requires k > 0 && fcc > 0
    ensures Accounts(k, fcc, 0, 0, 0) && Accounts(k, fcc, 0, 0, 1)
  {
    DeltaBounds(k, 0, fcc);
  }

  lemma StepAccounts(s: Sm, p: Sm, r: Sm, reading: int, k: int, fcc: nat, n: nat, e: nat)
    requires Accounts(k, fcc, p.smooth - s.smooth, p.cap - s.cap, n)
    requires Accounts(k, fcc, r.smooth - p.smooth, r.cap - p.cap, e) && Accounts(k, fcc, 0, reading - r.cap, 1)
    ensures Accounts(k, fcc, r.smooth - s.smooth, r.cap - s.cap, n + e)
    ensures Accounts(k, fcc, r.smooth - s.smooth, reading - s.cap, n + e + 1)
  {
    AccountsAdd(k, fcc, p.smooth - s.smooth, r.smooth - p.smooth, p.cap - s.cap, r.cap - p.cap, n, e);
    AccountsCarry(k, fcc, r.smooth - s.smooth, r.cap - s.cap, reading - r.cap, reading - s.cap, n + e);
  }

  /** A run's rise accounts for the whole charge up to its last reading, one slack more for what is being carried. */
  ghost predicate ChargeShown(s: Sm, readings: seq<int>, tick: Ticker, k: int, fcc: nat) {
    Accounts(k, fcc, Run(s, readings, tick).smooth - s.smooth, Last(s.cap, readings) - s.cap,
             Applied(s, readings, tick) + 1)
  }

  lemma {:induction false} RisingRun(s: Sm, readings: seq<int>, tick: Ticker, k: int, fcc: nat)
    requires fcc > 0 && k > 0 && s.smooth >= 0 && Charges(tick, k, fcc) && Rising(s.cap, readings)
    ensures var r := Run(s, readings, tick);
            && r.cap <= Last(s.cap, readings) && r.smooth >= s.smooth
            && Accounts(k, fcc, r.smooth - s.smooth, r.cap - s.cap, Applied(s, readings, tick))
    ensures ChargeShown(s, readings, tick, k, fcc)
  {
    if readings == [] {
      NothingAccounts(k, fcc);
    } else {
      var before := readings[..|readings| - 1];
      var p, r := Run(s, before, tick), Run(s, readings, tick);
      RisingRun(s, before, tick, k, fcc);
      assert Applied(s, readings, tick) == Applied(s, before, tick) + Counted(p, r);
      assert ChargeFacts(p, r, readings[|readings| - 1], k, fcc);
      StepAccounts(s, p, r, readings[|readings| - 1], k, fcc, Applied(s, before, tick), Counted(p, r));
    }
  }

  /**
    The whole charge taken in shows up: with rising readings the rise equals
    k times the charge over 10·fcc, short by at most one slack per applied tick
    and one more for what is still being carried.
   */
  lemma NothingDropped(s: Sm, readings: seq<int>, k: int, fcc: nat)
    requires k > 0 && fcc > 0 && s.smooth >= 0 && Rising(s.cap, readings)
    ensures ChargeShown(s, readings, At(k, fcc), k, fcc)
  {
    AtCharges(k, fcc);
    RisingRun(s, readings, At(k, fcc), k, fcc);
  }

  lemma {:induction false} TravelIsNetAndFallen(s: Sm, readings: seq<int>, tick: Ticker)
    ensures Travel(s, readings, tick) == Run(s, readings, tick).cap - s.cap + 2 * Fallen(s, readings, tick)
  {
    if readings != [] {
      TravelIsNetAndFallen(s, readings[..|readings| - 1], tick);
    }
  }

  /** A run's rise accounts for the net gain and twice what was lost on the way. */
  ghost predicate NetAndFallenShown(s: Sm, readings: seq<int>, tick: Ticker, k: int, fcc: nat) {
    var r := Run(s, readings, tick);
    Accounts(k, fcc, r.smooth - s.smooth, r.cap - s.cap + 2 * Fallen(s, readings, tick), Applied(s, readings, tick))
  }

  lemma NetAndFallenRun(s: Sm, readings: seq<int>, tick: Ticker, k: int, fcc: nat)
    requires TravelShown(s, readings, tick, k, fcc)
    ensures NetAndFallenShown(s, readings, tick, k, fcc)
  {
    var r := Run(s, readings, tick);
    TravelIsNetAndFallen(s, readings, tick);
    AccountsSame(k, fcc, r.smooth - s.smooth, Travel(s, readings, tick),
                 r.cap - s.cap + 2 * Fallen(s, readings, tick), Applied(s, readings, tick));
  }

  /** The general law of a charging run: what is lost on the way is counted twice over, once down and once back. */
  lemma RiseIsNetAndTwiceFallen(s: Sm, readings: seq<int>, k: int, fcc: nat)
    requires k > 0 && fcc > 0 && s.smooth >= 0
    ensures NetAndFallenShown(s, readings, At(k, fcc), k, fcc)
  {
    AtCharges(k, fcc);
    ChargeRun(s, readings, At(k, fcc), k, fcc);
    NetAndFallenRun(s, readings, At(k, fcc), k, fcc);
  }

  lemma {:induction false} NetRun(s: Sm, readings: seq<int>, tick: Ticker, k: int, fcc: nat)
    requires s.smooth >= 0 && Charges(tick, k, fcc)
    ensures TicksWithinNet(s, readings, tick, 1, k, fcc) <==> NeverAgainst(s, readings, tick, 1, k, fcc)
    ensures NeverAgainst(s, readings, tick, 1, k, fcc) ==> StepWithinNet(s, Run(s, readings, tick), 1, k, fcc)
  {
    if readings != [] {
      var before := readings[..|readings| - 1];
      var p, r := Run(s, before, tick), Run(s, readings, tick);
      NetRun(s, before, tick, k, fcc);
      ChargeRun(s, before, tick, k, fcc);
      assert ChargeFacts(p, r, readings[|readings| - 1], k, fcc);
      if NeverAgainst(s, readings, tick, 1, k, fcc) {
        WithinNetAdd(k, fcc, p.smooth - s.smooth, r.smooth - p.smooth, p.cap - s.cap, r.cap - p.cap);
      }
    }
  }

  /** Charging: every tick stays within the net exactly when none counts a loss; and then the whole run does. */
  lemma ChargeNetIff(s: Sm, readings: seq<int>, k: int, fcc: nat)
    requires k > 0 && fcc > 0 && s.smooth >= 0
    ensures TicksWithinNet(s, readings, At(k, fcc), 1, k, fcc) <==> NeverAgainst(s, readings, At(k, fcc), 1, k, fcc)
    ensures NeverAgainst(s, readings, At(k, fcc), 1, k, fcc) ==>
              var r := Run(s, readings, At(k, fcc)); WithinNet(k, fcc, r.smooth - s.smooth, r.cap - s.cap)
  {
    AtCharges(k, fcc);
    NetRun(s, readings, At(k, fcc), k, fcc);
  }

  // ----- Discharging runs ---------------------------------------------------

  lemma {:induction false} DischargeRun(s: Sm, readings: seq<int>, tick: Ticker, k: int, fcc: nat)
    requires s.smooth >= 0 && s.dsoc >= 0 && Discharges(tick, k, fcc)
    ensures var r := Run(s, readings, tick);
            && 0 <= r.smooth <= s.smooth && 0 <= r.dsoc <= s.dsoc && s.dsoc - r.dsoc <= 1000 * |readings|
            && WithinNet(k, fcc, s.smooth - r.smooth, Travel(s, readings, tick))
  {
    if readings != [] {
      var before := readings[..|readings| - 1];
      var p, r := Run(s, before, tick), Run(s, readings, tick);
      DischargeRun(s, before, tick, k, fcc);
      assert DischargeFacts(p, r, readings[|readings| - 1], k, fcc);
      WithinNetAdd(k, fcc, s.smooth - p.smooth, p.smooth - r.smooth, Travel(s, before, tick), Abs(r.cap - p.cap));
    }
  }

  /** Over any run of discharging ticks: no rise, no jump, and no more lost than the capacity travelled. */
  lemma DischargeConserved(s: Sm, readings: seq<int>, k: int, fcc: nat)
    requires k > 0 && fcc > 0 && s.smooth >= 0 && s.dsoc >= 0
    ensures var r := Run(s, readings, At(-k, fcc));
            && 0 <= r.smooth <= s.smooth && 0 <= r.dsoc <= s.dsoc && s.dsoc - r.dsoc <= 1000 * |readings|
            && WithinNet(k, fcc, s.smooth - r.smooth, Travel(s, readings, At(-k, fcc)))
  {
    AtDischarges(k, fcc);
    DischargeRun(s, readings, At(-k, fcc), k, fcc);
  }

  /** Some state of the run has the display less than a percent behind. */
  ghost predicate EverCaughtUp(s: Sm, readings: seq<int>, tick: Ticker) {
    CaughtUp(Run(s, readings, tick)) ||
    (readings != [] && EverCaughtUp(s, readings[..|readings| - 1], tick))
  }

  lemma {:induction false} FollowRun(s: Sm, readings: seq<int>, tick: Ticker, k: int, fcc: nat)
    requires s.smooth >= 0 && s.dsoc >= 0 && Discharges(tick, k, fcc)
    ensures var r := Run(s, readings, tick);
            && r.dsoc >= Min(s.dsoc, r.smooth)
            && (EverCaughtUp(s, readings, tick) || r.dsoc == s.dsoc - 1000 * Applied(s, readings, tick))
  {
    if readings != [] {
      var before := readings[..|readings| - 1];
      var p, r := Run(s, before, tick), Run(s, readings, tick);
      FollowRun(s, before, tick, k, fcc);
      DischargeRun(s, before, tick, k, fcc);
      assert DischargeFacts(p, r, readings[|readings| - 1], k, fcc);
    }
  }

  /**
    Over any discharging run the display never falls below what it shows, and
    until it has caught up it falls by a whole percent with every tick that
    counts: so it catches up within as many of those as it shows percents.
   */
  lemma DisplayFollows(s: Sm, readings: seq<int>, k: int, fcc: nat)
    requires k > 0 && fcc > 0 && s.smooth >= 0 && s.dsoc >= 0
    ensures var r, n := Run(s, readings, At(-k, fcc)), Applied(s, readings, At(-k, fcc));
            && r.dsoc >= Min(s.dsoc, r.smooth)
            && (!EverCaughtUp(s, readings, At(-k, fcc)) ==> r.dsoc == s.dsoc - 1000 * n)
            && (1000 * n > s.dsoc ==> EverCaughtUp(s, readings, At(-k, fcc)))
  {
    AtDischarges(k, fcc);
    FollowRun(s, readings, At(-k, fcc), k, fcc);
    DischargeRun(s, readings, At(-k, fcc), k, fcc);
  }

  lemma {:induction false} NetDischargeRun(s: Sm, readings: seq<int>, tick: Ticker, k: int, fcc: nat)
    requires s.smooth >= 0 && s.dsoc >= 0 && Discharges(tick, k, fcc)
    ensures TicksWithinNet(s, readings, tick, -1, k, fcc) <==> NeverAgainst(s, readings, tick, -1, k, fcc)
    ensures NeverAgainst(s, readings, tick, -1, k, fcc) ==> StepWithinNet(s, Run(s, readings, tick), -1, k, fcc)
  {
    if readings != [] {
      var before := readings[..|readings| - 1];
      var p, r := Run(s, before, tick), Run(s, readings, tick);
      NetDischargeRun(s, before, tick, k, fcc);
      DischargeRun(s, before, tick, k, fcc);
      assert DischargeFacts(p, r, readings[|readings| - 1], k, fcc);
      if NeverAgainst(s, readings, tick, -1, k, fcc) {
        WithinNetAdd(k, fcc, s.smooth - p.smooth, p.smooth - r.smooth, s.cap - p.cap, p.cap - r.cap);
      }
    }
  }

  /** Discharging: the loss stays within the capacity used, tick by tick, exactly when no gain is counted. */
  lemma DischargeNetIff(s: Sm, readings: seq<int>, k: int, fcc: nat)
    requires k > 0 && fcc > 0 && s.smooth >= 0 && s.dsoc >= 0
    ensures TicksWithinNet(s, readings, At(-k, fcc), -1, k, fcc) <==> NeverAgainst(s, readings, At(-k, fcc), -1, k, fcc)
    ensures NeverAgainst(s, readings, At(-k, fcc), -1, k, fcc) ==>
              var r := Run(s, readings, At(-k, fcc)); WithinNet(k, fcc, s.smooth - r.smooth, s.cap - r.cap)
  {
    AtDischarges(k, fcc);
    NetDischargeRun(s, readings, At(-k, fcc), k, fcc);
  }
}
