// pwm/src/main.c: the fading loop, with its 32-bit arithmetic. `pulse_width` climbs by
// STEP = period / 20 and restarts when it passes the period; the closed form of the pulses,
// and the exact periods for which it holds, are proved for every uint32 period.
module PwmRamp {
  import opened Common

  type uint32 = x: int | 0 <= x < U32

  /** The STEP macro. */
  function StepOf(period: uint32): (s: uint32)
    ensures 20 * s <= period < 20 * s + 20
  {
    period / 20
  }

  /** Lines 37-42: the pulse width of the next turn. */
  function Next(period: uint32, pulse: uint32): uint32 {
    var p := (pulse + StepOf(period)) % U32;
    if p > period then 0 else p
  }

  /** The pulse width set on turn n, from 0. */
  function Pulse(period: uint32, n: nat): uint32 {
    if n == 0 then 0 else Next(period, Pulse(period, n - 1))
  }

  /** Brightness levels: 0, STEP, 2 * STEP, ... up to the period. */
  function Levels(period: uint32): nat
    requires period >= 20
  {
    period / StepOf(period) + 1
  }

  lemma LevelBounds(period: uint32)
    requires period >= 20
    ensures var s := StepOf(period);
            (Levels(period) - 1) * s <= period < Levels(period) * s
  {
  }

  lemma MulLess(a: nat, b: nat, s: nat)
    requires a < b
    ensures a * s + s <= b * s
  {
    MulAtMost(a + 1, b, s);
    assert (a + 1) * s == a * s + s;
  }

  lemma MulAtMost(a: nat, b: nat, s: nat)
    requires a <= b
    ensures a * s <= b * s
  {
  }

  /** One turn, without the modulus: climb, restart, or wrap past 2^32. */
  lemma NextCases(period: uint32, pulse: uint32)
    requires pulse <= period
    ensures var sum := pulse + StepOf(period);
            Next(period, pulse) == if sum <= period then sum else if sum < U32 then 0 else sum - U32
  {
  }

  lemma PulseSucc(period: uint32, n: nat)
    ensures Pulse(period, n + 1) == Next(period, Pulse(period, n))
  {
  }

  lemma MulSucc(n: nat, s: nat)
    ensures (n + 1) * s == n * s + s
  {
  }

  /** The climb: nothing wraps and nothing passes the period below level Levels - 1. */
  lemma {:induction false} Climb(period: uint32, n: nat)
    requires period >= 20 && n < Levels(period)
    ensures n * StepOf(period) <= period
    ensures Pulse(period, n) == n * StepOf(period)
  {
    LevelBounds(period);
    MulAtMost(n, Levels(period) - 1, StepOf(period));
    if n > 0 {
      Climb(period, n - 1);
      MulSucc(n - 1, StepOf(period));
      PulseSucc(period, n - 1);
      NextCases(period, Pulse(period, n - 1));
    }
  }

  /** The turn after the last level: back to zero exactly when the overshoot does not wrap past
      2^32, or wraps to zero itself. */
  lemma TopTurn(period: uint32)
    requires period >= 20
    ensures Pulse(period, Levels(period)) == 0 <==> Levels(period) * StepOf(period) <= U32
  {
    var last := Levels(period) - 1;
    LevelBounds(period);
    Climb(period, last);
    MulSucc(last, StepOf(period));
    PulseSucc(period, last);
    NextCases(period, Pulse(period, last));
  }

  lemma {:induction false} Periodic(period: uint32, n: nat)
    requires period >= 20 && Levels(period) * StepOf(period) <= U32
    ensures Pulse(period, n) == n % Levels(period) * StepOf(period)
  {
    var top := Levels(period);
    if n < top {
      Climb(period, n);
      ModUnique(n, top, 0, n);
    } else {
      var m := n - top;
      assert Pulse(period, n) == Pulse(period, m) by {
        TopTurn(period);
        Shift(period, top, m);
      }
      Periodic(period, m);
      ModMinus(n, top);
    }
  }

  lemma ModMinus(n: nat, m: nat)
    requires 0 < m <= n
    ensures n % m == (n - m) % m
  {
    var q, r := (n - m) / m, (n - m) % m;
    assert n == (q + 1) * m + r by { assert (q + 1) * m == q * m + m; }
    ModUnique(n, m, q + 1, r);
  }

  lemma ModUnique(n: nat, m: nat, q: nat, r: nat)
    requires m > 0 && r < m && n == q * m + r
    ensures n % m == r
  {
    var d := n / m - q;
    assert n == n / m * m + n % m;
    assert d * m == n / m * m - q * m;
    if d >= 1 {
      MulAtMost(1, d, m);
    } else if d <= -1 {
      MulAtMost(1, -d, m);
    }
  }

  /** After a turn back at zero, the pulses repeat. */
  lemma {:induction false} Shift(period: uint32, m: nat, n: nat)
    requires Pulse(period, m) == 0
    ensures Pulse(period, m + n) == Pulse(period, n)
  {
    if n > 0 {
      Shift(period, m, n - 1);
    }
  }

  /** Sawtooth: the n-th pulse is (n mod levels) * step, on every turn. */
  ghost predicate Sawtooth(period: uint32, levels: nat, step: nat)
    requires levels > 0
  {
    forall n: nat :: Pulse(period, n) == n % levels * step
  }

  ghost predicate RampHolds(period: uint32)
    requires period >= 20
  {
    Sawtooth(period, Levels(period), StepOf(period))
  }

  /** Between 21 and 40 levels; 21 exactly when the remainder of the division by 20 is smaller
      than the step, as it always is from 400 on. */
  lemma LevelCount(period: uint32)
    requires period >= 20
    ensures 21 <= Levels(period) <= 40
    ensures Levels(period) == 21 <==> period % 20 < StepOf(period)
    ensures period >= 400 ==> Levels(period) == 21
  {
    var s, r := StepOf(period), period % 20;
    assert period == 20 * s + r;
    var q := period / s;
    assert q * s <= period < q * s + s by { LevelBounds(period); assert (q + 1) * s == q * s + s; }
    if q < 20 { MulLess(q, 20, s); }
    if q > 20 { MulLess(20, q, s); }
    if q > 39 { MulAtMost(40, q, s); }
  }

  /** The first period whose step past the last level, 21 * STEP, exceeds 2^32. */
  const FIRST_BAD: uint32 := 4_090_445_060

  lemma FitsExactly(period: uint32)
    requires period >= 20
    ensures Levels(period) * StepOf(period) <= U32 <==> period < FIRST_BAD
  {
    LevelCount(period);
    if period < 400 {
      LevelBounds(period);
      assert Levels(period) * StepOf(period) == (Levels(period) - 1) * StepOf(period) + StepOf(period);
    }
  }

  lemma NeverAbovePeriod(period: uint32, n: nat)
    ensures Pulse(period, n) <= period
  {
  }

  lemma {:induction false} StuckBelow20(period: uint32, n: nat)
    requires period < 20
    ensures Pulse(period, n) == 0
  {
    if n > 0 {
      StuckBelow20(period, n - 1);
    }
  }

  lemma ClosedFormExactly(period: uint32)
    requires period >= 20
    ensures RampHolds(period) <==> Levels(period) * StepOf(period) <= U32
  {
    if Levels(period) * StepOf(period) <= U32 {
      forall n: nat ensures Pulse(period, n) == n % Levels(period) * StepOf(period) {
        Periodic(period, n);
      }
    } else {
      var top := Levels(period);
      TopTurn(period);
      assert top % top == 0 by { ModUnique(top, top, 1, 0); }
      assert Pulse(period, top) != top % top * StepOf(period);
    }
  }

  /** The closed form holds on every turn if and only if one step past the last level still fits
      32 bits (or is exactly 2^32), which is to say for the periods below 4,090,445,060. Below 20
      the step is zero and so is every pulse; no pulse of any period exceeds the period. */
  lemma RampExactly(period: uint32)
    ensures period >= 20 ==> (RampHolds(period) <==> Levels(period) * StepOf(period) <= U32)
    ensures period >= 20 ==>
              (Sawtooth(period, period / (period / 20) + 1, period / 20) <==> period < 4_090_445_060)
    ensures period < 20 ==> forall n: nat :: Pulse(period, n) == 0
    ensures forall n: nat :: Pulse(period, n) <= period
  {
    forall n: nat ensures Pulse(period, n) <= period {
      NeverAbovePeriod(period, n);
    }
    if period >= 20 {
      ClosedFormExactly(period);
      FitsExactly(period);
    } else {
      forall n: nat ensures Pulse(period, n) == 0 {
        StuckBelow20(period, n);
      }
    }
  }

  /** In particular whenever one step above the period fits 32 bits. */
  lemma RampForUsualPeriods(period: uint32)
    requires period >= 20 && period + StepOf(period) < U32
    ensures RampHolds(period)
  {
    LevelBounds(period);
    var s, top := StepOf(period), Levels(period);
    assert top * s == (top - 1) * s + s;
    RampExactly(period);
  }

  /** How a failing period fails: the turn after its 21 levels wraps past 2^32, to a pulse that
      is not zero. The largest period is one. */
  lemma RampWraps(period: uint32)
    requires period >= FIRST_BAD
    ensures Levels(period) == 21 && 0 < 21 * StepOf(period) - U32
    ensures Pulse(period, 21) == 21 * StepOf(period) - U32
  {
    hide Pulse, Next, Levels, StepOf;
    LevelCount(period);
    FitsExactly(period);
    Climb(period, 20);
    PulseSucc(period, 20);
    LevelBounds(period);
    NextCases(period, Pulse(period, 20));
  }

  lemma RampFailsAtTheTop()
    ensures !RampHolds(U32 - 1) && Pulse(U32 - 1, 21) == 214_748_348
  {
    RampExactly(U32 - 1);
    RampWraps(U32 - 1);
  }

  // ----- every pulse of every period -----

  /** Levels of a sweep that starts at pulse `offset`. */
  function LevelsFrom(period: uint32, offset: uint32): nat
    requires period >= 20 && offset < StepOf(period)
  {
    (period - offset) / StepOf(period) + 1
  }

  lemma SweepBounds(period: uint32, offset: uint32)
    requires period >= 20 && offset < StepOf(period)
    ensures var s, top := StepOf(period), LevelsFrom(period, offset);
            offset + (top - 1) * s <= period < offset + top * s
  {
    var s, d := StepOf(period), period - offset;
    assert d == d / s * s + d % s;
    assert (d / s + 1) * s == d / s * s + s;
  }

  lemma {:induction false} SweepClimb(period: uint32, n: nat, j: nat)
    requires period >= 20 && Pulse(period, n) < StepOf(period)
    requires j < LevelsFrom(period, Pulse(period, n))
    ensures Pulse(period, n) + j * StepOf(period) <= period
    ensures Pulse(period, n + j) == Pulse(period, n) + j * StepOf(period)
    decreases j
  {
    hide Pulse, Next, StepOf, LevelsFrom;
    var offset, s := Pulse(period, n), StepOf(period);
    SweepBounds(period, offset);
    MulAtMost(j, LevelsFrom(period, offset) - 1, s);
    if j > 0 {
      SweepClimb(period, n, j - 1);
      MulSucc(j - 1, s);
      PulseSucc(period, n + j - 1);
      NextCases(period, Pulse(period, n + j - 1));
    }
  }

  /** The pulses are sweeps, for every period, failing ones too: from a turn whose pulse is below
      STEP, as turn 0 is, they climb by STEP to the period, and the next turn starts another
      sweep, at zero, or at the excess over 2^32 when the sum one step above the last level is
      that large. */
  lemma SweepLaw(period: uint32, n: nat)
    requires period >= 20 && Pulse(period, n) < StepOf(period)
    ensures var offset, s := Pulse(period, n), StepOf(period);
            var top := LevelsFrom(period, offset);
            && (forall j: nat :: j < top ==> Pulse(period, n + j) == offset + j * s)
            && Pulse(period, n + top) == (if offset + top * s < U32 then 0 else offset + top * s - U32)
            && Pulse(period, n + top) < s
  {
    hide Pulse, Next, StepOf, LevelsFrom;
    var offset, s := Pulse(period, n), StepOf(period);
    var top := LevelsFrom(period, offset);
    forall j: nat | j < top ensures Pulse(period, n + j) == offset + j * s {
      SweepClimb(period, n, j);
    }
    LevelsPositive(period, offset);
    SweepBounds(period, offset);
    SweepClimb(period, n, top - 1);
    MulSucc(top - 1, s);
    PulseSucc(period, n + top - 1);
    NextCases(period, Pulse(period, n + top - 1));
  }

  lemma LevelsPositive(period: uint32, offset: uint32)
    requires period >= 20 && offset < StepOf(period)
    ensures LevelsFrom(period, offset) > 0 && StepOf(period) > 0
  {
  }

  /** Lines 37-42. */
  method Advance(period: uint32, pulseWidth: uint32) returns (next: uint32)
    ensures next == Next(period, pulseWidth)
  {
    next := (pulseWidth + StepOf(period)) % U32;
    if next > period {
      next := 0;
    }
  }

  const ENODEV := 19

  /** `main`; `results[k]` is what the k-th pwm_set_pulse_dt returns. Once the controller is
      ready it sets the pulses of the closed form in turn and stops at the first error. */
  method Ramp(ready: bool, period: uint32, results: seq<int>) returns (pulses: seq<uint32>, ret: int)
    ensures !ready ==> pulses == [] && ret == -19
    ensures |pulses| <= |results|
    ensures forall k {:trigger pulses[k]} :: 0 <= k < |pulses| ==> pulses[k] == Pulse(period, k)
    ensures forall k :: 0 <= k < |pulses| - 1 ==> results[k] >= 0
    ensures ready && ret < 0 ==> pulses != [] && ret == results[|pulses| - 1]
    ensures ready && ret >= 0 ==> |pulses| == |results| && (results != [] ==> results[|results| - 1] >= 0)
  {
    var pulseWidth: uint32 := 0;
    pulses, ret := [], 0;
    if !ready {
      return [], -ENODEV;
    }
    var turn := 0;
    while turn < |results|
      invariant 0 <= turn <= |results| && |pulses| == turn && ret >= 0
      invariant pulseWidth == Pulse(period, turn)
      invariant forall k {:trigger pulses[k]} :: 0 <= k < turn ==> pulses[k] == Pulse(period, k)
      invariant forall k :: 0 <= k < turn ==> results[k] >= 0
    {
      pulses := pulses + [pulseWidth];
      ret := results[turn];
      if ret < 0 {
        return;
      }
      PulseSucc(period, turn);
      pulseWidth := Advance(period, pulseWidth);
      turn := turn + 1;
    }
  }
}
